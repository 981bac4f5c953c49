/** The frame handler of the context engine as it runs: the object loop, the prune pass and the intrusion
    evaluator update one camera's dictionaries in place and keep the refinement of `ContextTracks`. */
module ContextEngine {
  import opened Common
  import opened ContextTracks

  /** A perceived object; a negative track id means untracked. */
  datatype Perceived = Perceived(tid: int, cls: string, hits: set<ZoneId>)

  /** The events of a frame: its tracked objects in order, then the prune pass. */
  function Sightings(now: real, objects: seq<Perceived>): seq<Event> {
    if objects == [] then [] else
      var o := objects[|objects| - 1];
      Sightings(now, objects[..|objects| - 1]) + if o.tid < 0 then [] else [See(now, Tid(o.tid), o.cls, o.hits)]
  }

  /** How many of the first n objects are tracked. */
  function Tracked(objects: seq<Perceived>, n: nat): nat
    requires n <= |objects|
  {
    if n == 0 then 0 else Tracked(objects, n - 1) + if objects[n - 1].tid >= 0 then 1 else 0
  }

  /** A frame's sightings are its tracked objects, one each and in order. */
  lemma {:induction false} SightingsAreTracked(now: real, objects: seq<Perceived>)
    ensures |Sightings(now, objects)| == Tracked(objects, |objects|)
    ensures forall i :: 0 <= i < |objects| && objects[i].tid >= 0 ==>
              && Tracked(objects, i) < |Sightings(now, objects)|
              && Sightings(now, objects)[Tracked(objects, i)]
                 == See(now, Tid(objects[i].tid), objects[i].cls, objects[i].hits)
  {
    if objects != [] {
      var n := |objects| - 1;
      SightingsAreTracked(now, objects[..n]);
      forall i | 0 <= i <= n ensures Tracked(objects, i) == Tracked(objects[..n], i) {
        TrackedPrefix(objects, n, i);
      }
    }
  }

  lemma {:induction false} TrackedPrefix(objects: seq<Perceived>, n: nat, i: nat)
    requires i <= n <= |objects|
    ensures Tracked(objects[..n], i) == Tracked(objects, i)
  {
    if i > 0 {
      TrackedPrefix(objects, n, i - 1);
    }
  }

  function FrameEvents(now: real, objects: seq<Perceived>): seq<Event> {
    Sightings(now, objects) + [Prune(now)]
  }

  lemma {:induction false} StateAtPrefix(stale: real, log: seq<Event>, e: Event, n: nat)
    requires n <= |log|
    ensures StateAt(stale, log + [e], n) == StateAt(stale, log, n)
  {
    hide Apply;
    if n > 0 {
      StateAtPrefix(stale, log, e, n - 1);
    }
  }

  lemma StateAtSnoc(stale: real, log: seq<Event>, e: Event)
    ensures StateAt(stale, log + [e], |log| + 1) == Apply(stale, StateAt(stale, log, |log|), e)
  {
    StateAtPrefix(stale, log, e, |log|);
  }

  function ZoneIn(zones: map<ZoneId, ZoneState>, z: ZoneId): ZoneState {
    if z in zones then zones[z] else NEW_ZONE
  }

  function EnteredAt(zoneEnter: map<ZoneId, real>, z: ZoneId): Option<real> {
    if z in zoneEnter then Some(zoneEnter[z]) else None
  }

  /** A track's zones all have state, and its entry times are exactly of its zones. */
  lemma ZonesOfTrackKnown(stale: real, log: seq<Event>, e: Event)
    requires e.See?
    ensures var cam := StateAt(stale, log, |log|);
            var t := TrackBefore(cam, e);
            t.zoneEnter.Keys == t.zones <= cam.zones.Keys
  {
    HistoryRefinement(stale, log, |log|);
    var cam := StateAt(stale, log, |log|);
    var t := TrackBefore(cam, e);
    if e.tid in cam.tracks {
      assert TrackMatches(stale, log, |log|, e.tid, t);
      assert log[Last(log, |log|, e.tid)].See?;
    }
  }

  /** What the two zone loops leave behind, from the state before the sighting. */
  ghost predicate ZonesVisited(cam: Cam, e: Event, entered: map<ZoneId, real>, midZones: map<ZoneId, ZoneState>,
                               zones: map<ZoneId, ZoneState>)
    requires e.See?
  {
    var t := TrackBefore(cam, e);
    && entered.Keys == t.zoneEnter.Keys + (e.hits - t.zones)
    && (forall z :: z in entered ==> entered[z] == if z in e.hits - t.zones then e.now else t.zoneEnter[z])
    && midZones.Keys == cam.zones.Keys + (e.hits - t.zones)
    && (forall z :: z in midZones ==>
          midZones[z] == if z in e.hits - t.zones then EnterZone(ZoneIn(cam.zones, z), e) else cam.zones[z])
    && zones.Keys == midZones.Keys
    && (forall z :: z in zones ==>
          zones[z] == if z in t.zones - e.hits then LeaveZone(midZones[z], e, EnteredAt(entered, z)) else midZones[z])
  }

  lemma ZonesDone(cam: Cam, e: Event, entered: map<ZoneId, real>, midZones: map<ZoneId, ZoneState>,
                  zones: map<ZoneId, ZoneState>, z: ZoneId)
    requires e.See? && ZonesVisited(cam, e, entered, midZones, zones) && z in zones
    requires TrackBefore(cam, e).zoneEnter.Keys == TrackBefore(cam, e).zones <= cam.zones.Keys
    ensures zones[z] == ZoneAfterSee(cam, e, z)
  {
  }

  lemma TrackDone(cam: Cam, e: Event, entered: map<ZoneId, real>, midZones: map<ZoneId, ZoneState>,
                  zones: map<ZoneId, ZoneState>)
    requires e.See? && ZonesVisited(cam, e, entered, midZones, zones)
    requires TrackBefore(cam, e).zoneEnter.Keys == TrackBefore(cam, e).zones <= cam.zones.Keys
    ensures var t := TrackBefore(cam, e);
            && Track(e.cls, t.firstSeen, e.now, e.hits, entered - (t.zones - e.hits)) == TrackAfter(t, e)
            && zones.Keys == cam.zones.Keys + (e.hits - t.zones)
  {
    hide TrackBefore;
  }

  /** The two zone loops together make the sighting's step. */
  lemma SightingDone(stale: real, cam: Cam, e: Event, entered: map<ZoneId, real>, midZones: map<ZoneId, ZoneState>,
                     zones: map<ZoneId, ZoneState>)
    requires e.See? && ZonesVisited(cam, e, entered, midZones, zones)
    requires TrackBefore(cam, e).zoneEnter.Keys == TrackBefore(cam, e).zones <= cam.zones.Keys
    ensures var t := TrackBefore(cam, e);
            var after := Track(e.cls, t.firstSeen, e.now, e.hits, entered - (t.zones - e.hits));
            Apply(stale, cam, e) == Cam(cam.tracks[e.tid := after], zones)
  {
    hide ZonesVisited, ZoneAfterSee, TrackAfter, TrackBefore;
    TrackDone(cam, e, entered, midZones, zones);
    forall z | z in zones ensures zones[z] == ZoneAfterSee(cam, e, z) {
      ZonesDone(cam, e, entered, midZones, zones, z);
    }
  }

  class CameraState {
    const cfg: Settings
    var tracks: map<TrackId, Track>
    var zones: map<ZoneId, ZoneState>
    ghost var log: seq<Event>

    ghost function View(): Cam
      reads this
    {
      Cam(tracks, zones)
    }

    ghost predicate Valid()
      reads this
    {
      View() == StateAt(cfg.stale, log, |log|)
    }

    constructor (cfg: Settings)
      ensures Valid() && log == [] && this.cfg == cfg
    {
      this.cfg := cfg;
      tracks, zones, log := map[], map[], [];
    }

    /** Records an event whose effect on the dictionaries has been made. */
    ghost method Record(e: Event)
      requires View() == Apply(cfg.stale, StateAt(cfg.stale, log, |log|), e)
      modifies this`log
      ensures Valid() && log == old(log) + [e]
    {
      hide Apply;
      StateAtSnoc(cfg.stale, log, e);
      log := log + [e];
    }

    /** The zones a sighting enters: `zone_enter`, occupants and entries. */
    method EnterZones(t: Track, e: Event) returns (zoneEnter: map<ZoneId, real>)
      requires e.See?
      modifies this`zones
      ensures zoneEnter.Keys == t.zoneEnter.Keys + (e.hits - t.zones)
      ensures forall z :: z in zoneEnter ==> zoneEnter[z] == if z in e.hits - t.zones then e.now else t.zoneEnter[z]
      ensures zones.Keys == old(zones).Keys + (e.hits - t.zones)
      ensures forall z :: z in zones ==>
                zones[z] == if z in e.hits - t.zones then EnterZone(ZoneIn(old(zones), z), e) else old(zones)[z]
    {
      ghost var before := zones;
      zoneEnter := t.zoneEnter;
      var entering := e.hits - t.zones;
      var todo := entering;
      while todo != {}
        invariant zoneEnter.Keys == t.zoneEnter.Keys + (entering - todo)
        invariant forall z :: z in zoneEnter ==> zoneEnter[z] == if z in entering - todo then e.now else t.zoneEnter[z]
        invariant zones.Keys == before.Keys + (entering - todo)
        invariant forall z :: z in zones ==>
                    zones[z] == if z in entering - todo then EnterZone(ZoneIn(before, z), e) else before[z]
        decreases todo
      {
        var z :| z in todo;
        zoneEnter := zoneEnter[z := e.now];
        var zs := ZoneIn(zones, z);
        zs := zs.(occupants := zs.occupants + {e.tid});
        zs := zs.(entries := LastN(zs.entries + [Entry(e.now, e.tid, e.cls)], ENTRIES_KEPT));
        zones := zones[z := zs];
        todo := todo - {z};
      }
    }

    /** The zones a sighting leaves: occupants, dwell totals and `zone_enter`. */
    method LeaveZones(t: Track, e: Event, zoneEnter0: map<ZoneId, real>) returns (zoneEnter: map<ZoneId, real>)
      requires e.See?
      modifies this`zones
      ensures zoneEnter == zoneEnter0 - (t.zones - e.hits)
      ensures zones.Keys == old(zones).Keys
      ensures forall z :: z in zones ==>
                zones[z] == if z in t.zones - e.hits then LeaveZone(old(zones)[z], e, EnteredAt(zoneEnter0, z))
                    else old(zones)[z]
    {
      ghost var before := zones;
      zoneEnter := zoneEnter0;
      var leaving := t.zones - e.hits;
      var todo := leaving;
      while todo != {}
        invariant zoneEnter == zoneEnter0 - (leaving - todo)
        invariant zones.Keys == before.Keys
        invariant forall z :: z in zones ==>
                    zones[z] == if z in leaving - todo then LeaveZone(before[z], e, EnteredAt(zoneEnter0, z))
                        else before[z]
        decreases todo
      {
        var z :| z in todo;
        if z in zones {
          var zs := zones[z];
          zs := zs.(occupants := zs.occupants - {e.tid});
          if z in zoneEnter {
            zs := zs.(dwellSum := zs.dwellSum + (e.now - zoneEnter[z]), dwellCount := zs.dwellCount + 1);
          }
          zones := zones[z := zs];
        }
        zoneEnter := zoneEnter - {z};
        todo := todo - {z};
      }
    }

    /** The body of the object loop for one tracked object. */
    method SeeObject(now: real, o: Perceived)
      requires Valid()
      modifies this
      ensures Valid() && log == old(log) + [See(now, Tid(o.tid), o.cls, o.hits)]
    {
      ghost var cam := View();
      var e := See(now, Tid(o.tid), o.cls, o.hits);
      var t := if e.tid in tracks then tracks[e.tid] else Track(o.cls, now, now, {}, map[]);
      ZonesOfTrackKnown(cfg.stale, log, e);
      var zoneEnter := EnterZones(t, e);
      ghost var entered, midZones := zoneEnter, zones;
      zoneEnter := LeaveZones(t, e, zoneEnter);
      tracks := tracks[e.tid := Track(o.cls, t.firstSeen, now, o.hits, zoneEnter)];
      SightingDone(cfg.stale, cam, e, entered, midZones, zones);
      Record(e);
    }

    /** `_prune`: drops the tracks unseen past the stale window and returns them. */
    method PruneTracks(now: real) returns (pruned: set<TrackId>)
      requires Valid()
      modifies this
      ensures Valid() && log == old(log) + [Prune(now)]
      ensures pruned == old(tracks).Keys - tracks.Keys
      ensures forall tid :: tid in pruned <==> tid in old(tracks) && now - old(tracks)[tid].lastSeen > cfg.stale
    {
      ghost var cam := View();
      pruned := {};
      var todo := tracks.Keys;
      while todo != {}
        invariant log == old(log)
        invariant tracks.Keys == cam.tracks.Keys - pruned && todo <= tracks.Keys
        invariant forall tid :: tid in tracks ==> tracks[tid] == cam.tracks[tid]
        invariant forall tid :: tid in pruned
                    <==> tid in cam.tracks && tid !in todo && Stale(cam.tracks[tid], now, cfg.stale)
        invariant zones.Keys == cam.zones.Keys
        invariant forall z :: z in zones ==>
                    zones[z] == cam.zones[z].(occupants :=
                      cam.zones[z].occupants - set tid | tid in pruned && z in cam.tracks[tid].zones)
        decreases todo
      {
        var tid :| tid in todo;
        if now - tracks[tid].lastSeen > cfg.stale {
          var st := tracks[tid];
          tracks := tracks - {tid};
          DiscardOccupant(tid, st.zones);
          pruned := pruned + {tid};
        }
        todo := todo - {tid};
      }
      assert tracks == Apply(cfg.stale, cam, Prune(now)).tracks;
      assert zones == Apply(cfg.stale, cam, Prune(now)).zones by {
        forall z | z in zones
          ensures (set tid | tid in pruned && z in cam.tracks[tid].zones)
               == set tid | tid in cam.tracks && Stale(cam.tracks[tid], now, cfg.stale) && z in cam.tracks[tid].zones {}
      }
      Record(Prune(now));
    }

    method DiscardOccupant(tid: TrackId, from: set<ZoneId>)
      modifies this`zones
      ensures zones.Keys == old(zones).Keys
      ensures forall z :: z in zones ==>
                zones[z] == old(zones)[z].(occupants := old(zones)[z].occupants - if z in from then {tid} else {})
    {
      ghost var before := zones;
      var todo := from;
      while todo != {}
        invariant zones.Keys == before.Keys
        invariant forall z :: z in zones ==>
                    zones[z] == before[z].(occupants := before[z].occupants - if z in from - todo then {tid} else {})
        decreases todo
      {
        var z :| z in todo;
        if z in zones {
          zones := zones[z := zones[z].(occupants := zones[z].occupants - {tid})];
        }
        todo := todo - {z};
      }
    }

    /** One perception message. The state afterwards is the one the whole history prescribes. */
    method HandleFrame(now: real, objects: seq<Perceived>) returns (pruned: set<TrackId>)
      requires Valid()
      modifies this
      ensures Valid() && log == old(log) + FrameEvents(now, objects)
      ensures TracksRefine(cfg.stale, log, |log|, View()) && ZonesRefine(cfg.stale, log, |log|, View())
      ensures var seen := log[..|log| - 1];
              forall tid :: tid in pruned
                  <==> Live(cfg.stale, seen, |seen|, tid) && now - seen[Last(seen, |seen|, tid)].now > cfg.stale
    {
      for i := 0 to |objects|
        invariant Valid() && log == old(log) + Sightings(now, objects[..i])
      {
        assert objects[..i + 1][..i] == objects[..i];
        if objects[i].tid >= 0 {
          SeeObject(now, objects[i]);
        }
      }
      assert objects[..|objects|] == objects;
      ghost var seen := log;
      HistoryRefinement(cfg.stale, seen, |seen|);
      pruned := PruneTracks(now);
      assert log[..|log| - 1] == seen;
      HistoryRefinement(cfg.stale, log, |log|);
    }

    /** `_eval_intrusion`: exactly the intrusions the history calls for, each once. */
    method EvalIntrusion(meta: map<ZoneId, ZoneMeta>, now: real) returns (out: seq<Candidate>)
      requires Valid()
      ensures forall c :: c in out <==> IntrusionDue(cfg, meta, log, now, c.tid, c.zone) == Some(c)
      ensures forall i, j :: 0 <= i < j < |out| ==> out[i] != out[j]
    {
      out := [];
      var todo := tracks.Keys;
      while todo != {}
        invariant forall c :: c in out
                    <==> c.tid !in todo && IntrusionOf(cfg, meta, View(), now, c.tid, c.zone) == Some(c)
        invariant forall i, j :: 0 <= i < j < |out| ==> out[i] != out[j]
        decreases todo
      {
        var tid :| tid in todo;
        var found := EvalTrack(meta, now, tid);
        out := out + found;
        todo := todo - {tid};
      }
      HistoryRefinement(cfg.stale, log, |log|);
      forall c: Candidate
        ensures IntrusionOf(cfg, meta, View(), now, c.tid, c.zone) == IntrusionDue(cfg, meta, log, now, c.tid, c.zone)
      {
        IntrusionIsExact(cfg, meta, log, View(), now, c.tid, c.zone);
      }
    }

    /** The evaluator's inner loop for one track. */
    method EvalTrack(meta: map<ZoneId, ZoneMeta>, now: real, tid: TrackId) returns (out: seq<Candidate>)
      requires tid in tracks
      ensures forall c :: c in out <==> c.tid == tid && IntrusionOf(cfg, meta, View(), now, tid, c.zone) == Some(c)
      ensures forall i, j :: 0 <= i < j < |out| ==> out[i] != out[j]
    {
      out := [];
      var st := tracks[tid];
      if now - st.firstSeen < cfg.minAge {
        return;
      }
      var todo := st.zones;
      while todo != {}
        invariant forall c :: c in out
                    <==> c.tid == tid && c.zone !in todo && IntrusionOf(cfg, meta, View(), now, tid, c.zone) == Some(c)
        invariant forall i, j :: 0 <= i < j < |out| ==> out[i] != out[j]
        decreases todo
      {
        var z :| z in todo;
        todo := todo - {z};
        if z in meta && z in st.zoneEnter {
          var name := None;
          if meta[z].zoneType == "perimeter" {
            name := Some("Perimeter Breach");
          } else if meta[z].zoneType == "restricted" || meta[z].zoneType == "exclusion" {
            name := Some(if st.cls in cfg.vehicles then "Vehicle in Restricted Zone" else "Unauthorized Entry");
          }
          var confirm := if meta[z].confirm.Some? then meta[z].confirm.value else cfg.confirm;
          var held := now - st.zoneEnter[z];
          if name.Some? && held >= confirm {
            out := out + [Candidate(name.value, tid, z, held)];
          }
        }
      }
    }
  }
}
