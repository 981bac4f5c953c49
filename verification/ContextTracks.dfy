/** Track and zone windows of the context engine (services/context/sentigon_context/engine.py): the
    object loop of `handle`, `_prune` and `_eval_intrusion`.

    The incremental state is compared with definitions that look back over the whole history of
    sightings and prune passes. A frame is its sightings in order followed by one prune pass. */
module ContextTracks {
  import opened Common

  datatype TrackId = Tid(id: int)
  type ZoneId = string

  datatype Event =
    | See(now: real, tid: TrackId, cls: string, hits: set<ZoneId>)
    | Prune(now: real)

  datatype Track = Track(cls: string, firstSeen: real, lastSeen: real, zones: set<ZoneId>, zoneEnter: map<ZoneId, real>)

  datatype Entry = Entry(ts: real, tid: TrackId, cls: string)

  /** `entries` is a deque of the last ENTRIES_KEPT entries. */
  datatype ZoneState = ZoneState(occupants: set<TrackId>, entries: seq<Entry>, dwellSum: real, dwellCount: nat)

  const ENTRIES_KEPT := 64

  const NEW_ZONE := ZoneState({}, [], 0.0, 0)

  datatype Cam = Cam(tracks: map<TrackId, Track>, zones: map<ZoneId, ZoneState>)

  // ----- One step of the incremental state -----

  function TrackBefore(cam: Cam, e: Event): Track
    requires e.See?
  {
    if e.tid in cam.tracks then cam.tracks[e.tid] else Track(e.cls, e.now, e.now, {}, map[])
  }

  function TrackAfter(t: Track, e: Event): Track
    requires e.See?
  {
    Track(e.cls, t.firstSeen, e.now, e.hits,
          (t.zoneEnter + map z | z in e.hits - t.zones :: e.now) - (t.zones - e.hits))
  }

  function EnterZone(zs: ZoneState, e: Event): ZoneState
    requires e.See?
  {
    zs.(occupants := zs.occupants + {e.tid}, entries := LastN(zs.entries + [Entry(e.now, e.tid, e.cls)], ENTRIES_KEPT))
  }

  function LeaveZone(zs: ZoneState, e: Event, entered: Option<real>): ZoneState
    requires e.See?
  {
    var left := zs.(occupants := zs.occupants - {e.tid});
    if entered.Some? then left.(dwellSum := zs.dwellSum + (e.now - entered.value), dwellCount := zs.dwellCount + 1)
        else left
  }

  function ZoneOf(cam: Cam, z: ZoneId): ZoneState {
    if z in cam.zones then cam.zones[z] else NEW_ZONE
  }

  function ZoneAfterSee(cam: Cam, e: Event, z: ZoneId): ZoneState
    requires e.See?
  {
    var t := TrackBefore(cam, e);
    if z in e.hits && z !in t.zones then EnterZone(ZoneOf(cam, z), e)
    else if z in t.zones && z !in e.hits then
      LeaveZone(ZoneOf(cam, z), e, if z in t.zoneEnter then Some(t.zoneEnter[z]) else None)
    else ZoneOf(cam, z)
  }

  predicate Stale(t: Track, now: real, stale: real) {
    now - t.lastSeen > stale
  }

  function Apply(stale: real, cam: Cam, e: Event): Cam {
    match e
    case See(now, tid, cls, hits) =>
      var t := TrackBefore(cam, e);
      Cam(cam.tracks[tid := TrackAfter(t, e)],
          map z | z in cam.zones.Keys + (hits - t.zones) :: ZoneAfterSee(cam, e, z))
    case Prune(now) =>
      Cam(map tid | tid in cam.tracks && !Stale(cam.tracks[tid], now, stale) :: cam.tracks[tid],
          map z | z in cam.zones :: cam.zones[z].(occupants :=
            cam.zones[z].occupants - set tid | tid in cam.tracks && Stale(cam.tracks[tid], now, stale)
                && z in cam.tracks[tid].zones))
  }

  const EMPTY_CAM := Cam(map[], map[])

  /** The state after the first n events of a log. */
  function StateAt(stale: real, log: seq<Event>, n: nat): Cam
    requires n <= |log|
  {
    if n == 0 then EMPTY_CAM else Apply(stale, StateAt(stale, log, n - 1), log[n - 1])
  }

  // ----- The same quantities, read off the history -----

  predicate Sees(e: Event, tid: TrackId) {
    e.See? && e.tid == tid
  }

  /** The last of the first n events that saw the track, or -1. */
  function Last(log: seq<Event>, n: nat, tid: TrackId): (i: int)
    requires n <= |log|
    ensures -1 <= i < n
    ensures i >= 0 ==> Sees(log[i], tid)
    ensures forall j :: i < j < n ==> !Sees(log[j], tid)
  {
    if n == 0 then -1 else if Sees(log[n - 1], tid) then n - 1 else Last(log, n - 1, tid)
  }

  /** No prune pass before event n came more than `stale` after sighting i. */
  predicate Survives(stale: real, log: seq<Event>, i: nat, n: nat)
    requires i < n <= |log|
  {
    forall m :: i < m < n && log[m].Prune? ==> log[m].now - log[i].now <= stale
  }

  predicate Live(stale: real, log: seq<Event>, n: nat, tid: TrackId)
    requires n <= |log|
  {
    var i := Last(log, n, tid);
    i >= 0 && Survives(stale, log, i, n)
  }

  /** The sighting that began the track's current life, for a sighting i of it. */
  function LifeStart(stale: real, log: seq<Event>, i: nat): (s: nat)
    requires i < |log| && log[i].See?
    ensures s <= i && Sees(log[s], log[i].tid)
  {
    if Live(stale, log, i, log[i].tid) then LifeStart(stale, log, Last(log, i, log[i].tid)) else i
  }

  /** Sighting i finds the track already inside zone z. */
  predicate StaysIn(stale: real, log: seq<Event>, i: nat, z: ZoneId)
    requires i < |log| && log[i].See?
  {
    Live(stale, log, i, log[i].tid) && z in log[Last(log, i, log[i].tid)].hits
  }

  /** The sighting that began the unbroken run of sightings inside z that i belongs to. */
  function RunStart(stale: real, log: seq<Event>, i: nat, z: ZoneId): (s: nat)
    requires i < |log| && log[i].See? && z in log[i].hits
    ensures s <= i && Sees(log[s], log[i].tid) && z in log[s].hits && !StaysIn(stale, log, s, z)
  {
    if StaysIn(stale, log, i, z) then RunStart(stale, log, Last(log, i, log[i].tid), z) else i
  }

  /** The record of a live track says what its history says. */
  ghost predicate TrackMatches(stale: real, log: seq<Event>, n: nat, tid: TrackId, t: Track)
    requires n <= |log|
  {
    var i := Last(log, n, tid);
    && i >= 0
    && t.cls == log[i].cls && t.lastSeen == log[i].now && t.zones == log[i].hits
    && t.firstSeen == log[LifeStart(stale, log, i)].now
    && t.zoneEnter.Keys == t.zones
    && forall z :: z in t.zones ==> t.zoneEnter[z] == log[RunStart(stale, log, i, z)].now
  }

  /** The track is live and its last sighting was inside z. */
  predicate Inside(stale: real, log: seq<Event>, n: nat, tid: TrackId, z: ZoneId)
    requires n <= |log|
  {
    Live(stale, log, n, tid) && z in log[Last(log, n, tid)].hits
  }

  ghost predicate TracksRefine(stale: real, log: seq<Event>, n: nat, cam: Cam)
    requires n <= |log|
  {
    && (forall tid :: tid in cam.tracks <==> Live(stale, log, n, tid))
    && (forall tid :: tid in cam.tracks ==> TrackMatches(stale, log, n, tid, cam.tracks[tid]))
  }

  lemma TracksRefineStep(stale: real, log: seq<Event>, n: nat)
    requires 0 < n <= |log| && TracksRefine(stale, log, n - 1, StateAt(stale, log, n - 1))
    ensures TracksRefine(stale, log, n, StateAt(stale, log, n))
  {
    var cam, cam', e := StateAt(stale, log, n - 1), StateAt(stale, log, n), log[n - 1];
    forall tid
      ensures tid in cam'.tracks <==> Live(stale, log, n, tid)
      ensures tid in cam'.tracks ==> TrackMatches(stale, log, n, tid, cam'.tracks[tid])
    {
      if Sees(e, tid) {
        SeenTrack(stale, log, n);
      } else {
        LiveUnseen(stale, log, n, tid);
      }
    }
  }

  lemma TrackAfterSighting(stale: real, log: seq<Event>, n: nat)
    requires 0 < n <= |log| && log[n - 1].See?
    ensures var e, tracks := log[n - 1], StateAt(stale, log, n).tracks;
            e.tid in tracks && tracks[e.tid] == TrackAfter(TrackBefore(StateAt(stale, log, n - 1), e), e)
  {
    hide ZoneAfterSee, TrackAfter, TrackBefore;
  }

  /** A sighting brings the track's record in line with the history. */
  lemma SeenTrack(stale: real, log: seq<Event>, n: nat)
    requires 0 < n <= |log| && log[n - 1].See? && TracksRefine(stale, log, n - 1, StateAt(stale, log, n - 1))
    ensures var tid := log[n - 1].tid;
            && Live(stale, log, n, tid)
            && tid in StateAt(stale, log, n).tracks
            && TrackMatches(stale, log, n, tid, StateAt(stale, log, n).tracks[tid])
  {
    TrackAfterSighting(stale, log, n);
    hide StateAt;
    var cam, e := StateAt(stale, log, n - 1), log[n - 1];
    var t, t' := TrackBefore(cam, e), TrackAfter(TrackBefore(cam, e), e);
    assert Last(log, n, e.tid) == n - 1;
    assert Live(stale, log, n - 1, e.tid) ==> TrackMatches(stale, log, n - 1, e.tid, t);
    assert t.zoneEnter.Keys == t.zones;
    assert t'.zoneEnter.Keys == e.hits;
    forall z | z in e.hits
      ensures t'.zoneEnter[z] == log[RunStart(stale, log, n - 1, z)].now
    {
      assert z in t.zones <==> StaysIn(stale, log, n - 1, z);
    }
  }

  /** A track the event does not see stays live unless the event prunes it. */
  lemma LiveUnseen(stale: real, log: seq<Event>, n: nat, tid: TrackId)
    requires 0 < n <= |log| && !Sees(log[n - 1], tid)
    ensures Last(log, n, tid) == Last(log, n - 1, tid)
    ensures Live(stale, log, n, tid) <==>
            && Live(stale, log, n - 1, tid)
            && (log[n - 1].Prune? ==> log[n - 1].now - log[Last(log, n - 1, tid)].now <= stale)
  {
  }

  ghost predicate ZonesKnown(log: seq<Event>, n: nat, cam: Cam)
    requires n <= |log|
  {
    forall z :: z in cam.zones <==> exists i :: 0 <= i < n && log[i].See? && z in log[i].hits
  }

  ghost predicate OccupantsRefine(stale: real, log: seq<Event>, n: nat, cam: Cam)
    requires n <= |log|
  {
    forall z, tid :: z in cam.zones ==> (tid in cam.zones[z].occupants <==> Inside(stale, log, n, tid, z))
  }

  ghost predicate ZonesRefine(stale: real, log: seq<Event>, n: nat, cam: Cam)
    requires n <= |log|
  {
    ZonesKnown(log, n, cam) && OccupantsRefine(stale, log, n, cam)
  }

  lemma ZonesKnownStep(stale: real, log: seq<Event>, n: nat)
    requires 0 < n <= |log|
    requires TracksRefine(stale, log, n - 1, StateAt(stale, log, n - 1))
        && ZonesKnown(log, n - 1, StateAt(stale, log, n - 1))
    ensures ZonesKnown(log, n, StateAt(stale, log, n))
  {
    var cam, cam', e := StateAt(stale, log, n - 1), StateAt(stale, log, n), log[n - 1];
    forall z
      ensures z in cam'.zones <==> exists i :: 0 <= i < n && log[i].See? && z in log[i].hits
    {
      if e.See? && z in TrackBefore(cam, e).zones {
        var i := Last(log, n - 1, e.tid);
        assert log[i].See? && z in log[i].hits;
      }
    }
  }

  lemma ZoneAfterSighting(stale: real, log: seq<Event>, n: nat, z: ZoneId)
    requires 0 < n <= |log| && log[n - 1].See? && z in StateAt(stale, log, n).zones
    ensures StateAt(stale, log, n).zones[z] == ZoneAfterSee(StateAt(stale, log, n - 1), log[n - 1], z)
  {
    hide ZoneAfterSee, TrackAfter, TrackBefore;
  }

  lemma OccupantAfterSee(stale: real, log: seq<Event>, n: nat, z: ZoneId, tid: TrackId)
    requires 0 < n <= |log| && log[n - 1].See? && z in StateAt(stale, log, n).zones
    requires TracksRefine(stale, log, n - 1, StateAt(stale, log, n - 1))
    requires tid in ZoneOf(StateAt(stale, log, n - 1), z).occupants <==> Inside(stale, log, n - 1, tid, z)
    ensures tid in StateAt(stale, log, n).zones[z].occupants <==> Inside(stale, log, n, tid, z)
  {
    ZoneAfterSighting(stale, log, n, z);
    hide StateAt, RunStart, LifeStart;
    var cam, e := StateAt(stale, log, n - 1), log[n - 1];
    if e.tid == tid {
      assert Last(log, n, tid) == n - 1;
      assert z in TrackBefore(cam, e).zones <==> Inside(stale, log, n - 1, tid, z);
    } else {
      LiveUnseen(stale, log, n, tid);
    }
  }

  lemma OccupantAfterPrune(stale: real, log: seq<Event>, n: nat, z: ZoneId, tid: TrackId)
    requires 0 < n <= |log| && log[n - 1].Prune? && z in StateAt(stale, log, n).zones
    requires TracksRefine(stale, log, n - 1, StateAt(stale, log, n - 1))
    requires tid in ZoneOf(StateAt(stale, log, n - 1), z).occupants <==> Inside(stale, log, n - 1, tid, z)
    ensures tid in StateAt(stale, log, n).zones[z].occupants <==> Inside(stale, log, n, tid, z)
  {
    LiveUnseen(stale, log, n, tid);
  }

  lemma OccupantsRefineStep(stale: real, log: seq<Event>, n: nat)
    requires 0 < n <= |log|
    requires TracksRefine(stale, log, n - 1, StateAt(stale, log, n - 1))
        && ZonesRefine(stale, log, n - 1, StateAt(stale, log, n - 1))
    ensures OccupantsRefine(stale, log, n, StateAt(stale, log, n))
  {
    hide StateAt, Inside, Last, TracksRefine, ZonesRefine;
    forall z, tid | z in StateAt(stale, log, n).zones
      ensures tid in StateAt(stale, log, n).zones[z].occupants <==> Inside(stale, log, n, tid, z)
    {
      OccupantsOfZone(stale, log, n - 1, z, tid);
      if log[n - 1].See? {
        OccupantAfterSee(stale, log, n, z, tid);
      } else {
        OccupantAfterPrune(stale, log, n, z, tid);
      }
    }
  }

  /** A zone without state has no occupants and nobody is inside it. */
  lemma OccupantsOfZone(stale: real, log: seq<Event>, n: nat, z: ZoneId, tid: TrackId)
    requires n <= |log| && ZonesRefine(stale, log, n, StateAt(stale, log, n))
    ensures tid in ZoneOf(StateAt(stale, log, n), z).occupants <==> Inside(stale, log, n, tid, z)
  {
    if Inside(stale, log, n, tid, z) {
      assert log[Last(log, n, tid)].See?;
    }
  }

  /** History refinement: after any events whatever, the engine holds exactly the live tracks, with the
      record their history prescribes, and each zone holds exactly the live tracks last seen in it. */
  lemma {:induction false} HistoryRefinement(stale: real, log: seq<Event>, n: nat)
    requires n <= |log|
    ensures TracksRefine(stale, log, n, StateAt(stale, log, n)) && ZonesRefine(stale, log, n, StateAt(stale, log, n))
  {
    if n > 0 {
      HistoryRefinement(stale, log, n - 1);
      TracksRefineStep(stale, log, n);
      ZonesKnownStep(stale, log, n);
      OccupantsRefineStep(stale, log, n);
    }
  }

  ghost predicate Monotone(log: seq<Event>) {
    forall i, j :: 0 <= i < j < |log| ==> log[i].now <= log[j].now
  }

  /** With time that does not run backwards, right after a prune pass the live tracks are exactly those
      last seen within the stale window. */
  lemma LiveWithinWindow(stale: real, log: seq<Event>, tid: TrackId)
    requires Monotone(log) && log != [] && log[|log| - 1].Prune?
    ensures tid in StateAt(stale, log, |log|).tracks <==>
            var i := Last(log, |log|, tid);
            i >= 0 && log[|log| - 1].now - log[i].now <= stale
  {
    HistoryRefinement(stale, log, |log|);
    var i := Last(log, |log|, tid);
    if i >= 0 && log[|log| - 1].now - log[i].now <= stale {
      assert Survives(stale, log, i, |log|);
    }
  }

  // ----- Dwell accounting -----

  /** Event i enters zone z, leaves it, or was seen leaving it. */
  predicate Enters(stale: real, log: seq<Event>, i: nat, z: ZoneId)
    requires i < |log|
  {
    log[i].See? && z in log[i].hits && !StaysIn(stale, log, i, z)
  }

  predicate Leaves(stale: real, log: seq<Event>, i: nat, z: ZoneId)
    requires i < |log|
  {
    log[i].See? && z !in log[i].hits && StaysIn(stale, log, i, z)
  }

  /** How long the stay lasted that event i completes. */
  function StayOf(stale: real, log: seq<Event>, i: nat, z: ZoneId): real
    requires i < |log| && Leaves(stale, log, i, z)
  {
    log[i].now - log[RunStart(stale, log, Last(log, i, log[i].tid), z)].now
  }

  function EntryCount(stale: real, log: seq<Event>, n: nat, z: ZoneId): nat
    requires n <= |log|
  {
    if n == 0 then 0 else EntryCount(stale, log, n - 1, z) + if Enters(stale, log, n - 1, z) then 1 else 0
  }

  function StayCount(stale: real, log: seq<Event>, n: nat, z: ZoneId): nat
    requires n <= |log|
  {
    if n == 0 then 0 else StayCount(stale, log, n - 1, z) + if Leaves(stale, log, n - 1, z) then 1 else 0
  }

  function StaySum(stale: real, log: seq<Event>, n: nat, z: ZoneId): real
    requires n <= |log|
  {
    if n == 0 then 0.0 else
      StaySum(stale, log, n - 1, z) + if Leaves(stale, log, n - 1, z) then StayOf(stale, log, n - 1, z) else 0.0
  }

  /** The tracks a prune pass drops while they are inside z. */
  function PrunedInside(stale: real, log: seq<Event>, i: nat, z: ZoneId): set<TrackId>
    requires i < |log|
  {
    ZoneOf(StateAt(stale, log, i), z).occupants - ZoneOf(StateAt(stale, log, i + 1), z).occupants
  }

  /** They are the tracks whose last sighting was inside z and too long ago. */
  lemma PrunedInsideIsHistory(stale: real, log: seq<Event>, i: nat, tid: TrackId, z: ZoneId)
    requires i < |log| && log[i].Prune?
    ensures tid in PrunedInside(stale, log, i, z) <==>
            Inside(stale, log, i, tid, z) && log[i].now - log[Last(log, i, tid)].now > stale
  {
    HistoryRefinement(stale, log, i);
    HistoryRefinement(stale, log, i + 1);
    LiveUnseen(stale, log, i + 1, tid);
    if Inside(stale, log, i, tid, z) {
      assert log[Last(log, i, tid)].See?;
    }
  }

  function PrunedInsideCount(stale: real, log: seq<Event>, n: nat, z: ZoneId): nat
    requires n <= |log|
  {
    if n == 0 then 0 else
      PrunedInsideCount(stale, log, n - 1, z) + if log[n - 1].Prune? then |PrunedInside(stale, log, n - 1, z)| else 0
  }

  function EntryLog(stale: real, log: seq<Event>, n: nat, z: ZoneId): seq<Entry>
    requires n <= |log|
  {
    if n == 0 then [] else
      EntryLog(stale, log, n - 1, z) + if Enters(stale, log, n - 1, z)
          then [Entry(log[n - 1].now, log[n - 1].tid, log[n - 1].cls)] else []
  }

  /** A zone changes at a sighting exactly as the history says it enters or leaves. */
  lemma ZoneStepAt(stale: real, log: seq<Event>, n: nat, z: ZoneId)
    requires 0 < n <= |log| && log[n - 1].See?
    ensures var zs, e := ZoneOf(StateAt(stale, log, n - 1), z), log[n - 1];
            ZoneOf(StateAt(stale, log, n), z) ==
              if Enters(stale, log, n - 1, z) then EnterZone(zs, e)
              else if Leaves(stale, log, n - 1, z) then
                LeaveZone(zs, e, Some(log[RunStart(stale, log, Last(log, n - 1, e.tid), z)].now))
              else zs
    ensures Enters(stale, log, n - 1, z) ==> log[n - 1].tid !in ZoneOf(StateAt(stale, log, n - 1), z).occupants
    ensures Leaves(stale, log, n - 1, z) ==> log[n - 1].tid in ZoneOf(StateAt(stale, log, n - 1), z).occupants
  {
    HistoryRefinement(stale, log, n - 1);
    HistoryRefinement(stale, log, n);
    var cam, e := StateAt(stale, log, n - 1), log[n - 1];
    var t := TrackBefore(cam, e);
    assert Live(stale, log, n - 1, e.tid) ==> TrackMatches(stale, log, n - 1, e.tid, t);
    assert z in t.zones <==> StaysIn(stale, log, n - 1, z);
    if StaysIn(stale, log, n - 1, z) {
      assert Inside(stale, log, n - 1, e.tid, z);
      assert log[Last(log, n - 1, e.tid)].See?;
      assert z in cam.zones;
    }
    assert z in cam.zones ==> (e.tid in cam.zones[z].occupants <==> Inside(stale, log, n - 1, e.tid, z));
  }

  /** What a prune pass does to a zone. */
  lemma ZonePruneAt(stale: real, log: seq<Event>, n: nat, z: ZoneId)
    requires 0 < n <= |log| && log[n - 1].Prune?
    ensures var zs, zs' := ZoneOf(StateAt(stale, log, n - 1), z), ZoneOf(StateAt(stale, log, n), z);
            && zs' == zs.(occupants := zs'.occupants)
            && |zs.occupants| == |zs'.occupants| + |PrunedInside(stale, log, n - 1, z)|
  {
    var zs, zs' := ZoneOf(StateAt(stale, log, n - 1), z), ZoneOf(StateAt(stale, log, n), z);
    assert zs'.occupants <= zs.occupants;
    assert zs.occupants == zs'.occupants + PrunedInside(stale, log, n - 1, z);
  }

  /** What a sighting does to a zone's totals. */
  lemma ZoneTotalsAt(stale: real, log: seq<Event>, n: nat, z: ZoneId)
    requires 0 < n <= |log| && log[n - 1].See?
    ensures var zs, zs' := ZoneOf(StateAt(stale, log, n - 1), z), ZoneOf(StateAt(stale, log, n), z);
            var enters, leaves := Enters(stale, log, n - 1, z), Leaves(stale, log, n - 1, z);
            && zs'.dwellCount == zs.dwellCount + (if leaves then 1 else 0)
            && zs'.dwellSum == zs.dwellSum + (if leaves then StayOf(stale, log, n - 1, z) else 0.0)
            && |zs'.occupants| + (if leaves then 1 else 0) == |zs.occupants| + (if enters then 1 else 0)
  {
    ZoneStepAt(stale, log, n, z);
  }

  /** The recorded count and sum are those of the completed stays. */
  lemma {:induction false} StaysAccounted(stale: real, log: seq<Event>, n: nat, z: ZoneId)
    requires n <= |log|
    ensures ZoneOf(StateAt(stale, log, n), z).dwellCount == StayCount(stale, log, n, z)
    ensures ZoneOf(StateAt(stale, log, n), z).dwellSum == StaySum(stale, log, n, z)
  {
    if n > 0 {
      StaysAccounted(stale, log, n - 1, z);
      if log[n - 1].See? {
        ZoneTotalsAt(stale, log, n, z);
      } else {
        ZonePruneAt(stale, log, n, z);
      }
    }
  }

  function OccupancyAt(stale: real, log: seq<Event>, n: nat, z: ZoneId): nat
    requires n <= |log|
  {
    |ZoneOf(StateAt(stale, log, n), z).occupants|
  }

  lemma OccupancyStep(stale: real, log: seq<Event>, n: nat, z: ZoneId)
    requires 0 < n <= |log|
    ensures OccupancyAt(stale, log, n, z)
            + (if Leaves(stale, log, n - 1, z) then 1 else 0)
            + (if log[n - 1].Prune? then |PrunedInside(stale, log, n - 1, z)| else 0)
         == OccupancyAt(stale, log, n - 1, z) + (if Enters(stale, log, n - 1, z) then 1 else 0)
  {
    if log[n - 1].See? {
      ZoneTotalsAt(stale, log, n, z);
    } else {
      ZonePruneAt(stale, log, n, z);
    }
  }

  /** Whoever ever entered the zone has completed a stay, is still inside, or was pruned inside. */
  lemma {:induction false} EntriesConserved(stale: real, log: seq<Event>, n: nat, z: ZoneId)
    requires n <= |log|
    ensures EntryCount(stale, log, n, z)
         == StayCount(stale, log, n, z) + OccupancyAt(stale, log, n, z) + PrunedInsideCount(stale, log, n, z)
  {
    if n > 0 {
      EntriesConserved(stale, log, n - 1, z);
      OccupancyStep(stale, log, n, z);
    }
  }

  /** Dwell conservation over every run: entries ever recorded are the counted stays, the occupants and the
      tracks pruned inside; the dwell sum is that of the completed stays. */
  lemma DwellConservation(stale: real, log: seq<Event>, n: nat, z: ZoneId)
    requires n <= |log|
    ensures var zs := ZoneOf(StateAt(stale, log, n), z);
            && zs.dwellCount == StayCount(stale, log, n, z)
            && zs.dwellSum == StaySum(stale, log, n, z)
            && EntryCount(stale, log, n, z) == zs.dwellCount + |zs.occupants| + PrunedInsideCount(stale, log, n, z)
  {
    StaysAccounted(stale, log, n, z);
    EntriesConserved(stale, log, n, z);
  }

  function EntriesAt(stale: real, log: seq<Event>, n: nat, z: ZoneId): seq<Entry>
    requires n <= |log|
  {
    ZoneOf(StateAt(stale, log, n), z).entries
  }

  lemma EntriesStep(stale: real, log: seq<Event>, n: nat, z: ZoneId)
    requires 0 < n <= |log|
    ensures var e, before := log[n - 1], EntriesAt(stale, log, n - 1, z);
            EntriesAt(stale, log, n, z) ==
              if Enters(stale, log, n - 1, z) then LastN(before + [Entry(e.now, e.tid, e.cls)], ENTRIES_KEPT)
                  else before
  {
    if log[n - 1].See? {
      ZoneStepAt(stale, log, n, z);
    } else {
      ZonePruneAt(stale, log, n, z);
    }
  }

  /** The entry deque that tailgating reads holds the zone's last 64 entries. */
  lemma {:induction false} EntriesAreLatest(stale: real, log: seq<Event>, n: nat, z: ZoneId)
    requires n <= |log|
    ensures EntriesAt(stale, log, n, z) == LastN(EntryLog(stale, log, n, z), ENTRIES_KEPT)
  {
    if n > 0 {
      EntriesAreLatest(stale, log, n - 1, z);
      EntriesStep(stale, log, n, z);
      if Enters(stale, log, n - 1, z) {
        LastNPush(EntryLog(stale, log, n - 1, z), Entry(log[n - 1].now, log[n - 1].tid, log[n - 1].cls), ENTRIES_KEPT);
      }
    }
  }

  lemma {:induction false} StaysNonNegative(stale: real, log: seq<Event>, n: nat, z: ZoneId)
    requires n <= |log| && Monotone(log)
    ensures StaySum(stale, log, n, z) >= 0.0
  {
    if n > 0 {
      StaysNonNegative(stale, log, n - 1, z);
    }
  }

  /** With time that does not run backwards no stay is negative, so neither is the dwell sum. */
  lemma DwellNonNegative(stale: real, log: seq<Event>, n: nat, z: ZoneId)
    requires n <= |log| && Monotone(log)
    ensures ZoneOf(StateAt(stale, log, n), z).dwellSum >= 0.0
  {
    DwellConservation(stale, log, n, z);
    StaysNonNegative(stale, log, n, z);
  }

  // ----- Intrusion -----

  datatype ZoneMeta = ZoneMeta(zoneType: string, confirm: Option<real>)

  datatype Settings = Settings(stale: real, minAge: real, confirm: real, vehicles: set<string>)

  datatype Candidate = Candidate(signature: string, tid: TrackId, zone: ZoneId, held: real)

  /** The signature a zone of this type fires for an object of this class. */
  function SignatureFor(cfg: Settings, zoneType: string, cls: string): Option<string> {
    if zoneType == "perimeter" then Some("Perimeter Breach")
    else if zoneType == "restricted" || zoneType == "exclusion" then
      Some(if cls in cfg.vehicles then "Vehicle in Restricted Zone" else "Unauthorized Entry")
    else None
  }

  function ConfirmSeconds(cfg: Settings, m: ZoneMeta): real {
    if m.confirm.Some? then m.confirm.value else cfg.confirm
  }

  /** What a zone of this kind calls for when an object of this class and age has been in it this long: it must be old
      enough and have been there for the zone's own confirmation time, or the global one if the zone has none. */
  function Verdict(cfg: Settings, m: ZoneMeta, cls: string, age: real, held: real, tid: TrackId,
                   z: ZoneId): Option<Candidate> {
    var required := match m.confirm case Some(c) => c case None => cfg.confirm;
    if age < cfg.minAge || held < required then None
    else if m.zoneType == "perimeter" then Some(Candidate("Perimeter Breach", tid, z, held))
    else if m.zoneType !in ["restricted", "exclusion"] then None
    else if cls in cfg.vehicles then Some(Candidate("Vehicle in Restricted Zone", tid, z, held))
    else Some(Candidate("Unauthorized Entry", tid, z, held))
  }

  /** The intrusion that the history calls for at `now`, if any, for a live track last seen in a known zone: its age
      counts from the sighting that began its life, its time in the zone from the one that began its unbroken run. */
  function IntrusionDue(cfg: Settings, meta: map<ZoneId, ZoneMeta>, log: seq<Event>, now: real, tid: TrackId,
                        z: ZoneId): Option<Candidate> {
    if !Inside(cfg.stale, log, |log|, tid, z) || z !in meta then None else
      var i, m := Last(log, |log|, tid), meta[z];
      var age := now - log[LifeStart(cfg.stale, log, i)].now;
      var held := now - log[RunStart(cfg.stale, log, i, z)].now;
      Verdict(cfg, m, log[i].cls, age, held, tid, z)
  }

  /** One (track, zone) pair of the evaluator's loops. */
  function IntrusionOf(cfg: Settings, meta: map<ZoneId, ZoneMeta>, cam: Cam, now: real, tid: TrackId,
                       z: ZoneId): Option<Candidate> {
    if tid !in cam.tracks || z !in cam.tracks[tid].zones || z !in meta || z !in cam.tracks[tid].zoneEnter then None else
      var t := cam.tracks[tid];
      var sig := SignatureFor(cfg, meta[z].zoneType, t.cls);
      var held := now - t.zoneEnter[z];
      if sig.Some? && now - t.firstSeen >= cfg.minAge && held >= ConfirmSeconds(cfg, meta[z])
      then Some(Candidate(sig.value, tid, z, held)) else None
  }

  /** What the evaluator reads of a track and a zone is what the history says. */
  lemma ReadsHistory(stale: real, log: seq<Event>, cam: Cam, tid: TrackId, z: ZoneId)
    requires TracksRefine(stale, log, |log|, cam)
    ensures Inside(stale, log, |log|, tid, z) <==> tid in cam.tracks && z in cam.tracks[tid].zones
    ensures Inside(stale, log, |log|, tid, z) ==>
              var i, t := Last(log, |log|, tid), cam.tracks[tid];
              && t.cls == log[i].cls && t.firstSeen == log[LifeStart(stale, log, i)].now
              && z in t.zoneEnter && t.zoneEnter[z] == log[RunStart(stale, log, i, z)].now
  {
    if tid in cam.tracks {
      assert TrackMatches(stale, log, |log|, tid, cam.tracks[tid]);
    }
  }

  /** The evaluator's verdict on a pair, from the object's class, the track's age and the time held. */
  lemma VerdictAlike(cfg: Settings, m: ZoneMeta, cls: string, age: real, held: real, tid: TrackId, z: ZoneId)
    ensures var sig := SignatureFor(cfg, m.zoneType, cls);
            (if sig.Some? && age >= cfg.minAge && held >= ConfirmSeconds(cfg, m)
             then Some(Candidate(sig.value, tid, z, held)) else None)
            == Verdict(cfg, m, cls, age, held, tid, z)
  {
  }

  /** Over any camera state that refines the history the evaluator finds exactly what the history calls for. */
  lemma IntrusionIsExact(cfg: Settings, meta: map<ZoneId, ZoneMeta>, log: seq<Event>, cam: Cam, now: real,
                         tid: TrackId, z: ZoneId)
    requires TracksRefine(cfg.stale, log, |log|, cam)
    ensures IntrusionOf(cfg, meta, cam, now, tid, z) == IntrusionDue(cfg, meta, log, now, tid, z)
  {
    hide TracksRefine, RunStart, LifeStart, Inside, Last, SignatureFor, ConfirmSeconds, Verdict;
    ReadsHistory(cfg.stale, log, cam, tid, z);
    if Inside(cfg.stale, log, |log|, tid, z) && z in meta {
      var t := cam.tracks[tid];
      VerdictAlike(cfg, meta[z], t.cls, now - t.firstSeen, now - t.zoneEnter[z], tid, z);
      assert IntrusionOf(cfg, meta, cam, now, tid, z)
          == Verdict(cfg, meta[z], t.cls, now - t.firstSeen, now - t.zoneEnter[z], tid, z);
    } else {
      assert IntrusionOf(cfg, meta, cam, now, tid, z) == None;
    }
  }

  /** The pair is one the evaluator may fire for: a live track, old enough, last seen in a zone of a firing type. */
  predicate Fireable(cfg: Settings, meta: map<ZoneId, ZoneMeta>, log: seq<Event>, now: real, tid: TrackId, z: ZoneId) {
    && Inside(cfg.stale, log, |log|, tid, z) && z in meta
    && meta[z].zoneType in ["perimeter", "restricted", "exclusion"]
    && now - log[LifeStart(cfg.stale, log, Last(log, |log|, tid))].now >= cfg.minAge
  }

  /** The confirmation time that applies in the zone. */
  function Required(cfg: Settings, m: ZoneMeta): real {
    match m.confirm
    case Some(c) => c
    case None => cfg.confirm
  }

  /** How long the track has been seen inside the zone without a break. */
  function ObservedInside(cfg: Settings, log: seq<Event>, tid: TrackId, z: ZoneId): real
    requires Inside(cfg.stale, log, |log|, tid, z)
  {
    var i := Last(log, |log|, tid);
    log[i].now - log[RunStart(cfg.stale, log, i, z)].now
  }

  /** How long the track has gone unseen. */
  function Unseen(log: seq<Event>, now: real, tid: TrackId): real
    requires Last(log, |log|, tid) >= 0
  {
    now - log[Last(log, |log|, tid)].now
  }

  /** The evaluator's documented purpose: to fire for a track that has been inside for the confirmation time. */
  predicate SeenLongEnough(cfg: Settings, meta: map<ZoneId, ZoneMeta>, log: seq<Event>, now: real, tid: TrackId,
                           z: ZoneId) {
    Fireable(cfg, meta, log, now, tid, z) && ObservedInside(cfg, log, tid, z) >= Required(cfg, meta[z])
  }

  /** The evaluator finds a candidate exactly for a pair it may fire for whose run inside began at least the
      confirmation time ago; the candidate says for how long, and its signature tells the zone's type and, except on
      a perimeter, whether the object is a vehicle. */
  lemma CandidateIff(cfg: Settings, meta: map<ZoneId, ZoneMeta>, log: seq<Event>, cam: Cam, now: real, tid: TrackId,
                     z: ZoneId)
    requires TracksRefine(cfg.stale, log, |log|, cam)
    ensures var found := IntrusionOf(cfg, meta, cam, now, tid, z);
            && (found.Some? <==>
                  && Fireable(cfg, meta, log, now, tid, z)
                  && now - log[RunStart(cfg.stale, log, Last(log, |log|, tid), z)].now
                     >= match meta[z].confirm case Some(c) => c case None => cfg.confirm)
            && (found.Some? ==>
                  && found.value.held == now - log[RunStart(cfg.stale, log, Last(log, |log|, tid), z)].now
                  && (found.value.signature == "Perimeter Breach" <==> meta[z].zoneType == "perimeter")
                  && (found.value.signature == "Vehicle in Restricted Zone"
                      <==> meta[z].zoneType != "perimeter" && log[Last(log, |log|, tid)].cls in cfg.vehicles)
                  && (found.value.signature == "Unauthorized Entry"
                      <==> meta[z].zoneType != "perimeter" && log[Last(log, |log|, tid)].cls !in cfg.vehicles))
  {
    hide RunStart, LifeStart, Inside;
    IntrusionIsExact(cfg, meta, log, cam, now, tid, z);
    hide IntrusionOf, TracksRefine;
    assert "Perimeter Breach"[0] == 'P' && "Vehicle in Restricted Zone"[0] == 'V' && "Unauthorized Entry"[0] == 'U';
  }

  /** It fires exactly for what has been seen long enough, except where the time unseen makes up what the
      observation lacks of the confirmation time. */
  lemma FiresAsDocumentedIff(cfg: Settings, meta: map<ZoneId, ZoneMeta>, log: seq<Event>, now: real, tid: TrackId,
                             z: ZoneId)
    requires Last(log, |log|, tid) >= 0 ==> Unseen(log, now, tid) >= 0.0
    ensures (IntrusionDue(cfg, meta, log, now, tid, z).Some? <==> SeenLongEnough(cfg, meta, log, now, tid, z))
       <==> !(&& Fireable(cfg, meta, log, now, tid, z)
              && ObservedInside(cfg, log, tid, z) < Required(cfg, meta[z])
                   <= ObservedInside(cfg, log, tid, z) + Unseen(log, now, tid))
  {
    hide RunStart, LifeStart;
    if Inside(cfg.stale, log, |log|, tid, z) && z in meta {
      var i := Last(log, |log|, tid);
      assert now - log[RunStart(cfg.stale, log, i, z)].now == ObservedInside(cfg, log, tid, z) + Unseen(log, now, tid);
    }
  }

  /** So a track seen in the very frame fires exactly when it has been seen inside long enough. */
  lemma SeenNowFiresAsDocumented(cfg: Settings, meta: map<ZoneId, ZoneMeta>, log: seq<Event>, now: real, tid: TrackId,
                                 z: ZoneId)
    requires Last(log, |log|, tid) >= 0 && Unseen(log, now, tid) == 0.0
    ensures IntrusionDue(cfg, meta, log, now, tid, z).Some? <==> SeenLongEnough(cfg, meta, log, now, tid, z)
  {
    FiresAsDocumentedIff(cfg, meta, log, now, tid, z);
  }

  /** The confirmation time runs on while a track is not seen: an object last seen the moment it entered
      still fires if it vanished for the whole confirmation time, as long as it is not yet stale. */
  lemma VanishedTrackStillFires()
    ensures var log := [See(0.0, Tid(7), "person", {"vault"})] + [Prune(0.0)] + [Prune(5.0)];
            IntrusionDue(Settings(6.0, 0.6, 1.0, {}), map["vault" := ZoneMeta("restricted", None)], log, 5.0, Tid(7),
                "vault")
              == Some(Candidate("Unauthorized Entry", Tid(7), "vault", 5.0))
  {
    var log := [See(0.0, Tid(7), "person", {"vault"})] + [Prune(0.0)] + [Prune(5.0)];
    assert Last(log, 0, Tid(7)) == -1 && Last(log, 1, Tid(7)) == 0;
    assert Last(log, 2, Tid(7)) == 0;
    assert Last(log, 3, Tid(7)) == 0;
    assert RunStart(6.0, log, 0, "vault") == 0 && LifeStart(6.0, log, 0) == 0;
  }
}
