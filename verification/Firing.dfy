/** The firing pipeline of the context engine (services/context/sentigon_context/engine.py): the cooldown
    gate with its eviction (`_prune_state`, `_fire`), schedule suppression, grouping into an open incident
    (`_group_into_open`) and creation. The gate has no await between check and set, so every interleaving
    of firings is a sequence of gate operations; grouping facts are about firings that run one by one. */
module Firing {
  import opened Common

  // ----- The cooldown gate -----

  datatype Key = Key(camera: string, signature: string, scope: string)

  datatype GateOp =
    | Attempt(key: Key, now: real, cooldown: real)
    | Evict(now: real)

  datatype Gate = Gate(fires: map<Key, real>, lastEviction: real)

  const NEW_GATE := Gate(map[], 0.0)
  const NEVER: real := -1000000000000.0
  const EVICTION_PERIOD: real := 60.0

  function LastFire(fires: map<Key, real>, k: Key): real {
    if k in fires then fires[k] else NEVER
  }

  predicate Passes(fires: map<Key, real>, k: Key, now: real, cooldown: real) {
    now - LastFire(fires, k) >= cooldown
  }

  /** Entries `horizon` old are dropped, at most once a minute. The horizon is 3600 s for cooldowns and eight
      cooldowns for the handoff and anomaly maps. */
  function EvictOld(g: Gate, now: real, horizon: real): Gate {
    if now - g.lastEviction < EVICTION_PERIOD then g
    else Gate(map k | k in g.fires && now - g.fires[k] < horizon :: g.fires[k], now)
  }

  function GateStep(g: Gate, op: GateOp, horizon: real): Gate {
    match op
    case Attempt(k, now, cooldown) => if Passes(g.fires, k, now, cooldown) then g.(fires := g.fires[k := now]) else g
    case Evict(now) => EvictOld(g, now, horizon)
  }

  /** The gate after the first n operations. */
  function GateAt(ops: seq<GateOp>, n: nat, horizon: real): Gate
    requires n <= |ops|
  {
    if n == 0 then NEW_GATE else GateStep(GateAt(ops, n - 1, horizon), ops[n - 1], horizon)
  }

  /** The fire times kept by a gate that never evicts. */
  function AllFires(ops: seq<GateOp>, n: nat): map<Key, real>
    requires n <= |ops|
  {
    if n == 0 then map[] else
      var fires := AllFires(ops, n - 1);
      match ops[n - 1]
      case Attempt(k, now, cooldown) => if Passes(fires, k, now, cooldown) then fires[k := now] else fires
      case Evict(_) => fires
  }

  /** Each operation brings the time of its own camera's frame. Time starts at zero, cameras are at most `skew`
      apart, and for one key time does not run backwards. */
  ghost predicate Timed(ops: seq<GateOp>, skew: real) {
    && (forall i :: 0 <= i < |ops| ==> ops[i].now >= 0.0)
    && (forall i, j :: 0 <= i < j < |ops| ==> ops[i].now - skew <= ops[j].now)
    && (forall i, j :: 0 <= i < j < |ops| && ops[i].Attempt? && ops[j].Attempt? && ops[i].key == ops[j].key
          ==> ops[i].now <= ops[j].now)
  }

  ghost predicate CooldownsWithin(ops: seq<GateOp>, bound: real) {
    forall i :: 0 <= i < |ops| && ops[i].Attempt? ==> ops[i].cooldown <= bound
  }

  predicate PassedAt(ops: seq<GateOp>, i: nat, horizon: real)
    requires i < |ops|
  {
    ops[i].Attempt? && Passes(GateAt(ops, i, horizon).fires, ops[i].key, ops[i].now, ops[i].cooldown)
  }

  predicate PassedWithoutEviction(ops: seq<GateOp>, i: nat)
    requires i < |ops|
  {
    ops[i].Attempt? && Passes(AllFires(ops, i), ops[i].key, ops[i].now, ops[i].cooldown)
  }

  /** What eviction has dropped is at least `age` old at time t. */
  ghost predicate OnlyOldDropped(kept: map<Key, real>, all: map<Key, real>, t: real, age: real) {
    && (forall k :: k in kept ==> k in all && all[k] == kept[k])
    && (forall k :: k in all && k !in kept ==> t - all[k] >= age)
  }

  lemma {:induction false} DroppedAreOld(ops: seq<GateOp>, n: nat, horizon: real, skew: real, t: real)
    requires n <= |ops| && Timed(ops, skew) && CooldownsWithin(ops, horizon - skew)
    requires horizon - skew <= 1000000000000.0
    requires forall i :: 0 <= i < n ==> ops[i].now - skew <= t
    ensures OnlyOldDropped(GateAt(ops, n, horizon).fires, AllFires(ops, n), t, horizon - skew)
  {
    if n > 0 {
      DroppedAreOld(ops, n - 1, horizon, skew, t);
      EvictionInvisible(ops, n - 1, horizon, skew);
      KeptAfterStep(ops, n, horizon, skew, t);
    }
  }

  lemma KeptAfterStep(ops: seq<GateOp>, n: nat, horizon: real, skew: real, t: real)
    requires 0 < n <= |ops| && ops[n - 1].now - skew <= t
    requires OnlyOldDropped(GateAt(ops, n - 1, horizon).fires, AllFires(ops, n - 1), t, horizon - skew)
    requires PassedAt(ops, n - 1, horizon) <==> PassedWithoutEviction(ops, n - 1)
    ensures OnlyOldDropped(GateAt(ops, n, horizon).fires, AllFires(ops, n), t, horizon - skew)
  {
  }

  /** Eviction is invisible: with cooldowns no longer than the horizon less the skew between the cameras, every
      attempt gets the answer it would get from a gate that never evicts. */
  lemma {:induction false} EvictionInvisible(ops: seq<GateOp>, i: nat, horizon: real, skew: real)
    requires i < |ops| && Timed(ops, skew) && CooldownsWithin(ops, horizon - skew)
    requires horizon - skew <= 1000000000000.0
    ensures PassedAt(ops, i, horizon) <==> PassedWithoutEviction(ops, i)
  {
    DroppedAreOld(ops, i, horizon, skew, ops[i].now);
  }

  /** A longer cooldown is cut short by eviction. */
  lemma EvictionVisibleBeyondHorizon(cooldown: real, horizon: real, skew: real)
    requires EVICTION_PERIOD <= horizon && 0.0 <= skew <= horizon && horizon - skew < cooldown <= 1000000000000.0
    ensures var k := Key("cam", "Loitering", "7:gate");
            var ops := [Attempt(k, 0.0, cooldown), Evict(horizon), Attempt(k, horizon - skew, cooldown)];
            Timed(ops, skew) && PassedAt(ops, 2, horizon) && !PassedWithoutEviction(ops, 2)
  {
    var k := Key("cam", "Loitering", "7:gate");
    var ops := [Attempt(k, 0.0, cooldown), Evict(horizon), Attempt(k, horizon - skew, cooldown)];
    assert GateAt(ops, 0, horizon) == NEW_GATE && AllFires(ops, 0) == map[];
    assert GateAt(ops, 1, horizon) == Gate(map[k := 0.0], 0.0) && AllFires(ops, 1) == map[k := 0.0];
    assert k !in GateAt(ops, 2, horizon).fires && AllFires(ops, 2) == map[k := 0.0];
  }

  /** For which bounds on the cooldowns eviction never changes an answer: exactly those up to the horizon less the
      skew. */
  lemma EvictionInvisibleIff(bound: real, horizon: real, skew: real)
    requires EVICTION_PERIOD <= horizon <= 1000000000000.0 && 0.0 <= skew <= horizon
    requires 0.0 <= bound <= 1000000000000.0
    ensures bound <= horizon - skew <==>
            forall ops: seq<GateOp>, i: nat :: i < |ops| && Timed(ops, skew) && CooldownsWithin(ops, bound)
              ==> (PassedAt(ops, i, horizon) <==> PassedWithoutEviction(ops, i))
  {
    if bound <= horizon - skew {
      forall ops: seq<GateOp>, i: nat | i < |ops| && Timed(ops, skew) && CooldownsWithin(ops, bound)
        ensures PassedAt(ops, i, horizon) <==> PassedWithoutEviction(ops, i)
      {
        EvictionInvisible(ops, i, horizon, skew);
      }
    } else {
      EvictionVisibleBeyondHorizon(bound, horizon, skew);
      var k := Key("cam", "Loitering", "7:gate");
      var ops := [Attempt(k, 0.0, bound), Evict(horizon), Attempt(k, horizon - skew, bound)];
      assert CooldownsWithin(ops, bound);
    }
  }

  lemma {:induction false} FiresRemember(ops: seq<GateOp>, i: nat, n: nat, skew: real)
    requires i < n <= |ops| && Timed(ops, skew) && PassedWithoutEviction(ops, i)
    ensures ops[i].key in AllFires(ops, n) && AllFires(ops, n)[ops[i].key] >= ops[i].now
  {
    if i < n - 1 {
      FiresRemember(ops, i, n - 1, skew);
    }
  }

  /** Two passes of one key are at least the later attempt's cooldown apart, under any interleaving. */
  lemma PassesSpaced(ops: seq<GateOp>, i: nat, j: nat, horizon: real, skew: real)
    requires i < j < |ops| && Timed(ops, skew) && CooldownsWithin(ops, horizon - skew)
    requires horizon - skew <= 1000000000000.0
    requires PassedAt(ops, i, horizon) && PassedAt(ops, j, horizon) && ops[i].key == ops[j].key
    ensures ops[j].now - ops[i].now >= ops[j].cooldown
  {
    EvictionInvisible(ops, i, horizon, skew);
    EvictionInvisible(ops, j, horizon, skew);
    FiresRemember(ops, i, j, skew);
  }

  // ----- Incidents and grouping -----

  datatype Status = New | Acked | Escalated | Resolved | FalsePositive

  predicate Open(s: Status) {
    s.New? || s.Acked? || s.Escalated?
  }

  datatype Group = Group(signature: string, camera: string, zone: Option<string>)

  datatype Incident = Incident(group: Group, status: Status, count: nat, lastSeen: real)

  datatype Settings = Settings(dedup: bool, window: real)

  const COOLDOWN_HORIZON: real := 3600.0

  /** `cooldown` is None for a signature that is not seeded; `scheduled` says whether a schedule window covers
      the candidate. SetStatus is an operator's action on an incident. */
  datatype Op =
    | Fire(key: Key, zone: Option<string>, now: real, cooldown: Option<real>, scheduled: bool)
    | PruneState(now: real)
    | SetStatus(incident: nat, status: Status, now: real)

  datatype State = State(gate: Gate, incidents: seq<Incident>, suppressed: nat, grouped: nat, created: nat)

  const NEW_STATE := State(NEW_GATE, [], 0, 0, 0)

  datatype Outcome = UnknownSignature | CoolingDown | Suppressed | Grouped | Created

  function GroupOf(op: Op): Group
    requires op.Fire?
  {
    Group(op.key.signature, op.key.camera, op.zone)
  }

  predicate Groupable(inc: Incident, group: Group, since: real) {
    inc.group == group && Open(inc.status) && inc.lastSeen >= since
  }

  /** The newest incident a detection can be rolled into. */
  function FindOpen(incidents: seq<Incident>, group: Group, since: real): (found: Option<nat>)
    ensures found.Some? ==> found.value < |incidents| && Groupable(incidents[found.value], group, since)
    ensures found.Some? ==> forall k :: found.value < k < |incidents| ==> !Groupable(incidents[k], group, since)
    ensures found.None? ==> forall k :: 0 <= k < |incidents| ==> !Groupable(incidents[k], group, since)
  {
    if incidents == [] then None
    else if Groupable(incidents[|incidents| - 1], group, since) then Some(|incidents| - 1)
    else FindOpen(incidents[..|incidents| - 1], group, since)
  }

  function OutcomeOf(cfg: Settings, s: State, op: Op): Outcome
    requires op.Fire?
  {
    if op.cooldown.None? then UnknownSignature
    else if !Passes(s.gate.fires, op.key, op.now, op.cooldown.value) then CoolingDown
    else if op.scheduled then Suppressed
    else
      var found := FindOpen(s.incidents, GroupOf(op), op.now - cfg.window);
      if cfg.dedup && found.Some? then Grouped else Created
  }

  function NewIncident(op: Op): Incident
    requires op.Fire?
  {
    Incident(GroupOf(op), New, 1, op.now)
  }

  function Bumped(inc: Incident, now: real): Incident {
    inc.(count := inc.count + 1, lastSeen := now)
  }

  function Apply(cfg: Settings, s: State, op: Op): State {
    match op
    case PruneState(now) => s.(gate := EvictOld(s.gate, now, COOLDOWN_HORIZON))
    case SetStatus(i, status, _) =>
      if i < |s.incidents| then s.(incidents := s.incidents[i := s.incidents[i].(status := status)]) else s
    case Fire(key, zone, now, cooldown, scheduled) =>
      var fired := s.(gate := s.gate.(fires := s.gate.fires[key := now]));
      match OutcomeOf(cfg, s, op)
      case UnknownSignature => s
      case CoolingDown => s
      case Suppressed => fired.(suppressed := s.suppressed + 1)
      case Grouped =>
        var i := FindOpen(s.incidents, GroupOf(op), now - cfg.window).value;
        fired.(incidents := s.incidents[i := Bumped(s.incidents[i], now)], grouped := s.grouped + 1)
      case Created => fired.(incidents := s.incidents + [NewIncident(op)], created := s.created + 1)
  }

  function StateAt(cfg: Settings, ops: seq<Op>, n: nat): State
    requires n <= |ops|
  {
    if n == 0 then NEW_STATE else Apply(cfg, StateAt(cfg, ops, n - 1), ops[n - 1])
  }

  // ----- What a detection does, in the incidents' own fields -----

  /** A detection at `now` can be rolled into the incident: same signature, camera and zone, not closed, and seen
      within the window. */
  predicate Joinable(cfg: Settings, inc: Incident, group: Group, now: real) {
    && inc.group == group && inc.status != Resolved && inc.status != FalsePositive
    && now - inc.lastSeen <= cfg.window
  }

  /** The detection was rolled into incident i, the newest it could be: that is now seen once more and last at
      `now`, and nothing else changed. */
  ghost predicate Joined(cfg: Settings, before: seq<Incident>, after: seq<Incident>, group: Group, now: real, i: int) {
    && |after| == |before| && 0 <= i < |before| && Joinable(cfg, before[i], group, now)
    && (forall k :: i < k < |before| ==> !Joinable(cfg, before[k], group, now))
    && (forall k :: 0 <= k < |before| && k != i ==> after[k] == before[k])
    && after[i].group == group && after[i].status == before[i].status
    && after[i].count == before[i].count + 1 && after[i].lastSeen == now
  }

  /** The detection became a new incident of its own. */
  ghost predicate Opened(before: seq<Incident>, after: seq<Incident>, group: Group, now: real) {
    && |after| == |before| + 1 && before <= after
    && var inc := after[|before|];
       inc.group == group && inc.status == New && inc.count == 1 && inc.lastSeen == now
  }

  lemma JoinsNewest(cfg: Settings, incidents: seq<Incident>, group: Group, now: real)
    ensures var found := FindOpen(incidents, group, now - cfg.window);
            if found.Some?
            then Joined(cfg, incidents, incidents[found.value := Bumped(incidents[found.value], now)], group, now,
                        found.value)
            else forall i :: 0 <= i < |incidents| ==> !Joinable(cfg, incidents[i], group, now)
  {
    assert forall inc :: Joinable(cfg, inc, group, now) <==> Groupable(inc, group, now - cfg.window);
  }

  /** A detection passes the gate when its key never fired or fired at least the cooldown ago. */
  predicate GateOpen(s: State, op: Op)
    requires op.Fire? && op.cooldown.Some?
  {
    op.now - (if op.key in s.gate.fires then s.gate.fires[op.key] else -1000000000000.0) >= op.cooldown.value
  }

  /** One detection, in full: it is dropped and changes nothing, or its key fired now and it is suppressed by its
      schedule, rolled into the newest incident it can join, or made a new incident when it can join none or
      grouping is off. */
  lemma DetectionInFull(cfg: Settings, s: State, op: Op)
    requires op.Fire?
    ensures var s', o := Apply(cfg, s, op), OutcomeOf(cfg, s, op);
            var group := Group(op.key.signature, op.key.camera, op.zone);
            var joins := cfg.dedup && exists i :: 0 <= i < |s.incidents|
                                                  && Joinable(cfg, s.incidents[i], group, op.now);
            && (o == UnknownSignature <==> op.cooldown == None)
            && (o == CoolingDown <==> op.cooldown.Some? && !GateOpen(s, op))
            && (o == Suppressed <==> op.cooldown.Some? && GateOpen(s, op) && op.scheduled)
            && (o == Grouped <==> op.cooldown.Some? && GateOpen(s, op) && !op.scheduled && joins)
            && (o == Created <==> op.cooldown.Some? && GateOpen(s, op) && !op.scheduled && !joins)
            && (o == UnknownSignature || o == CoolingDown ==> s' == s)
            && (o == Suppressed || o == Grouped || o == Created ==>
                  s'.gate.fires == s.gate.fires[op.key := op.now] && s'.gate.lastEviction == s.gate.lastEviction)
            && (o == Suppressed ==> s'.incidents == s.incidents)
            && (o == Grouped ==> exists i :: Joined(cfg, s.incidents, s'.incidents, group, op.now, i))
            && (o == Created ==> Opened(s.incidents, s'.incidents, group, op.now))
            && s'.suppressed == s.suppressed + (if o == Suppressed then 1 else 0)
            && s'.grouped == s.grouped + (if o == Grouped then 1 else 0)
            && s'.created == s.created + (if o == Created then 1 else 0)
  {
    hide FindOpen, Bumped, Joinable, Joined;
    var group := Group(op.key.signature, op.key.camera, op.zone);
    JoinsNewest(cfg, s.incidents, group, op.now);
    var found := FindOpen(s.incidents, group, op.now - cfg.window);
    if found.Some? {
      JoinedAt(cfg, s.incidents, s.incidents[found.value := Bumped(s.incidents[found.value], op.now)], group, op.now,
               found.value);
    }
  }

  lemma JoinedAt(cfg: Settings, before: seq<Incident>, after: seq<Incident>, group: Group, now: real, i: int)
    requires Joined(cfg, before, after, group, now, i)
    ensures 0 <= i < |before| && Joinable(cfg, before[i], group, now)
  {
  }

  // ----- The pipeline as code -----

  class Engine {
    const cfg: Settings
    var fires: map<Key, real>
    var lastEviction: real
    var incidents: seq<Incident>
    var suppressed: nat
    var grouped: nat
    var created: nat

    function View(): State
      reads this
    {
      State(Gate(fires, lastEviction), incidents, suppressed, grouped, created)
    }

    constructor (cfg: Settings)
      ensures View() == NEW_STATE && this.cfg == cfg
    {
      this.cfg := cfg;
      fires, lastEviction, incidents := map[], 0.0, [];
      suppressed, grouped, created := 0, 0, 0;
    }

    method Prune(now: real)
      modifies this
      ensures View() == Apply(cfg, old(View()), PruneState(now))
      ensures now - old(lastEviction) < 60.0 ==> View() == old(View())
      ensures now - old(lastEviction) >= 60.0 ==>
                && lastEviction == now
                && (forall k :: k in fires <==> k in old(fires) && now - old(fires)[k] < 3600.0)
                && (forall k :: k in fires ==> fires[k] == old(fires)[k])
    {
      if now - lastEviction < EVICTION_PERIOD {
        return;
      }
      lastEviction := now;
      fires := map k | k in fires && now - fires[k] < COOLDOWN_HORIZON :: fires[k];
    }

    /** Rolls a detection into the newest open, recent incident of its group, if there is one. */
    method GroupIntoOpen(group: Group, now: real) returns (done: bool)
      modifies this`incidents
      ensures var found := FindOpen(old(incidents), group, now - cfg.window);
              && done == found.Some?
              && incidents == if done then old(incidents)[found.value := Bumped(old(incidents)[found.value], now)]
                    else old(incidents)
      ensures !done ==> forall i :: 0 <= i < |old(incidents)| ==> !Joinable(cfg, old(incidents)[i], group, now)
      ensures done ==> exists i :: Joined(cfg, old(incidents), incidents, group, now, i)
    {
      JoinsNewest(cfg, incidents, group, now);
      var i := |incidents|;
      while i > 0
        invariant 0 <= i <= |incidents| && incidents == old(incidents)
        invariant FindOpen(incidents, group, now - cfg.window) == FindOpen(incidents[..i], group, now - cfg.window)
      {
        i := i - 1;
        assert incidents[..i + 1][..i] == incidents[..i];
        var inc := incidents[i];
        if inc.group == group && inc.status in [New, Acked, Escalated] && inc.lastSeen >= now - cfg.window {
          incidents := incidents[i := inc.(count := inc.count + 1, lastSeen := now)];
          return true;
        }
      }
      return false;
    }

    method FireCandidate(key: Key, zone: Option<string>, now: real, cooldown: Option<real>, scheduled: bool)
      returns (o: Outcome)
      modifies this
      ensures o == OutcomeOf(cfg, old(View()), Fire(key, zone, now, cooldown, scheduled))
      ensures View() == Apply(cfg, old(View()), Fire(key, zone, now, cooldown, scheduled))
    {
      if cooldown.None? {
        return UnknownSignature;
      }
      if now - LastFire(fires, key) < cooldown.value {
        return CoolingDown;
      }
      fires := fires[key := now];
      if scheduled {
        suppressed := suppressed + 1;
        return Suppressed;
      }
      var group := Group(key.signature, key.camera, zone);
      if cfg.dedup {
        var done := GroupIntoOpen(group, now);
        if done {
          grouped := grouped + 1;
          return Grouped;
        }
      }
      incidents := incidents + [Incident(group, New, 1, now)];
      created := created + 1;
      return Created;
    }
  }

  // ----- What every run guarantees -----

  /** The gate's part of a run. */
  predicate GatePasses(cfg: Settings, ops: seq<Op>, i: nat)
    requires i < |ops|
  {
    ops[i].Fire? && ops[i].cooldown.Some?
    && Passes(StateAt(cfg, ops, i).gate.fires, ops[i].key, ops[i].now, ops[i].cooldown.value)
  }

  /** The gate operations among the first n operations of the pipeline. */
  function GateOps(ops: seq<Op>, n: nat): seq<GateOp>
    requires n <= |ops|
  {
    if n == 0 then [] else
      GateOps(ops, n - 1) +
      match ops[n - 1]
      case Fire(key, _, now, cooldown, _) => if cooldown.Some? then [Attempt(key, now, cooldown.value)] else []
      case PruneState(now) => [Evict(now)]
      case SetStatus(_, _, _) => []
  }

  lemma {:induction false} GateAtPrefix(a: seq<GateOp>, b: seq<GateOp>, n: nat, horizon: real)
    requires a <= b && n <= |a|
    ensures GateAt(a, n, horizon) == GateAt(b, n, horizon)
  {
    if n > 0 {
      GateAtPrefix(a, b, n - 1, horizon);
    }
  }

  lemma GateStepOfApply(cfg: Settings, s: State, ops: seq<Op>, n: nat)
    requires 0 < n <= |ops|
    ensures var before, after := GateOps(ops, n - 1), GateOps(ops, n);
            || (after == before && Apply(cfg, s, ops[n - 1]).gate == s.gate)
            || (|after| == |before| + 1 && before <= after
                && Apply(cfg, s, ops[n - 1]).gate == GateStep(s.gate, after[|before|], COOLDOWN_HORIZON))
  {
  }

  /** The pipeline's gate is the gate of its gate operations, whatever happens to incidents. */
  lemma {:induction false} PipelineGate(cfg: Settings, ops: seq<Op>, n: nat)
    requires n <= |ops|
    ensures StateAt(cfg, ops, n).gate == GateAt(GateOps(ops, n), |GateOps(ops, n)|, COOLDOWN_HORIZON)
  {
    hide Apply, GateStep;
    if n > 0 {
      PipelineGate(cfg, ops, n - 1);
      GateStepOfApply(cfg, StateAt(cfg, ops, n - 1), ops, n);
      var before, after := GateOps(ops, n - 1), GateOps(ops, n);
      assert before <= after;
      GateAtPrefix(before, after, |before|, COOLDOWN_HORIZON);
    }
  }

  lemma {:induction false} GateOpsPrefix(ops: seq<Op>, i: nat, n: nat)
    requires i <= n <= |ops|
    ensures GateOps(ops, i) <= GateOps(ops, n)
    ensures i < n && ops[i].Fire? && ops[i].cooldown.Some? ==>
              |GateOps(ops, i)| < |GateOps(ops, n)|
              && GateOps(ops, n)[|GateOps(ops, i)|] == Attempt(ops[i].key, ops[i].now, ops[i].cooldown.value)
  {
    if i < n {
      GateOpsPrefix(ops, i, n - 1);
    }
  }

  function PassCount(cfg: Settings, ops: seq<Op>, n: nat): nat
    requires n <= |ops|
  {
    if n == 0 then 0 else PassCount(cfg, ops, n - 1) + if GatePasses(cfg, ops, n - 1) then 1 else 0
  }

  /** The clocks of the frames are as in `Timed`, and cooldowns are at most an hour less the skew. */
  ghost predicate Sane(ops: seq<Op>, skew: real) {
    && (forall i :: 0 <= i < |ops| ==> ops[i].now >= 0.0)
    && (forall i, j :: 0 <= i < j < |ops| && !ops[i].SetStatus? && !ops[j].SetStatus?
          ==> ops[i].now - skew <= ops[j].now)
    && (forall i, j :: 0 <= i < j < |ops| && ops[i].Fire? && ops[j].Fire? && ops[i].key == ops[j].key
          ==> ops[i].now <= ops[j].now)
    && (forall i :: 0 <= i < |ops| && ops[i].Fire? && ops[i].cooldown.Some?
          ==> ops[i].cooldown.value <= COOLDOWN_HORIZON - skew)
  }

  /** The operation of the pipeline that an operation of the gate comes from. */
  lemma {:induction false} ComesFrom(ops: seq<Op>, n: nat, g: nat) returns (i: nat)
    requires n <= |ops| && g < |GateOps(ops, n)|
    ensures i < n && !ops[i].SetStatus? && GateOps(ops, n)[g].now == ops[i].now
    ensures GateOps(ops, n)[g].Attempt? ==>
              ops[i].Fire? && GateOps(ops, n)[g].key == ops[i].key
              && ops[i].cooldown == Some(GateOps(ops, n)[g].cooldown)
  {
    if g < |GateOps(ops, n - 1)| {
      i := ComesFrom(ops, n - 1, g);
    } else {
      i := n - 1;
    }
  }

  ghost predicate Follows(op: GateOp, earlier: GateOp, skew: real) {
    && earlier.now - skew <= op.now
    && (earlier.Attempt? && op.Attempt? && earlier.key == op.key ==> earlier.now <= op.now)
  }

  lemma TimedSnoc(ops: seq<GateOp>, op: GateOp, skew: real)
    requires Timed(ops, skew) && op.now >= 0.0 && forall g :: 0 <= g < |ops| ==> Follows(op, ops[g], skew)
    ensures Timed(ops + [op], skew)
  {
  }

  lemma GateCooldowns(ops: seq<Op>, n: nat, skew: real)
    requires n <= |ops| && Sane(ops, skew)
    ensures CooldownsWithin(GateOps(ops, n), COOLDOWN_HORIZON - skew)
  {
    forall g | 0 <= g < |GateOps(ops, n)| && GateOps(ops, n)[g].Attempt?
      ensures GateOps(ops, n)[g].cooldown <= COOLDOWN_HORIZON - skew
    {
      var i := ComesFrom(ops, n, g);
    }
  }

  lemma {:induction false} GateOpsSane(ops: seq<Op>, n: nat, skew: real)
    requires n <= |ops| && Sane(ops, skew)
    ensures Timed(GateOps(ops, n), skew)
  {
    if n > 0 {
      GateOpsSane(ops, n - 1, skew);
      var before, after := GateOps(ops, n - 1), GateOps(ops, n);
      if |after| > |before| {
        var op := after[|before|];
        assert after == before + [op];
        forall g | 0 <= g < |before| ensures Follows(op, before[g], skew) {
          var i := ComesFrom(ops, n - 1, g);
        }
        hide Timed;
        TimedSnoc(before, op, skew);
      }
    }
  }

  /** In the whole pipeline, with cooldowns of at most an hour less the skew between the cameras, two firings of one
      key that pass the gate are at least the cooldown apart. */
  lemma FiringsSpaced(cfg: Settings, ops: seq<Op>, i: nat, j: nat, skew: real)
    requires i < j < |ops| && Sane(ops, skew) && skew >= 0.0
    requires GatePasses(cfg, ops, i) && GatePasses(cfg, ops, j) && ops[i].key == ops[j].key
    ensures ops[j].now - ops[i].now >= ops[j].cooldown.value
  {
    var g := GateOps(ops, |ops|);
    var gi, gj := |GateOps(ops, i)|, |GateOps(ops, j)|;
    GateOpsPrefix(ops, i, j);
    GateOpsPrefix(ops, i, |ops|);
    GateOpsPrefix(ops, j, |ops|);
    PipelineGate(cfg, ops, i);
    PipelineGate(cfg, ops, j);
    GateAtPrefix(GateOps(ops, i), g, gi, COOLDOWN_HORIZON);
    GateAtPrefix(GateOps(ops, j), g, gj, COOLDOWN_HORIZON);
    GateOpsSane(ops, |ops|, skew);
    GateCooldowns(ops, |ops|, skew);
    hide Sane;
    PassesSpaced(g, gi, gj, COOLDOWN_HORIZON, skew);
  }

  /** Every gate pass ends as exactly one of suppressed, grouped and created. */
  lemma {:induction false} EveryPassAccounted(cfg: Settings, ops: seq<Op>, n: nat)
    requires n <= |ops|
    ensures var s := StateAt(cfg, ops, n);
            s.suppressed + s.grouped + s.created == PassCount(cfg, ops, n) && s.created == |s.incidents|
  {
    if n > 0 {
      EveryPassAccounted(cfg, ops, n - 1);
    }
  }

  /** The operation is a detection of the group that passes the gate and that no schedule window covers. */
  predicate Detects(s: State, op: Op, group: Group) {
    && op.Fire? && op.cooldown.Some? && GateOpen(s, op)
    && !op.scheduled && Group(op.key.signature, op.key.camera, op.zone) == group
  }

  /** Detections of a group that passed the gate and that no schedule window covered. */
  function Detections(cfg: Settings, ops: seq<Op>, n: nat, group: Group): nat
    requires n <= |ops|
  {
    if n == 0 then 0 else
      Detections(cfg, ops, n - 1, group)
      + if Detects(StateAt(cfg, ops, n - 1), ops[n - 1], group) then 1 else 0
  }

  function Occurrences(incidents: seq<Incident>, group: Group): nat {
    if incidents == [] then 0 else
      Occurrences(incidents[..|incidents| - 1], group)
      + if incidents[|incidents| - 1].group == group then incidents[|incidents| - 1].count else 0
  }

  lemma {:induction false} OccurrencesUpdate(incidents: seq<Incident>, i: nat, inc: Incident, group: Group)
    requires i < |incidents| && inc.group == incidents[i].group
    ensures Occurrences(incidents[i := inc], group)
         == Occurrences(incidents, group) + if inc.group == group then inc.count - incidents[i].count else 0
    decreases |incidents|
  {
    var front := incidents[..|incidents| - 1];
    if i < |incidents| - 1 {
      OccurrencesUpdate(front, i, inc, group);
      assert incidents[i := inc][..|incidents| - 1] == front[i := inc];
    } else {
      assert incidents[i := inc][..|incidents| - 1] == front;
    }
  }

  lemma OccurrencesStep(cfg: Settings, s: State, op: Op, group: Group)
    ensures Occurrences(Apply(cfg, s, op).incidents, group)
         == Occurrences(s.incidents, group) + if Detects(s, op, group) then 1 else 0
  {
    match op
    case PruneState(_) =>
    case SetStatus(i, status, _) =>
      if i < |s.incidents| {
        OccurrencesUpdate(s.incidents, i, s.incidents[i].(status := status), group);
      }
    case Fire(_, _, now, _, _) =>
      match OutcomeOf(cfg, s, op) {
        case Grouped =>
          var i := FindOpen(s.incidents, GroupOf(op), now - cfg.window).value;
          OccurrencesUpdate(s.incidents, i, Bumped(s.incidents[i], now), group);
        case Created =>
          assert (s.incidents + [NewIncident(op)])[..|s.incidents|] == s.incidents;
        case _ =>
      }
  }

  /** Firing conservation: for every group, whatever operators do, the occurrence counts of its incidents add
      up to its unsuppressed gate passes. */
  lemma {:induction false} OccurrencesConserved(cfg: Settings, ops: seq<Op>, n: nat, group: Group)
    requires n <= |ops|
    ensures Occurrences(StateAt(cfg, ops, n).incidents, group) == Detections(cfg, ops, n, group)
  {
    if n > 0 {
      OccurrencesConserved(cfg, ops, n - 1, group);
      OccurrencesStep(cfg, StateAt(cfg, ops, n - 1), ops[n - 1], group);
    }
  }

  // ----- A stream of detections is one incident -----

  /** Operation k was rolled into incident i, or made it. */
  ghost predicate Touches(cfg: Settings, ops: seq<Op>, k: nat, i: nat)
    requires k < |ops|
  {
    && ops[k].Fire?
    && var before, after := StateAt(cfg, ops, k).incidents, StateAt(cfg, ops, k + 1).incidents;
       var group := Group(ops[k].key.signature, ops[k].key.camera, ops[k].zone);
       || Joined(cfg, before, after, group, ops[k].now, i)
       || (i == |before| && Opened(before, after, group, ops[k].now))
  }

  /** One operation and one incident: a detection rolled into it or opening it makes `lastSeen` its time, anything
      else leaves `lastSeen` alone. */
  lemma LastSeenAfter(cfg: Settings, ops: seq<Op>, n: nat, i: nat)
    requires n < |ops| && i < |StateAt(cfg, ops, n + 1).incidents|
    ensures var before, after := StateAt(cfg, ops, n).incidents, StateAt(cfg, ops, n + 1).incidents;
            if Touches(cfg, ops, n, i) then after[i].lastSeen == ops[n].now
            else i < |before| && after[i].lastSeen == before[i].lastSeen
  {
    var s, op := StateAt(cfg, ops, n), ops[n];
    assert StateAt(cfg, ops, n + 1) == Apply(cfg, s, op);
    if op.Fire? {
      DetectionInFull(cfg, s, op);
      hide Apply, Joinable;
      var o := OutcomeOf(cfg, s, op);
      if o == Grouped {
        var group := Group(op.key.signature, op.key.camera, op.zone);
        var j :| Joined(cfg, s.incidents, Apply(cfg, s, op).incidents, group, op.now, j);
        assert j == i ==> Touches(cfg, ops, n, i);
      }
    }
  }

  /** An incident's `lastSeen` is always the time of the last detection that was rolled into it or made it. */
  lemma {:induction false} LastSeenIsLastDetection(cfg: Settings, ops: seq<Op>, n: nat, i: nat) returns (k: nat)
    requires n <= |ops| && i < |StateAt(cfg, ops, n).incidents|
    ensures k < n && Touches(cfg, ops, k, i) && forall m :: k < m < n ==> !Touches(cfg, ops, m, i)
    ensures StateAt(cfg, ops, n).incidents[i].lastSeen == ops[k].now
  {
    hide Touches, StateAt;
    NoneYet(cfg, ops);
    LastSeenAfter(cfg, ops, n - 1, i);
    if Touches(cfg, ops, n - 1, i) {
      k := n - 1;
    } else {
      k := LastSeenIsLastDetection(cfg, ops, n - 1, i);
    }
  }

  lemma NoneYet(cfg: Settings, ops: seq<Op>)
    ensures StateAt(cfg, ops, 0).incidents == []
  {
  }

  /** The last of the first n operations that detected the group, or -1. */
  function LastDetection(cfg: Settings, ops: seq<Op>, n: nat, group: Group): (k: int)
    requires n <= |ops|
    ensures -1 <= k < n
  {
    if n == 0 then -1
    else if Detects(StateAt(cfg, ops, n - 1), ops[n - 1], group) then n - 1
    else LastDetection(cfg, ops, n - 1, group)
  }

  /** Detection k of the group comes no later than the window after the one before. */
  predicate KeepsUp(cfg: Settings, ops: seq<Op>, k: nat, group: Group)
    requires k < |ops|
  {
    var last := LastDetection(cfg, ops, k, group);
    Detects(StateAt(cfg, ops, k), ops[k], group) && last >= 0 ==> ops[k].now - ops[last].now <= cfg.window
  }

  /** Nobody closes an incident of the group. */
  predicate LeavesOpen(s: State, op: Op, group: Group) {
    op.SetStatus? && op.incident < |s.incidents| && s.incidents[op.incident].group == group ==>
      op.status != Resolved && op.status != FalsePositive
  }

  /** The group has the one incident i, which is open. */
  ghost predicate SoleIncident(incidents: seq<Incident>, group: Group, i: int) {
    && 0 <= i < |incidents| && incidents[i].group == group
    && incidents[i].status != Resolved && incidents[i].status != FalsePositive
    && forall j :: 0 <= j < |incidents| && j != i ==> incidents[j].group != group
  }

  ghost predicate NoIncident(incidents: seq<Incident>, group: Group) {
    forall i :: 0 <= i < |incidents| ==> incidents[i].group != group
  }

  /** A detection of the group, within the window of what its one incident was last seen, is rolled into that; the
      first makes it. */
  lemma DetectedOnce(cfg: Settings, s: State, op: Op, group: Group, i: int)
    requires cfg.dedup && op.Fire? && Detects(s, op, group)
    requires NoIncident(s.incidents, group)
             || (SoleIncident(s.incidents, group, i) && op.now - s.incidents[i].lastSeen <= cfg.window)
    ensures var after := Apply(cfg, s, op).incidents;
            if NoIncident(s.incidents, group)
            then SoleIncident(after, group, |s.incidents|) && after[|s.incidents|].count == 1
                 && after[|s.incidents|].lastSeen == op.now
            else SoleIncident(after, group, i) && after[i].count == s.incidents[i].count + 1
                 && after[i].lastSeen == op.now
  {
    DetectionInFull(cfg, s, op);
    hide Apply;
    var before, after := s.incidents, Apply(cfg, s, op).incidents;
    if !NoIncident(before, group) {
      assert Joinable(cfg, before[i], group, op.now);
      var j :| Joined(cfg, before, after, group, op.now, j);
    }
  }

  /** Anything else leaves the group's incident as it is, but for its status. */
  lemma NotDetected(cfg: Settings, s: State, op: Op, group: Group, i: int)
    requires !Detects(s, op, group) && LeavesOpen(s, op, group)
    ensures var after := Apply(cfg, s, op).incidents;
            && (NoIncident(s.incidents, group) ==> NoIncident(after, group))
            && (SoleIncident(s.incidents, group, i) ==>
                  SoleIncident(after, group, i) && after[i].count == s.incidents[i].count
                  && after[i].lastSeen == s.incidents[i].lastSeen)
  {
    if op.Fire? {
      DetectionInFull(cfg, s, op);
      hide Apply;
      var before, after := s.incidents, Apply(cfg, s, op).incidents;
      if OutcomeOf(cfg, s, op) == Grouped {
        var other := Group(op.key.signature, op.key.camera, op.zone);
        var j :| Joined(cfg, before, after, other, op.now, j);
      }
    }
  }

  /** The group's detections so far are one incident, i, or there were none. */
  ghost predicate CountedBy(cfg: Settings, ops: seq<Op>, n: nat, group: Group, i: int)
    requires n <= |ops|
  {
    var incidents, last := StateAt(cfg, ops, n).incidents, LastDetection(cfg, ops, n, group);
    if last < 0 then NoIncident(incidents, group) && Detections(cfg, ops, n, group) == 0
    else SoleIncident(incidents, group, i) && incidents[i].lastSeen == ops[last].now
         && incidents[i].count == Detections(cfg, ops, n, group)
  }

  lemma StreamStep(cfg: Settings, ops: seq<Op>, n: nat, group: Group, i: int) returns (j: int)
    requires n < |ops| && cfg.dedup && CountedBy(cfg, ops, n, group, i)
    requires KeepsUp(cfg, ops, n, group) && LeavesOpen(StateAt(cfg, ops, n), ops[n], group)
    ensures CountedBy(cfg, ops, n + 1, group, j)
  {
    hide Apply, NoIncident, Detects;
    var s, op := StateAt(cfg, ops, n), ops[n];
    j := i;
    if Detects(s, op, group) {
      NoneOrSole(s.incidents, group, i);
      DetectsFires(s, op, group);
      DetectedOnce(cfg, s, op, group, i);
      if LastDetection(cfg, ops, n, group) < 0 {
        j := |s.incidents|;
      }
    } else {
      NotDetected(cfg, s, op, group, i);
    }
  }

  lemma {:induction false} StreamIndex(cfg: Settings, ops: seq<Op>, n: nat, group: Group) returns (i: int)
    requires n <= |ops| && cfg.dedup
    requires forall k :: 0 <= k < n ==> KeepsUp(cfg, ops, k, group) && LeavesOpen(StateAt(cfg, ops, k), ops[k], group)
    ensures CountedBy(cfg, ops, n, group, i)
  {
    hide KeepsUp, LeavesOpen, Apply;
    i := 0;
    if n > 0 {
      hide CountedBy, StateAt, Detects, LastDetection;
      i := StreamIndex(cfg, ops, n - 1, group);
      assert KeepsUp(cfg, ops, n - 1, group) && LeavesOpen(StateAt(cfg, ops, n - 1), ops[n - 1], group);
      i := StreamStep(cfg, ops, n - 1, group, i);
    }
  }

  /** Grouping does its job: over every run in which a group's detections follow each other within the window and its
      incident is left open, they make exactly one incident, counted once for each, last seen at the last. */
  lemma StreamIsOneIncident(cfg: Settings, ops: seq<Op>, n: nat, group: Group)
    requires n <= |ops| && cfg.dedup
    requires forall k :: 0 <= k < n ==> KeepsUp(cfg, ops, k, group) && LeavesOpen(StateAt(cfg, ops, k), ops[k], group)
    ensures var incidents, last := StateAt(cfg, ops, n).incidents, LastDetection(cfg, ops, n, group);
            if last < 0 then NoIncident(incidents, group)
            else exists i :: SoleIncident(incidents, group, i) && incidents[i].lastSeen == ops[last].now
                             && incidents[i].count == Detections(cfg, ops, n, group)
  {
    hide KeepsUp, LeavesOpen, StateAt, LastDetection, Detections;
    var i := StreamIndex(cfg, ops, n, group);
    assert LastDetection(cfg, ops, n, group) >= 0 ==> SoleIncident(StateAt(cfg, ops, n).incidents, group, i);
  }

  lemma DetectsFires(s: State, op: Op, group: Group)
    requires Detects(s, op, group)
    ensures op.Fire?
  {
  }

  lemma NoneOrSole(incidents: seq<Incident>, group: Group, i: int)
    ensures !(NoIncident(incidents, group) && SoleIncident(incidents, group, i))
  {
  }

  ghost predicate OpsTimed(ops: seq<Op>) {
    forall i, j :: 0 <= i < j < |ops| ==> ops[i].now <= ops[j].now
  }

  ghost predicate AtMostOneGroupable(incidents: seq<Incident>, since: real) {
    forall i, j :: 0 <= i < j < |incidents| && incidents[i].group == incidents[j].group ==>
      !(Groupable(incidents[i], incidents[i].group, since) && Groupable(incidents[j], incidents[j].group, since))
  }

  lemma LaterWindow(incidents: seq<Incident>, since: real, later: real)
    requires AtMostOneGroupable(incidents, since) && since <= later
    ensures AtMostOneGroupable(incidents, later)
  {
    forall i, j | 0 <= i < j < |incidents| && incidents[i].group == incidents[j].group
      ensures !(Groupable(incidents[i], incidents[i].group, later)
          && Groupable(incidents[j], incidents[j].group, later))
    {
      assert !(Groupable(incidents[i], incidents[i].group, since)
          && Groupable(incidents[j], incidents[j].group, since));
    }
  }

  lemma FireKeepsOneGroupable(cfg: Settings, s: State, op: Op)
    requires op.Fire? && cfg.dedup && AtMostOneGroupable(s.incidents, op.now - cfg.window)
    ensures AtMostOneGroupable(Apply(cfg, s, op).incidents, op.now - cfg.window)
  {
    var since, after := op.now - cfg.window, Apply(cfg, s, op).incidents;
    var found := FindOpen(s.incidents, GroupOf(op), since);
    forall i, j | 0 <= i < j < |after| && after[i].group == after[j].group
      ensures !(Groupable(after[i], after[i].group, since) && Groupable(after[j], after[j].group, since))
    {
      if j < |s.incidents| {
        assert !(Groupable(s.incidents[i], s.incidents[i].group, since)
            && Groupable(s.incidents[j], s.incidents[j].group, since));
        if found.Some? && (found.value == i || found.value == j) {
          assert Groupable(s.incidents[found.value], GroupOf(op), since);
        }
      }
    }
  }

  /** A status an operator may give an incident without making a second groupable one of its group: a closed
      one; any one on an incident that is open already or was last seen before the window; or any one when its
      group has no other groupable incident. */
  ghost predicate Harmless(incidents: seq<Incident>, i: nat, status: Status, since: real)
    requires i < |incidents|
  {
    || !Open(status)
    || Open(incidents[i].status)
    || incidents[i].lastSeen < since
    || forall j :: 0 <= j < |incidents| && j != i && incidents[j].group == incidents[i].group ==>
         !Groupable(incidents[j], incidents[i].group, since)
  }

  function Restated(incidents: seq<Incident>, i: nat, status: Status): seq<Incident>
    requires i < |incidents|
  {
    incidents[i := incidents[i].(status := status)]
  }

  lemma HarmlessKeeps(incidents: seq<Incident>, i: nat, status: Status, since: real)
    requires AtMostOneGroupable(incidents, since) && i < |incidents| && Harmless(incidents, i, status, since)
    ensures AtMostOneGroupable(Restated(incidents, i, status), since)
  {
    var after := Restated(incidents, i, status);
    forall a, b | 0 <= a < b < |after| && after[a].group == after[b].group
      ensures !(Groupable(after[a], after[a].group, since) && Groupable(after[b], after[b].group, since))
    {
      assert !(Groupable(incidents[a], incidents[a].group, since)
          && Groupable(incidents[b], incidents[b].group, since));
    }
  }

  lemma HarmfulBreaks(incidents: seq<Incident>, i: nat, status: Status, since: real)
    requires i < |incidents| && !Harmless(incidents, i, status, since)
    ensures !AtMostOneGroupable(Restated(incidents, i, status), since)
  {
    var after := Restated(incidents, i, status);
    var j :| 0 <= j < |incidents| && j != i && incidents[j].group == incidents[i].group
             && Groupable(incidents[j], incidents[i].group, since);
    assert Groupable(after[i], after[i].group, since) && Groupable(after[j], after[j].group, since);
  }

  /** The endpoint's call keeps one groupable incident per group exactly when it is harmless. */
  lemma SetStatusKeepsIff(incidents: seq<Incident>, i: nat, status: Status, since: real)
    requires AtMostOneGroupable(incidents, since) && i < |incidents|
    ensures AtMostOneGroupable(Restated(incidents, i, status), since) <==> Harmless(incidents, i, status, since)
  {
    if Harmless(incidents, i, status, since) {
      HarmlessKeeps(incidents, i, status, since);
    } else {
      HarmfulBreaks(incidents, i, status, since);
    }
  }

  /** The operator's action is one the deduplication survives, at this point of the run. */
  ghost predicate HarmlessOp(cfg: Settings, s: State, op: Op) {
    op.SetStatus? && op.incident < |s.incidents| ==> Harmless(s.incidents, op.incident, op.status, op.now - cfg.window)
  }

  lemma StepKeepsOneGroupableIff(cfg: Settings, s: State, op: Op)
    requires cfg.dedup && AtMostOneGroupable(s.incidents, op.now - cfg.window)
    ensures AtMostOneGroupable(Apply(cfg, s, op).incidents, op.now - cfg.window) <==> HarmlessOp(cfg, s, op)
  {
    hide Harmless, AtMostOneGroupable;
    match op
    case Fire(_, _, _, _, _) => FireKeepsOneGroupable(cfg, s, op);
    case SetStatus(i, status, _) =>
      if i < |s.incidents| {
        SetStatusKeepsIff(s.incidents, i, status, op.now - cfg.window);
      }
    case PruneState(_) =>
  }

  /** Deduplication: with firings run one by one and no harmful status change, each (signature, camera, zone) has
      at most one open incident inside the window. */
  lemma {:induction false} OneOpenIncidentPerGroup(cfg: Settings, ops: seq<Op>, n: nat, now: real)
    requires n <= |ops| && cfg.dedup && OpsTimed(ops)
    requires forall i :: 0 <= i < n ==> HarmlessOp(cfg, StateAt(cfg, ops, i), ops[i])
    requires forall i :: 0 <= i < n ==> ops[i].now <= now
    ensures AtMostOneGroupable(StateAt(cfg, ops, n).incidents, now - cfg.window)
  {
    hide Apply, HarmlessOp, AtMostOneGroupable;
    if n > 0 {
      OneOpenIncidentPerGroup(cfg, ops, n - 1, ops[n - 1].now);
      StepKeepsOneGroupableIff(cfg, StateAt(cfg, ops, n - 1), ops[n - 1]);
      LaterWindow(StateAt(cfg, ops, n).incidents, ops[n - 1].now - cfg.window, now - cfg.window);
    } else {
      NoIncidents(now - cfg.window);
    }
  }

  lemma NoIncidents(since: real)
    ensures AtMostOneGroupable([], since)
  {
  }

  /** After operation i, at its time, no group has two groupable incidents. */
  ghost predicate DedupedAfter(cfg: Settings, ops: seq<Op>, i: nat)
    requires i < |ops|
  {
    AtMostOneGroupable(StateAt(cfg, ops, i + 1).incidents, ops[i].now - cfg.window)
  }

  ghost predicate HarmlessAt(cfg: Settings, ops: seq<Op>, i: nat)
    requires i < |ops|
  {
    HarmlessOp(cfg, StateAt(cfg, ops, i), ops[i])
  }

  lemma FirstHarm(cfg: Settings, ops: seq<Op>, n: nat)
    requires n < |ops| && cfg.dedup && OpsTimed(ops) && forall i :: 0 <= i < n ==> HarmlessAt(cfg, ops, i)
    ensures DedupedAfter(cfg, ops, n) <==> HarmlessAt(cfg, ops, n)
  {
    hide Apply, HarmlessOp, AtMostOneGroupable;
    forall i | 0 <= i < n ensures HarmlessOp(cfg, StateAt(cfg, ops, i), ops[i]) {
      assert HarmlessAt(cfg, ops, i);
    }
    OneOpenIncidentPerGroup(cfg, ops, n, ops[n].now);
    StepKeepsOneGroupableIff(cfg, StateAt(cfg, ops, n), ops[n]);
  }

  /** Over every run with sequential firing, the deduplication holds throughout if and only if no status change
      was harmful. */
  lemma {:induction false} DedupedIffHarmless(cfg: Settings, ops: seq<Op>, n: nat)
    requires n <= |ops| && cfg.dedup && OpsTimed(ops)
    ensures (forall i :: 0 <= i < n ==> DedupedAfter(cfg, ops, i))
        <==> (forall i :: 0 <= i < n ==> HarmlessAt(cfg, ops, i))
  {
    hide DedupedAfter, HarmlessAt, OpsTimed;
    if n > 0 {
      DedupedIffHarmless(cfg, ops, n - 1);
      if forall i :: 0 <= i < n - 1 ==> HarmlessAt(cfg, ops, i) {
        FirstHarm(cfg, ops, n - 1);
      }
    }
  }

  /** The incident endpoint has no guard: reopening a closed incident leaves two open ones in the window. */
  lemma ReopeningBreaksDeduplication()
    ensures var cfg, k := Settings(true, 150.0), Key("cam", "Loitering", "7:gate");
            var ops := [Fire(k, None, 0.0, Some(1.0), false), SetStatus(0, Resolved, 5.0),
                        Fire(k, None, 10.0, Some(1.0), false), SetStatus(0, Acked, 11.0)];
            OpsTimed(ops) && !AtMostOneGroupable(StateAt(cfg, ops, 4).incidents, 11.0 - cfg.window)
  {
    var cfg, k := Settings(true, 150.0), Key("cam", "Loitering", "7:gate");
    var ops := [Fire(k, None, 0.0, Some(1.0), false), SetStatus(0, Resolved, 5.0),
                Fire(k, None, 10.0, Some(1.0), false), SetStatus(0, Acked, 11.0)];
    var g := Group("Loitering", "cam", None);
    assert StateAt(cfg, ops, 0) == NEW_STATE;
    assert StateAt(cfg, ops, 1).incidents == [Incident(g, New, 1, 0.0)];
    var s2 := StateAt(cfg, ops, 2);
    assert s2.incidents == [Incident(g, Resolved, 1, 0.0)];
    assert s2.incidents[..0] == [];
    assert FindOpen(s2.incidents, g, 10.0 - 150.0) == None;
    var s3 := StateAt(cfg, ops, 3);
    assert s3.incidents == [Incident(g, Resolved, 1, 0.0), Incident(g, New, 1, 10.0)];
    var s4 := StateAt(cfg, ops, 4);
    assert s4.incidents == [Incident(g, Acked, 1, 0.0), Incident(g, New, 1, 10.0)];
    assert Groupable(s4.incidents[0], g, 11.0 - 150.0) && Groupable(s4.incidents[1], g, 11.0 - 150.0);
  }
}
