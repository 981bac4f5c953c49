/** Champion-challenger promotion (services/governance/sentigon_governance/eval.py): the comparison rule, the
    decision and the swap, and runs of them over a registry of models whose metrics do not change. */
module Governance {
  import opened Common
  import Evaluation

  // ----- The comparison -----

  datatype Metrics = Metrics(precision: real, recall: real)

  const TOLERANCE := 0.000000001
  const MIN_DELTA := 0.005

  predicate ChallengerWins(champion: Metrics, challenger: Metrics, minDelta: real) {
    var noRegression := challenger.precision >= champion.precision - TOLERANCE
        && challenger.recall >= champion.recall - TOLERANCE;
    var improves := challenger.precision >= champion.precision + minDelta
        || challenger.recall >= champion.recall + minDelta;
    noRegression && improves
  }

  predicate InRange(m: Metrics) {
    0.0 <= m.precision <= 1.0 && 0.0 <= m.recall <= 1.0
  }

  /** Metrics as an evaluation run stores them. */
  predicate Stored(m: Metrics) {
    Evaluation.Stored(m.precision) && Evaluation.Stored(m.recall)
  }

  function Score(m: Metrics): real {
    m.precision + m.recall
  }

  /** Each win raises precision plus recall by almost the improvement asked for. */
  lemma WinRaisesScore(a: Metrics, b: Metrics, minDelta: real)
    requires ChallengerWins(a, b, minDelta)
    ensures Score(b) >= Score(a) + minDelta - TOLERANCE
  {
  }

  /** Every model beats the one before it. */
  ghost predicate Chain(ms: seq<Metrics>) {
    forall i :: 0 <= i < |ms| - 1 ==> ChallengerWins(ms[i], ms[i + 1], MIN_DELTA)
  }

  lemma {:induction false} ChainRaisesScore(ms: seq<Metrics>, i: nat, j: nat)
    requires Chain(ms) && i <= j < |ms|
    ensures Score(ms[j]) >= Score(ms[i]) + (j - i) as real * (MIN_DELTA - TOLERANCE)
    decreases j
  {
    if i < j {
      ChainRaisesScore(ms, i, j - 1);
      WinRaisesScore(ms[j - 1], ms[j], MIN_DELTA);
    }
  }

  /** A chain of wins has at most 400 promotions. */
  lemma ChainBound(ms: seq<Metrics>)
    requires Chain(ms) && ms != [] && forall i :: 0 <= i < |ms| ==> InRange(ms[i])
    ensures |ms| - 1 <= 400
  {
    assert InRange(ms[0]);
    if |ms| > 401 {
      ChainRaisesScore(ms, 0, 401);
    }
  }

  /** No model beats itself or one of its successors. */
  lemma NoCycle(ms: seq<Metrics>, i: nat, j: nat)
    requires Chain(ms) && i <= j < |ms|
    ensures !ChallengerWins(ms[j], ms[i], MIN_DELTA)
  {
    ChainRaisesScore(ms, i, j);
    assert (j - i) as real * (MIN_DELTA - TOLERANCE) >= 0.0;
    if ChallengerWins(ms[j], ms[i], MIN_DELTA) {
      WinRaisesScore(ms[j], ms[i], MIN_DELTA);
    }
  }

  /** The bound is reached: precision climbs to 1 in 200 steps, then recall does. */
  function Ladder(i: nat): Metrics {
    if i <= 200 then Metrics(i as real * MIN_DELTA, 0.0) else Metrics(1.0, (i - 200) as real * MIN_DELTA)
  }

  lemma BoundIsReached()
    ensures var ms := seq(401, i requires 0 <= i < 401 => Ladder(i));
            Chain(ms) && forall i :: 0 <= i < |ms| ==> InRange(ms[i]) && Stored(ms[i])
  {
    forall i | 0 <= i < 401 ensures InRange(Ladder(i)) && Stored(Ladder(i)) {
      if i <= 200 {
        StepIsStored(i);
      } else {
        StepIsStored(i - 200);
      }
    }
  }

  lemma StepIsStored(n: nat)
    requires n <= 200
    ensures Evaluation.Stored(n as real * MIN_DELTA) && Evaluation.Stored(0.0) && Evaluation.Stored(1.0)
  {
    assert n as real * MIN_DELTA * 10000.0 == (n * 50) as real;
  }

  /** On metrics as stored the tolerance plays no part: nothing regresses at all. */
  lemma StoredWin(a: Metrics, b: Metrics)
    requires Stored(a) && Stored(b)
    ensures ChallengerWins(a, b, MIN_DELTA)
            <==> a.precision <= b.precision && a.recall <= b.recall
                 && (b.precision >= a.precision + MIN_DELTA || b.recall >= a.recall + MIN_DELTA)
  {
    StoredGap(a.precision, b.precision);
    StoredGap(a.recall, b.recall);
  }

  lemma StoredGap(x: real, y: real)
    requires Evaluation.Stored(x) && Evaluation.Stored(y)
    ensures y >= x - TOLERANCE <==> y >= x
  {
    assert y >= x - TOLERANCE ==> (y * 10000.0).Floor >= (x * 10000.0).Floor;
  }

  /** So beating is transitive on stored metrics. */
  lemma WinsAreTransitive(a: Metrics, b: Metrics, c: Metrics)
    requires Stored(a) && Stored(b) && Stored(c)
    requires ChallengerWins(a, b, MIN_DELTA) && ChallengerWins(b, c, MIN_DELTA)
    ensures ChallengerWins(a, c, MIN_DELTA)
  {
    StoredWin(a, b);
    StoredWin(b, c);
    StoredWin(a, c);
  }

  /** On unrounded metrics the tolerance adds up and it is not. */
  lemma RawWinsAreNotTransitive()
    ensures var a, b, c := Metrics(0.5, 0.5), Metrics(0.505, 0.5 - TOLERANCE), Metrics(0.51, 0.5 - 2.0 * TOLERANCE);
            ChallengerWins(a, b, MIN_DELTA) && ChallengerWins(b, c, MIN_DELTA) && !ChallengerWins(a, c, MIN_DELTA)
  {
  }

  /** What the harness stores for an evaluated gold set is in range, rounded, and within half a unit of the
      fractions counted. */
  lemma EvaluationIsStored(clips: seq<Evaluation.Clip>, report: map<Evaluation.Signature, Evaluation.Counts>)
    requires Evaluation.Balanced(clips, report)
    ensures var p, r := Evaluation.MicroPrecision(report), Evaluation.MicroRecall(report);
            var m := Metrics(Evaluation.Round4(p), Evaluation.Round4(r));
            InRange(m) && Stored(m) && -0.0001 <= Score(m) - (p + r) <= 0.0001
  {
    Evaluation.MicroAverages(clips, report);
    Evaluation.RoundingIsSafe(Evaluation.MicroPrecision(report), 0.0);
    Evaluation.RoundingIsSafe(Evaluation.MicroRecall(report), 0.0);
  }

  // ----- The registry -----

  datatype Role = Detector | Pose | ReId | Vlm | Weapon

  datatype Stage = Champion | Challenger | Shadow | Retired

  /** `run` is the aggregate of the latest evaluation, if there is one with metrics. */
  datatype Model = Model(name: string, role: Role, stage: Stage, createdAt: int, run: Option<Metrics>)

  datatype Decision = Decision(challenger: Option<nat>, champion: Option<nat>, promote: bool)

  /** Several champions make the query fail. */
  datatype Error = MultipleChampions

  function AggregateOf(run: Option<Metrics>): Metrics {
    if run.None? then Metrics(0.0, 0.0) else run.value
  }

  predicate ChampionAt(models: seq<Model>, role: Role, i: int) {
    0 <= i < |models| && models[i].role == role && models[i].stage.Champion?
  }

  predicate ChallengerAt(models: seq<Model>, role: Role, i: int) {
    0 <= i < |models| && models[i].role == role && models[i].stage.Challenger?
  }

  ghost predicate SoleChampion(models: seq<Model>, role: Role) {
    forall i, j :: ChampionAt(models, role, i) && ChampionAt(models, role, j) ==> i == j
  }

  /** The newest challenger of the role; of equally new ones any may be returned. */
  ghost predicate Newest(models: seq<Model>, role: Role, i: int) {
    ChallengerAt(models, role, i) && forall j :: ChallengerAt(models, role, j)
                                       ==> models[j].createdAt <= models[i].createdAt
  }

  ghost predicate RightDecision(models: seq<Model>, role: Role, d: Decision) {
    && (d.champion.Some? ==> ChampionAt(models, role, d.champion.value))
    && (d.champion.None? ==> forall i :: !ChampionAt(models, role, i))
    && (d.challenger.Some? ==> Newest(models, role, d.challenger.value))
    && (d.challenger.None? ==> forall i :: !ChallengerAt(models, role, i))
    && (d.promote <==>
          d.challenger.Some?
          && (d.champion.Some? ==> Outdoes(models[d.champion.value].run, models[d.challenger.value].run)))
  }

  lemma OutdoingIsWinning(models: seq<Model>, champion: nat, challenger: nat)
    requires champion < |models| && challenger < |models|
    ensures Outdoes(models[champion].run, models[challenger].run) <==> Beats(models, champion, challenger)
  {
  }

  /** The challenger's evaluation is no worse than the champion's in either measure, but for a billionth, and better by
      half a percent in one. A model that was never evaluated counts as 0 in both. */
  predicate Outdoes(champion: Option<Metrics>, challenger: Option<Metrics>) {
    var p0, r0 := match champion { case Some(m) => m.precision case None => 0.0 },
                  match champion { case Some(m) => m.recall case None => 0.0 };
    var p1, r1 := match challenger { case Some(m) => m.precision case None => 0.0 },
                  match challenger { case Some(m) => m.recall case None => 0.0 };
    && p0 - p1 <= 0.000000001 && r0 - r1 <= 0.000000001
    && (p1 - p0 >= 0.005 || r1 - r0 >= 0.005)
  }

  predicate Beats(models: seq<Model>, champion: nat, challenger: nat)
    requires champion < |models| && challenger < |models|
  {
    ChallengerWins(AggregateOf(models[champion].run), AggregateOf(models[challenger].run), MIN_DELTA)
  }

  /** The models after a promotion: champions of the role retire, then the model named becomes a champion
      whatever its own role and stage. */
  function Promoted(models: seq<Model>, i: nat, role: Role): (after: seq<Model>)
    ensures |after| == |models|
  {
    seq(|models|, k requires 0 <= k < |models| =>
      if k == i then models[k].(stage := Champion)
      else if ChampionAt(models, role, k) then models[k].(stage := Retired)
      else models[k])
  }

  predicate NameTaken(models: seq<Model>, name: string) {
    exists i :: 0 <= i < |models| && models[i].name == name
  }

  /** Registration skips a model whose name is taken, and looks at nothing else. */
  function Registered(models: seq<Model>, m: Model): seq<Model> {
    if NameTaken(models, m.name) then models else models + [m]
  }

  function RegisteredAll(models: seq<Model>, ms: seq<Model>): seq<Model> {
    if ms == [] then models else Registered(RegisteredAll(models, ms[..|ms| - 1]), ms[|ms| - 1])
  }

  /** Some model has the name. */
  predicate Named(models: seq<Model>, name: string) {
    exists k :: 0 <= k < |models| && models[k].name == name
  }

  /** m is the first of `ms` that has its name. */
  predicate FirstOfName(ms: seq<Model>, m: Model) {
    exists i :: 0 <= i < |ms| && ms[i] == m && !Named(ms[..i], m.name)
  }

  /** After a registration of `ms` the models that were there come first and unchanged, then one for each new name:
      the first of `ms` that has it. */
  ghost predicate OneOfEachName(before: seq<Model>, ms: seq<Model>, after: seq<Model>) {
    && before <= after
    && (forall name :: Named(after, name) <==> Named(before, name) || Named(ms, name))
    && (forall k :: |before| <= k < |after| ==> FirstOfName(ms, after[k]) && !Named(after[..k], after[k].name))
  }

  lemma NamedSnoc(models: seq<Model>, m: Model, name: string)
    ensures Named(models + [m], name) <==> Named(models, name) || m.name == name
  {
    if Named(models, name) {
      var k :| 0 <= k < |models| && models[k].name == name;
      assert (models + [m])[k].name == name;
    }
    assert (models + [m])[|models|] == m;
  }

  lemma FirstOfNameSnoc(ms: seq<Model>, m: Model, x: Model)
    ensures FirstOfName(ms, x) ==> FirstOfName(ms + [m], x)
    ensures !Named(ms, m.name) ==> FirstOfName(ms + [m], m)
  {
    var more := ms + [m];
    if FirstOfName(ms, x) {
      var i :| 0 <= i < |ms| && ms[i] == x && !Named(ms[..i], x.name);
      assert more[i] == x && more[..i] == ms[..i];
    }
    assert more[|ms|] == m && more[..|ms|] == ms;
  }

  lemma {:induction false} RegistersEachName(models: seq<Model>, ms: seq<Model>)
    ensures OneOfEachName(models, ms, RegisteredAll(models, ms))
  {
    if ms != [] {
      hide Named, FirstOfName;
      var front, m := ms[..|ms| - 1], ms[|ms| - 1];
      RegistersEachName(models, front);
      assert ms == front + [m];
      RegistersOneMore(models, front, RegisteredAll(models, front), m);
    }
  }

  lemma RegistersOneMore(models: seq<Model>, ms: seq<Model>, mid: seq<Model>, m: Model)
    requires OneOfEachName(models, ms, mid)
    ensures OneOfEachName(models, ms + [m], Registered(mid, m))
  {
    assert NameTaken(mid, m.name) <==> Named(mid, m.name);
    hide Named, FirstOfName, NameTaken;
    var after := Registered(mid, m);
    forall name ensures Named(after, name) <==> Named(models, name) || Named(ms + [m], name) {
      NamedSnoc(mid, m, name);
      NamedSnoc(ms, m, name);
    }
    forall k | |models| <= k < |after|
      ensures FirstOfName(ms + [m], after[k]) && !Named(after[..k], after[k].name)
    {
      FirstOfNameSnoc(ms, m, after[k]);
      assert after[..k] == mid[..k];
      assert mid[..|mid|] == mid;
    }
  }

  /** The models the console registers; none has an evaluation with an aggregate yet. */
  function Defaults(now: int): seq<Model> {
    [Model("YOLO26m", Detector, Champion, now, None)]
    + [Model("YOLO26x", Detector, Challenger, now, None)]
    + [Model("Qwen2.5-VL-7B (Ollama)", Vlm, Champion, now, None)]
    + [Model("Qwen3-VL-32B (RunPod/vLLM)", Vlm, Challenger, now, None)]
    + [Model("ResNet50-ReID", ReId, Champion, now, None)]
  }

  class Registry {
    var models: seq<Model>

    constructor ()
      ensures models == []
    {
      models := [];
    }

    /** `register_models` on a list of models. */
    method RegisterModels(ms: seq<Model>) returns (created: nat)
      modifies this
      ensures models == RegisteredAll(old(models), ms)
      ensures |models| == |old(models)| + created
      ensures OneOfEachName(old(models), ms, models)
    {
      RegistersEachName(models, ms);
      created := 0;
      for i := 0 to |ms|
        invariant models == RegisteredAll(old(models), ms[..i])
        invariant |models| == |old(models)| + created
      {
        assert ms[..i + 1][..i] == ms[..i];
        if !NameTaken(models, ms[i].name) {
          models := models + [ms[i]];
          created := created + 1;
        }
      }
      assert ms[..|ms|] == ms;
    }

    method Decide(role: Role) returns (r: Result<Decision, Error>)
      ensures r.Err? <==> !SoleChampion(models, role)
      ensures r.Ok? ==> RightDecision(models, role, r.value)
    {
      var champion: Option<nat> := None;
      var challenger: Option<nat> := None;
      for i := 0 to |models|
        invariant champion.Some? ==> champion.value < i && ChampionAt(models, role, champion.value)
        invariant forall k :: 0 <= k < i && ChampionAt(models, role, k) ==> champion == Some(k)
      {
        if ChampionAt(models, role, i) {
          if champion.Some? {
            assert !SoleChampion(models, role) by {
              assert ChampionAt(models, role, champion.value) && ChampionAt(models, role, i) && champion.value != i;
            }
            return Err(MultipleChampions);
          }
          champion := Some(i);
        }
      }
      for i := 0 to |models|
        invariant challenger.Some? ==> challenger.value < i && ChallengerAt(models, role, challenger.value)
        invariant forall k :: 0 <= k < i && ChallengerAt(models, role, k)
                    ==> challenger.Some? && models[k].createdAt <= models[challenger.value].createdAt
      {
        if ChallengerAt(models, role, i)
            && (challenger.None? || models[challenger.value].createdAt < models[i].createdAt) {
          challenger := Some(i);
        }
      }
      if challenger.None? {
        return Ok(Decision(None, champion, false));
      }
      if champion.None? {
        return Ok(Decision(challenger, None, true));
      }
      OutdoingIsWinning(models, champion.value, challenger.value);
      return Ok(Decision(challenger, champion, Beats(models, champion.value, challenger.value)));
    }

    method Promote(i: nat, role: Role)
      modifies this
      ensures models == Promoted(old(models), i, role)
      ensures |models| == |old(models)|
      ensures forall k :: 0 <= k < |models| ==>
                var m := old(models)[k];
                models[k] == m.(stage := if k == i then Champion
                                         else if m.role == role && m.stage == Champion then Retired
                                         else m.stage)
    {
      ghost var before := models;
      for k := 0 to |models|
        invariant |models| == |before|
        invariant forall j :: k <= j < |models| ==> models[j] == before[j]
        invariant forall j :: 0 <= j < k ==>
                    models[j] == if ChampionAt(before, role, j) then before[j].(stage := Retired) else before[j]
      {
        if ChampionAt(models, role, k) {
          models := models[k := models[k].(stage := Retired)];
        }
      }
      if i < |models| {
        models := models[i := models[i].(stage := Champion)];
      }
    }

    /** `promote_model`, the console's own promotion: `passed` says whether the model's latest evaluation passed. */
    method PromoteModel(i: nat, passed: bool, force: bool) returns (reply: Reply)
      modifies this
      ensures reply == NotFound <==> i >= |old(models)|
      ensures reply == Done <==> i < |old(models)| && (force || passed)
      ensures models == if reply == Done then Promoted(old(models), i, old(models)[i].role) else old(models)
      ensures reply != Done ==> models == old(models)
      ensures reply == Done ==>
                && |models| == |old(models)|
                && forall k :: 0 <= k < |models| ==>
                     var m := old(models)[k];
                     models[k] == m.(stage := if k == i then Champion
                                              else if m.role == old(models)[i].role && m.stage == Champion then Retired
                                              else m.stage)
    {
      if i >= |models| {
        return NotFound;
      }
      if !force && !passed {
        return Blocked;
      }
      ghost var before := models;
      var role := models[i].role;
      for k := 0 to |models|
        invariant |models| == |before|
        invariant forall j :: k <= j < |models| ==> models[j] == before[j]
        invariant forall j :: 0 <= j < k ==>
                    models[j] == if j != i && ChampionAt(before, role, j) then before[j].(stage := Retired)
                        else before[j]
      {
        if ChampionAt(models, role, k) && k != i {
          models := models[k := models[k].(stage := Retired)];
        }
      }
      models := models[i := models[i].(stage := Champion)];
      return Done;
    }
  }

  datatype Reply = NotFound | Blocked | Done

  /** After a promotion the role's champions are the promoted model alone, provided it exists and has that role;
      otherwise the role is left without one. */
  lemma PromotionIsExclusive(models: seq<Model>, i: nat, role: Role)
    ensures forall k :: ChampionAt(Promoted(models, i, role), role, k) <==> k == i < |models| && models[i].role == role
  {
  }

  /** A promotion leaves every other role its sole champion exactly when it is not handed a model of a role that
      already has another champion. */
  lemma PromotionSparesOtherRoles(models: seq<Model>, i: nat, role: Role, other: Role)
    requires SoleChampion(models, other) && other != role
    ensures SoleChampion(Promoted(models, i, role), other)
            <==> !(i < |models| && models[i].role == other && exists k :: k != i && ChampionAt(models, other, k))
  {
    var after := Promoted(models, i, role);
    assert forall k :: k != i ==> (ChampionAt(after, other, k) <==> ChampionAt(models, other, k));
    assert i < |models| && models[i].role == other ==> ChampionAt(after, other, i);
  }

  // ----- Runs -----

  /** A model is registered in any stage, a model that is no champion changes to another stage but champion, a role
      is decided and the decision carried out, or the console promotes a model of the role. */
  datatype Step =
    | Register(model: Model)
    | Restage(index: nat, stage: Stage)
    | Cycle(role: Role, decision: Decision)
    | Force(index: nat, role: Role)

  /** Registering the model adds a champion to a role that already has one. */
  ghost predicate SecondChampion(models: seq<Model>, m: Model) {
    m.stage.Champion? && !NameTaken(models, m.name) && HasChampion(models, m.role)
  }

  /** Champions are made and unmade by promotion, or registered where the role has none. */
  ghost predicate Legal(models: seq<Model>, step: Step) {
    match step
    case Register(m) => InRange(AggregateOf(m.run)) && !SecondChampion(models, m)
    case Restage(i, stage) => i < |models| && !models[i].stage.Champion? && !stage.Champion?
    case Cycle(role, d) => SoleChampion(models, role) && RightDecision(models, role, d)
    case Force(i, role) => i < |models| && models[i].role == role
  }

  function Apply(models: seq<Model>, step: Step): seq<Model> {
    match step
    case Register(m) => Registered(models, m)
    case Restage(i, stage) => if i < |models| then models[i := models[i].(stage := stage)] else models
    case Cycle(role, d) =>
      if d.promote && d.challenger.Some? then Promoted(models, d.challenger.value, role) else models
    case Force(i, role) => Promoted(models, i, role)
  }

  function Exec(models: seq<Model>, steps: seq<Step>): seq<Model> {
    if steps == [] then models else Apply(Exec(models, steps[..|steps| - 1]), steps[|steps| - 1])
  }

  ghost predicate LegalRun(models: seq<Model>, steps: seq<Step>) {
    steps == []
    || (LegalRun(models, steps[..|steps| - 1]) && Legal(Exec(models, steps[..|steps| - 1]), steps[|steps| - 1]))
  }

  /** The promotions of the role over an incumbent. */
  function Wins(steps: seq<Step>, role: Role): nat {
    if steps == [] then 0 else
      var last := steps[|steps| - 1];
      Wins(steps[..|steps| - 1], role) + if IsWin(last, role) then 1 else 0
  }

  predicate IsWin(step: Step, role: Role) {
    step.Cycle? && step.role == role && step.decision.promote && step.decision.champion.Some?
  }

  ghost predicate Sound(models: seq<Model>) {
    && (forall role :: SoleChampion(models, role))
    && (forall i :: 0 <= i < |models| ==> InRange(AggregateOf(models[i].run)))
  }

  predicate IsForce(step: Step, role: Role) {
    step.Force? && step.role == role
  }

  /** The console's promotions of the role. */
  function Forces(steps: seq<Step>, role: Role): nat {
    if steps == [] then 0 else
      Forces(steps[..|steps| - 1], role) + if IsForce(steps[|steps| - 1], role) then 1 else 0
  }

  predicate Promotes(step: Step, role: Role) {
    (step.Cycle? && step.role == role && step.decision.promote) || IsForce(step, role)
  }

  /** The model a promotion is handed. */
  function Chosen(step: Step): Option<nat> {
    match step
    case Cycle(_, d) => d.challenger
    case Force(i, _) => Some(i)
    case _ => None
  }

  /** The step registers a new champion of the role. */
  predicate Crowns(models: seq<Model>, step: Step, role: Role) {
    step.Register? && step.model.stage.Champion? && step.model.role == role && !NameTaken(models, step.model.name)
  }

  /** Runs never change, and champions only by promotions and registrations of their own role. */
  lemma ChampionsAfter(models: seq<Model>, step: Step, role: Role)
    requires Legal(models, step)
    ensures var after := Apply(models, step);
            && |models| <= |after| && (forall k :: 0 <= k < |models| ==> after[k].run == models[k].run)
            && (Promotes(step, role) ==> forall k :: ChampionAt(after, role, k) <==> Chosen(step) == Some(k))
            && (Crowns(models, step, role) ==> forall k :: ChampionAt(after, role, k) <==> k == |models|)
            && (!Promotes(step, role) && !Crowns(models, step, role) ==>
                  forall k :: ChampionAt(after, role, k) <==> ChampionAt(models, role, k))
  {
    hide NameTaken;
    if Crowns(models, step, role) {
      var after := Apply(models, step);
      assert after == models + [step.model];
      forall k ensures ChampionAt(after, role, k) <==> k == |models| {
        assert !ChampionAt(models, role, k);
      }
    }
  }

  /** Registering a model keeps every role at one champion at most if and only if it is not a second champion. */
  lemma RegisterKeepsSoundIff(models: seq<Model>, m: Model)
    requires Sound(models) && InRange(AggregateOf(m.run))
    ensures Sound(Apply(models, Register(m))) <==> !SecondChampion(models, m)
  {
    if SecondChampion(models, m) {
      var i :| ChampionAt(models, m.role, i);
      var after := Apply(models, Register(m));
      assert ChampionAt(after, m.role, i) && ChampionAt(after, m.role, |models|);
      assert !SoleChampion(after, m.role);
    } else {
      ApplyKeepsSound(models, Register(m));
    }
  }

  lemma RegisteredNames(models: seq<Model>, m: Model)
    ensures NameTaken(Registered(models, m), m.name)
    ensures forall name :: NameTaken(models, name) ==> NameTaken(Registered(models, m), name)
  {
    var after := Registered(models, m);
    if !NameTaken(models, m.name) {
      assert after[|models|].name == m.name;
    }
    forall name | NameTaken(models, name) ensures NameTaken(after, name) {
      var i :| 0 <= i < |models| && models[i].name == name;
      assert after[i].name == name;
    }
  }

  lemma {:induction false} RegisteredAllNames(models: seq<Model>, ms: seq<Model>)
    ensures forall i :: 0 <= i < |ms| ==> NameTaken(RegisteredAll(models, ms), ms[i].name)
  {
    hide NameTaken, Registered;
    if ms != [] {
      RegisteredAllNames(models, ms[..|ms| - 1]);
      RegisteredNames(RegisteredAll(models, ms[..|ms| - 1]), ms[|ms| - 1]);
    }
  }

  lemma {:induction false} TakenNamesChangeNothing(models: seq<Model>, ms: seq<Model>)
    requires forall i :: 0 <= i < |ms| ==> NameTaken(models, ms[i].name)
    ensures RegisteredAll(models, ms) == models
  {
    hide NameTaken;
    if ms != [] {
      TakenNamesChangeNothing(models, ms[..|ms| - 1]);
    }
  }

  /** Registering the same models again changes nothing, whatever happened to their stages. */
  lemma RegisteringIsIdempotent(models: seq<Model>, ms: seq<Model>)
    ensures RegisteredAll(RegisteredAll(models, ms), ms) == RegisteredAll(models, ms)
  {
    RegisteredAllNames(models, ms);
    TakenNamesChangeNothing(RegisteredAll(models, ms), ms);
  }

  lemma ApplyKeepsSound(models: seq<Model>, step: Step)
    requires Sound(models) && Legal(models, step)
    ensures Sound(Apply(models, step))
  {
    forall role ensures SoleChampion(Apply(models, step), role) {
      assert SoleChampion(models, role);
      ChampionsAfter(models, step, role);
    }
  }

  /** In every run each role has at most one champion, so no decision fails. */
  lemma {:induction false} OneChampion(models: seq<Model>, steps: seq<Step>)
    requires Sound(models) && LegalRun(models, steps)
    ensures Sound(Exec(models, steps))
  {
    if steps != [] {
      OneChampion(models, steps[..|steps| - 1]);
      ApplyKeepsSound(Exec(models, steps[..|steps| - 1]), steps[|steps| - 1]);
    }
  }

  ghost predicate ChampionScores(models: seq<Model>, role: Role, least: real) {
    forall i :: ChampionAt(models, role, i) ==> Score(AggregateOf(models[i].run)) >= least
  }

  ghost predicate HasChampion(models: seq<Model>, role: Role) {
    exists i :: ChampionAt(models, role, i)
  }

  lemma ApplyRaisesScore(models: seq<Model>, step: Step, role: Role, least: real)
    requires Sound(models) && Legal(models, step) && ChampionScores(models, role, least)
    requires least <= 0.0 || (HasChampion(models, role) && !IsForce(step, role))
    ensures var after := Apply(models, step);
            && (HasChampion(models, role) || IsWin(step, role) ==> HasChampion(after, role))
            && ChampionScores(after, role, if IsWin(step, role) then least + (MIN_DELTA - TOLERANCE) else least)
  {
    hide Outdoes, ChallengerWins;
    ChampionsAfter(models, step, role);
    var after := Apply(models, step);
    if Promotes(step, role) {
      assert ChampionAt(after, role, Chosen(step).value);
      if IsWin(step, role) {
        var d := step.decision;
        OutdoingIsWinning(models, d.champion.value, d.challenger.value);
        WinRaisesScore(AggregateOf(models[d.champion.value].run), AggregateOf(models[d.challenger.value].run),
            MIN_DELTA);
      }
    } else if HasChampion(models, role) {
      var i :| ChampionAt(models, role, i);
      assert ChampionAt(after, role, i);
    } else if Crowns(models, step, role) {
      assert after == models + [step.model];
    }
  }

  /** While the console does not interfere, the champion's precision plus recall climbs with every win over an
      incumbent. */
  lemma {:induction false} ChampionClimbs(models: seq<Model>, steps: seq<Step>, role: Role, least: real)
    requires Sound(models) && LegalRun(models, steps) && ChampionScores(models, role, least)
    requires least <= 0.0 || HasChampion(models, role)
    requires Forces(steps, role) == 0
    ensures var after := Exec(models, steps);
            && (HasChampion(models, role) || Wins(steps, role) > 0 ==> HasChampion(after, role))
            && ChampionScores(after, role, least + Wins(steps, role) as real * (MIN_DELTA - TOLERANCE))
  {
    hide Apply, Legal, Sound, ChampionScores, HasChampion;
    if steps != [] {
      var front := steps[..|steps| - 1];
      ChampionClimbs(models, front, role, least);
      OneChampion(models, front);
      var reached := least + Wins(front, role) as real * (MIN_DELTA - TOLERANCE);
      ApplyRaisesScore(Exec(models, front), steps[|steps| - 1], role, reached);
    }
  }

  /** The wins since the console's last promotion of the role. */
  function WinsSince(steps: seq<Step>, role: Role): nat {
    if steps == [] || IsForce(steps[|steps| - 1], role) then 0 else
      WinsSince(steps[..|steps| - 1], role) + if IsWin(steps[|steps| - 1], role) then 1 else 0
  }

  ghost predicate Climbed(models: seq<Model>, role: Role, wins: nat) {
    ChampionScores(models, role, wins as real * (MIN_DELTA - TOLERANCE)) && (wins > 0 ==> HasChampion(models, role))
  }

  lemma ClimbedAtMost400(models: seq<Model>, role: Role, wins: nat)
    requires Sound(models) && Climbed(models, role, wins)
    ensures wins <= 400
  {
    if wins > 0 {
      var i :| ChampionAt(models, role, i);
      assert Score(AggregateOf(models[i].run)) <= 2.0;
    }
  }

  lemma SoundScores(models: seq<Model>, role: Role)
    requires Sound(models)
    ensures Climbed(models, role, 0)
  {
  }

  lemma ClimbedStep(models: seq<Model>, step: Step, role: Role, wins: nat)
    requires Sound(models) && Legal(models, step) && Climbed(models, role, wins) && !IsForce(step, role)
    ensures Climbed(Apply(models, step), role, wins + if IsWin(step, role) then 1 else 0)
  {
    hide Apply, Legal, Sound, ChampionScores, HasChampion;
    ApplyRaisesScore(models, step, role, wins as real * (MIN_DELTA - TOLERANCE));
  }

  lemma {:induction false} WinsBetweenForces(models: seq<Model>, steps: seq<Step>, role: Role)
    requires Sound(models) && LegalRun(models, steps)
    ensures Climbed(Exec(models, steps), role, WinsSince(steps, role))
    ensures Wins(steps, role) <= 400 * Forces(steps, role) + WinsSince(steps, role)
  {
    hide Apply, Legal, Sound, Climbed;
    OneChampion(models, steps);
    if steps == [] {
      SoundScores(models, role);
    } else {
      var front, last := steps[..|steps| - 1], steps[|steps| - 1];
      WinsBetweenForces(models, front, role);
      OneChampion(models, front);
      if IsForce(last, role) {
        ClimbedAtMost400(Exec(models, front), role, WinsSince(front, role));
        SoundScores(Exec(models, steps), role);
      } else {
        ClimbedStep(Exec(models, front), last, role, WinsSince(front, role));
      }
    }
  }

  /** With fixed metrics, a role sees at most 400 promotions over an incumbent, however long the run, and at most
      400 more for each promotion forced from the console. */
  lemma AtMost400Wins(models: seq<Model>, steps: seq<Step>, role: Role)
    requires Sound(models) && LegalRun(models, steps)
    ensures Wins(steps, role) <= 400 * (Forces(steps, role) + 1)
  {
    WinsBetweenForces(models, steps, role);
    OneChampion(models, steps);
    ClimbedAtMost400(Exec(models, steps), role, WinsSince(steps, role));
  }

  /** A champion that has lost to a challenger is never its role's champion again, unless the console forces it. */
  lemma BeatenNeverReturns(models: seq<Model>, steps: seq<Step>, role: Role, i: nat)
    requires Sound(models) && LegalRun(models, steps) && ChampionAt(models, role, i) && Wins(steps, role) > 0
    requires Forces(steps, role) == 0
    ensures !ChampionAt(Exec(models, steps), role, i)
  {
    var score := Score(AggregateOf(models[i].run));
    assert ChampionScores(models, role, score) by {
      assert SoleChampion(models, role);
    }
    ChampionClimbs(models, steps, role, score);
    RunsNeverChange(models, steps);
  }

  ghost predicate AllScore(models: seq<Model>, m: Metrics) {
    forall i :: 0 <= i < |models| ==> AggregateOf(models[i].run) == m
  }

  lemma AllScoreAfter(models: seq<Model>, step: Step, m: Metrics)
    requires AllScore(models, m) && Legal(models, step) && (step.Register? ==> AggregateOf(step.model.run) == m)
    ensures AllScore(Apply(models, step), m)
    ensures forall role :: !IsWin(step, role)
  {
  }

  /** While no model has an evaluation that sets it apart, as when none has an aggregate and all count as zero, no
      incumbent is ever beaten. */
  lemma {:induction false} EqualScoresNeverWin(models: seq<Model>, steps: seq<Step>, m: Metrics)
    requires LegalRun(models, steps) && AllScore(models, m)
    requires forall k :: 0 <= k < |steps| && steps[k].Register? ==> AggregateOf(steps[k].model.run) == m
    ensures AllScore(Exec(models, steps), m)
    ensures forall role :: Wins(steps, role) == 0
  {
    hide Apply, Legal, AllScore;
    if steps != [] {
      EqualScoresNeverWin(models, steps[..|steps| - 1], m);
      AllScoreAfter(Exec(models, steps[..|steps| - 1]), steps[|steps| - 1], m);
    }
  }

  lemma {:induction false} RunsNeverChange(models: seq<Model>, steps: seq<Step>)
    requires LegalRun(models, steps)
    ensures |models| <= |Exec(models, steps)| && forall k :: 0 <= k < |models|
                                                   ==> Exec(models, steps)[k].run == models[k].run
  {
    hide Apply, Legal;
    if steps != [] {
      RunsNeverChange(models, steps[..|steps| - 1]);
      ChampionsAfter(Exec(models, steps[..|steps| - 1]), steps[|steps| - 1], Detector);
    }
  }

  // ----- The registry as the console builds it -----

  function Registrations(ms: seq<Model>): (steps: seq<Step>)
    ensures |steps| == |ms| && forall i :: 0 <= i < |ms| ==> steps[i] == Register(ms[i])
  {
    seq(|ms|, i requires 0 <= i < |ms| => Register(ms[i]))
  }

  /** Registering a list of models is a run of single registrations. */
  lemma {:induction false} RegisteredAllIsRun(models: seq<Model>, ms: seq<Model>)
    ensures RegisteredAll(models, ms) == Exec(models, Registrations(ms))
  {
    hide Registered;
    if ms != [] {
      RegisteredAllIsRun(models, ms[..|ms| - 1]);
      assert Registrations(ms)[..|ms| - 1] == Registrations(ms[..|ms| - 1]);
    }
  }

  /** Registering the default models into an empty registry gives it three roles with one champion each, so every
      theorem about runs applies from there on. */
  lemma DefaultsAreSound(now: int)
    ensures RegisteredAll([], Defaults(now)) == Defaults(now) && Sound(Defaults(now))
    ensures forall role :: HasChampion(Defaults(now), role) <==> role == Detector || role == Vlm || role == ReId
  {
    hide NameTaken, Defaults;
    var ms := Defaults(now);
    DefaultModels(now);
    FreshNamesAreKept(ms);
    assert ChampionAt(ms, Detector, 0) && ChampionAt(ms, Vlm, 2) && ChampionAt(ms, ReId, 4);
  }

  lemma DefaultModels(now: int)
    ensures var ms := Defaults(now);
            && |ms| == 5 && (forall i :: 0 <= i < 5
                               ==> ms[i].run.None? && (ms[i].stage.Champion? <==> i == 0 || i == 2 || i == 4))
            && ms[0].role == Detector && ms[2].role == Vlm && ms[4].role == ReId
            && (forall i, j :: 0 <= i < j < 5 ==> ms[i].name != ms[j].name)
  {
    var ms := Defaults(now);
    assert ms[0].name[6] == 'm' && ms[1].name[6] == 'x';
    assert ms[0].name[0] == 'Y' && ms[1].name[0] == 'Y' && ms[4].name[0] == 'R';
    assert ms[2].name[4] == '2' && ms[3].name[4] == '3' && ms[2].name[0] == 'Q' && ms[3].name[0] == 'Q';
  }

  ghost predicate DistinctNames(ms: seq<Model>) {
    forall i, j :: 0 <= i < j < |ms| ==> ms[i].name != ms[j].name
  }

  lemma DistinctNamesSnoc(front: seq<Model>, m: Model)
    requires DistinctNames(front + [m])
    ensures DistinctNames(front) && !NameTaken(front, m.name)
  {
    var ms := front + [m];
    forall i, j | 0 <= i < j < |front| ensures front[i].name != front[j].name {
      assert ms[i] == front[i] && ms[j] == front[j];
    }
    forall i | 0 <= i < |front| ensures front[i].name != m.name {
      assert ms[i] == front[i] && ms[|front|] == m;
    }
  }

  lemma RegisteredSnoc(models: seq<Model>, ms: seq<Model>, m: Model)
    ensures RegisteredAll(models, ms + [m]) == Registered(RegisteredAll(models, ms), m)
  {
    hide Registered;
    assert (ms + [m])[..|ms|] == ms;
  }

  lemma FrontAndLast(ms: seq<Model>)
    requires ms != []
    ensures ms == ms[..|ms| - 1] + [ms[|ms| - 1]]
  {
  }

  lemma NoneRegistered(models: seq<Model>)
    ensures RegisteredAll(models, []) == models
  {
  }

  lemma {:induction false} FreshNamesAreKept(ms: seq<Model>)
    requires DistinctNames(ms)
    ensures RegisteredAll([], ms) == ms
  {
    hide NameTaken, DistinctNames, RegisteredAll;
    if ms == [] {
      NoneRegistered([]);
    } else {
      var front, m := ms[..|ms| - 1], ms[|ms| - 1];
      FrontAndLast(ms);
      DistinctNamesSnoc(front, m);
      FreshNamesAreKept(front);
      RegisteredSnoc([], front, m);
    }
  }
}
