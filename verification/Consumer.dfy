/** The at-least-once consumer of services/common/sentigon_common/kafka.py.

    `Next` is the loop as a step system: one step per await, each of which may also end the process
    with its effect on the outside world applied or not. `Consumer.RunConsumer` is the loop itself and
    produces a run of the step system. One partition with one consumer. */
module Consumer {
  import opened Common

  /** A message: whether its correlation header decodes, and its body, None when that does not. */
  datatype Message<+P> = Message(headerOk: bool, body: Option<P>)

  /** What the handler's transaction does to the durable store, and the loop's parameters. */
  datatype Conf<!P, !S> = Conf(maxRetries: nat, deadLetter: bool, earliest: bool, effect: (P, S) -> S)

  datatype Cause = Undecodable | Exhausted(attempts: nat) | Stopped(attempts: nat)

  /** Where the loop is suspended. */
  datatype Phase =
    | Down
    | Polling(pos: nat)
    | Handling(off: nat, attempt: nat)
    | Diverting(off: nat, cause: Cause)
    | Committing(off: nat)

  /** The outside world, the loop's program point, and history variables: `first` is the offset the
      group started from, `completions` counts messages handled or dead-lettered with repetition,
      `wasted` those completions whose commit was lost. */
  datatype World<P, S> = World(
    log: seq<Message<P>>, committed: Option<nat>, store: S, handled: set<nat>, dead: map<nat, Cause>,
    phase: Phase, first: nat, completions: nat, wasted: nat)

  /** `HandlerFails(true)`: the handler raised after its transaction committed. `Interrupt` is a crash,
      a shutdown or an exception from an await, with or without that await's effect. */
  datatype Step<P> =
    | Produce(msg: Message<P>)
    | Start
    | Deliver
    | HandlerReturns
    | HandlerFails(applied: bool, stopSet: bool)
    | DlqAccepts
    | DlqFails(applied: bool)
    | CommitReturns
    | Interrupt(applied: bool)

  function Initial<P, S>(store: S): World<P, S> {
    World([], None, store, {}, map[], Down, 0, 0, 0)
  }

  /** The next offset to complete: everything the group is answerable for lies below it. */
  function Frontier<P, S>(w: World<P, S>): nat {
    if w.committed.Some? then w.committed.value else w.first
  }

  function StartPosition<P, S>(c: Conf<P, S>, w: World<P, S>): nat {
    if w.committed.Some? then w.committed.value else if c.earliest then 0 else |w.log|
  }

  function RunHandler<P, S>(c: Conf<P, S>, w: World<P, S>, off: nat): S {
    if off < |w.log| && w.log[off].body.Some? then c.effect(w.log[off].body.value, w.store) else w.store
  }

  /** A step that the current phase does not allow leaves the world unchanged. */
  function Next<P, S>(c: Conf<P, S>, w: World<P, S>, s: Step<P>): World<P, S> {
    match s
    case Produce(msg) => w.(log := w.log + [msg])
    case Start =>
      if w.phase.Down? then
        w.(phase := Polling(StartPosition(c, w)), first := if w.committed.Some? then w.first else StartPosition(c, w))
      else w
    case Deliver =>
      if w.phase.Polling? && w.phase.pos < |w.log| then
        w.(phase :=
          if !w.log[w.phase.pos].headerOk then Down
          else if w.log[w.phase.pos].body.None? then Diverting(w.phase.pos, Undecodable)
          else if c.maxRetries == 0 then Diverting(w.phase.pos, Exhausted(0))
          else Handling(w.phase.pos, 1))
      else w
    case HandlerReturns =>
      if w.phase.Handling? then
        w.(store := RunHandler(c, w, w.phase.off), handled := w.handled + {w.phase.off},
           phase := Committing(w.phase.off), completions := w.completions + 1)
      else w
    case HandlerFails(applied, stopSet) =>
      if w.phase.Handling? then
        w.(store := if applied then RunHandler(c, w, w.phase.off) else w.store,
           phase :=
             if stopSet then Diverting(w.phase.off, Stopped(w.phase.attempt))
             else if w.phase.attempt < c.maxRetries then Handling(w.phase.off, w.phase.attempt + 1)
             else Diverting(w.phase.off, Exhausted(w.phase.attempt)))
      else w
    case DlqAccepts =>
      if w.phase.Diverting? && c.deadLetter then
        w.(dead := w.dead[w.phase.off := w.phase.cause], phase := Committing(w.phase.off),
           completions := w.completions + 1)
      else w
    case DlqFails(applied) =>
      if w.phase.Diverting? then
        w.(dead := if applied && c.deadLetter then w.dead[w.phase.off := w.phase.cause] else w.dead,
           phase := Polling(w.phase.off))
      else w
    case CommitReturns =>
      if w.phase.Committing? then w.(committed := Some(w.phase.off + 1), phase := Polling(w.phase.off + 1)) else w
    case Interrupt(applied) =>
      match w.phase
      case Down => w
      case Polling(_) => w.(phase := Down)
      case Handling(off, _) => w.(store := if applied then RunHandler(c, w, off) else w.store, phase := Down)
      case Diverting(off, cause) =>
        w.(dead := if applied && c.deadLetter then w.dead[off := cause] else w.dead, phase := Down)
      case Committing(off) =>
        if applied then w.(committed := Some(off + 1), phase := Down)
        else w.(phase := Down, wasted := w.wasted + 1)
  }

  function Exec<P, S>(c: Conf<P, S>, w: World<P, S>, steps: seq<Step<P>>): World<P, S>
    decreases |steps|
  {
    if steps == [] then w else Next(c, Exec(c, w, steps[..|steps| - 1]), steps[|steps| - 1])
  }

  lemma ExecSnoc<P, S>(c: Conf<P, S>, w: World<P, S>, steps: seq<Step<P>>, s: Step<P>)
    ensures Exec(c, w, steps + [s]) == Next(c, Exec(c, w, steps), s)
  {
    assert (steps + [s])[..|steps|] == steps;
  }

  // ----- The invariant of every run -----

  predicate Done<P, S>(w: World<P, S>, o: nat) {
    o in w.handled || o in w.dead
  }

  /** Why a message may have been dead-lettered. */
  predicate Justified<P, S>(c: Conf<P, S>, w: World<P, S>, o: nat, cause: Cause) {
    && o < |w.log| && w.log[o].headerOk
    && match cause
       case Undecodable => w.log[o].body.None?
       case Exhausted(n) => w.log[o].body.Some? && n == c.maxRetries
       case Stopped(n) => w.log[o].body.Some? && 1 <= n <= c.maxRetries
  }

  ghost predicate PhaseOk<P, S>(c: Conf<P, S>, w: World<P, S>) {
    match w.phase
    case Down => true
    case Polling(pos) => pos == Frontier(w)
    case Handling(off, n) =>
      off == Frontier(w) && off < |w.log| && w.log[off].headerOk && w.log[off].body.Some? && 1 <= n <= c.maxRetries
    case Diverting(off, cause) => off == Frontier(w) && Justified(c, w, off, cause)
    case Committing(off) => off == Frontier(w) && off < |w.log| && Done(w, off)
  }

  /** Everything between the start and the frontier is done, and nothing above the frontier is. */
  ghost predicate DoneOk<P, S>(c: Conf<P, S>, w: World<P, S>) {
    && (c.earliest ==> w.first == 0)
    && w.first <= Frontier(w) <= |w.log|
    && (forall o: nat :: w.first <= o < Frontier(w) ==> Done(w, o))
    && (forall o: nat :: Done(w, o) ==> o <= Frontier(w) && o < |w.log|)
  }

  ghost predicate RecordsOk<P, S>(c: Conf<P, S>, w: World<P, S>) {
    && (forall o: nat :: o in w.handled
          ==> o < |w.log| && w.log[o].headerOk && w.log[o].body.Some? && c.maxRetries >= 1)
    && (forall o: nat :: o in w.dead ==> Justified(c, w, o, w.dead[o]))
  }

  ghost predicate CountsOk<P, S>(w: World<P, S>) {
    && w.completions == Frontier(w) - w.first + w.wasted + (if w.phase.Committing? then 1 else 0)
  }

  ghost predicate Inv<P, S>(c: Conf<P, S>, w: World<P, S>) {
    DoneOk(c, w) && PhaseOk(c, w) && RecordsOk(c, w) && CountsOk(w)
  }

  lemma NextKeepsDone<P, S>(c: Conf<P, S>, w: World<P, S>, s: Step<P>)
    requires DoneOk(c, w) && PhaseOk(c, w)
    ensures DoneOk(c, Next(c, w, s))
  {
    var w' := Next(c, w, s);
    assert forall o: nat :: Done(w, o) ==> Done(w', o);
    forall o: nat | Done(w', o) ensures o <= Frontier(w') && o < |w'.log| {
      assert Done(w, o) || o == Frontier(w);
    }
  }

  lemma NextKeepsPhase<P, S>(c: Conf<P, S>, w: World<P, S>, s: Step<P>)
    requires DoneOk(c, w) && PhaseOk(c, w)
    ensures PhaseOk(c, Next(c, w, s))
  {
  }

  lemma NextKeepsRecords<P, S>(c: Conf<P, S>, w: World<P, S>, s: Step<P>)
    requires PhaseOk(c, w) && RecordsOk(c, w)
    ensures RecordsOk(c, Next(c, w, s))
  {
    var w' := Next(c, w, s);
    forall o: nat | o in w'.dead ensures Justified(c, w', o, w'.dead[o]) {
      if o in w.dead { assert Justified(c, w, o, w.dead[o]); }
    }
  }

  lemma NextKeepsCounts<P, S>(c: Conf<P, S>, w: World<P, S>, s: Step<P>)
    requires PhaseOk(c, w) && CountsOk(w)
    ensures CountsOk(Next(c, w, s))
  {
  }

  lemma NextKeepsInv<P, S>(c: Conf<P, S>, w: World<P, S>, s: Step<P>)
    requires Inv(c, w)
    ensures Inv(c, Next(c, w, s))
  {
    NextKeepsDone(c, w, s);
    NextKeepsPhase(c, w, s);
    NextKeepsRecords(c, w, s);
    NextKeepsCounts(c, w, s);
  }

  lemma {:induction false} ExecKeepsInv<P, S>(c: Conf<P, S>, store: S, steps: seq<Step<P>>)
    ensures Inv(c, Exec(c, Initial(store), steps))
    decreases |steps|
  {
    if steps != [] {
      ExecKeepsInv(c, store, steps[..|steps| - 1]);
      NextKeepsInv(c, Exec(c, Initial(store), steps[..|steps| - 1]), steps[|steps| - 1]);
    }
  }

  // ----- What every run guarantees -----

  /** No loss: from the start of the log (with `earliest`) or from where the group began, every offset
      below the committed one was handled or dead-lettered, whatever failed on the way. */
  lemma NoLoss<P, S>(c: Conf<P, S>, store: S, steps: seq<Step<P>>, o: nat)
    requires var w := Exec(c, Initial(store), steps);
             w.committed.Some? && o < w.committed.value && (c.earliest || w.first <= o)
    ensures Done(Exec(c, Initial(store), steps), o)
  {
    ExecKeepsInv(c, store, steps);
  }

  /** Only poison is dead-lettered: a body that does not decode, or one whose handler failed on all of its
      attempts, or one that was failing when the service was told to stop. */
  lemma DeadLettersJustified<P, S>(c: Conf<P, S>, store: S, steps: seq<Step<P>>, o: nat)
    requires o in Exec(c, Initial(store), steps).dead
    ensures var w := Exec(c, Initial(store), steps); Justified(c, w, o, w.dead[o]) && c.deadLetter
    decreases |steps|
  {
    ExecKeepsInv(c, store, steps);
    DeadNeedsQueue(c, store, steps);
  }

  lemma {:induction false} DeadNeedsQueue<P, S>(c: Conf<P, S>, store: S, steps: seq<Step<P>>)
    ensures Exec(c, Initial(store), steps).dead != map[] ==> c.deadLetter
    decreases |steps|
  {
    if steps != [] {
      DeadNeedsQueue(c, store, steps[..|steps| - 1]);
    }
  }

  lemma {:induction false} NoneStopped<P, S>(c: Conf<P, S>, store: S, steps: seq<Step<P>>)
    requires forall k :: 0 <= k < |steps| ==> !(steps[k].HandlerFails? && steps[k].stopSet)
    ensures var w := Exec(c, Initial(store), steps);
            && (w.phase.Diverting? ==> !w.phase.cause.Stopped?)
            && (forall o: nat :: o in w.dead ==> !w.dead[o].Stopped?)
    decreases |steps|
  {
    if steps != [] {
      NoneStopped(c, store, steps[..|steps| - 1]);
      assert !(steps[|steps| - 1].HandlerFails? && steps[|steps| - 1].stopSet);
    }
  }

  /** As documented, a message is dead-lettered only undecodable or with its retries used up, in every run in which
      no handler failed while the service was stopping. */
  lemma DeadLettersAsDocumented<P, S>(c: Conf<P, S>, store: S, steps: seq<Step<P>>, o: nat)
    requires forall k :: 0 <= k < |steps| ==> !(steps[k].HandlerFails? && steps[k].stopSet)
    requires o in Exec(c, Initial(store), steps).dead
    ensures var w := Exec(c, Initial(store), steps);
            o < |w.log| && w.dead[o] == if w.log[o].body.None? then Undecodable else Exhausted(c.maxRetries)
  {
    ExecKeepsInv(c, store, steps);
    NoneStopped(c, store, steps);
  }

  /** One that fails while the service is stopping goes to the queue after a single attempt, whatever retries are
      left to it. */
  lemma StoppingSkipsRetries<P, S>(c: Conf<P, S>, store: S, payload: P)
    requires c.maxRetries > 0 && c.deadLetter
    ensures var steps: seq<Step<P>> := [Start] + [Produce(Message(true, Some(payload)))] + [Deliver]
                + [HandlerFails(false, true)] + [DlqAccepts];
            Exec(c, Initial(store), steps).dead == map[0 := Stopped(1)]
  {
    var msg := Message(true, Some(payload));
    var w0: World<P, S> := Initial(store);
    var s: seq<Step<P>> := [Start];
    ExecSnoc(c, w0, [], Start);
    assert [] + s == s;
    ExecSnoc(c, w0, s, Produce(msg));
    s := s + [Produce(msg)];
    ExecSnoc(c, w0, s, Deliver);
    s := s + [Deliver];
    ExecSnoc(c, w0, s, HandlerFails(false, true));
    s := s + [HandlerFails(false, true)];
    ExecSnoc(c, w0, s, DlqAccepts);
  }

  ghost predicate Grows<P, S>(w0: World<P, S>, w: World<P, S>) {
    && (w0.committed.Some? ==> w.committed.Some? && w0.committed.value <= w.committed.value && w0.first == w.first)
    && w0.handled <= w.handled && w0.dead.Keys <= w.dead.Keys && w0.log <= w.log
  }

  lemma NextGrows<P, S>(c: Conf<P, S>, w: World<P, S>, s: Step<P>)
    requires Inv(c, w)
    ensures Grows(w, Next(c, w, s))
  {
  }

  /** Committed offsets never move back, and the sets of completed messages only grow. */
  lemma {:induction false} CommitsMonotone<P, S>(c: Conf<P, S>, store: S, steps: seq<Step<P>>, k: nat)
    requires k <= |steps|
    ensures Grows(Exec(c, Initial(store), steps[..k]), Exec(c, Initial(store), steps))
    decreases |steps|
  {
    if k == |steps| {
      assert steps[..k] == steps;
    } else {
      CommitsMonotone(c, store, steps[..|steps| - 1], k);
      assert steps[..|steps| - 1][..k] == steps[..k];
      ExecKeepsInv(c, store, steps[..|steps| - 1]);
      NextGrows(c, Exec(c, Initial(store), steps[..|steps| - 1]), steps[|steps| - 1]);
    }
  }

  function Interrupts<P>(steps: seq<Step<P>>): nat {
    if steps == [] then 0
    else Interrupts(steps[..|steps| - 1]) + if steps[|steps| - 1].Interrupt? then 1 else 0
  }

  lemma {:induction false} WastedPerInterrupt<P, S>(c: Conf<P, S>, store: S, steps: seq<Step<P>>)
    ensures Exec(c, Initial(store), steps).wasted <= Interrupts(steps)
    decreases |steps|
  {
    if steps != [] {
      WastedPerInterrupt(c, store, steps[..|steps| - 1]);
    }
  }

  /** Redelivery is bounded: at any time at most one completed message is uncommitted, and over a run the
      completions exceed the offsets advanced by at most one per interruption, plus the one in flight. */
  lemma RedeliveryBound<P, S>(c: Conf<P, S>, store: S, steps: seq<Step<P>>)
    ensures var w := Exec(c, Initial(store), steps);
            && (forall o: nat :: Done(w, o) && o >= Frontier(w) ==> o == Frontier(w))
            && Frontier(w) - w.first <= w.completions <= Frontier(w) - w.first + Interrupts(steps) + 1
  {
    ExecKeepsInv(c, store, steps);
    WastedPerInterrupt(c, store, steps);
  }

  /** The steps of a message whose handler keeps failing: `applied` says, attempt by attempt, whether the
      handler's transaction had committed before it raised. */
  function FailingAttempts<P>(applied: seq<bool>): seq<Step<P>> {
    if applied == [] then []
    else FailingAttempts(applied[..|applied| - 1]) + [HandlerFails(applied[|applied| - 1], false)]
  }

  lemma {:induction false} AttemptsFail<P, S>(c: Conf<P, S>, w: World<P, S>, applied: seq<bool>, off: nat)
    requires w.phase == Handling(off, 1) && |applied| <= c.maxRetries && c.maxRetries >= 1
    ensures var w' := Exec(c, w, FailingAttempts(applied));
            && w' == w.(store := w'.store, phase := w'.phase)
            && w'.phase == if |applied| < c.maxRetries then Handling(off, |applied| + 1)
                  else Diverting(off, Exhausted(c.maxRetries))
    decreases |applied|
  {
    if applied != [] {
      var front := applied[..|applied| - 1];
      AttemptsFail(c, w, front, off);
      ExecSnoc(c, w, FailingAttempts(front), HandlerFails(applied[|applied| - 1], false));
    }
  }

  /** What keeps a message from being handled: its body does not decode, or its handler fails on every attempt. */
  function PoisonCause<P, S>(c: Conf<P, S>, msg: Message<P>): Cause {
    if msg.body.None? then Undecodable else Exhausted(c.maxRetries)
  }

  /** A message that does not decode or whose handler fails on every attempt does not wedge the partition, nor is
      it lost: a dead-letter queue that accepts it and a commit move the group past it; a queue that does not
      leaves the group where it was, to replay it. */
  lemma PoisonIsDiverted<P, S>(c: Conf<P, S>, w: World<P, S>, pos: nat, applied: seq<bool>, queued: bool)
    requires w.phase == Polling(pos) && pos < |w.log| && w.log[pos].headerOk && c.deadLetter
    requires |applied| == if w.log[pos].body.None? then 0 else c.maxRetries
    ensures var failing := Exec(c, Next(c, w, Deliver), FailingAttempts(applied));
            && (var past := Next(c, Next(c, failing, DlqAccepts), CommitReturns);
                past.phase == Polling(pos + 1) && past.committed == Some(pos + 1)
                && past.dead == w.dead[pos := PoisonCause(c, w.log[pos])] && past.handled == w.handled)
            && (var back := Next(c, failing, DlqFails(queued));
                back.phase == Polling(pos) && back.committed == w.committed && back.handled == w.handled)
  {
    if w.log[pos].body.Some? && c.maxRetries >= 1 {
      AttemptsFail(c, Next(c, w, Deliver), applied, pos);
    }
  }

  // ----- When a partition can advance -----

  /** The message can be handled or diverted: its header decodes, and it has a handler to try or a queue to go to. */
  predicate Passable<P, S>(c: Conf<P, S>, msg: Message<P>) {
    msg.headerOk && ((msg.body.Some? && c.maxRetries >= 1) || c.deadLetter)
  }

  ghost predicate StuckAt<P, S>(c: Conf<P, S>, w: World<P, S>, pos: nat) {
    && Inv(c, w) && (w.committed.Some? || c.earliest)
    && pos == Frontier(w) < |w.log| && !Passable(c, w.log[pos])
  }

  lemma NextKeepsStuck<P, S>(c: Conf<P, S>, w: World<P, S>, s: Step<P>, pos: nat)
    requires StuckAt(c, w, pos)
    requires c.deadLetter || w.dead == map[]
    ensures StuckAt(c, Next(c, w, s), pos) && (c.deadLetter || Next(c, w, s).dead == map[])
  {
    NextKeepsInv(c, w, s);
  }

  lemma {:induction false} StaysStuck<P, S>(c: Conf<P, S>, w: World<P, S>, steps: seq<Step<P>>, pos: nat)
    requires StuckAt(c, w, pos) && (c.deadLetter || w.dead == map[])
    ensures StuckAt(c, Exec(c, w, steps), pos) && (c.deadLetter || Exec(c, w, steps).dead == map[])
    decreases |steps|
  {
    hide StuckAt, Next;
    if steps != [] {
      StaysStuck(c, w, steps[..|steps| - 1], pos);
      NextKeepsStuck(c, Exec(c, w, steps[..|steps| - 1]), steps[|steps| - 1], pos);
    }
  }

  /** The shortest way past a passable message, from any point of the loop: restart, deliver, complete, commit. */
  function WayPast<P, S>(c: Conf<P, S>, msg: Message<P>): seq<Step<P>> {
    [Interrupt(false)] + [Start] + [Deliver]
    + [Completion(c, msg)] + [CommitReturns]
  }

  lemma ExecFive<P, S>(c: Conf<P, S>, w: World<P, S>, s1: Step<P>, s2: Step<P>, s3: Step<P>, s4: Step<P>, s5: Step<P>)
    ensures Exec(c, w, [s1] + [s2] + [s3] + [s4] + [s5])
        == Next(c, Next(c, Next(c, Next(c, Next(c, w, s1), s2), s3), s4), s5)
  {
    hide Next;
    assert [] + [s1] == [s1];
    ExecSnoc(c, w, [], s1);
    ExecSnoc(c, w, [s1], s2);
    ExecSnoc(c, w, [s1] + [s2], s3);
    ExecSnoc(c, w, [s1] + [s2] + [s3], s4);
    ExecSnoc(c, w, [s1] + [s2] + [s3] + [s4], s5);
  }

  function Completion<P, S>(c: Conf<P, S>, msg: Message<P>): Step<P> {
    if msg.body.Some? && c.maxRetries >= 1 then HandlerReturns else DlqAccepts
  }

  lemma Redelivered<P, S>(c: Conf<P, S>, w: World<P, S>)
    requires Inv(c, w) && (w.committed.Some? || c.earliest) && Frontier(w) < |w.log|
    ensures var polling := Next(c, Next(c, w, Interrupt(false)), Start);
            polling.phase == Polling(Frontier(w)) && polling.log == w.log
  {
  }

  lemma Completed<P, S>(c: Conf<P, S>, w: World<P, S>, pos: nat)
    requires w.phase == Polling(pos) && pos < |w.log| && Passable(c, w.log[pos])
    ensures Next(c, Next(c, Next(c, w, Deliver), Completion(c, w.log[pos])), CommitReturns).committed == Some(pos + 1)
  {
  }

  lemma WayPastPasses<P, S>(c: Conf<P, S>, w: World<P, S>)
    requires Inv(c, w) && (w.committed.Some? || c.earliest)
    requires Frontier(w) < |w.log| && Passable(c, w.log[Frontier(w)])
    ensures Exec(c, w, WayPast(c, w.log[Frontier(w)])).committed == Some(Frontier(w) + 1)
  {
    hide Next, Inv, Exec, Passable, Completion;
    Redelivered(c, w);
    Completed(c, Next(c, Next(c, w, Interrupt(false)), Start), Frontier(w));
    ExecFive(c, w, Interrupt(false), Start, Deliver, Completion(c, w.log[Frontier(w)]), CommitReturns);
  }

  /** A partition can advance past the message its group is at if and only if that message is passable. A
      correlation header that does not decode raises outside every handler of the loop, so such a message wedges
      the partition: no run whatever commits past it. */
  lemma AdvancesIffPassable<P, S>(c: Conf<P, S>, store: S, before: seq<Step<P>>)
    requires var w := Exec(c, Initial(store), before);
             Frontier(w) < |w.log| && (w.committed.Some? || c.earliest)
    ensures var w := Exec(c, Initial(store), before);
            (exists steps: seq<Step<P>> :: Frontier(Exec(c, w, steps)) > Frontier(w))
                <==> Passable(c, w.log[Frontier(w)])
  {
    var w := Exec(c, Initial(store), before);
    ExecKeepsInv(c, store, before);
    DeadNeedsQueue(c, store, before);
    if Passable(c, w.log[Frontier(w)]) {
      WayPastPasses(c, w);
      assert Frontier(Exec(c, w, WayPast(c, w.log[Frontier(w)]))) > Frontier(w);
    } else {
      forall steps: seq<Step<P>> ensures Frontier(Exec(c, w, steps)) == Frontier(w) {
        StaysStuck(c, w, steps, Frontier(w));
      }
    }
  }

  /** With `latest` nothing is promised before the first commit: a message that arrives while the group
      is down is skipped. */
  lemma LatestSkipsBeforeFirstCommit<P, S>(c: Conf<P, S>, store: S, payload: P)
    requires !c.earliest && c.maxRetries > 0
    ensures var msg := Message(true, Some(payload));
            var steps: seq<Step<P>> := [Start] + [Interrupt(false)] + [Produce(msg)] + [Start] + [Produce(msg)]
                + [Deliver]
                         + [HandlerReturns] + [CommitReturns];
            var w := Exec(c, Initial(store), steps);
            w.committed == Some(2) && !Done(w, 0)
  {
    var msg := Message(true, Some(payload));
    var w0: World<P, S> := Initial(store);
    var s: seq<Step<P>> := [Start];
    ExecSnoc(c, w0, [], Start);
    assert [] + s == s;
    ExecSnoc(c, w0, s, Interrupt(false));
    s := s + [Interrupt(false)];
    ExecSnoc(c, w0, s, Produce(msg));
    s := s + [Produce(msg)];
    ExecSnoc(c, w0, s, Start);
    s := s + [Start];
    assert Exec(c, w0, s) == World([msg], None, store, {}, map[], Polling(1), 1, 0, 0);
    ExecSnoc(c, w0, s, Produce(msg));
    s := s + [Produce(msg)];
    ExecSnoc(c, w0, s, Deliver);
    s := s + [Deliver];
    assert Exec(c, w0, s).phase == Handling(1, 1);
    ExecSnoc(c, w0, s, HandlerReturns);
    s := s + [HandlerReturns];
    ExecSnoc(c, w0, s, CommitReturns);
  }

  /** And conversely: an offset below the one the group started from is done only if an earlier life completed it
      before anything was committed. */
  lemma {:induction false} DoneBelowFirst<P, S>(c: Conf<P, S>, store: S, steps: seq<Step<P>>, o: nat)
    requires var w := Exec(c, Initial(store), steps); Done(w, o) && o < w.first
    ensures exists k :: 0 <= k <= |steps| && DoneBeforeCommit(c, store, steps[..k], o)
    decreases |steps|
  {
    hide Next;
    if steps != [] {
      var front := steps[..|steps| - 1];
      var w0 := Exec(c, Initial(store), front);
      ExecKeepsInv(c, store, front);
      StepCompletes(c, w0, steps[|steps| - 1], o);
      if w0.committed.None? {
        assert DoneBeforeCommit(c, store, steps[..|steps| - 1], o);
      } else {
        DoneBelowFirst(c, store, front, o);
        var k :| 0 <= k <= |front| && DoneBeforeCommit(c, store, front[..k], o);
        assert front[..k] == steps[..k];
      }
    }
  }

  predicate DoneBeforeCommit<P, S>(c: Conf<P, S>, store: S, steps: seq<Step<P>>, o: nat) {
    var w := Exec(c, Initial(store), steps);
    w.committed.None? && Done(w, o)
  }

  /** A step completes nothing below where the group started from. */
  lemma StepCompletes<P, S>(c: Conf<P, S>, w: World<P, S>, s: Step<P>, o: nat)
    requires Inv(c, w)
    ensures var w' := Next(c, w, s);
            && (w.committed.Some? ==> w'.first == w.first)
            && (Done(w', o) && o < w'.first ==> Done(w, o))
  {
  }

  /** What one life of the process leaves behind, for any run that ends with it. */
  lemma OneLife<P, S>(c: Conf<P, S>, store: S, before: seq<Step<P>>, after: seq<Step<P>>)
    requires before <= after
    ensures var w0, w := Exec(c, Initial(store), before), Exec(c, Initial(store), after);
            && Grows(w0, w)
            && (w.committed.Some? ==>
                  forall o: nat :: (if c.earliest then 0 else w.first) <= o < w.committed.value ==> Done(w, o))
  {
    ExecKeepsInv(c, store, after);
    assert after[..|before|] == before;
    CommitsMonotone(c, store, after, |before|);
  }

  // ----- The loop itself -----

  /** How the environment answers one await of the loop. */
  datatype Answer<P> =
    | Arrives(msg: Message<P>)
    | Succeeds
    | Fails(applied: bool)
    | Dies(applied: bool)

  predicate Breaks<P>(a: Answer<P>) {
    a.Fails? || a.Dies?
  }

  /** An environment in which no await fails and every message that arrives has a header that decodes. */
  ghost predicate Smooth<P>(answers: seq<Answer<P>>) {
    forall i :: 0 <= i < |answers| ==> answers[i].Succeeds? || (answers[i].Arrives? && answers[i].msg.headerOk)
  }

  ghost predicate HeadersOk<P>(log: seq<Message<P>>) {
    forall i :: 0 <= i < |log| ==> log[i].headerOk
  }

  /** The answers not used so far, after some more were used up. */
  ghost predicate Used<P>(before: seq<Answer<P>>, after: seq<Answer<P>>) {
    |after| <= |before| && after == before[|before| - |after|..]
  }

  /** The last answer used failed or ended the process. */
  ghost predicate BrokeOff<P>(before: seq<Answer<P>>, after: seq<Answer<P>>) {
    |after| < |before| && Breaks(before[|before| - |after| - 1])
  }

  ghost predicate BrokenOff<P>(before: seq<Answer<P>>, after: seq<Answer<P>>) {
    after == [] || BrokeOff(before, after)
  }

  lemma SmoothNeverBreaks<P>(before: seq<Answer<P>>, after: seq<Answer<P>>)
    requires Smooth(before) && Used(before, after)
    ensures Smooth(after) && !BrokeOff(before, after)
  {
  }

  /** The first n answers say that the handler failed, each leaving more than `stopAt` answers. */
  ghost predicate FailsFirst<P>(answers: seq<Answer<P>>, stopAt: nat, n: nat) {
    n <= |answers| && forall i :: 0 <= i < n ==> answers[i].Fails? && |answers| - i - 1 > stopAt
  }

  /** The handler returns on attempt k, counted from 0, after failing on those before without the service stopping. */
  ghost predicate ReturnsAt<P>(answers: seq<Answer<P>>, maxRetries: nat, stopAt: nat, k: nat) {
    k < |answers| && k < maxRetries && !Breaks(answers[k]) && FailsFirst(answers, stopAt, k)
  }

  /** Attempt k, counted from 0, got no answer, ended the process, or failed with the service stopping. */
  ghost predicate GivesUpAt<P>(answers: seq<Answer<P>>, stopAt: nat, k: nat) {
    k >= |answers| || answers[k].Dies? || (answers[k].Fails? && |answers| - k - 1 <= stopAt)
  }

  lemma GivenUp<P>(answers: seq<Answer<P>>, maxRetries: nat, stopAt: nat, a: nat)
    requires a < maxRetries && GivesUpAt(answers, stopAt, a)
    requires FailsFirst(answers, stopAt, a)
    ensures forall k :: !ReturnsAt(answers, maxRetries, stopAt, k)
    ensures !FailsFirst(answers, stopAt, maxRetries)
  {
  }

  /** No message was fetched between the first trace and the second, and no more answers are left now than were at
      any step between. */
  ghost predicate OneMessage<P>(trace0: seq<Step<P>>, left0: seq<nat>, trace: seq<Step<P>>, left: seq<nat>,
                                remaining: nat) {
    && trace0 <= trace && left0 <= left && |left| == |trace| && |left0| == |trace0|
    && forall i :: |trace0| <= i < |trace| ==> !trace[i].Deliver? && left[i] >= remaining
  }

  lemma SmoothFirst<P>(answers: seq<Answer<P>>)
    requires Smooth(answers)
    ensures answers != [] ==> !Breaks(answers[0])
  {
  }

  lemma FirstBreaks<P>(before: seq<Answer<P>>)
    requires before != [] && Breaks(before[0])
    ensures BrokeOff(before, before[1..])
  {
  }

  lemma NothingYet<P>(trace: seq<Step<P>>, left: seq<nat>, answers: seq<Answer<P>>)
    requires |left| == |trace|
    ensures OneMessage(trace, left, trace, left, |answers|) && Used(answers, answers)
  {
  }

  lemma UsedFurther<P>(a: seq<Answer<P>>, b: seq<Answer<P>>, c: seq<Answer<P>>)
    requires Used(a, b) && Used(b, c)
    ensures Used(a, c) && |c| <= |b| && (BrokeOff(b, c) ==> BrokeOff(a, c)) && (BrokenOff(b, c) ==> BrokenOff(a, c))
  {
  }

  lemma OneMessageFurther<P>(t0: seq<Step<P>>, l0: seq<nat>, t1: seq<Step<P>>, l1: seq<nat>, r1: nat,
                             t2: seq<Step<P>>, l2: seq<nat>, r2: nat)
    requires OneMessage(t0, l0, t1, l1, r1) && OneMessage(t1, l1, t2, l2, r2) && r2 <= r1
    ensures OneMessage(t0, l0, t2, l2, r2)
  {
  }

  /** As `OneMessage`, but the first step may fetch the message. */
  ghost predicate FetchesFirst<P>(trace0: seq<Step<P>>, left0: seq<nat>, trace: seq<Step<P>>, left: seq<nat>,
                                  remaining: nat) {
    && trace0 <= trace && left0 <= left && |left| == |trace| && |left0| == |trace0|
    && forall i :: |trace0| <= i < |trace| ==> (trace[i].Deliver? ==> i == |trace0|) && left[i] >= remaining
  }

  lemma FetchedNone<P>(t0: seq<Step<P>>, l0: seq<nat>, s: Step<P>, r: nat)
    requires |l0| == |t0|
    ensures FetchesFirst(t0, l0, t0 + [s], l0 + [r], r) && FetchesFirst(t0, l0, t0, l0, r)
  {
  }

  lemma FetchedFirst<P>(t0: seq<Step<P>>, l0: seq<nat>, t1: seq<Step<P>>, l1: seq<nat>, r1: nat,
                        t2: seq<Step<P>>, l2: seq<nat>, r2: nat)
    requires |l0| == |t0| && (exists s :: t1 == t0 + [s]) && l1 == l0 + [r1] && r2 <= r1
    requires OneMessage(t1, l1, t2, l2, r2)
    ensures FetchesFirst(t0, l0, t2, l2, r2) && t0 <= t2
  {
  }

  /** The step is part of handling a message. */
  predicate OfMessage<P>(s: Step<P>) {
    !s.Start? && !s.Produce?
  }

  /** From step n on, no message is fetched after one that ended with at most `stopAt` answers left. */
  ghost predicate StopsInTime<P>(trace: seq<Step<P>>, left: seq<nat>, n: nat, stopAt: nat) {
    && |left| == |trace|
    && forall i, j :: n <= i < j < |trace| && OfMessage(trace[i]) && trace[j].Deliver? ==> left[i] > stopAt
  }

  /** From step n on, all messages were handled with more than `stopAt` answers left. */
  ghost predicate Early<P>(trace: seq<Step<P>>, left: seq<nat>, n: nat, stopAt: nat) {
    |left| == |trace| && forall i :: n <= i < |trace| && OfMessage(trace[i]) ==> left[i] > stopAt
  }

  lemma NothingFetched<P>(trace: seq<Step<P>>, left: seq<nat>, stopAt: nat)
    requires |left| == |trace|
    ensures StopsInTime(trace, left, |trace|, stopAt) && Early(trace, left, |trace|, stopAt)
  {
  }

  /** The step that starts the process is no part of handling a message. */
  lemma StopsFromStart<P>(trace0: seq<Step<P>>, trace: seq<Step<P>>, left: seq<nat>, stopAt: nat)
    requires trace0 + [Start] <= trace && StopsInTime(trace, left, |trace0| + 1, stopAt)
    ensures StopsInTime(trace, left, |trace0|, stopAt)
  {
    assert trace[|trace0|] == Start;
  }

  lemma StopsFurther<P>(t1: seq<Step<P>>, l1: seq<nat>, t2: seq<Step<P>>, l2: seq<nat>, r: nat, n: nat, stopAt: nat)
    requires n <= |t1| && StopsInTime(t1, l1, n, stopAt) && Early(t1, l1, n, stopAt)
    requires FetchesFirst(t1, l1, t2, l2, r)
    ensures StopsInTime(t2, l2, n, stopAt)
    ensures r > stopAt || (forall i :: |t1| <= i < |t2| ==> t2[i].Produce?) ==> Early(t2, l2, n, stopAt)
  {
  }

  lemma StopsSnoc<P>(trace: seq<Step<P>>, left: seq<nat>, n: nat, stopAt: nat, r: nat)
    requires StopsInTime(trace, left, n, stopAt)
    ensures StopsInTime(trace + [Interrupt(false)], left + [r], n, stopAt)
  {
  }

  /** The store after the handler has run once on each body from offset p up to f, in order. */
  function Folded<P, S>(c: Conf<P, S>, log: seq<Message<P>>, p: nat, f: nat, store: S): S
    requires f <= |log|
  {
    if f <= p then store else
      var before := Folded(c, log, p, f - 1, store);
      if log[f - 1].body.Some? then c.effect(log[f - 1].body.value, before) else before
  }

  lemma {:induction false} FoldedPrefix<P, S>(c: Conf<P, S>, log: seq<Message<P>>, more: seq<Message<P>>, p: nat,
                                              f: nat, store: S)
    requires f <= |log|
    ensures Folded(c, log + more, p, f, store) == Folded(c, log, p, f, store)
  {
    if f > p {
      FoldedPrefix(c, log, more, p, f - 1, store);
    }
  }

  /** A stretch of a life in which nothing failed moved the group from offset p to q: each message in between that
      has a body was handled once and in order, and only bodiless ones were dead-lettered. A life that ends in the
      middle of a message may have handled that one too. */
  ghost predicate MovedTo<P, S>(c: Conf<P, S>, w0: World<P, S>, w: World<P, S>, p: nat, q: nat, whole: bool) {
    && w0.log <= w.log && p <= q <= |w.log| && w0.handled <= w.handled
    && (forall o: nat :: o in w.dead && o !in w0.dead ==> o < |w.log| && w.log[o].body.None?)
    && (forall o: nat :: p <= o < q && w.log[o].body.Some? ==> o in w.handled)
    && w.committed == (if q > p then Some(q) else w0.committed)
    && (w.store == Folded(c, w.log, p, q, w0.store)
        || (!whole && q < |w.log| && w.store == Folded(c, w.log, p, q + 1, w0.store)))
  }

  lemma NotMoved<P, S>(c: Conf<P, S>, w0: World<P, S>, w: World<P, S>, p: nat, whole: bool)
    requires w == w0.(log := w.log, phase := w.phase) && w0.log <= w.log && p <= |w.log|
    ensures MovedTo(c, w0, w, p, p, whole)
  {
  }

  lemma MovedPast<P, S>(c: Conf<P, S>, w0: World<P, S>, w: World<P, S>, p: nat, q: nat, whole: bool)
    requires w.log == w0.log && p < |w.log| && p <= q <= p + 1 && w0.handled <= w.handled
    requires w.dead == w0.dead
             || (w.log[p].body.None? && p in w.dead && w.dead == w0.dead[p := w.dead[p]])
    requires w.committed == (if q > p then Some(q) else w0.committed)
    requires q > p && w.log[p].body.Some? ==> p in w.handled
    requires w.store == (if q > p && w.log[p].body.Some? then c.effect(w.log[p].body.value, w0.store) else w0.store)
             || (!whole && q == p && w.log[p].body.Some? && w.store == c.effect(w.log[p].body.value, w0.store))
    ensures MovedTo(c, w0, w, p, q, whole)
  {
    assert Folded(c, w.log, p, p, w0.store) == w0.store;
  }

  lemma {:induction false} FoldedFrom<P, S>(c: Conf<P, S>, log: seq<Message<P>>, p: nat, m: nat, q: nat, store: S)
    requires p <= m <= q <= |log|
    ensures Folded(c, log, m, q, Folded(c, log, p, m, store)) == Folded(c, log, p, q, store)
  {
    if q > m {
      FoldedFrom(c, log, p, m, q - 1, store);
    }
  }

  lemma MovedFurther<P, S>(c: Conf<P, S>, w0: World<P, S>, w1: World<P, S>, w2: World<P, S>, p: nat, m: nat, q: nat,
                           whole: bool)
    requires MovedTo(c, w0, w1, p, m, true) && MovedTo(c, w1, w2, m, q, whole)
    ensures MovedTo(c, w0, w2, p, q, whole)
  {
    hide Folded;
    assert w2.log == w1.log + w2.log[|w1.log|..];
    FoldedPrefix(c, w1.log, w2.log[|w1.log|..], p, m, w0.store);
    FoldedFrom(c, w2.log, p, m, q, w0.store);
    if q < |w2.log| {
      FoldedFrom(c, w2.log, p, m, q + 1, w0.store);
    }
  }

  /** What that says of a world in full. */
  lemma Moved<P, S>(c: Conf<P, S>, w0: World<P, S>, w: World<P, S>, p: nat, q: nat, whole: bool)
    requires MovedTo(c, w0, w, p, q, whole) && (w0.committed.Some? ==> w0.committed.value == p)
    ensures var q' := if w.committed.Some? then w.committed.value else p;
            && p <= q' <= |w.log|
            && (forall o: nat :: o in w.dead && o !in w0.dead ==> o < |w.log| && w.log[o].body.None?)
            && (forall o: nat :: p <= o < q' && w.log[o].body.Some? ==> o in w.handled)
            && (w.store == Folded(c, w.log, p, q', w0.store)
                || (q' < |w.log| && w.store == Folded(c, w.log, p, q' + 1, w0.store)))
  {
  }

  lemma Started<P, S>(c: Conf<P, S>, store: S, steps: seq<Step<P>>)
    requires Exec(c, Initial(store), steps).phase.Down?
    ensures var w := Exec(c, Initial(store), steps);
            var w', p := Next(c, w, Start), StartPosition(c, w);
            w' == w.(phase := Polling(p), first := w'.first) && p <= |w.log|
  {
    ExecKeepsInv(c, store, steps);
  }

  lemma Produced<P, S>(c: Conf<P, S>, w: World<P, S>, msg: Message<P>)
    ensures Next(c, w, Produce(msg)) == w.(log := w.log + [msg])
  {
  }

  lemma Delivered<P, S>(c: Conf<P, S>, w: World<P, S>)
    requires w.phase.Polling? && w.phase.pos < |w.log|
    ensures var off := w.phase.pos;
            Next(c, w, Deliver) == w.(phase :=
              if !w.log[off].headerOk then Down
              else if w.log[off].body.None? then Diverting(off, Undecodable)
              else if c.maxRetries == 0 then Diverting(off, Exhausted(0))
              else Handling(off, 1))
  {
  }

  lemma Interrupted<P, S>(c: Conf<P, S>, w: World<P, S>)
    requires w.phase.Polling?
    ensures Next(c, w, Interrupt(false)) == w.(phase := Down)
  {
  }

  lemma BadHeader<P>(log: seq<Message<P>>, off: nat)
    requires off < |log| && !log[off].headerOk
    ensures !HeadersOk(log)
  {
  }

  lemma HeadersOkPrefix<P>(log: seq<Message<P>>, longer: seq<Message<P>>)
    requires log <= longer && HeadersOk(longer)
    ensures HeadersOk(log)
  {
  }

  class Consumer<P(!new), S(!new)> {
    const conf: Conf<P, S>
    var log: seq<Message<P>>
    var committed: Option<nat>
    var store: S
    /** Answers not yet used; when they run out the process dies. */
    var answers: seq<Answer<P>>
    ghost const store0: S
    ghost var trace: seq<Step<P>>
    /** How many answers were left when each step of the trace was made. */
    ghost var left: seq<nat>
    ghost var world: World<P, S>

    ghost predicate Valid()
      reads this
    {
      && world == Exec(conf, Initial(store0), trace)
      && world.log == log && world.committed == committed && world.store == store
      && |left| == |trace|
    }

    constructor (conf: Conf<P, S>, store: S)
      ensures Valid() && trace == [] && this.conf == conf && this.store == store && store0 == store
      ensures committed == None && log == [] && answers == []
    {
      this.conf, this.store, this.store0 := conf, store, store;
      log, committed, answers := [], None, [];
      trace, left, world := [], [], Initial(store);
    }

    /** Records a step of the trace whose effect on the real fields the caller has made. */
    ghost method Record(s: Step<P>)
      requires world == Exec(conf, Initial(store0), trace)
      modifies this`trace, this`left, this`world
      ensures trace == old(trace) + [s] && left == old(left) + [|answers|] && world == Next(conf, old(world), s)
      ensures world == Exec(conf, Initial(store0), trace)
    {
      ExecSnoc(conf, Initial(store0), trace, s);
      trace, left := trace + [s], left + [|answers|];
      world := Next(conf, world, s);
    }

    method NextAnswer() returns (a: Answer<P>)
      modifies this`answers
      ensures old(answers) == [] ==> a == Dies(false) && answers == []
      ensures old(answers) != [] ==> a == old(answers)[0] && answers == old(answers)[1..]
    {
      if answers == [] {
        return Dies(false);
      }
      a := answers[0];
      answers := answers[1..];
    }

    /** `await handler(payload, cid)` inside its try block; the stop event is looked at when it raised. */
    method AwaitHandler(off: nat, attempt: nat, stopAt: nat) returns (handled: bool, alive: bool)
      requires Valid() && world.phase == Handling(off, attempt) && off < |log| && log[off].headerOk
          && log[off].body.Some?
      modifies this
      ensures Valid() && OneMessage(old(trace), old(left), trace, left, |answers|)
      ensures log == old(log) && committed == old(committed)
      ensures answers == if old(answers) == [] then [] else old(answers)[1..]
      ensures old(answers) == [] ==> !handled && !alive && world == old(world).(phase := Down)
      ensures old(answers) != [] && !Breaks(old(answers)[0]) ==>
                && handled && alive && store == conf.effect(log[off].body.value, old(store))
                && world == old(world).(store := store, handled := old(world).handled + {off},
                                        phase := Committing(off), completions := old(world).completions + 1)
      ensures old(answers) != [] && Breaks(old(answers)[0]) ==>
                && !handled && alive == old(answers)[0].Fails?
                && store == (if old(answers)[0].applied then conf.effect(log[off].body.value, old(store))
                             else old(store))
                && world == old(world).(store := store,
                      phase := if !alive then Down
                               else if |answers| <= stopAt then Diverting(off, Stopped(attempt))
                               else if attempt < conf.maxRetries then Handling(off, attempt + 1)
                               else Diverting(off, Exhausted(attempt)))
    {
      hide Exec;
      var a := NextAnswer();
      match a
      case Fails(applied) =>
        if applied {
          store := conf.effect(log[off].body.value, store);
        }
        Record(HandlerFails(applied, |answers| <= stopAt));
        handled, alive := false, true;
      case Dies(applied) =>
        if applied {
          store := conf.effect(log[off].body.value, store);
        }
        Record(Interrupt(applied));
        handled, alive := false, false;
      case _ =>
        store := conf.effect(log[off].body.value, store);
        Record(HandlerReturns);
        handled, alive := true, true;
    }

    /** `_to_dead_letter`: without a producer, or when the publish raises, it returns False. */
    method ToDeadLetter(off: nat) returns (ok: bool, alive: bool)
      requires Valid() && world.phase.Diverting? && world.phase.off == off
      modifies this
      ensures Valid() && OneMessage(old(trace), old(left), trace, left, |answers|)
      ensures log == old(log) && committed == old(committed) && store == old(store)
      ensures answers == if !conf.deadLetter then old(answers) else if old(answers) == [] then [] else old(answers)[1..]
      ensures !conf.deadLetter ==> !ok && alive && world == old(world).(phase := Polling(off))
      ensures conf.deadLetter && old(answers) == [] ==> !ok && !alive && world == old(world).(phase := Down)
      ensures conf.deadLetter && old(answers) != [] && !Breaks(old(answers)[0]) ==>
                && ok && alive
                && world == old(world).(dead := old(world).dead[off := old(world).phase.cause],
                                        phase := Committing(off), completions := old(world).completions + 1)
      ensures conf.deadLetter && old(answers) != [] && Breaks(old(answers)[0]) ==>
                && !ok && alive == old(answers)[0].Fails?
                && world == old(world).(dead := if old(answers)[0].applied
                                                then old(world).dead[off := old(world).phase.cause]
                                                else old(world).dead,
                                        phase := if alive then Polling(off) else Down)
    {
      hide Exec;
      if !conf.deadLetter {
        Record(DlqFails(false));
        return false, true;
      }
      var a := NextAnswer();
      match a
      case Fails(applied) =>
        Record(DlqFails(applied));
        return false, true;
      case Dies(applied) =>
        Record(Interrupt(applied));
        return false, false;
      case _ =>
        Record(DlqAccepts);
        return true, true;
    }

    /** `await consumer.commit(commit)`: an exception leaves the loop, whether the commit was made or not. */
    method AwaitCommit(off: nat) returns (alive: bool)
      requires Valid() && world.phase == Committing(off)
      modifies this
      ensures Valid() && OneMessage(old(trace), old(left), trace, left, |answers|)
      ensures log == old(log) && store == old(store)
      ensures answers == if old(answers) == [] then [] else old(answers)[1..]
      ensures alive <==> old(answers) != [] && !Breaks(old(answers)[0])
      ensures committed == if alive || (old(answers) != [] && old(answers)[0].applied) then Some(off + 1)
                           else old(committed)
      ensures var made := alive || (old(answers) != [] && old(answers)[0].applied);
              world == old(world).(committed := committed, phase := if alive then Polling(off + 1) else Down,
                                   wasted := old(world).wasted + if made then 0 else 1)
    {
      hide Exec;
      var a := NextAnswer();
      if a.Fails? || a.Dies? {
        if a.applied {
          committed := Some(off + 1);
        }
        Record(Interrupt(a.applied));
        return false;
      }
      committed := Some(off + 1);
      Record(CommitReturns);
      return true;
    }

    /** Retries with the handler until it returns, the attempts are used up or the service is stopping. */
    method TryHandler(off: nat, stopAt: nat) returns (handled: bool, alive: bool)
      requires Valid() && off < |log| && log[off].headerOk && log[off].body.Some?
      requires world.phase == if conf.maxRetries == 0 then Diverting(off, Exhausted(0)) else Handling(off, 1)
      modifies this
      ensures Valid() && OneMessage(old(trace), old(left), trace, left, |answers|)
      ensures log == old(log) && committed == old(committed) && world.dead == old(world).dead
      ensures Used(old(answers), answers) && (!alive ==> BrokenOff(old(answers), answers))
      ensures handled <==> exists k :: ReturnsAt(old(answers), conf.maxRetries, stopAt, k)
      ensures world.handled == if handled then old(world).handled + {off} else old(world).handled
      ensures handled ==> alive
      ensures FailsFirst(old(answers), stopAt, conf.maxRetries) ==>
                alive && answers == old(answers)[conf.maxRetries..]
                && world.phase == Diverting(off, Exhausted(conf.maxRetries))
      ensures if !alive then world.phase == Down else if handled then world.phase == Committing(off)
              else world.phase.Diverting? && world.phase.off == off
      ensures old(answers) != [] && !Breaks(old(answers)[0]) && conf.maxRetries > 0
              ==> handled && store == conf.effect(log[off].body.value, old(store))
      ensures old(answers) == [] ==> store == old(store) && (conf.maxRetries > 0 ==> !alive)
    {
      hide Exec, Inv;
      ghost var answers0 := answers;
      handled, alive := false, true;
      var attempt := 1;
      var trying := true;
      while trying && attempt <= conf.maxRetries
        invariant Valid() && OneMessage(old(trace), old(left), trace, left, |answers|)
        invariant log == old(log) && committed == old(committed) && world.dead == old(world).dead
        invariant 1 <= attempt <= conf.maxRetries + 1
        invariant Used(answers0, answers)
        invariant FailsFirst(answers0, stopAt, attempt - 1)
        invariant trying ==> alive && !handled && |answers0| == |answers| + attempt - 1
        invariant trying ==> world.phase == if attempt <= conf.maxRetries then Handling(off, attempt)
                                            else Diverting(off, Exhausted(conf.maxRetries))
        invariant attempt == 1 && trying ==> store == old(store)
        invariant !trying ==> attempt <= conf.maxRetries
        invariant !trying && handled ==> ReturnsAt(answers0, conf.maxRetries, stopAt, attempt - 1)
        invariant !trying && handled ==> alive && world.phase == Committing(off)
        invariant !trying && !handled ==> GivesUpAt(answers0, stopAt, attempt - 1)
        invariant !trying && !handled ==> if alive then world.phase == Diverting(off, Stopped(attempt))
                                          else world.phase == Down && BrokenOff(answers0, answers)
        invariant world.handled == if handled then old(world).handled + {off} else old(world).handled
        invariant !trying && attempt == 1 && handled ==> store == conf.effect(log[off].body.value, old(store))
        invariant !trying && answers0 == [] ==> !alive && store == old(store)
        decreases trying, conf.maxRetries + 1 - attempt
      {
        ghost var rest := answers;
        assert rest == answers0[attempt - 1..];
        handled, alive := AwaitHandler(off, attempt, stopAt);
        assert rest != [] ==> rest[0] == answers0[attempt - 1];
        if !alive || handled || |answers| <= stopAt {
          trying := false;
        } else {
          attempt := attempt + 1;
        }
      }
      if !trying && !handled {
        GivenUp(answers0, conf.maxRetries, stopAt, attempt - 1);
      }
    }

    /** A message that was handled is committed; any other is dead-lettered and committed, or replayed. */
    method Settle(off: nat, handled: bool) returns (position: nat, alive: bool)
      requires Valid()
      requires if handled then world.phase == Committing(off) else world.phase.Diverting? && world.phase.off == off
      modifies this
      ensures Valid() && OneMessage(old(trace), old(left), trace, left, |answers|)
      ensures log == old(log) && store == old(store) && world.handled == old(world).handled
      ensures Used(old(answers), answers) && (!alive ==> BrokenOff(old(answers), answers))
      ensures world.phase == if alive then Polling(position) else Down
      ensures world.dead == old(world).dead
              || (!handled && world.dead == old(world).dead[off := old(world).phase.cause])
      ensures !handled && conf.deadLetter && old(answers) != [] && !Breaks(old(answers)[0])
              ==> world.dead == old(world).dead[off := old(world).phase.cause]
      ensures committed == old(committed) || committed == Some(off + 1)
      ensures alive ==> (position == off + 1 && committed == Some(off + 1))
                        || (position == off && !handled && committed == old(committed))
      ensures !alive && committed != old(committed) ==> BrokeOff(old(answers), answers)
    {
      hide Exec, Next;
      position, alive := off, true;
      if !handled {
        var accepted;
        accepted, alive := ToDeadLetter(off);
        if !alive || !accepted {
          // seek(tp, msg.offset): replay it, do not commit
          return;
        }
      }
      alive := AwaitCommit(off);
      position := off + 1;
    }

    /** The body of the loop for the message at `off`. */
    method HandleMessage(off: nat, stopAt: nat) returns (position: nat, alive: bool)
      requires Valid() && off < |log| && log[off].headerOk
      requires world.phase == if log[off].body.None? then Diverting(off, Undecodable)
                              else if conf.maxRetries == 0 then Diverting(off, Exhausted(0)) else Handling(off, 1)
      modifies this
      ensures Valid() && OneMessage(old(trace), old(left), trace, left, |answers|) && log == old(log)
      ensures Used(old(answers), answers) && (!alive ==> BrokenOff(old(answers), answers))
      ensures world.phase == if alive then Polling(position) else Down
      ensures var served := log[off].body.Some? && (exists k :: ReturnsAt(old(answers), conf.maxRetries, stopAt, k));
              && world.handled == (if served then old(world).handled + {off} else old(world).handled)
              && (served ==> world.dead == old(world).dead)
      ensures log[off].body.Some? && FailsFirst(old(answers), stopAt, conf.maxRetries) && conf.deadLetter
              && conf.maxRetries < |old(answers)| && !Breaks(old(answers)[conf.maxRetries])
              ==> world.dead == old(world).dead[off := Exhausted(conf.maxRetries)]
      ensures world.dead == old(world).dead
              || (off in world.dead && world.dead == old(world).dead[off := world.dead[off]])
      ensures log[off].body.None? ==> store == old(store)
      ensures log[off].body.Some? && conf.maxRetries > 0 && old(answers) != [] && !Breaks(old(answers)[0]) ==>
                && store == conf.effect(log[off].body.value, old(store))
                && world.handled == old(world).handled + {off} && world.dead == old(world).dead
      ensures log[off].body.Some? && conf.maxRetries > 0 && old(answers) == []
              ==> !alive && store == old(store) && world.dead == old(world).dead
      ensures committed == old(committed) || committed == Some(off + 1)
      ensures !alive && committed != old(committed) ==> BrokeOff(old(answers), answers)
      ensures alive ==> (position == off + 1 && committed == Some(off + 1))
                        || (position == off && committed == old(committed) && world.handled == old(world).handled)
      ensures alive && position == off && log[off].body.Some? && conf.maxRetries > 0
              ==> old(answers) != [] && Breaks(old(answers)[0])
    {
      hide Exec, Next, ReturnsAt, OneMessage, BrokeOff, BrokenOff, FailsFirst, Used, Breaks;
      NothingYet(trace, left, answers);
      var handled := false;
      if log[off].body.Some? {
        handled, alive := TryHandler(off, stopAt);
        if !alive {
          return off, false;
        }
      }
      ghost var t1, l1, a1 := trace, left, answers;
      position, alive := Settle(off, handled);
      UsedFurther(old(answers), a1, answers);
      OneMessageFurther(old(trace), old(left), t1, l1, |a1|, trace, left, |answers|);
    }

    /** The next message is fetched and handled. Decoding its correlation header may raise and leave the loop. */
    method FetchMessage(position0: nat, stopAt: nat) returns (position: nat, alive: bool)
      requires Valid() && world.phase == Polling(position0) && position0 < |log|
      modifies this
      ensures Valid() && log == old(log) && Used(old(answers), answers)
      ensures world.phase == if alive then Polling(position) else Down
      ensures !alive ==> BrokenOff(old(answers), answers) || !HeadersOk(log)
      ensures old(trace) <= trace
      ensures !log[position0].headerOk ==> !alive && answers == old(answers) && world == old(world).(phase := Down)
      ensures FetchesFirst(old(trace), old(left), trace, left, |answers|)
      ensures alive ==> position0 <= position <= |log|
      ensures Smooth(old(answers)) && HeadersOk(log) && conf.maxRetries > 0
              ==> MovedTo(conf, old(world), world, position0, if alive then position else position0, alive)
    {
      hide Exec, Next, OneMessage, BrokeOff, ReturnsAt, FailsFirst, MovedTo, Smooth, HeadersOk, FetchesFirst;
      ghost var w0, answers0, t0, l0 := world, answers, trace, left;
      Record(Deliver);
      Delivered(conf, w0);
      if !log[position0].headerOk {
        BadHeader(log, position0);
        FetchedNone(t0, l0, Deliver, |answers|);
        return position0, false;
      }
      ghost var t1, l1 := trace, left;
      position, alive := HandleMessage(position0, stopAt);
      FetchedFirst(t0, l0, t1, l1, |answers0|, trace, left, |answers|);
      if Smooth(answers0) && conf.maxRetries > 0 {
        SmoothNeverBreaks(answers0, answers);
        SmoothFirst(answers0);
        MovedPast(conf, w0, world, position0, if alive then position else position0, alive);
      }
    }

    /** `async for`: the next message and its handling, or a wait for one. */
    method AwaitMessage(position0: nat, stopAt: nat) returns (position: nat, alive: bool, consumed: bool)
      requires Valid() && world.phase == Polling(position0) && position0 <= |log| && answers != []
      modifies this
      ensures Valid() && Used(old(answers), answers) && |answers| < |old(answers)|
      ensures old(trace) <= trace
      ensures log == if old(answers)[0].Arrives? then old(log) + [old(answers)[0].msg] else old(log)
      ensures world.phase == if alive then Polling(position) else Down
      ensures consumed <==> old(answers)[0].Succeeds? && position0 < |log|
      ensures !alive ==> BrokenOff(old(answers), answers) || !HeadersOk(log)
      ensures alive && !consumed ==> position == position0 && world == old(world).(log := log)
      ensures FetchesFirst(old(trace), old(left), trace, left, |answers|)
      ensures alive && !consumed ==> forall i :: |old(trace)| <= i < |trace| ==> trace[i].Produce?
      ensures alive ==> position0 <= position <= |log|
      ensures Smooth(old(answers)) && HeadersOk(log) && conf.maxRetries > 0
              ==> MovedTo(conf, old(world), world, position0, if alive then position else position0, alive)
    {
      hide Exec, Next, BrokeOff, MovedTo, Smooth, HeadersOk, FetchesFirst;
      ghost var w0, answers0, t0, l0 := world, answers, trace, left;
      var a := NextAnswer();
      ghost var r1, a1 := |answers|, answers;
      position, alive, consumed := position0, true, false;
      match a
      case Arrives(msg) =>
        log := log + [msg];
        Record(Produce(msg));
        Produced(conf, w0, msg);
        FetchedNone(t0, l0, Produce(msg), r1);
        NotMoved(conf, w0, world, position, true);
      case Succeeds =>
        if position < |log| {
          consumed := true;
          if Smooth(answers0) {
            SmoothNeverBreaks(answers0, a1);
          }
          position, alive := FetchMessage(position, stopAt);
          UsedFurther(answers0, a1, answers);
        } else {
          FetchedNone(t0, l0, Deliver, r1);
          NotMoved(conf, w0, world, position0, alive);
        }
      case _ =>
        Record(Interrupt(false));
        Interrupted(conf, w0);
        FetchedNone(t0, l0, Interrupt(false), r1);
        FirstBreaks(answers0);
        alive := false;
        NotMoved(conf, w0, world, position0, alive);
    }

    /** The loop, from where the group starts. */
    method Loop(start: nat, stopAt: nat) returns (ghost reached: nat, ghost whole: bool)
      requires Valid() && world.phase == Polling(start) && start <= |log|
      modifies this
      ensures Valid() && world.phase == Down && old(trace) <= trace && old(log) <= log
      ensures Used(old(answers), answers)
      ensures |answers| <= stopAt || BrokeOff(old(answers), answers) || !HeadersOk(log)
      ensures StopsInTime(trace, left, |old(trace)|, stopAt)
      ensures Smooth(old(answers)) && HeadersOk(log) && conf.maxRetries > 0
              ==> MovedTo(conf, old(world), world, start, reached, whole)
    {
      hide Done, Smooth, HeadersOk, Exec, Next, BrokeOff, MovedTo, FetchesFirst, StopsInTime, Early, Inv;
      ghost var trace0, answers0, w0 := trace, answers, world;
      NotMoved(conf, w0, world, start, true);
      NothingFetched(trace, left, stopAt);
      reached := start;
      var position: nat := start;
      var alive, stopping := true, false;
      while alive && !stopping && answers != []
        invariant Valid() && trace0 <= trace && old(log) <= log && Used(answers0, answers)
        invariant world.phase == if alive then Polling(position) else Down
        invariant start <= reached <= |log| && (alive ==> position == reached)
        invariant stopping ==> |answers| <= stopAt
        invariant !alive ==> |answers| <= stopAt || BrokeOff(answers0, answers) || !HeadersOk(log)
        invariant |trace0| <= |trace| && StopsInTime(trace, left, |trace0|, stopAt)
        invariant alive && !stopping ==> Early(trace, left, |trace0|, stopAt)
        invariant Smooth(answers0) && HeadersOk(log) && conf.maxRetries > 0
            ==> MovedTo(conf, w0, world, start, reached, alive)
        decreases |answers|
      {
        ghost var t1, l1, a1, w1, log1 := trace, left, answers, world, log;
        assert trace0 <= t1;
        var consumed;
        position, alive, consumed := AwaitMessage(position, stopAt);
        stopping := consumed && |answers| <= stopAt;
        UsedFurther(answers0, a1, answers);
        StopsFurther(t1, l1, trace, left, |answers|, |trace0|, stopAt);
        if HeadersOk(log) {
          HeadersOkPrefix(log1, log);
          if Smooth(answers0) && conf.maxRetries > 0 {
            SmoothNeverBreaks(answers0, a1);
            MovedFurther(conf, w0, w1, world, start, reached, if alive then position else reached, alive);
          }
        }
        if alive {
          reached := position;
        }
      }
      if alive {
        StopsSnoc(trace, left, |trace0|, stopAt, |answers|);
        Interrupted(conf, world);
        ghost var w1 := world;
        Record(Interrupt(false));
        if Smooth(answers0) && HeadersOk(log) && conf.maxRetries > 0 {
          NotMoved(conf, w1, world, reached, true);
          MovedFurther(conf, w0, w1, world, start, reached, reached, true);
        }
      }
      whole := alive;
    }

    /** One life of the process, against the given answers; the stop event is set once at most `stopAt`
        answers remain, and is looked at after each message and after each failure of the handler. Every behaviour
        of the loop is a run of the step system that ends Down, so with `earliest` nothing below the committed
        offset was lost. The loop goes on until it is told to stop, an await fails, a correlation header does not
        decode, or nothing more happens, and fetches no message after one that ended with the stop event set.
        If nothing fails, the life's messages with a body were handled once each, in order, and only bodiless
        ones were dead-lettered. */
    method RunConsumer(stopAt: nat)
      requires Valid() && world.phase == Down
      modifies this
      ensures Valid() && world.phase == Down && old(trace) <= trace && old(log) <= log
      ensures Used(old(answers), answers)
      ensures |answers| <= stopAt || BrokeOff(old(answers), answers) || !HeadersOk(log)
      ensures StopsInTime(trace, left, |old(trace)|, stopAt)
      ensures Smooth(old(answers)) && HeadersOk(log) && conf.maxRetries > 0 ==>
                var p := if old(committed).Some? then old(committed).value
                         else if conf.earliest then 0 else |old(log)|;
                var q := if committed.Some? then committed.value else p;
                && p <= q <= |log|
                && (forall o: nat :: o in world.dead && o !in old(world).dead ==> o < |log| && log[o].body.None?)
                && (forall o: nat :: p <= o < q && log[o].body.Some? ==> o in world.handled)
                && (store == Folded(conf, log, p, q, old(store))
                    || (q < |log| && store == Folded(conf, log, p, q + 1, old(store))))
      ensures old(committed).Some? ==> committed.Some? && old(committed).value <= committed.value
      ensures committed.Some? ==> forall o: nat :: (if conf.earliest then 0 else world.first) <= o < committed.value
                                    ==> Done(world, o)
    {
      hide Done, Smooth, HeadersOk, Exec, Next, BrokeOff, MovedTo, StopsInTime;
      ghost var trace0, left0, answers0 := trace, left, answers;
      var position: nat := if committed.Some? then committed.value else if conf.earliest then 0 else |log|;
      Started(conf, store0, trace);
      Record(Start);
      ghost var w0 := world;
      ghost var reached, whole := Loop(position, stopAt);
      StopsFromStart(trace0, trace, left, stopAt);
      if Smooth(answers0) && HeadersOk(log) && conf.maxRetries > 0 {
        Moved(conf, w0, world, position, reached, whole);
      }
      OneLife(conf, store0, trace0, trace);
    }
  }
}
