/** The dispatch handler run by the at-least-once consumer: one dispatch per incident under every
    crash, redelivery and late failure of the handler. */
module EffectivelyOnce {
  import opened Common
  import C = Consumer
  import D = Dispatch

  type World = C.World<D.Payload, seq<D.Id>>
  type Step = C.Step<D.Payload>

  /** The consumer of incidents.verified; its store is the incidents that have a dispatch row. */
  function DispatchConsumer(minSeverity: string, maxRetries: nat, deadLetter: bool,
                            earliest: bool): C.Conf<D.Payload, seq<D.Id>> {
    C.Conf(maxRetries, deadLetter, earliest, (p, ids) => D.OpenIncident(minSeverity, p, ids))
  }

  function Run(minSeverity: string, maxRetries: nat, deadLetter: bool, earliest: bool, steps: seq<Step>): World {
    C.Exec(DispatchConsumer(minSeverity, maxRetries, deadLetter, earliest), C.Initial([]), steps)
  }

  ghost predicate Distinct(ids: seq<D.Id>) {
    forall i, j :: 0 <= i < j < |ids| ==> ids[i] != ids[j]
  }

  /** The message at offset o is one that calls for a dispatch of the incident. */
  predicate CallsFor(minSeverity: string, w: World, o: nat, incident: D.Id) {
    && o < |w.log| && w.log[o].body.Some?
    && D.Eligible(minSeverity, w.log[o].body.value) && w.log[o].body.value.incident == Some(incident)
  }

  ghost predicate StoreOk(minSeverity: string, w: World) {
    && Distinct(w.store)
    && (forall id :: id in w.store ==> exists o: nat :: o <= C.Frontier(w) && CallsFor(minSeverity, w, o, id))
    && (forall o: nat, id :: o in w.handled && CallsFor(minSeverity, w, o, id) ==> id in w.store)
  }

  lemma HandlerKeepsDistinct(minSeverity: string, p: D.Payload, ids: seq<D.Id>)
    requires Distinct(ids)
    ensures var ids' := D.OpenIncident(minSeverity, p, ids);
            && Distinct(ids') && ids <= ids'
            && (D.Eligible(minSeverity, p) ==> p.incident.value in ids')
            && (forall id :: id in ids' <==> id in ids || (D.Eligible(minSeverity, p) && p.incident == Some(id)))
  {
  }

  /** Running the handler again on a message it has already served changes nothing. */
  lemma HandlerIdempotent(minSeverity: string, p: D.Payload, ids: seq<D.Id>)
    ensures var once := D.OpenIncident(minSeverity, p, ids);
            D.OpenIncident(minSeverity, p, once) == once
  {
  }

  /** What a step does to the store: nothing, or what the handler does with the message at hand. */
  lemma StoreAfter(minSeverity: string, maxRetries: nat, deadLetter: bool, earliest: bool, w: World, s: Step)
    requires C.Inv(DispatchConsumer(minSeverity, maxRetries, deadLetter, earliest), w)
    ensures var c := DispatchConsumer(minSeverity, maxRetries, deadLetter, earliest);
            var w' := C.Next(c, w, s);
            && w.log <= w'.log && C.Frontier(w) <= C.Frontier(w')
            && (w.phase.Handling? ==> w.phase.off == C.Frontier(w) < |w.log| && w.log[w.phase.off].body.Some?)
            && (|| (w'.store == w.store && w'.handled == w.handled)
                || (w.phase.Handling? && (w'.handled == w.handled || w'.handled == w.handled + {w.phase.off})
                    && w'.store == D.OpenIncident(minSeverity, w.log[w.phase.off].body.value, w.store)))
  {
    hide D.OpenIncident;
    C.NextGrows(DispatchConsumer(minSeverity, maxRetries, deadLetter, earliest), w, s);
  }

  lemma NextKeepsStoreOk(minSeverity: string, maxRetries: nat, deadLetter: bool, earliest: bool, w: World, s: Step)
    requires C.Inv(DispatchConsumer(minSeverity, maxRetries, deadLetter, earliest), w) && StoreOk(minSeverity, w)
    ensures StoreOk(minSeverity, C.Next(DispatchConsumer(minSeverity, maxRetries, deadLetter, earliest), w, s))
  {
    var c := DispatchConsumer(minSeverity, maxRetries, deadLetter, earliest);
    var w' := C.Next(c, w, s);
    StoreAfter(minSeverity, maxRetries, deadLetter, earliest, w, s);
    hide C.Next, C.Inv, D.OpenIncident, D.Eligible;
    if w.phase.Handling? {
      HandlerKeepsDistinct(minSeverity, w.log[w.phase.off].body.value, w.store);
    }
    forall id | id in w'.store
      ensures exists o: nat :: o <= C.Frontier(w') && CallsFor(minSeverity, w', o, id)
    {
      if id in w.store {
        var o: nat :| o <= C.Frontier(w) && CallsFor(minSeverity, w, o, id);
        assert CallsFor(minSeverity, w', o, id);
      } else {
        assert CallsFor(minSeverity, w', w.phase.off, id);
      }
    }
    forall o: nat, id | o in w'.handled && CallsFor(minSeverity, w', o, id)
      ensures id in w'.store
    {
      if o in w.handled {
        assert CallsFor(minSeverity, w, o, id);
      }
    }
  }

  lemma {:induction false} RunKeepsStoreOk(minSeverity: string, maxRetries: nat, deadLetter: bool, earliest: bool,
                                           steps: seq<Step>)
    ensures StoreOk(minSeverity, Run(minSeverity, maxRetries, deadLetter, earliest, steps))
    decreases |steps|
  {
    if steps != [] {
      var front := steps[..|steps| - 1];
      RunKeepsStoreOk(minSeverity, maxRetries, deadLetter, earliest, front);
      C.ExecKeepsInv(DispatchConsumer(minSeverity, maxRetries, deadLetter, earliest), [], front);
      NextKeepsStoreOk(minSeverity, maxRetries, deadLetter, earliest,
                       Run(minSeverity, maxRetries, deadLetter, earliest, front), steps[|steps| - 1]);
    }
  }

  /** Effectively once, over every run and for either reset policy: no incident has two dispatches, every
      dispatch was called for by a message the group has reached, and every committed message from the group's
      start on that calls for a dispatch has it unless it went to the dead-letter queue. */
  lemma EffectivelyOnce(minSeverity: string, maxRetries: nat, deadLetter: bool, earliest: bool, steps: seq<Step>)
    ensures var w := Run(minSeverity, maxRetries, deadLetter, earliest, steps);
            && Distinct(w.store)
            && (forall id :: id in w.store ==> exists o: nat :: o <= C.Frontier(w) && CallsFor(minSeverity, w, o, id))
            && (forall o: nat, id ::
                  && w.committed.Some? && (earliest || w.first <= o) && o < w.committed.value
                  && o !in w.dead && CallsFor(minSeverity, w, o, id)
                  ==> id in w.store)
  {
    var c := DispatchConsumer(minSeverity, maxRetries, deadLetter, earliest);
    var w := Run(minSeverity, maxRetries, deadLetter, earliest, steps);
    RunKeepsStoreOk(minSeverity, maxRetries, deadLetter, earliest, steps);
    forall o: nat, id |
      && w.committed.Some? && (earliest || w.first <= o) && o < w.committed.value
      && o !in w.dead && CallsFor(minSeverity, w, o, id)
      ensures id in w.store
    {
      C.NoLoss(c, [], steps, o);
      assert C.Done(w, o);
    }
  }

  /** The handler never raises on a payload it wants, whatever the payload, if and only if the configured minimum
      is a severity above info: the filter ranks every severity it does not know as info, the table does not. */
  lemma WantedMeansEligibleIff(minSeverity: string)
    ensures (forall p :: D.Wanted(minSeverity, p) <==> D.Eligible(minSeverity, p)) <==> D.SevRank(minSeverity) > 0
  {
    if D.SevRank(minSeverity) == 0 {
      var urgent := D.Payload("confirmed", "urgent", Some(1), None);
      assert "urgent"[0] == 'u';
      assert D.Wanted(minSeverity, urgent) && !D.Eligible(minSeverity, urgent);
    }
  }

  /** Only the listed severities above info rank above it. */
  lemma RanksAboveInfo(minSeverity: string)
    ensures D.SevRank(minSeverity) > 0 <==> minSeverity in {"critical", "high", "medium", "low"}
  {
  }
}
