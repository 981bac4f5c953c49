/** Responder dispatches: the incident handler (services/dispatch/sentigon_dispatch/engine.py), the
    SLA sweeper (sla.py) and the acknowledge, resolve and assign endpoints (app.py) as the steps of
    one state machine over the dispatch table and its audit log. A sweep is one transaction. */
module Dispatch {
  import opened Common

  type Id = nat

  datatype State = Pending | Notified | Acknowledged | Resolved | Escalated | Expired

  datatype Row = Row(
    incident: Id, site: Option<Id>, severity: string, state: State, tier: nat, responder: Option<Id>,
    createdAt: real, notifiedAt: Option<real>, acknowledgedAt: Option<real>, resolvedAt: Option<real>,
    slaAck: real, slaResolve: real, ackBy: Option<string>, notes: Option<string>)

  datatype Action = Created | Acked | ResolvedBy | Assigned | EscalatedTo(tier: nat) | ExpiredBySla

  datatype Audit = Audit(row: nat, action: Action)

  /** On-call resolution at the moment of the step: site and tier to a responder. */
  type Roster = (Option<Id>, nat) -> Option<Id>

  datatype Settings = Settings(minSeverity: string, slaAck: real, slaResolve: real)

  datatype Db = Db(rows: seq<Row>, audit: seq<Audit>)

  // ----- DispatchEngine.handle -----

  datatype Payload = Payload(verdict: string, severity: string, incident: Option<Id>, site: Option<Id>)

  /** Severities the table does not list rank as info. */
  function SevRank(sev: string): (rank: nat)
    ensures rank < 5
  {
    if sev == "critical" then 4 else if sev == "high" then 3
    else if sev == "medium" then 2 else if sev == "low" then 1 else 0
  }

  const SEVERITY_ORDER := ["info", "low", "medium", "high", "critical"]

  /** A listed severity ranks by its place in the order, any other as the lowest. */
  lemma RankIsPosition(sev: string)
    ensures if sev in SEVERITY_ORDER then SEVERITY_ORDER[SevRank(sev)] == sev else SevRank(sev) == 0
  {
  }

  predicate ValidSeverity(sev: string) {
    sev in {"critical", "high", "medium", "low", "info"}
  }

  /** The three early returns of the handler do not apply. */
  predicate Wanted(minSeverity: string, p: Payload) {
    p.verdict == "confirmed" && SevRank(p.severity) >= SevRank(minSeverity) && p.incident.Some?
  }

  predicate Eligible(minSeverity: string, p: Payload) {
    Wanted(minSeverity, p) && ValidSeverity(p.severity)
  }

  function Incidents(rows: seq<Row>): (ids: seq<Id>)
    ensures |ids| == |rows| && forall i :: 0 <= i < |rows| ==> ids[i] == rows[i].incident
  {
    seq(|rows|, i requires 0 <= i < |rows| => rows[i].incident)
  }

  /** What one delivery does to the incidents that have a dispatch: insert if absent. */
  function OpenIncident(minSeverity: string, p: Payload, ids: seq<Id>): seq<Id> {
    if Eligible(minSeverity, p) && p.incident.value !in ids then ids + [p.incident.value] else ids
  }

  function NewRow(s: Settings, p: Payload, oncall: Roster, created: real, notified: real): Row
    requires p.incident.Some?
  {
    Row(p.incident.value, p.site, p.severity, Notified, 1, oncall(p.site, 1), created, Some(notified), None, None,
        s.slaAck, s.slaResolve, None, None)
  }

  function AfterDelivery(s: Settings, db: Db, p: Payload, oncall: Roster, created: real, notified: real): Db {
    if Eligible(s.minSeverity, p) && p.incident.value !in Incidents(db.rows)
    then Db(db.rows + [NewRow(s, p, oncall, created, notified)], db.audit + [Audit(|db.rows|, Created)])
    else db
  }

  // ----- SlaSweeper._sweep -----

  predicate AckBreached(r: Row, now: real) {
    r.state.Notified? && r.notifiedAt.Some? && now - r.notifiedAt.value > r.slaAck
  }

  predicate ResolveBreached(r: Row, now: real) {
    (r.state.Notified? || r.state.Escalated? || r.state.Acknowledged?) && r.resolvedAt.None?
        && now - r.createdAt > r.slaResolve
  }

  /** The next tier's responder, or any tier-1 responder, or whoever had it. */
  function NextResponder(r: Row, oncall: Roster): Option<Id> {
    var next := oncall(r.site, r.tier + 1);
    var found := if next.Some? then next else oncall(r.site, 1);
    if found.Some? then found else r.responder
  }

  function EscalateRow(r: Row, oncall: Roster, now: real): Row {
    if AckBreached(r, now)
    then r.(tier := r.tier + 1, state := Escalated, responder := NextResponder(r, oncall))
    else r
  }

  function ExpireRow(r: Row, now: real): Row {
    if ResolveBreached(r, now) then r.(state := Expired) else r
  }

  function Escalations(rows: seq<Row>, now: real, n: nat): seq<Audit>
    requires n <= |rows|
  {
    if n == 0 then [] else
      Escalations(rows, now, n - 1)
      + if AckBreached(rows[n - 1], now) then [Audit(n - 1, EscalatedTo(rows[n - 1].tier + 1))] else []
  }

  function Expiries(rows: seq<Row>, now: real, n: nat): seq<Audit>
    requires n <= |rows|
  {
    if n == 0 then [] else
      Expiries(rows, now, n - 1) + if ResolveBreached(rows[n - 1], now) then [Audit(n - 1, ExpiredBySla)] else []
  }

  function EscalateAll(rows: seq<Row>, oncall: Roster, now: real): (r: seq<Row>)
    ensures |r| == |rows| && forall i :: 0 <= i < |rows| ==> r[i] == EscalateRow(rows[i], oncall, now)
  {
    seq(|rows|, i requires 0 <= i < |rows| => EscalateRow(rows[i], oncall, now))
  }

  function ExpireAll(rows: seq<Row>, now: real): (r: seq<Row>)
    ensures |r| == |rows| && forall i :: 0 <= i < |rows| ==> r[i] == ExpireRow(rows[i], now)
  {
    seq(|rows|, i requires 0 <= i < |rows| => ExpireRow(rows[i], now))
  }

  function AfterSweep(db: Db, oncall: Roster, now: real): Db {
    var escalated := EscalateAll(db.rows, oncall, now);
    Db(ExpireAll(escalated, now),
       db.audit + Escalations(db.rows, now, |db.rows|) + Expiries(escalated, now, |escalated|))
  }

  // ----- The endpoints: none of them looks at the current state -----

  function AckRow(r: Row, who: Option<string>, now: real): Row {
    r.(acknowledgedAt := Some(now), state := Acknowledged, ackBy := who)
  }

  function ResolveRow(r: Row, who: Option<string>, notes: Option<string>, now: real): Row {
    r.(resolvedAt := Some(now), state := Resolved,
       notes := if notes.Some? then notes else r.notes,
       ackBy := if who.Some? && who.value != "" && (r.ackBy.None? || r.ackBy.value == "") then who else r.ackBy)
  }

  datatype Event =
    | Delivery(p: Payload, oncall: Roster, created: real, notified: real, now: real)
    | Ack(row: nat, who: Option<string>, now: real)
    | Resolve(row: nat, who: Option<string>, notes: Option<string>, now: real)
    | Assign(row: nat, responder: Option<Id>, now: real)
    | Sweep(oncall: Roster, now: real)
    | Failed(now: real)

  /** A missing row is a 404; a failed step rolled its transaction back. */
  function Apply(s: Settings, db: Db, e: Event): Db {
    match e
    case Delivery(p, oncall, created, notified, _) => AfterDelivery(s, db, p, oncall, created, notified)
    case Ack(row, who, now) =>
      if row < |db.rows| then Db(db.rows[row := AckRow(db.rows[row], who, now)], db.audit + [Audit(row, Acked)]) else db
    case Resolve(row, who, notes, now) =>
      if row < |db.rows|
      then Db(db.rows[row := ResolveRow(db.rows[row], who, notes, now)], db.audit + [Audit(row, ResolvedBy)])
      else db
    case Assign(row, responder, _) =>
      if row < |db.rows|
      then Db(db.rows[row := db.rows[row].(responder := responder)], db.audit + [Audit(row, Assigned)])
      else db
    case Sweep(oncall, now) => AfterSweep(db, oncall, now)
    case Failed(_) => db
  }

  function Exec(s: Settings, events: seq<Event>): Db
    decreases |events|
  {
    if events == [] then Db([], []) else Apply(s, Exec(s, events[..|events| - 1]), events[|events| - 1])
  }

  lemma {:induction false} EscalationsAre(rows: seq<Row>, now: real, n: nat, a: Audit)
    requires n <= |rows|
    ensures a in Escalations(rows, now, n)
            <==> a.row < n && AckBreached(rows[a.row], now) && a.action == EscalatedTo(rows[a.row].tier + 1)
  {
    hide AckBreached;
    if n > 0 {
      EscalationsAre(rows, now, n - 1, a);
    }
  }

  lemma {:induction false} ExpiriesAre(rows: seq<Row>, now: real, n: nat, a: Audit)
    requires n <= |rows|
    ensures a in Expiries(rows, now, n) <==> a.row < n && ResolveBreached(rows[a.row], now) && a.action == ExpiredBySla
  {
    hide ResolveBreached;
    if n > 0 {
      ExpiriesAre(rows, now, n - 1, a);
    }
  }

  /** The dispatch has waited for its acknowledgement longer than its SLA. */
  predicate Unanswered(r: Row, now: real) {
    r.state == Notified && r.notifiedAt.Some? && now - r.notifiedAt.value > r.slaAck
  }

  /** The dispatch is open and has waited for its resolution longer than its SLA. */
  predicate Unresolved(r: Row, now: real) {
    && (r.state == Notified || r.state == Escalated || r.state == Acknowledged)
    && r.resolvedAt == None && now - r.createdAt > r.slaResolve
  }

  /** A sweep of one row, both parts judged by the row as it was. */
  ghost predicate SweptInto(r: Row, after: Row, oncall: Roster, now: real) {
    var next, first := oncall(r.site, r.tier + 1), oncall(r.site, 1);
    after == r.(state := if Unresolved(r, now) then Expired else if Unanswered(r, now) then Escalated else r.state,
                tier := if Unanswered(r, now) then r.tier + 1 else r.tier,
                responder := if !Unanswered(r, now) then r.responder else if next.Some? then next
                             else if first.Some? then first else r.responder)
  }

  lemma SweptRow(r: Row, oncall: Roster, now: real)
    ensures (Unanswered(r, now) <==> AckBreached(r, now)) && (Unresolved(r, now) <==> ResolveBreached(r, now))
    ensures ResolveBreached(EscalateRow(r, oncall, now), now) <==> Unresolved(r, now)
    ensures SweptInto(r, ExpireRow(EscalateRow(r, oncall, now), now), oncall, now)
  {
  }

  lemma SweptRows(rows: seq<Row>, oncall: Roster, now: real)
    ensures var after := ExpireAll(EscalateAll(rows, oncall, now), now);
            |after| == |rows| && forall i :: 0 <= i < |rows| ==> SweptInto(rows[i], after[i], oncall, now)
  {
    hide SweptInto, EscalateRow, ExpireRow;
    var after := ExpireAll(EscalateAll(rows, oncall, now), now);
    forall i | 0 <= i < |rows| ensures SweptInto(rows[i], after[i], oncall, now) {
      SweptRow(rows[i], oncall, now);
    }
  }

  /** The entry that an escalation or an expiry of some row makes. */
  ghost predicate SweepRecords(rows: seq<Row>, now: real, a: Audit) {
    && a.row < |rows|
    && ((a.action == EscalatedTo(rows[a.row].tier + 1) && Unanswered(rows[a.row], now))
        || (a.action == ExpiredBySla && Unresolved(rows[a.row], now)))
  }

  lemma SweepRecordsExactly(rows: seq<Row>, oncall: Roster, now: real, a: Audit)
    ensures var mid := EscalateAll(rows, oncall, now);
            a in Escalations(rows, now, |rows|) + Expiries(mid, now, |mid|) <==> SweepRecords(rows, now, a)
  {
    hide Unanswered, Unresolved, AckBreached, ResolveBreached, EscalateRow, Escalations, Expiries;
    var mid := EscalateAll(rows, oncall, now);
    EscalationsAre(rows, now, |rows|, a);
    ExpiriesAre(mid, now, |mid|, a);
    if a.row < |rows| {
      SweptRow(rows[a.row], oncall, now);
    }
  }

  // ----- The service as code -----

  datatype Outcome = Skipped | Duplicate | Opened | Raised

  class Service {
    const settings: Settings
    var rows: seq<Row>
    var audit: seq<Audit>
    var skipped: nat
    var dispatched: nat
    var escalated: nat

    function View(): Db
      reads this
    {
      Db(rows, audit)
    }

    constructor (settings: Settings)
      ensures this.settings == settings && View() == Db([], []) && skipped == dispatched == escalated == 0
    {
      this.settings := settings;
      rows, audit := [], [];
      skipped, dispatched, escalated := 0, 0, 0;
    }

    method Handle(p: Payload, oncall: Roster, created: real, notified: real) returns (outcome: Outcome)
      modifies this
      ensures View() == AfterDelivery(settings, old(View()), p, oncall, created, notified)
      ensures Incidents(rows) == OpenIncident(settings.minSeverity, p, Incidents(old(rows)))
      ensures outcome == Skipped <==>
              p.verdict != "confirmed" || SevRank(p.severity) < SevRank(settings.minSeverity) || p.incident.None?
      ensures outcome == Duplicate <==>
              outcome != Skipped && exists i :: 0 <= i < |old(rows)| && old(rows)[i].incident == p.incident.value
      ensures outcome == Raised <==>
              && outcome != Skipped && outcome != Duplicate
              && p.severity !in ["critical", "high", "medium", "low", "info"]
      ensures outcome != Opened ==> rows == old(rows) && audit == old(audit)
      ensures outcome == Opened ==>
                && |rows| == |old(rows)| + 1 && rows[..|old(rows)|] == old(rows)
                && audit == old(audit) + [Audit(|old(rows)|, Created)]
                && var d := rows[|old(rows)|];
                   && Some(d.incident) == p.incident && d.site == p.site && d.severity == p.severity
                   && d.state == Notified && d.tier == 1 && d.responder == oncall(p.site, 1)
                   && d.createdAt == created && d.notifiedAt == Some(notified)
                   && d.acknowledgedAt == None && d.resolvedAt == None && d.ackBy == None && d.notes == None
                   && d.slaAck == settings.slaAck && d.slaResolve == settings.slaResolve
      ensures dispatched == old(dispatched) + (if outcome == Opened then 1 else 0)
      ensures skipped == old(skipped) + (if outcome == Skipped then 1 else 0)
      ensures escalated == old(escalated)
    {
      if p.verdict != "confirmed" {
        skipped := skipped + 1;
        return Skipped;
      }
      if SevRank(p.severity) < SevRank(settings.minSeverity) {
        skipped := skipped + 1;
        return Skipped;
      }
      if p.incident.None? {
        skipped := skipped + 1;
        return Skipped;
      }
      var incident := p.incident.value;
      for i := 0 to |rows|
        invariant forall k :: 0 <= k < i ==> rows[k].incident != incident
      {
        if rows[i].incident == incident {
          assert Incidents(rows)[i] == incident;
          return Duplicate;
        }
      }
      assert incident !in Incidents(rows);
      var responder := oncall(p.site, 1);
      if p.severity !in ["critical", "high", "medium", "low", "info"] {
        return Raised;
      }
      var d := Row(incident, p.site, p.severity, Pending, 1, responder, created, None, None, None,
                   settings.slaAck, settings.slaResolve, None, None);
      d := d.(notifiedAt := Some(notified));
      d := d.(state := Notified);
      rows := rows + [d];
      audit := audit + [Audit(|rows| - 1, Created)];
      dispatched := dispatched + 1;
      return Opened;
    }

    /** The first loop's work on one dispatch. */
    method EscalateOne(r: Row, oncall: Roster, now: real) returns (d: Row, breached: bool)
      ensures breached == AckBreached(r, now) && d == EscalateRow(r, oncall, now)
      ensures if breached then d.tier == r.tier + 1 else d == r
    {
      d, breached := r, false;
      if d.state.Notified? && d.notifiedAt.Some? {
        if now - d.notifiedAt.value > d.slaAck {
          breached := true;
          var nextTier := d.tier + 1;
          var nextResp := oncall(d.site, nextTier);
          if nextResp.None? {
            nextResp := oncall(d.site, 1);
          }
          d := d.(tier := nextTier, state := Escalated);
          if nextResp.Some? {
            d := d.(responder := nextResp);
          }
        }
      }
    }

    /** The first loop of a sweep: NOTIFIED dispatches past their ack SLA. */
    method EscalateBreached(oncall: Roster, now: real)
      modifies this
      ensures rows == EscalateAll(old(rows), oncall, now)
      ensures audit == old(audit) + Escalations(old(rows), now, |old(rows)|)
      ensures escalated == old(escalated) + |Escalations(old(rows), now, |old(rows)|)|
      ensures skipped == old(skipped) && dispatched == old(dispatched)
    {
      hide EscalateRow, AckBreached;
      ghost var rows0, n := rows, |rows|;
      for i := 0 to |rows|
        invariant |rows| == n
        invariant forall k :: 0 <= k < i ==> rows[k] == EscalateRow(rows0[k], oncall, now)
        invariant forall k :: i <= k < n ==> rows[k] == rows0[k]
        invariant audit == old(audit) + Escalations(rows0, now, i)
        invariant escalated == old(escalated) + |Escalations(rows0, now, i)|
        invariant skipped == old(skipped) && dispatched == old(dispatched)
      {
        var d, breached := EscalateOne(rows[i], oncall, now);
        if breached {
          rows := rows[i := d];
          audit := audit + [Audit(i, EscalatedTo(d.tier))];
          escalated := escalated + 1;
        }
      }
      assert rows == EscalateAll(rows0, oncall, now);
    }

    /** The second loop: unresolved open dispatches past their resolve SLA. */
    method ExpireBreached(now: real)
      modifies this`rows, this`audit
      ensures rows == ExpireAll(old(rows), now)
      ensures audit == old(audit) + Expiries(old(rows), now, |old(rows)|)
    {
      ghost var rows0, n := rows, |rows|;
      for i := 0 to |rows|
        invariant |rows| == n
        invariant forall k :: 0 <= k < i ==> rows[k] == ExpireRow(rows0[k], now)
        invariant forall k :: i <= k < n ==> rows[k] == rows0[k]
        invariant audit == old(audit) + Expiries(rows0, now, i)
      {
        var d := rows[i];
        if (d.state.Notified? || d.state.Escalated? || d.state.Acknowledged?) && d.resolvedAt.None? {
          if now - d.createdAt > d.slaResolve {
            rows := rows[i := d.(state := Expired)];
            audit := audit + [Audit(i, ExpiredBySla)];
          }
        }
      }
      assert rows == ExpireAll(rows0, now);
    }

    /** Row by row: the escalation of the first loop and the expiry of the second, both judged by the row as the
        sweep found it. */
    method SweepNow(oncall: Roster, now: real)
      modifies this
      ensures View() == AfterSweep(old(View()), oncall, now)
      ensures |rows| == |old(rows)|
      ensures forall i :: 0 <= i < |rows| ==> SweptInto(old(rows)[i], rows[i], oncall, now)
      ensures old(audit) <= audit
      ensures forall a :: a in audit[|old(audit)|..] <==> SweepRecords(old(rows), now, a)
      ensures escalated == old(escalated) + |Escalations(old(rows), now, |old(rows)|)|
      ensures skipped == old(skipped) && dispatched == old(dispatched)
    {
      hide Escalations, Expiries, EscalateRow, ExpireRow, SweptInto, SweepRecords;
      ghost var rows0, audit0 := rows, audit;
      EscalateBreached(oncall, now);
      ghost var mid := rows;
      ExpireBreached(now);
      SweptRows(rows0, oncall, now);
      assert audit == audit0 + (Escalations(rows0, now, |rows0|) + Expiries(mid, now, |mid|));
      forall a ensures a in audit[|audit0|..] <==> SweepRecords(rows0, now, a) {
        SweepRecordsExactly(rows0, oncall, now, a);
      }
    }

    method AckDispatch(row: nat, who: Option<string>, now: real) returns (found: bool)
      modifies this
      ensures found <==> row < |old(rows)|
      ensures View() == Apply(settings, old(View()), Ack(row, who, now))
      ensures found ==>
                && rows == old(rows)[row := old(rows)[row].(acknowledgedAt := Some(now), state := Acknowledged,
                                                            ackBy := who)]
                && audit == old(audit) + [Audit(row, Acked)]
    {
      if row >= |rows| {
        return false;
      }
      rows := rows[row := rows[row].(acknowledgedAt := Some(now), state := Acknowledged, ackBy := who)];
      audit := audit + [Audit(row, Acked)];
      return true;
    }

    method ResolveDispatch(row: nat, who: Option<string>, notes: Option<string>, now: real) returns (found: bool)
      modifies this
      ensures found <==> row < |old(rows)|
      ensures View() == Apply(settings, old(View()), Resolve(row, who, notes, now))
      ensures found ==>
                var r := old(rows)[row];
                var nameless := r.ackBy == None || r.ackBy == Some("");
                && rows == old(rows)[row := r.(resolvedAt := Some(now), state := State.Resolved,
                                               notes := if notes == None then r.notes else notes,
                                               ackBy := if nameless && who != None && who != Some("") then who
                                                        else r.ackBy)]
                && audit == old(audit) + [Audit(row, ResolvedBy)]
    {
      if row >= |rows| {
        return false;
      }
      var d := rows[row].(resolvedAt := Some(now), state := Resolved);
      if notes.Some? {
        d := d.(notes := notes);
      }
      if who.Some? && who.value != "" && (d.ackBy.None? || d.ackBy.value == "") {
        d := d.(ackBy := who);
      }
      rows := rows[row := d];
      audit := audit + [Audit(row, ResolvedBy)];
      return true;
    }

    /** Naming a responder that does not exist is a 404 and changes nothing. */
    method AssignDispatch(row: nat, responder: Option<Id>, known: set<Id>, now: real) returns (done: bool)
      modifies this
      ensures done <==> row < |old(rows)| && (responder.Some? ==> responder.value in known)
      ensures View() == if done then Apply(settings, old(View()), Assign(row, responder, now)) else old(View())
      ensures done ==> rows == old(rows)[row := old(rows)[row].(responder := responder)]
                       && audit == old(audit) + [Audit(row, Assigned)]
    {
      if row >= |rows| || (responder.Some? && responder.value !in known) {
        return false;
      }
      rows := rows[row := rows[row].(responder := responder)];
      audit := audit + [Audit(row, Assigned)];
      return true;
    }
  }

  // ----- The invariant of every run -----

  function EscalationCount(audit: seq<Audit>, row: nat): nat {
    if audit == [] then 0 else
      EscalationCount(audit[..|audit| - 1], row)
      + if audit[|audit| - 1].row == row && audit[|audit| - 1].action.EscalatedTo? then 1 else 0
  }

  lemma {:induction false} CountAppend(a: seq<Audit>, b: seq<Audit>, row: nat)
    ensures EscalationCount(a + b, row) == EscalationCount(a, row) + EscalationCount(b, row)
  {
    if b == [] {
      assert a + b == a;
    } else {
      CountAppend(a, b[..|b| - 1], row);
      assert (a + b)[..|a + b| - 1] == a + b[..|b| - 1];
    }
  }

  lemma {:induction false} CountEscalations(rows: seq<Row>, now: real, n: nat, row: nat)
    requires n <= |rows|
    ensures EscalationCount(Escalations(rows, now, n), row) == if row < n && AckBreached(rows[row], now) then 1 else 0
  {
    if n > 0 {
      CountEscalations(rows, now, n - 1, row);
      CountAppend(Escalations(rows, now, n - 1), [Audit(n - 1, EscalatedTo(rows[n - 1].tier + 1))], row);
      assert [Audit(n - 1, EscalatedTo(rows[n - 1].tier + 1))][..0] == [];
      assert Escalations(rows, now, n - 1) + [] == Escalations(rows, now, n - 1);
    }
  }

  lemma {:induction false} CountExpiries(rows: seq<Row>, now: real, n: nat, row: nat)
    requires n <= |rows|
    ensures EscalationCount(Expiries(rows, now, n), row) == 0
  {
    if n > 0 {
      CountExpiries(rows, now, n - 1, row);
      CountAppend(Expiries(rows, now, n - 1), [Audit(n - 1, ExpiredBySla)], row);
      assert [Audit(n - 1, ExpiredBySla)][..0] == [];
      assert Expiries(rows, now, n - 1) + [] == Expiries(rows, now, n - 1);
    }
  }

  /** How many escalations a step adds to a row. */
  lemma StepEscalations(s: Settings, db: Db, e: Event, row: nat)
    ensures EscalationCount(Apply(s, db, e).audit, row)
         == EscalationCount(db.audit, row)
            + (if e.Sweep? && row < |db.rows| && AckBreached(db.rows[row], e.now) then 1 else 0)
  {
    if e.Sweep? {
      var escalated := EscalateAll(db.rows, e.oncall, e.now);
      CountAppend(db.audit + Escalations(db.rows, e.now, |db.rows|), Expiries(escalated, e.now, |escalated|), row);
      CountAppend(db.audit, Escalations(db.rows, e.now, |db.rows|), row);
      CountEscalations(db.rows, e.now, |db.rows|, row);
      CountExpiries(escalated, e.now, |escalated|, row);
    } else {
      var db' := Apply(s, db, e);
      if db'.audit != db.audit {
        assert db'.audit[..|db'.audit| - 1] == db.audit;
      }
    }
  }

  ghost predicate RowOk(r: Row, escalations: nat) {
    && r.tier == 1 + escalations <= 2
    && r.notifiedAt.Some? && r.createdAt <= r.notifiedAt.value
    && !r.state.Pending?
    && (r.state.Notified? ==> r.tier == 1 && r.acknowledgedAt.None? && r.resolvedAt.None?)
    && (r.state.Escalated? ==> r.tier == 2 && r.acknowledgedAt.None? && r.resolvedAt.None?)
    && (r.state.Acknowledged? ==> r.acknowledgedAt.Some?)
    && (r.state.Resolved? ==> r.resolvedAt.Some?)
    && (r.state.Expired? ==> r.resolvedAt.None?)
  }

  ghost predicate DbOk(db: Db) {
    && (forall i :: 0 <= i < |db.rows| ==> RowOk(db.rows[i], EscalationCount(db.audit, i)))
    && (forall i :: i >= |db.rows| ==> EscalationCount(db.audit, i) == 0)
    && (forall i, j :: 0 <= i < j < |db.rows| ==> db.rows[i].incident != db.rows[j].incident)
  }

  /** A dispatch is created before it is notified, and notified before its transaction commits. */
  ghost predicate WellTimed(events: seq<Event>) {
    && (forall i :: 0 <= i < |events| && events[i].Delivery?
          ==> events[i].created <= events[i].notified <= events[i].now)
    && (forall i, j :: 0 <= i < j < |events| ==> events[i].now <= events[j].now)
  }

  /** What a step does to an existing row. */
  function RowAfter(r: Row, i: nat, e: Event): Row {
    match e
    case Delivery(_, _, _, _, _) => r
    case Ack(row, who, now) => if row == i then AckRow(r, who, now) else r
    case Resolve(row, who, notes, now) => if row == i then ResolveRow(r, who, notes, now) else r
    case Assign(row, responder, _) => if row == i then r.(responder := responder) else r
    case Sweep(oncall, now) => ExpireRow(EscalateRow(r, oncall, now), now)
    case Failed(_) => r
  }

  lemma ApplyRows(s: Settings, db: Db, e: Event)
    ensures var rows := Apply(s, db, e).rows;
            && |db.rows| <= |rows| <= |db.rows| + 1
            && (forall i :: 0 <= i < |db.rows| ==> rows[i] == RowAfter(db.rows[i], i, e))
            && (|rows| > |db.rows| ==>
                  && e.Delivery? && e.p.incident.Some? && e.p.incident.value !in Incidents(db.rows)
                  && rows[|db.rows|] == NewRow(s, e.p, e.oncall, e.created, e.notified))
  {
  }

  lemma RowAfterKeepsRowOk(r: Row, escalations: nat, i: nat, e: Event)
    requires RowOk(r, escalations)
    ensures RowOk(RowAfter(r, i, e), escalations + if e.Sweep? && AckBreached(r, e.now) then 1 else 0)
    ensures RowAfter(r, i, e).incident == r.incident
  {
  }

  lemma ApplyKeepsDbOk(s: Settings, db: Db, e: Event)
    requires DbOk(db) && (e.Delivery? ==> e.created <= e.notified)
    ensures DbOk(Apply(s, db, e))
  {
    var db' := Apply(s, db, e);
    ApplyRows(s, db, e);
    forall i | 0 <= i < |db'.rows|
      ensures RowOk(db'.rows[i], EscalationCount(db'.audit, i))
    {
      StepEscalations(s, db, e, i);
      if i < |db.rows| {
        RowAfterKeepsRowOk(db.rows[i], EscalationCount(db.audit, i), i, e);
      }
    }
    forall i | i >= |db'.rows| ensures EscalationCount(db'.audit, i) == 0 {
      StepEscalations(s, db, e, i);
    }
    forall i, j | 0 <= i < j < |db'.rows| ensures db'.rows[i].incident != db'.rows[j].incident {
      RowAfterKeepsRowOk(db.rows[i], EscalationCount(db.audit, i), i, e);
      assert Incidents(db.rows)[i] == db.rows[i].incident;
      if j < |db.rows| {
        RowAfterKeepsRowOk(db.rows[j], EscalationCount(db.audit, j), j, e);
      }
    }
  }

  lemma {:induction false} ExecKeepsDbOk(s: Settings, events: seq<Event>)
    requires WellTimed(events)
    ensures DbOk(Exec(s, events))
    decreases |events|
  {
    if events != [] {
      ExecKeepsDbOk(s, events[..|events| - 1]);
      ApplyKeepsDbOk(s, Exec(s, events[..|events| - 1]), events[|events| - 1]);
    }
  }

  // ----- What every run guarantees -----

  /** A dispatch's tier is one more than the escalations recorded for it, and never exceeds two. */
  lemma TierCountsEscalations(s: Settings, events: seq<Event>, row: nat)
    requires WellTimed(events) && row < |Exec(s, events).rows|
    ensures var db := Exec(s, events);
            db.rows[row].tier == 1 + EscalationCount(db.audit, row) <= 2
  {
    ExecKeepsDbOk(s, events);
  }

  /** Once a dispatch has been acknowledged, no later step escalates it, whatever the endpoints do. */
  lemma {:induction false} AckedNeverEscalated(s: Settings, events: seq<Event>, k: nat, row: nat)
    requires WellTimed(events) && k <= |events| && row < |Exec(s, events[..k]).rows|
    requires Exec(s, events[..k]).rows[row].acknowledgedAt.Some?
    ensures row < |Exec(s, events).rows| && Exec(s, events).rows[row].acknowledgedAt.Some?
    ensures Exec(s, events).rows[row].tier == Exec(s, events[..k]).rows[row].tier
    ensures EscalationCount(Exec(s, events).audit, row) == EscalationCount(Exec(s, events[..k]).audit, row)
    decreases |events|
  {
    if k == |events| {
      assert events[..k] == events;
    } else {
      var front := events[..|events| - 1];
      assert front[..k] == events[..k];
      AckedNeverEscalated(s, front, k, row);
      ExecKeepsDbOk(s, front);
      ApplyRows(s, Exec(s, front), events[|events| - 1]);
      StepEscalations(s, Exec(s, front), events[|events| - 1], row);
    }
  }

  /** The sweeper leaves every dispatch with a resolution time exactly as it is. */
  lemma SweepSkipsResolved(s: Settings, events: seq<Event>, row: nat, oncall: Roster, now: real)
    requires WellTimed(events) && row < |Exec(s, events).rows|
    requires Exec(s, events).rows[row].resolvedAt.Some?
    ensures AfterSweep(Exec(s, events), oncall, now).rows[row] == Exec(s, events).rows[row]
  {
    ExecKeepsDbOk(s, events);
  }

  // ----- Rows, read off the events -----

  /** The delivery that opens this row: confirmed, severe enough, and all that the row keeps of it. */
  ghost predicate Opens(s: Settings, e: Event, r: Row) {
    && e.Delivery? && e.p.verdict == "confirmed" && SevRank(e.p.severity) >= SevRank(s.minSeverity)
    && e.p.incident == Some(r.incident) && e.p.site == r.site && e.p.severity == r.severity
    && r.createdAt == e.created && r.notifiedAt == Some(e.notified)
    && r.slaAck == s.slaAck && r.slaResolve == s.slaResolve
  }

  lemma RowKeepsOpening(s: Settings, r: Row, i: nat, e: Event, opening: Event)
    requires Opens(s, opening, r)
    ensures Opens(s, opening, RowAfter(r, i, e))
  {
  }

  lemma NewRowOpens(s: Settings, db: Db, e: Event)
    requires |Apply(s, db, e).rows| > |db.rows|
    ensures |Apply(s, db, e).rows| == |db.rows| + 1 && Opens(s, e, Apply(s, db, e).rows[|db.rows|])
  {
  }

  /** Every dispatch was opened by one delivery, whose incident, site and severity it keeps, with the configured SLAs,
      as the row its place says. */
  lemma {:induction false} RowIsDelivery(s: Settings, events: seq<Event>, row: nat)
    requires row < |Exec(s, events).rows|
    ensures exists k :: 0 <= k < |events| && Opens(s, events[k], Exec(s, events).rows[row])
                        && |Exec(s, events[..k]).rows| == row
    decreases |events|
  {
    hide Apply, Opens, RowAfter;
    var front, e := events[..|events| - 1], events[|events| - 1];
    ApplyRows(s, Exec(s, front), e);
    if row < |Exec(s, front).rows| {
      RowIsDelivery(s, front, row);
      var k :| 0 <= k < |front| && Opens(s, front[k], Exec(s, front).rows[row]) && |Exec(s, front[..k]).rows| == row;
      assert events[..k] == front[..k];
      RowKeepsOpening(s, Exec(s, front).rows[row], row, e, front[k]);
      assert Opens(s, events[k], Exec(s, events).rows[row]);
    } else {
      NewRowOpens(s, Exec(s, front), e);
      assert Opens(s, events[|front|], Exec(s, events).rows[row]);
    }
  }

  /** When the dispatch was last acknowledged and last resolved. */
  function LastAck(s: Settings, events: seq<Event>, row: nat): Option<real> {
    if events == [] then None else
      var front, e := events[..|events| - 1], events[|events| - 1];
      if e.Ack? && e.row == row && row < |Exec(s, front).rows| then Some(e.now) else LastAck(s, front, row)
  }

  function LastResolution(s: Settings, events: seq<Event>, row: nat): Option<real> {
    if events == [] then None else
      var front, e := events[..|events| - 1], events[|events| - 1];
      if e.Resolve? && e.row == row && row < |Exec(s, front).rows| then Some(e.now) else LastResolution(s, front, row)
  }

  /** The notes last given with a resolution. */
  function LastNotes(s: Settings, events: seq<Event>, row: nat): Option<string> {
    if events == [] then None else
      var front, e := events[..|events| - 1], events[|events| - 1];
      if e.Resolve? && e.row == row && e.notes.Some? && row < |Exec(s, front).rows| then e.notes
      else LastNotes(s, front, row)
  }

  lemma {:induction false} NotYetTouched(s: Settings, events: seq<Event>, row: nat)
    requires row >= |Exec(s, events).rows|
    ensures LastAck(s, events, row) == LastResolution(s, events, row) == None && LastNotes(s, events, row) == None
    decreases |events|
  {
    hide Apply;
    if events != [] {
      ApplyRows(s, Exec(s, events[..|events| - 1]), events[|events| - 1]);
      NotYetTouched(s, events[..|events| - 1], row);
    }
  }

  lemma EndpointStep(r: Row, row: nat, e: Event)
    ensures var after := RowAfter(r, row, e);
            && after.acknowledgedAt == (if e.Ack? && e.row == row then Some(e.now) else r.acknowledgedAt)
            && after.resolvedAt == (if e.Resolve? && e.row == row then Some(e.now) else r.resolvedAt)
            && after.notes == if e.Resolve? && e.row == row && e.notes.Some? then e.notes else r.notes
  {
  }

  /** What the endpoints leave on a row is their last call. */
  lemma {:induction false} EndpointsAreHistory(s: Settings, events: seq<Event>, row: nat)
    requires row < |Exec(s, events).rows|
    ensures var r := Exec(s, events).rows[row];
            && r.acknowledgedAt == LastAck(s, events, row) && r.resolvedAt == LastResolution(s, events, row)
            && r.notes == LastNotes(s, events, row)
    decreases |events|
  {
    var front, e := events[..|events| - 1], events[|events| - 1];
    ApplyRows(s, Exec(s, front), e);
    hide Apply, RowAfter;
    if row < |Exec(s, front).rows| {
      EndpointsAreHistory(s, front, row);
      EndpointStep(Exec(s, front).rows[row], row, e);
    } else {
      NotYetTouched(s, front, row);
    }
  }

  /** The k-th event is a sweep that finds the dispatch unanswered, or unresolved. */
  ghost predicate FoundUnanswered(s: Settings, events: seq<Event>, k: nat, row: nat) {
    && k < |events| && events[k].Sweep? && row < |Exec(s, events[..k]).rows|
    && Unanswered(Exec(s, events[..k]).rows[row], events[k].now)
  }

  ghost predicate FoundUnresolved(s: Settings, events: seq<Event>, k: nat, row: nat) {
    && k < |events| && events[k].Sweep? && row < |Exec(s, events[..k]).rows|
    && Unresolved(Exec(s, events[..k]).rows[row], events[k].now)
  }

  lemma FoundSnoc(s: Settings, events: seq<Event>, row: nat)
    requires events != []
    ensures var front := events[..|events| - 1];
            && (forall k: nat :: k < |front| ==>
                  (FoundUnanswered(s, front, k, row) <==> FoundUnanswered(s, events, k, row))
                  && (FoundUnresolved(s, front, k, row) <==> FoundUnresolved(s, events, k, row)))
            && front == events[..|front|]
  {
    var front := events[..|events| - 1];
    forall k: nat | k < |front|
      ensures FoundUnanswered(s, front, k, row) <==> FoundUnanswered(s, events, k, row)
      ensures FoundUnresolved(s, front, k, row) <==> FoundUnresolved(s, events, k, row)
    {
      assert front[..k] == events[..k];
    }
  }

  lemma {:induction false} NotFoundBefore(s: Settings, events: seq<Event>, k: nat, row: nat)
    requires row >= |Exec(s, events).rows| && k <= |events|
    ensures row >= |Exec(s, events[..k]).rows|
    decreases |events|
  {
    hide Apply;
    if k == |events| {
      assert events[..k] == events;
    } else {
      assert events[..|events| - 1][..k] == events[..k];
      ApplyRows(s, Exec(s, events[..|events| - 1]), events[|events| - 1]);
      NotFoundBefore(s, events[..|events| - 1], k, row);
    }
  }

  lemma NotFound(s: Settings, events: seq<Event>, k: nat, row: nat)
    requires events != [] && row >= |Exec(s, events[..|events| - 1]).rows|
    ensures !FoundUnanswered(s, events, k, row) && !FoundUnresolved(s, events, k, row)
  {
    if k < |events| {
      NotFoundBefore(s, events[..|events| - 1], k, row);
      assert events[..|events| - 1][..k] == events[..k];
    }
  }

  lemma LastEvent(s: Settings, events: seq<Event>, row: nat)
    requires WellTimed(events) && events != [] && row < |Exec(s, events[..|events| - 1]).rows|
    ensures row < |Exec(s, events).rows|
    ensures var last := |events| - 1;
            var r, after, e := Exec(s, events[..last]).rows[row], Exec(s, events).rows[row], events[last];
            && (after.tier == 2 <==> r.tier == 2 || FoundUnanswered(s, events, last, row))
            && (after.state == Expired
                <==> FoundUnresolved(s, events, last, row) || (r.state == Expired && !Touches(e, row)))
  {
    hide Apply, RowOk, RowAfter, Unanswered, Unresolved;
    var front, e := events[..|events| - 1], events[|events| - 1];
    ExecKeepsDbOk(s, front);
    ApplyRows(s, Exec(s, front), e);
    LastRow(Exec(s, front).rows[row], EscalationCount(Exec(s, front).audit, row), row, e);
  }

  lemma LastRow(r: Row, escalations: nat, row: nat, e: Event)
    requires RowOk(r, escalations)
    ensures var after := RowAfter(r, row, e);
            && (after.tier == 2 <==> r.tier == 2 || (e.Sweep? && Unanswered(r, e.now)))
            && (after.state == Expired
                <==> (e.Sweep? && Unresolved(r, e.now)) || (r.state == Expired && !Touches(e, row)))
  {
  }

  /** An endpoint call that changes the dispatch's state. */
  predicate Touches(e: Event, row: nat) {
    (e.Ack? || e.Resolve?) && e.row == row
  }

  /** A dispatch is on its second tier if and only if some sweep found it unanswered for longer than its SLA. */
  lemma {:induction false} EscalatedIff(s: Settings, events: seq<Event>, row: nat)
    requires WellTimed(events) && row < |Exec(s, events).rows|
    ensures Exec(s, events).rows[row].tier == 2 <==> exists k: nat :: FoundUnanswered(s, events, k, row)
    decreases |events|
  {
    hide Apply, FoundUnanswered, FoundUnresolved;
    var front := events[..|events| - 1];
    FoundSnoc(s, events, row);
    if row < |Exec(s, front).rows| {
      EscalatedIff(s, front, row);
      LastEvent(s, events, row);
      FoundInTime(s, events, row);
      if k: nat :| FoundUnanswered(s, front, k, row) {
        FoundInTime(s, front, row);
        assert FoundUnanswered(s, events, k, row);
      }
      if k: nat :| FoundUnanswered(s, events, k, row) {
        assert k < |front| ==> FoundUnanswered(s, front, k, row);
      }
    } else {
      FreshRow(s, events, row);
      forall k: nat ensures !FoundUnanswered(s, events, k, row) {
        NotFound(s, events, k, row);
      }
    }
  }

  lemma FoundInTime(s: Settings, events: seq<Event>, row: nat)
    ensures forall k: nat :: FoundUnanswered(s, events, k, row) || FoundUnresolved(s, events, k, row) ==> k < |events|
  {
  }

  lemma FreshRow(s: Settings, events: seq<Event>, row: nat)
    requires WellTimed(events) && row < |Exec(s, events).rows|
    requires events != [] && row >= |Exec(s, events[..|events| - 1]).rows|
    ensures Exec(s, events).rows[row].tier == 1 && Exec(s, events).rows[row].state == Notified
  {
    ApplyRows(s, Exec(s, events[..|events| - 1]), events[|events| - 1]);
  }

  /** A dispatch is expired if and only if some sweep found it unresolved for longer than its SLA and it has been
      neither acknowledged nor resolved since. */
  lemma {:induction false} ExpiredIff(s: Settings, events: seq<Event>, row: nat)
    requires WellTimed(events) && row < |Exec(s, events).rows|
    ensures Exec(s, events).rows[row].state == Expired
            <==> exists k: nat :: FoundUnresolved(s, events, k, row)
                                  && forall m :: k < m < |events| ==> !Touches(events[m], row)
    decreases |events|
  {
    hide Apply, FoundUnanswered, FoundUnresolved;
    var front, last := events[..|events| - 1], |events| - 1;
    FoundSnoc(s, events, row);
    FoundInTime(s, events, row);
    if row < |Exec(s, front).rows| {
      ExpiredIff(s, front, row);
      LastEvent(s, events, row);
      FoundInTime(s, front, row);
      if k: nat :| FoundUnresolved(s, front, k, row) && forall m :: k < m < |front| ==> !Touches(front[m], row) {
        assert !Touches(events[last], row) ==> forall m :: k < m < |events| ==> !Touches(events[m], row);
      }
      if k: nat :| FoundUnresolved(s, events, k, row) && forall m :: k < m < |events| ==> !Touches(events[m], row) {
        if k < last {
          assert FoundUnresolved(s, front, k, row) && forall m :: k < m < |front| ==> !Touches(front[m], row);
          assert !Touches(events[last], row);
        }
      }
    } else {
      FreshRow(s, events, row);
      forall k: nat ensures !FoundUnresolved(s, events, k, row) {
        NotFound(s, events, k, row);
      }
    }
  }

  // ----- Deadlines -----

  /** The time of the last successful sweep, or the given start. */
  function LastSweep(events: seq<Event>, start: real): real {
    if events == [] then start
    else if events[|events| - 1].Sweep? then events[|events| - 1].now
    else LastSweep(events[..|events| - 1], start)
  }

  /** No deadline of the row is missed by more than `slack` at time t. */
  ghost predicate WithinSla(r: Row, t: real, slack: real) {
    && (r.state.Notified? && r.notifiedAt.Some? ==> t - r.notifiedAt.value <= r.slaAck + slack)
    && (r.state.Notified? || r.state.Escalated? ==> t - r.createdAt <= r.slaResolve + slack)
  }

  /** Every dispatch commits within L of its insertion, nothing precedes the start, SLAs are not negative. */
  ghost predicate Prompt(s: Settings, events: seq<Event>, start: real, L: real) {
    && s.slaAck >= 0.0 && s.slaResolve >= 0.0 && L >= 0.0
    && forall i :: 0 <= i < |events| ==>
         start <= events[i].now && (events[i].Delivery? ==> events[i].now - events[i].created <= L)
  }

  lemma {:induction false} LastSweepPast(events: seq<Event>, start: real, now: real)
    requires start <= now && forall i :: 0 <= i < |events| ==> events[i].now <= now
    ensures LastSweep(events, start) <= now
    decreases |events|
  {
    if events != [] {
      LastSweepPast(events[..|events| - 1], start, now);
    }
  }

  lemma RowStaysWithin(r: Row, escalations: nat, i: nat, e: Event, t: real, slack: real)
    requires RowOk(r, escalations) && slack >= 0.0
    ensures e.Sweep? ==> WithinSla(RowAfter(r, i, e), e.now, slack)
    ensures !e.Sweep? && WithinSla(r, t, slack) ==> WithinSla(RowAfter(r, i, e), t, slack)
  {
  }

  lemma NewRowWithin(s: Settings, e: Event, t: real, slack: real)
    requires e.Delivery? && e.p.incident.Some? && s.slaAck >= 0.0 && s.slaResolve >= 0.0 && slack >= 0.0
    requires t <= e.now && e.now - e.created <= slack && e.created <= e.notified
    ensures WithinSla(NewRow(s, e.p, e.oncall, e.created, e.notified), t, slack)
  {
  }

  lemma {:induction false} WithinSlaAtLastSweep(s: Settings, events: seq<Event>, start: real, row: nat, L: real)
    requires WellTimed(events) && Prompt(s, events, start, L) && row < |Exec(s, events).rows|
    ensures WithinSla(Exec(s, events).rows[row], LastSweep(events, start), L)
    decreases |events|
  {
    if events != [] {
      var front, e := events[..|events| - 1], events[|events| - 1];
      ExecKeepsDbOk(s, front);
      ApplyRows(s, Exec(s, front), e);
      hide Apply, RowOk, RowAfter, WithinSla;
      if row < |Exec(s, front).rows| {
        WithinSlaAtLastSweep(s, front, start, row, L);
        RowStaysWithin(Exec(s, front).rows[row], EscalationCount(Exec(s, front).audit, row), row, e,
                       LastSweep(front, start), L);
      } else {
        LastSweepPast(front, start, e.now);
        NewRowWithin(s, e, LastSweep(front, start), L);
      }
    }
  }

  /** No dispatch that a sweep had expired has been acknowledged again since the last sweep. */
  ghost predicate NotRevived(s: Settings, events: seq<Event>, row: nat) {
    events == [] || events[|events| - 1].Sweep?
    || var front, e := events[..|events| - 1], events[|events| - 1];
       && NotRevived(s, front, row)
       && !(e.Ack? && e.row == row && row < |Exec(s, front).rows| && Exec(s, front).rows[row].state.Expired?)
  }

  /** At time t, an acknowledged dispatch without a resolution has met its resolve SLA with `slack`. */
  ghost predicate AckedWithinSla(r: Row, t: real, slack: real) {
    r.state.Acknowledged? && r.resolvedAt.None? ==> t - r.createdAt <= r.slaResolve + slack
  }

  lemma RowAfterIsAcked(r: Row, escalations: nat, i: nat, e: Event, t: real, slack: real)
    requires RowOk(r, escalations) && !e.Sweep?
    requires WithinSla(r, t, slack) && AckedWithinSla(r, t, slack)
    requires !(e.Ack? && e.row == i && r.state.Expired?)
    ensures AckedWithinSla(RowAfter(r, i, e), t, slack)
  {
  }

  lemma SweptIsAcked(r: Row, i: nat, e: Event, slack: real)
    requires e.Sweep? && slack >= 0.0
    ensures AckedWithinSla(RowAfter(r, i, e), e.now, slack)
  {
  }

  lemma {:induction false} AckedWithinSlaAtLastSweep(s: Settings, events: seq<Event>, start: real, row: nat, L: real)
    requires WellTimed(events) && Prompt(s, events, start, L) && row < |Exec(s, events).rows|
        && NotRevived(s, events, row)
    ensures AckedWithinSla(Exec(s, events).rows[row], LastSweep(events, start), L)
    decreases |events|
  {
    hide WithinSla, AckedWithinSla, RowOk, Apply;
    if events != [] {
      var front, e := events[..|events| - 1], events[|events| - 1];
      ExecKeepsDbOk(s, front);
      ApplyRows(s, Exec(s, front), e);
      if row >= |Exec(s, front).rows| {
        NewRowIsNotAcked(s, e, LastSweep(events, start), L);
      } else if e.Sweep? {
        SweptIsAcked(Exec(s, front).rows[row], row, e, L);
      } else {
        WithinSlaAtLastSweep(s, front, start, row, L);
        AckedWithinSlaAtLastSweep(s, front, start, row, L);
        RowAfterIsAcked(Exec(s, front).rows[row], EscalationCount(Exec(s, front).audit, row), row, e,
            LastSweep(front, start), L);
      }
    }
  }

  lemma NewRowIsNotAcked(s: Settings, e: Event, t: real, slack: real)
    requires e.Delivery? && e.p.incident.Some?
    ensures AckedWithinSla(NewRow(s, e.p, e.oncall, e.created, e.notified), t, slack)
  {
  }

  /** Deadlines: if dispatches commit within L of their insertion and the last sweep was at most P ago, no
      dispatch waits for its first acknowledgement more than P + L past its ack SLA, and none is open and
      unresolved more than P + L past its resolve SLA, unless it was expired and then acknowledged again since. */
  lemma SlaBound(s: Settings, events: seq<Event>, start: real, row: nat, now: real, P: real, L: real)
    requires WellTimed(events) && Prompt(s, events, start, L) && row < |Exec(s, events).rows|
    requires now - LastSweep(events, start) <= P
    ensures var r := Exec(s, events).rows[row];
            && (r.state == Notified && r.notifiedAt.Some? ==> now - r.notifiedAt.value <= s.slaAck + P + L)
            && (r.state == Notified || r.state == Escalated ==> now - r.createdAt <= s.slaResolve + P + L)
            && (NotRevived(s, events, row) && r.state == Acknowledged && r.resolvedAt == None ==>
                  now - r.createdAt <= s.slaResolve + P + L)
  {
    WithinSlaAtLastSweep(s, events, start, row, L);
    RowIsDelivery(s, events, row);
    if NotRevived(s, events, row) {
      AckedWithinSlaAtLastSweep(s, events, start, row, L);
    }
  }

  // ----- Resolving is final only until the next acknowledgement -----

  /** The k-th event resolves a dispatch that is there, and none after it resolves it again. */
  ghost predicate LastResolve(s: Settings, events: seq<Event>, k: nat, row: nat) {
    && k < |events| && events[k].Resolve? && events[k].row == row && row < |Exec(s, events[..k]).rows|
    && forall m :: k < m < |events| ==> !(events[m].Resolve? && events[m].row == row)
  }

  predicate Acks(e: Event, row: nat) {
    e.Ack? && e.row == row
  }

  lemma ResolvedRowAfter(r: Row, i: nat, e: Event)
    requires r.resolvedAt.Some? && (r.state.Resolved? || r.state.Acknowledged?) && !(e.Resolve? && e.row == i)
    ensures var after := RowAfter(r, i, e);
            after.resolvedAt.Some? && after.state == if Acks(e, i) then Acknowledged else r.state
  {
  }

  /** Over every run: a dispatch that was resolved ends up resolved if no acknowledgement follows its last
      resolution, and otherwise acknowledged, which no sweep, assignment or delivery ever changes. */
  lemma {:induction false} StateAfterResolve(s: Settings, events: seq<Event>, k: nat, row: nat)
    requires LastResolve(s, events, k, row)
    ensures row < |Exec(s, events).rows|
    ensures var r, acked := Exec(s, events).rows[row], exists m :: k < m < |events| && Acks(events[m], row);
            r.resolvedAt.Some? && r.state == if acked then Acknowledged else Resolved
    decreases |events|
  {
    hide Apply, RowAfter;
    var front, e := events[..|events| - 1], events[|events| - 1];
    if k == |events| - 1 {
      assert events[..k] == front;
      ResolvedNow(s, Exec(s, front), e);
    } else {
      assert front[..k] == events[..k];
      StateAfterResolve(s, front, k, row);
      ApplyRows(s, Exec(s, front), e);
      ResolvedRowAfter(Exec(s, front).rows[row], row, e);
      assert Acks(e, row) ==> Acks(events[|events| - 1], row);
    }
  }

  lemma ResolvedNow(s: Settings, db: Db, e: Event)
    requires e.Resolve? && e.row < |db.rows|
    ensures var after := Apply(s, db, e);
            e.row < |after.rows| && after.rows[e.row].state.Resolved? && after.rows[e.row].resolvedAt.Some?
  {
  }

  /** Resolving is final exactly when no acknowledgement follows. */
  lemma ResolvedIffNotAcked(s: Settings, events: seq<Event>, k: nat, row: nat)
    requires LastResolve(s, events, k, row)
    ensures row < |Exec(s, events).rows|
    ensures Exec(s, events).rows[row].state.Resolved? <==> forall m :: k < m < |events| ==> !Acks(events[m], row)
  {
    StateAfterResolve(s, events, k, row);
  }

  /** The endpoints have no state guard: a dispatch acknowledged after its resolution stays acknowledged over every
      later run that does not resolve it again, however overdue it is. */
  lemma AckAfterResolveIsStuck(s: Settings, events: seq<Event>, k: nat, m: nat, row: nat, n: nat)
    requires LastResolve(s, events, k, row) && k < m < n <= |events| && Acks(events[m], row)
    ensures row < |Exec(s, events[..n]).rows| && Exec(s, events[..n]).rows[row].state.Acknowledged?
  {
    var run := events[..n];
    assert run[..k] == events[..k];
    assert run[m] == events[m];
    StateAfterResolve(s, run, k, row);
  }
}
