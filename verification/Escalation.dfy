/** The incident escalator (services/notify/sentigon_notify/escalation.py): sweeps that page each level of
    unacknowledged confirmed incidents, between arbitrary changes of the incidents by other services. A sweep is
    one transaction. */
module Escalation {
  datatype Status = New | Ack | Escalated | Resolved | FalsePositive

  datatype Verdict = Confirmed | Rejected | Unverified

  /** `level` is the escalation level kept in the incident's attributes, 0 when there is none. */
  datatype Incident = Incident(status: Status, verdict: Verdict, createdAt: real, level: nat)

  /** The audit entry of one escalation; incidents are named by their place in the table. */
  datatype Record = Record(incident: nat, level: nat, at: real)

  datatype Db = Db(incidents: seq<Incident>, audit: seq<Record>)

  datatype Level = Level(level: nat, after: real)

  datatype Settings = Settings(l1After: real, l2After: real, maxAge: real)

  function Levels(cfg: Settings): seq<Level> {
    [Level(1, cfg.l1After), Level(2, cfg.l2After)]
  }

  /** The highest level whose delay an incident of this age has passed, 0 for none. */
  function Due(cfg: Settings, age: real): (level: nat)
    ensures level <= 2
  {
    if age >= cfg.l2After then 2 else if age >= cfg.l1After then 1 else 0
  }

  function Max(a: nat, b: nat): nat {
    if a < b then b else a
  }

  /** What the sweep's query selects. */
  predicate Selected(cfg: Settings, inc: Incident, now: real) {
    inc.status.New? && inc.verdict.Confirmed? && inc.createdAt >= now - cfg.maxAge
  }

  function Swept(cfg: Settings, inc: Incident, now: real): Incident {
    if Selected(cfg, inc, now) then inc.(level := Max(inc.level, Due(cfg, now - inc.createdAt))) else inc
  }

  /** A committed sweep pages an incident that waits for somebody, new, confirmed and not too old, up to the highest
      level whose delay it has passed, and leaves any other alone. */
  ghost predicate Raised(cfg: Settings, inc: Incident, after: Incident, now: real) {
    var age := now - inc.createdAt;
    var waiting := inc.status == New && inc.verdict == Confirmed && age <= cfg.maxAge;
    && after.status == inc.status && after.verdict == inc.verdict && after.createdAt == inc.createdAt
    && after.level == if waiting && age >= cfg.l2After && inc.level < 2 then 2
                      else if waiting && age >= cfg.l1After && inc.level < 1 then 1
                      else inc.level
  }

  lemma SweptIsRaised(cfg: Settings, inc: Incident, now: real)
    ensures Raised(cfg, inc, Swept(cfg, inc, now), now)
  {
  }

  /** The levels one sweep records for an incident, lowest first. */
  function Paged(cfg: Settings, inc: Incident, now: real): seq<nat> {
    if !Selected(cfg, inc, now) then [] else
      var age := now - inc.createdAt;
      (if age >= cfg.l1After && inc.level < 1 then [1] else [])
          + (if age >= cfg.l2After && inc.level < 2 then [2] else [])
  }

  function RecordsOf(i: nat, levels: seq<nat>, at: real): seq<Record> {
    seq(|levels|, k requires 0 <= k < |levels| => Record(i, levels[k], at))
  }

  /** The table after the first n rows have been gone through. */
  function AfterRows(cfg: Settings, db: Db, now: real, n: nat): (after: Db)
    requires n <= |db.incidents|
    ensures |after.incidents| == |db.incidents|
    ensures forall k :: 0 <= k < n ==> after.incidents[k] == Swept(cfg, db.incidents[k], now)
    ensures forall k :: n <= k < |db.incidents| ==> after.incidents[k] == db.incidents[k]
  {
    if n == 0 then db else
      var before := AfterRows(cfg, db, now, n - 1);
      var inc := db.incidents[n - 1];
      Db(before.incidents[n - 1 := Swept(cfg, inc, now)], before.audit + RecordsOf(n - 1, Paged(cfg, inc, now), now))
  }

  /** The escalator's process; the database rows it works on are its fields. */
  class Escalator {
    const cfg: Settings
    var incidents: seq<Incident>
    var audit: seq<Record>

    constructor (cfg: Settings, incidents: seq<Incident>, audit: seq<Record>)
      ensures this.cfg == cfg && this.incidents == incidents && this.audit == audit
    {
      this.cfg := cfg;
      this.incidents := incidents;
      this.audit := audit;
    }

    ghost function Now(): Db
      reads this
    {
      Db(incidents, audit)
    }

    method Escalate(i: nat, level: nat, now: real)
      requires i < |incidents|
      modifies this
      ensures incidents == old(incidents)[i := old(incidents)[i].(level := level)]
      ensures audit == old(audit) + [Record(i, level, now)]
    {
      incidents := incidents[i := incidents[i].(level := level)];
      audit := audit + [Record(i, level, now)];
    }

    /** The inner loop: every level in turn, against the level reached so far. */
    method Climb(i: nat, now: real)
      requires i < |incidents| && Selected(cfg, incidents[i], now)
      modifies this
      ensures incidents == old(incidents)[i := Swept(cfg, old(incidents)[i], now)]
      ensures audit == old(audit) + RecordsOf(i, Paged(cfg, old(incidents)[i], now), now)
    {
      var age := now - incidents[i].createdAt;
      var current := incidents[i].level;
      var levels := Levels(cfg);
      ghost var paged := Paged(cfg, incidents[i], now);
      for k := 0 to |levels|
        invariant |incidents| == |old(incidents)| && current == incidents[i].level
        invariant incidents == old(incidents)[i := old(incidents)[i].(level := current)]
        invariant k == 0 ==> current == old(incidents)[i].level && audit == old(audit)
        invariant k == 1 ==> current == Max(old(incidents)[i].level, if age >= cfg.l1After then 1 else 0)
        invariant k == 1 ==>
                    audit == old(audit) + if current != old(incidents)[i].level then [Record(i, 1, now)] else []
        invariant k == 2 ==> current == Swept(cfg, old(incidents)[i], now).level
        invariant k == 2 ==> audit == old(audit) + RecordsOf(i, paged, now)
      {
        if age >= levels[k].after && current < levels[k].level {
          Escalate(i, levels[k].level, now);
          current := levels[k].level;
        }
      }
    }

    /** An exception or a failed commit rolls the whole sweep back. */
    method Sweep(now: real, commits: bool)
      modifies this
      ensures Now() == if commits then AfterRows(cfg, old(Now()), now, |old(incidents)|) else old(Now())
      ensures |incidents| == |old(incidents)|
      ensures forall i :: 0 <= i < |incidents| ==>
                if commits then Raised(cfg, old(incidents)[i], incidents[i], now) else incidents[i] == old(incidents)[i]
    {
      hide Raised;
      var savedIncidents, savedAudit := incidents, audit;
      for i := 0 to |incidents|
        invariant |incidents| == |savedIncidents|
        invariant Now() == AfterRows(cfg, old(Now()), now, i)
      {
        if Selected(cfg, incidents[i], now) {
          Climb(i, now);
        }
      }
      forall i | 0 <= i < |incidents| ensures Raised(cfg, savedIncidents[i], incidents[i], now) {
        SweptIsRaised(cfg, savedIncidents[i], now);
      }
      if !commits {
        incidents, audit := savedIncidents, savedAudit;
      }
    }
  }

  // ----- Runs -----

  /** What can happen to the table: a sweep, a new incident, or another service changing an incident's status
      and verdict in any way. */
  datatype Step =
    | Sweep(now: real, commits: bool)
    | Create(verdict: Verdict, at: real)
    | Change(i: nat, status: Status, verdict: Verdict)

  function Apply(cfg: Settings, db: Db, step: Step): (after: Db)
    ensures |db.incidents| <= |after.incidents|
  {
    match step
    case Sweep(now, commits) => if commits then AfterRows(cfg, db, now, |db.incidents|) else db
    case Create(verdict, at) => db.(incidents := db.incidents + [Incident(New, verdict, at, 0)])
    case Change(i, status, verdict) =>
      if i < |db.incidents|
      then db.(incidents := db.incidents[i := db.incidents[i].(status := status, verdict := verdict)])
      else db
  }

  function Exec(cfg: Settings, db: Db, steps: seq<Step>): (after: Db)
    ensures |db.incidents| <= |after.incidents|
  {
    if steps == [] then db else Apply(cfg, Exec(cfg, db, steps[..|steps| - 1]), steps[|steps| - 1])
  }

  function DelayOf(cfg: Settings, level: nat): real {
    if level == 1 then cfg.l1After else cfg.l2After
  }

  ghost predicate Climbing(audit: seq<Record>) {
    forall a, b :: 0 <= a < b < |audit| && audit[a].incident == audit[b].incident ==> audit[a].level < audit[b].level
  }

  ghost predicate HasRecord(audit: seq<Record>, i: nat, level: nat) {
    exists a :: 0 <= a < |audit| && audit[a].incident == i && audit[a].level == level
  }

  /** The records of an incident climb strictly, and its level is the highest of them, or 0. */
  ghost predicate Consistent(db: Db) {
    && Climbing(db.audit)
    && (forall a :: 0 <= a < |db.audit| ==>
          var r := db.audit[a]; r.incident < |db.incidents| && 1 <= r.level <= db.incidents[r.incident].level <= 2)
    && (forall i :: 0 <= i < |db.incidents| && db.incidents[i].level > 0
          ==> HasRecord(db.audit, i, db.incidents[i].level))
  }

  /** One page: the level is raised and recorded. */
  function PageOne(db: Db, i: nat, level: nat, at: real): Db
    requires i < |db.incidents|
  {
    Db(db.incidents[i := db.incidents[i].(level := level)], db.audit + [Record(i, level, at)])
  }

  lemma PageOneKeepsConsistent(db: Db, i: nat, level: nat, at: real)
    requires Consistent(db) && i < |db.incidents| && db.incidents[i].level < level <= 2
    ensures Consistent(PageOne(db, i, level, at))
  {
    var after := PageOne(db, i, level, at);
    assert Climbing(after.audit);
    forall j, l | HasRecord(db.audit, j, l) ensures HasRecord(after.audit, j, l) {
      var a :| 0 <= a < |db.audit| && db.audit[a].incident == j && db.audit[a].level == l;
      assert after.audit[a] == db.audit[a];
    }
    assert after.audit[|db.audit|] == Record(i, level, at);
  }

  /** A row's share of a sweep is at most two pages, one after the other. */
  lemma RowIsPages(cfg: Settings, db: Db, i: nat, now: real)
    requires i < |db.incidents|
    ensures var inc := db.incidents[i];
            var p := Paged(cfg, inc, now);
            var after := Db(db.incidents[i := Swept(cfg, inc, now)], db.audit + RecordsOf(i, p, now));
            && (|p| == 0 ==> after == db)
            && (|p| == 1 ==> inc.level < p[0] <= 2 && after == PageOne(db, i, p[0], now))
            && (|p| == 2 ==> inc.level < 1 && after == PageOne(PageOne(db, i, 1, now), i, 2, now))
            && |p| <= 2
  {
    var p := Paged(cfg, db.incidents[i], now);
    if |p| == 0 {
      assert RecordsOf(i, p, now) == [];
    } else if |p| == 1 {
      assert RecordsOf(i, p, now) == [Record(i, p[0], now)];
    } else {
      assert RecordsOf(i, p, now) == [Record(i, 1, now)] + [Record(i, 2, now)];
    }
  }

  lemma {:induction false} AfterRowsKeepsConsistent(cfg: Settings, db: Db, now: real, n: nat)
    requires Consistent(db) && n <= |db.incidents|
    ensures Consistent(AfterRows(cfg, db, now, n))
  {
    hide Consistent;
    if n > 0 {
      var before := AfterRows(cfg, db, now, n - 1);
      AfterRowsKeepsConsistent(cfg, db, now, n - 1);
      RowIsPages(cfg, before, n - 1, now);
      var p := Paged(cfg, before.incidents[n - 1], now);
      if |p| == 1 {
        PageOneKeepsConsistent(before, n - 1, p[0], now);
      } else if |p| == 2 {
        PageOneKeepsConsistent(before, n - 1, 1, now);
        PageOneKeepsConsistent(PageOne(before, n - 1, 1, now), n - 1, 2, now);
      }
    }
  }

  lemma ApplyKeepsConsistent(cfg: Settings, db: Db, step: Step)
    requires Consistent(db)
    ensures Consistent(Apply(cfg, db, step))
  {
    if step.Sweep? && step.commits {
      AfterRowsKeepsConsistent(cfg, db, step.now, |db.incidents|);
    }
  }

  /** Over every run each level is recorded at most once per incident, in rising order, and the level kept on
      the incident is always the highest one recorded. */
  lemma {:induction false} EachLevelOnce(cfg: Settings, db: Db, steps: seq<Step>)
    requires Consistent(db)
    ensures Consistent(Exec(cfg, db, steps))
    ensures var audit := Exec(cfg, db, steps).audit;
            forall a, b :: 0 <= a < b < |audit|
                ==> audit[a].incident != audit[b].incident || audit[a].level != audit[b].level
  {
    if steps != [] {
      EachLevelOnce(cfg, db, steps[..|steps| - 1]);
      ApplyKeepsConsistent(cfg, Exec(cfg, db, steps[..|steps| - 1]), steps[|steps| - 1]);
    }
  }

  /** The incident waits for somebody: new, confirmed, and not too old to be paged. */
  predicate Waiting(cfg: Settings, inc: Incident, now: real) {
    inc.status == New && inc.verdict == Confirmed && now - inc.createdAt <= cfg.maxAge
  }

  /** At this point of the run the i-th incident is there, waiting when a committed sweep comes, below level k and
      past its delay. */
  predicate PagesAt(cfg: Settings, db: Db, steps: seq<Step>, j: nat, i: nat, k: nat, at: real)
    requires j < |steps|
  {
    && steps[j] == Sweep(at, true)
    && var before := Exec(cfg, db, steps[..j]).incidents;
       i < |before| && Waiting(cfg, before[i], at) && before[i].level < k
           && at - before[i].createdAt >= DelayOf(cfg, k)
  }

  /** The audit log is exactly the history: a record is there if and only if it was there at the start or some
      committed sweep met that incident new, confirmed, young enough, past the level's delay and below it. */
  lemma {:induction false} AuditIsHistory(cfg: Settings, db: Db, steps: seq<Step>, i: nat, k: nat, at: real)
    requires 1 <= k <= 2
    ensures Record(i, k, at) in Exec(cfg, db, steps).audit
            <==> Record(i, k, at) in db.audit || exists j :: 0 <= j < |steps| && PagesAt(cfg, db, steps, j, i, k, at)
  {
    hide PagesAt, Paged, Swept;
    if steps != [] {
      var front, last := steps[..|steps| - 1], steps[|steps| - 1];
      AuditIsHistory(cfg, db, front, i, k, at);
      PagesAtSnoc(cfg, db, steps, i, k, at);
      var before := Exec(cfg, db, front);
      if last.Sweep? && last.commits {
        AfterRowsRecords(cfg, before, last.now, |before.incidents|, i, k, at);
      }
    }
  }

  lemma PagesAtSnoc(cfg: Settings, db: Db, steps: seq<Step>, i: nat, k: nat, at: real)
    requires steps != [] && 1 <= k <= 2
    ensures var front := steps[..|steps| - 1];
            var before := Exec(cfg, db, front).incidents;
            && (forall j :: 0 <= j < |front|
                  ==> PagesAt(cfg, db, front, j, i, k, at) == PagesAt(cfg, db, steps, j, i, k, at))
            && (PagesAt(cfg, db, steps, |front|, i, k, at)
                <==> steps[|front|] == Sweep(at, true) && i < |before| && k in Paged(cfg, before[i], at))
  {
    var front := steps[..|steps| - 1];
    forall j | 0 <= j < |front| ensures PagesAt(cfg, db, front, j, i, k, at) == PagesAt(cfg, db, steps, j, i, k, at) {
      assert front[..j] == steps[..j];
    }
  }

  lemma {:induction false} AfterRowsRecords(cfg: Settings, db: Db, now: real, n: nat, i: nat, k: nat, at: real)
    requires n <= |db.incidents|
    ensures Record(i, k, at) in AfterRows(cfg, db, now, n).audit
            <==> Record(i, k, at) in db.audit || (i < n && at == now && k in Paged(cfg, db.incidents[i], now))
  {
    hide Paged, Swept;
    if n > 0 {
      AfterRowsRecords(cfg, db, now, n - 1, i, k, at);
      var p := Paged(cfg, db.incidents[n - 1], now);
      var records := RecordsOf(n - 1, p, now);
      assert Record(i, k, at) in records <==> i == n - 1 && at == now && k in p by {
        if i == n - 1 && at == now && k in p {
          var x :| 0 <= x < |p| && p[x] == k;
          assert records[x] == Record(i, k, at);
        }
      }
    }
  }

  /** At this point a committed sweep finds the incident waiting, at an age past the delay of a level of at least k. */
  predicate DueAt(cfg: Settings, db: Db, steps: seq<Step>, j: nat, i: nat, k: nat)
    requires j < |steps|
  {
    && steps[j].Sweep? && steps[j].commits
    && var before := Exec(cfg, db, steps[..j]).incidents;
       i < |before| && Waiting(cfg, before[i], steps[j].now)
           && exists level :: k <= level <= 2 && steps[j].now - before[i].createdAt >= DelayOf(cfg, level)
  }

  lemma DueInFull(cfg: Settings, inc: Incident, now: real, k: nat)
    requires k >= 1
    ensures Selected(cfg, inc, now) <==> Waiting(cfg, inc, now)
    ensures Due(cfg, now - inc.createdAt) >= k
            <==> exists level :: k <= level <= 2 && now - inc.createdAt >= DelayOf(cfg, level)
  {
    var age := now - inc.createdAt;
    assert age >= DelayOf(cfg, 1) <==> age >= cfg.l1After;
    assert age >= DelayOf(cfg, 2) <==> age >= cfg.l2After;
  }

  /** An incident's level never goes down, and it is at least k if and only if it was at the start or some
      committed sweep found it due for a level of at least k. */
  lemma {:induction false} LevelIsHighestDue(cfg: Settings, db: Db, steps: seq<Step>, i: nat, k: nat)
    requires k >= 1 && i < |Exec(cfg, db, steps).incidents|
    ensures Exec(cfg, db, steps).incidents[i].level >= k
            <==> || (i < |db.incidents| && db.incidents[i].level >= k)
                 || exists j :: 0 <= j < |steps| && DueAt(cfg, db, steps, j, i, k)
    ensures i < |db.incidents| ==> Exec(cfg, db, steps).incidents[i].level >= db.incidents[i].level
  {
    if steps != [] {
      var front, last := steps[..|steps| - 1], steps[|steps| - 1];
      assert forall j :: 0 <= j < |front| ==> front[..j] == steps[..j];
      assert forall j :: 0 <= j < |front| ==> DueAt(cfg, db, front, j, i, k) == DueAt(cfg, db, steps, j, i, k);
      var before := Exec(cfg, db, front);
      if i < |before.incidents| {
        LevelIsHighestDue(cfg, db, front, i, k);
        assert DueAt(cfg, db, steps, |front|, i, k)
          <==> last.Sweep? && last.commits && Selected(cfg, before.incidents[i], last.now)
               && Due(cfg, last.now - before.incidents[i].createdAt) >= k by {
        if last.Sweep? {
          DueInFull(cfg, before.incidents[i], last.now, k);
        }
      }
      } else {
        NotYetThere(cfg, db, steps, i, k);
      }
    }
  }

  /** A sweep before the incident was created says nothing about it. */
  lemma NotYetThere(cfg: Settings, db: Db, steps: seq<Step>, i: nat, k: nat)
    requires steps != [] && i >= |Exec(cfg, db, steps[..|steps| - 1]).incidents|
    ensures forall j :: 0 <= j < |steps| ==> !DueAt(cfg, db, steps, j, i, k)
  {
    forall j | 0 <= j < |steps| ensures !DueAt(cfg, db, steps, j, i, k) {
      TableGrows(cfg, db, steps[..|steps| - 1], j);
      assert steps[..|steps| - 1][..j] == steps[..j];
    }
  }

  lemma {:induction false} TableGrows(cfg: Settings, db: Db, steps: seq<Step>, j: nat)
    requires j <= |steps|
    ensures |Exec(cfg, db, steps[..j]).incidents| <= |Exec(cfg, db, steps).incidents|
  {
    if j < |steps| {
      TableGrows(cfg, db, steps[..|steps| - 1], j);
      assert steps[..|steps| - 1][..j] == steps[..j];
    } else {
      assert steps[..j] == steps;
    }
  }

  /** Nobody is paged for a level whose delay is longer than the age limit: such a level is never recorded. */
  lemma LevelBeyondAgeLimit(cfg: Settings, steps: seq<Step>, i: nat, k: nat, at: real)
    requires 1 <= k <= 2 && DelayOf(cfg, k) > cfg.maxAge
    ensures Record(i, k, at) !in Exec(cfg, Db([], []), steps).audit
  {
    AuditIsHistory(cfg, Db([], []), steps, i, k, at);
  }

  /** Nobody is paged for an incident that was acknowledged or otherwise dealt with, or not confirmed, when the sweep
      came. */
  lemma OnlyWaitingArePaged(cfg: Settings, steps: seq<Step>, i: nat, k: nat, at: real)
    requires 1 <= k <= 2 && Record(i, k, at) in Exec(cfg, Db([], []), steps).audit
    ensures exists j :: 0 <= j < |steps| && steps[j] == Sweep(at, true)
                        && i < |Exec(cfg, Db([], []), steps[..j]).incidents|
                        && Exec(cfg, Db([], []), steps[..j]).incidents[i].status == New
                        && Exec(cfg, Db([], []), steps[..j]).incidents[i].verdict == Confirmed
  {
    AuditIsHistory(cfg, Db([], []), steps, i, k, at);
    var j :| 0 <= j < |steps| && PagesAt(cfg, Db([], []), steps, j, i, k, at);
    assert steps[j] == Sweep(at, true);
  }
}
