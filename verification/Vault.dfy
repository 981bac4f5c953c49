/** The evidence ledger of services/common/sentigon_common/vault.py.

    Rows are chained by `RecordHash`, appended under a transaction-scoped advisory lock and
    audited by a verifier loop. SHA-256 is an arbitrary function `h` with 64-character results. */
module Vault {
  import opened Common

  function Zeros(n: nat): (z: string)
    ensures |z| == n && forall i :: 0 <= i < n ==> z[i] == '0'
  {
    seq(n, _ => '0')
  }

  const GENESIS: string := Zeros(64)

  ghost predicate HexDigest(h: string -> string) {
    forall s: string :: |h(s)| == 64
  }

  /** A row of evidence_records. `other` stands for kind, bucket, object_key, reference_id and the
      remaining metadata, none of which is hashed. */
  datatype Row = Row(seqNo: nat, contentHash: string, prevHash: Option<string>, digest: Option<string>, other: string)

  function Encode(digest: string, prev: string): string {
    digest + ":" + prev
  }

  function RecordHash(h: string -> string, digest: string, prev: string): string {
    h(Encode(digest, prev))
  }

  /** The "digest:prev" text determines both parts because prev always has 64 characters. */
  lemma EncodeInjective(d1: string, p1: string, d2: string, p2: string)
    requires |p1| == |p2| == 64
    ensures Encode(d1, p1) == Encode(d2, p2) <==> d1 == d2 && p1 == p2
  {
    if Encode(d1, p1) == Encode(d2, p2) {
      assert Encode(d1, p1)[|d1| + 1..] == p1;
      assert Encode(d2, p2)[|d2| + 1..] == p2;
      assert Encode(d1, p1)[..|d1|] == d1;
      assert Encode(d2, p2)[..|d2|] == d2;
    }
  }

  // ----- What an intact chain is -----

  function Head(rows: seq<Row>): string {
    if rows == [] then GENESIS else rows[|rows| - 1].contentHash
  }

  predicate HasDigest(r: Row) {
    r.digest.Some? && r.digest.value != ""
  }

  predicate ContentOk(h: string -> string, r: Row) {
    HasDigest(r) && r.prevHash.Some? ==> r.contentHash == RecordHash(h, r.digest.value, r.prevHash.value)
  }

  predicate RowOk(h: string -> string, rows: seq<Row>, i: nat)
    requires i < |rows|
  {
    rows[i].prevHash == Some(Head(rows[..i])) && ContentOk(h, rows[i])
  }

  ghost predicate Intact(h: string -> string, rows: seq<Row>) {
    forall i :: 0 <= i < |rows| ==> RowOk(h, rows, i)
  }

  ghost predicate Increasing(rows: seq<Row>) {
    forall i, j :: 0 <= i < j < |rows| ==> rows[i].seqNo < rows[j].seqNo
  }

  // ----- verify_chain -----

  datatype Reason = PrevHashMismatch(expected: string, got: Option<string>) | ContentTampered(record: string)
  datatype Break = Break(seqNo: nat, reason: Reason)

  /** The break the walk reports at row i, if any. A wrong link hides a wrong content hash. */
  function BreakAt(h: string -> string, rows: seq<Row>, i: nat): (b: Option<Break>)
    requires i < |rows|
    ensures b.None? <==> RowOk(h, rows, i)
  {
    var r := rows[i];
    if r.prevHash != Some(Head(rows[..i])) then Some(Break(r.seqNo, PrevHashMismatch(Head(rows[..i]), r.prevHash)))
    else if !ContentOk(h, r) then Some(Break(r.seqNo, ContentTampered(r.contentHash)))
    else None
  }

  /** The breaks of the first n rows, in seq order. */
  function BreaksUpTo(h: string -> string, rows: seq<Row>, n: nat): (bs: seq<Break>)
    requires n <= |rows|
    ensures bs == [] <==> forall i :: 0 <= i < n ==> RowOk(h, rows, i)
  {
    if n == 0 then [] else
      var bs := BreaksUpTo(h, rows, n - 1);
      match BreakAt(h, rows, n - 1)
      case None => bs
      case Some(b) => bs + [b]
  }

  /** The previous record's hash is the one stored for it. */
  predicate Linked(rows: seq<Row>, i: nat)
    requires i < |rows|
  {
    rows[i].prevHash == Some(if i == 0 then GENESIS else rows[i - 1].contentHash)
  }

  /** The record hash is not that of its digest, where it has one. */
  predicate Forged(h: string -> string, r: Row) {
    match (r.digest, r.prevHash)
    case (Some(digest), Some(prev)) => digest != "" && r.contentHash != h(digest + ":" + prev)
    case _ => false
  }

  /** What the verifier reports, in the rows' own fields. */
  lemma {:induction false} BreaksInFull(h: string -> string, rows: seq<Row>, n: nat, b: Break)
    requires n <= |rows|
    ensures b in BreaksUpTo(h, rows, n) <==> exists i :: 0 <= i < n && Reports(h, rows, i, b)
  {
    hide Reports, BreakAt;
    if n > 0 {
      BreaksInFull(h, rows, n - 1, b);
      BreakInFull(h, rows, n - 1);
    }
  }

  lemma IntactInFull(h: string -> string, rows: seq<Row>)
    ensures Intact(h, rows) <==> forall i :: 0 <= i < |rows| ==> Linked(rows, i) && !Forged(h, rows[i])
  {
    hide Linked, Forged, RowOk;
    forall i | 0 <= i < |rows| ensures RowOk(h, rows, i) <==> Linked(rows, i) && !Forged(h, rows[i]) {
      BreakInFull(h, rows, i);
    }
  }

  /** The break is row i's: it does not link to the row before it, or it does and its hash is wrong. */
  predicate Reports(h: string -> string, rows: seq<Row>, i: nat, b: Break)
    requires i < |rows|
  {
    var expected := if i == 0 then GENESIS else rows[i - 1].contentHash;
    && b.seqNo == rows[i].seqNo
    && if !Linked(rows, i) then b.reason == PrevHashMismatch(expected, rows[i].prevHash)
       else Forged(h, rows[i]) && b.reason == ContentTampered(rows[i].contentHash)
  }

  lemma BreakInFull(h: string -> string, rows: seq<Row>, i: nat)
    requires i < |rows|
    ensures BreakAt(h, rows, i).None? <==> Linked(rows, i) && !Forged(h, rows[i])
    ensures forall b :: BreakAt(h, rows, i) == Some(b) <==> Reports(h, rows, i, b)
  {
    assert Head(rows[..i]) == if i == 0 then GENESIS else rows[i - 1].contentHash;
    assert RecordHash(h, "", "") == h("" + ":" + "");
  }

  method VerifyChain(h: string -> string, rows: seq<Row>) returns (ok: bool, breaks: seq<Break>)
    ensures ok <==> Intact(h, rows)
    ensures breaks == BreaksUpTo(h, rows, |rows|)
    ensures ok <==> forall i :: 0 <= i < |rows| ==> Linked(rows, i) && !Forged(h, rows[i])
    ensures forall b :: b in breaks <==> exists i :: 0 <= i < |rows| && Reports(h, rows, i, b)
  {
    hide RecordHash, RowOk, Linked, Forged, Reports;
    IntactInFull(h, rows);
    forall b ensures b in BreaksUpTo(h, rows, |rows|) <==> exists i :: 0 <= i < |rows| && Reports(h, rows, i, b) {
      BreaksInFull(h, rows, |rows|, b);
    }
    breaks := [];
    var expectedPrev := GENESIS;
    for i := 0 to |rows|
      invariant expectedPrev == Head(rows[..i])
      invariant breaks == BreaksUpTo(h, rows, i)
    {
      var r := rows[i];
      if r.prevHash != Some(expectedPrev) {
        breaks := breaks + [Break(r.seqNo, PrevHashMismatch(expectedPrev, r.prevHash))];
      } else if r.digest.Some? && r.digest.value != ""
          && r.contentHash != RecordHash(h, r.digest.value, r.prevHash.value) {
        breaks := breaks + [Break(r.seqNo, ContentTampered(r.contentHash))];
      }
      expectedPrev := r.contentHash;
      assert rows[..i + 1][..i] == rows[..i];
    }
    ok := |breaks| == 0;
  }

  // ----- append_evidence -----

  /** The row an append writes after the visible rows. */
  function NewRow(h: string -> string, prev: string, seqNo: nat, digest: string, other: string): Row {
    Row(seqNo, RecordHash(h, digest, prev), Some(prev), Some(digest), other)
  }

  lemma AppendKeepsIntact(h: string -> string, rows: seq<Row>, seqNo: nat, digest: string, other: string)
    ensures Intact(h, rows + [NewRow(h, Head(rows), seqNo, digest, other)]) <==> Intact(h, rows)
  {
    var rows' := rows + [NewRow(h, Head(rows), seqNo, digest, other)];
    forall i | 0 <= i < |rows|
      ensures RowOk(h, rows', i) <==> RowOk(h, rows, i)
    {
      assert rows'[..i] == rows[..i];
    }
    assert rows'[..|rows|] == rows;
    assert RowOk(h, rows', |rows|);
    if Intact(h, rows') {
      forall i | 0 <= i < |rows| ensures RowOk(h, rows, i) { assert RowOk(h, rows', i); }
    }
  }

  /** The rows one lock-holding session sees and extends. */
  class Session {
    const h: string -> string
    var rows: seq<Row>
    var nextSeq: nat

    constructor (h: string -> string, rows: seq<Row>, nextSeq: nat)
      ensures this.h == h && this.rows == rows && this.nextSeq == nextSeq
    {
      this.h, this.rows, this.nextSeq := h, rows, nextSeq;
    }

    /** Neither data nor digest given is the ValueError branch: nothing is written. */
    method AppendEvidence(data: Option<string>, contentDigest: Option<string>, other: string)
      returns (r: Result<Row, string>)
      modifies this
      ensures r.Err? <==> data.None? && contentDigest.None?
      ensures r.Err? ==> rows == old(rows) && nextSeq == old(nextSeq)
      ensures r.Ok? ==> rows == old(rows) + [r.value] && nextSeq == old(nextSeq) + 1
      ensures r.Ok? ==>
                var digest := if contentDigest.Some? then contentDigest.value else h(data.value);
                var prev := if old(rows) == [] then GENESIS else old(rows)[|old(rows)| - 1].contentHash;
                && r.value.digest == Some(digest) && r.value.prevHash == Some(prev)
                && r.value.contentHash == h(digest + ":" + prev)
                && r.value.seqNo == old(nextSeq) && r.value.other == other
      ensures Intact(h, rows) <==> Intact(h, old(rows))
    {
      var digest := contentDigest;
      if digest.None? {
        if data.None? {
          return Err("append_evidence requires either data or content_digest");
        }
        digest := Some(h(data.value));
      }
      var prev := if |rows| > 0 then rows[|rows| - 1].contentHash else GENESIS;
      var record := Row(nextSeq, RecordHash(h, digest.value, prev), Some(prev), digest, other);
      AppendKeepsIntact(h, rows, nextSeq, digest.value, other);
      rows := rows + [record];
      nextSeq := nextSeq + 1;
      return Ok(record);
    }
  }

  // ----- Concurrent transactions -----

  type TxId = nat

  /** An open transaction: its uncommitted rows and the tail hash it has read for the append at hand. */
  datatype Tx = Tx(pending: seq<Row>, tail: Option<string>)

  datatype Db = Db(table: seq<Row>, nextSeq: nat, lock: Option<TxId>, txs: map<TxId, Tx>)

  const EMPTY_DB := Db([], 0, None, map[])

  /** The statements of append_evidence and the end of its transaction, one step each. */
  datatype Step =
    | Acquire(tx: TxId)
    | ReadTail(tx: TxId)
    | Insert(tx: TxId, digest: string, other: string)
    | Commit(tx: TxId)
    | Abort(tx: TxId)

  function TxOf(db: Db, tx: TxId): Tx {
    if tx in db.txs then db.txs[tx] else Tx([], None)
  }

  /** The row with the largest seq, as `ORDER BY seq DESC LIMIT 1` finds it. */
  function NewestHash(rows: seq<Row>): (hash: string)
    ensures Increasing(rows) ==> hash == Head(rows)
  {
    if rows == [] then GENESIS else rows[Newest(rows)].contentHash
  }

  function Newest(rows: seq<Row>): (k: nat)
    requires rows != []
    ensures k < |rows|
    ensures forall i :: 0 <= i < |rows| ==> rows[i].seqNo <= rows[k].seqNo
    ensures Increasing(rows) ==> k == |rows| - 1
  {
    if |rows| == 1 then 0 else
      var k := Newest(rows[..|rows| - 1]);
      if rows[k].seqNo <= rows[|rows| - 1].seqNo then |rows| - 1 else k
  }

  function Release(lock: Option<TxId>, tx: TxId): Option<TxId> {
    if lock == Some(tx) then None else lock
  }

  /** A disabled step waits: it leaves the database as it is. Without `locking` every transaction
      may read the tail at any time; that variant is only used to show what the lock buys. */
  function Next(h: string -> string, locking: bool, db: Db, step: Step): Db {
    var t := TxOf(db, step.tx);
    match step
    case Acquire(tx) =>
      if db.lock.None? then db.(lock := Some(tx)) else db
    case ReadTail(tx) =>
      if !locking || db.lock == Some(tx)
      then db.(txs := db.txs[tx := t.(tail := Some(NewestHash(db.table + t.pending)))])
      else db
    case Insert(tx, digest, other) =>
      if t.tail.None? then db else
      var row := NewRow(h, t.tail.value, db.nextSeq, digest, other);
      db.(nextSeq := db.nextSeq + 1, txs := db.txs[tx := Tx(t.pending + [row], None)])
    case Commit(tx) =>
      db.(table := db.table + t.pending, txs := db.txs - {tx}, lock := Release(db.lock, tx))
    case Abort(tx) =>
      db.(txs := db.txs - {tx}, lock := Release(db.lock, tx))
  }

  function Exec(h: string -> string, locking: bool, db: Db, steps: seq<Step>): Db
    decreases |steps|
  {
    if steps == [] then db
    else Next(h, locking, Exec(h, locking, db, steps[..|steps| - 1]), steps[|steps| - 1])
  }

  ghost predicate LedgerOk(h: string -> string, rows: seq<Row>, nextSeq: nat) {
    Intact(h, rows) && Increasing(rows) && forall i :: 0 <= i < |rows| ==> rows[i].seqNo < nextSeq
  }

  /** Only the lock holder has written or read anything, and what it has extends the table's chain. */
  ghost predicate DbInv(h: string -> string, db: Db) {
    && LedgerOk(h, db.table, db.nextSeq)
    && (forall tx :: tx in db.txs && db.txs[tx] != Tx([], None) ==> db.lock == Some(tx))
    && (db.lock.Some? ==>
      var t := TxOf(db, db.lock.value);
      && LedgerOk(h, db.table + t.pending, db.nextSeq)
      && (t.tail.Some? ==> t.tail.value == Head(db.table + t.pending)))
  }

  lemma InsertKeepsLedger(h: string -> string, rows: seq<Row>, nextSeq: nat, digest: string, other: string)
    requires LedgerOk(h, rows, nextSeq)
    ensures LedgerOk(h, rows + [NewRow(h, Head(rows), nextSeq, digest, other)], nextSeq + 1)
  {
    AppendKeepsIntact(h, rows, nextSeq, digest, other);
  }

  lemma NextKeepsDbInv(h: string -> string, db: Db, step: Step)
    requires DbInv(h, db)
    ensures DbInv(h, Next(h, true, db, step))
  {
    var t := TxOf(db, step.tx);
    var db' := Next(h, true, db, step);
    match step
    case Acquire(tx) =>
      assert db.table + [] == db.table;
    case ReadTail(tx) =>
    case Insert(tx, digest, other) =>
      if t.tail.Some? {
        assert db.lock == Some(tx);
        InsertKeepsLedger(h, db.table + t.pending, db.nextSeq, digest, other);
        var row := NewRow(h, t.tail.value, db.nextSeq, digest, other);
        assert db.table + (t.pending + [row]) == (db.table + t.pending) + [row];
      }
    case Commit(tx) =>
      assert db.table + [] == db.table;
    case Abort(tx) =>
  }

  lemma {:induction false} ExecKeepsDbInv(h: string -> string, steps: seq<Step>)
    ensures DbInv(h, Exec(h, true, EMPTY_DB, steps))
    decreases |steps|
  {
    if steps != [] {
      ExecKeepsDbInv(h, steps[..|steps| - 1]);
      NextKeepsDbInv(h, Exec(h, true, EMPTY_DB, steps[..|steps| - 1]), steps[|steps| - 1]);
    }
  }

  /** No fork: under every interleaving of appending transactions, commits and aborts, the
      committed ledger in seq order passes the verifier. */
  lemma NoFork(h: string -> string, steps: seq<Step>)
    ensures var table := Exec(h, true, EMPTY_DB, steps).table;
            && Increasing(table)
            && Intact(h, table)
            && BreaksUpTo(h, table, |table|) == []
  {
    ExecKeepsDbInv(h, steps);
  }

  /** One call of append_evidence by a transaction that the lock lets in: it adds to the rows the transaction sees
      the row that `Session.AppendEvidence` writes, and commits nothing. */
  lemma AppendIsThreeSteps(h: string -> string, db: Db, tx: TxId, digest: string, other: string)
    requires DbInv(h, db) && (db.lock.None? || db.lock == Some(tx))
    ensures var seen := db.table + TxOf(db, tx).pending;
            var prev := if seen == [] then GENESIS else seen[|seen| - 1].contentHash;
            var db' := Next(h, true, Next(h, true, Next(h, true, db, Acquire(tx)), ReadTail(tx)),
                Insert(tx, digest, other));
            && db'.table + TxOf(db', tx).pending
               == seen + [Row(db.nextSeq, h(digest + ":" + prev), Some(prev), Some(digest), other)]
            && db'.table == db.table && db'.lock == Some(tx) && db'.nextSeq == db.nextSeq + 1
  {
    hide DbInv, NewestHash, Head;
    LetIn(h, db, tx);
    var seen, t := db.table + TxOf(db, tx).pending, TxOf(db, tx);
    var db2 := Next(h, true, Next(h, true, db, Acquire(tx)), ReadTail(tx));
    HeadInFull(seen);
    var row := NewRow(h, Head(seen), db.nextSeq, digest, other);
    InsertAppends(h, db2, tx, digest, other);
    SnocAfter(db.table, t.pending, row);
  }

  /** A transaction that the lock lets in reads the last hash of what it sees. */
  lemma LetIn(h: string -> string, db: Db, tx: TxId)
    requires DbInv(h, db) && (db.lock.None? || db.lock == Some(tx))
    ensures var db2 := Next(h, true, Next(h, true, db, Acquire(tx)), ReadTail(tx));
            && db2.table == db.table && db2.lock == Some(tx) && db2.nextSeq == db.nextSeq
            && TxOf(db2, tx) == Tx(TxOf(db, tx).pending, Some(Head(db.table + TxOf(db, tx).pending)))
  {
    NextKeepsDbInv(h, db, Acquire(tx));
  }

  lemma InsertAppends(h: string -> string, db: Db, tx: TxId, digest: string, other: string)
    requires TxOf(db, tx).tail.Some?
    ensures var db' := Next(h, true, db, Insert(tx, digest, other));
            && db'.table == db.table && db'.lock == db.lock && db'.nextSeq == db.nextSeq + 1
            && TxOf(db', tx).pending
               == TxOf(db, tx).pending + [NewRow(h, TxOf(db, tx).tail.value, db.nextSeq, digest, other)]
  {
  }

  lemma HeadInFull(rows: seq<Row>)
    ensures Head(rows) == if rows == [] then GENESIS else rows[|rows| - 1].contentHash
  {
  }

  lemma SnocAfter(a: seq<Row>, b: seq<Row>, r: Row)
    ensures a + (b + [r]) == (a + b) + [r]
  {
  }

  /** A commit publishes what its transaction appended, a rollback drops it; either frees the lock if the
      transaction holds it and leaves the other transactions alone. */
  lemma EndOfTransaction(h: string -> string, locking: bool, db: Db, tx: TxId)
    ensures var pending := if tx in db.txs then db.txs[tx].pending else [];
            var committed, aborted := Next(h, locking, db, Commit(tx)), Next(h, locking, db, Abort(tx));
            && committed.table == db.table + pending && aborted.table == db.table
            && committed.lock == aborted.lock == (if db.lock == Some(tx) then None else db.lock)
            && committed.txs == aborted.txs == db.txs - {tx}
            && committed.nextSeq == aborted.nextSeq == db.nextSeq
  {
  }

  /** Without a lock holder any transaction can append and commit: its record ends up last in the table. */
  lemma AppendAndCommit(h: string -> string, steps: seq<Step>, tx: TxId, digest: string, other: string)
    requires Exec(h, true, EMPTY_DB, steps).lock.None?
    ensures var db := Exec(h, true, EMPTY_DB, steps);
            var db' := Exec(h, true, EMPTY_DB,
                            steps + [Acquire(tx), ReadTail(tx), Insert(tx, digest, other), Commit(tx)]);
            var prev := if db.table == [] then GENESIS else db.table[|db.table| - 1].contentHash;
            && db'.table == db.table + [Row(db.nextSeq, h(digest + ":" + prev), Some(prev), Some(digest), other)]
            && db'.lock.None?
  {
    hide Next;
    var db := Exec(h, true, EMPTY_DB, steps);
    ExecKeepsDbInv(h, steps);
    ExecFour(h, steps, Acquire(tx), ReadTail(tx), Insert(tx, digest, other), Commit(tx));
    AppendIsThreeSteps(h, db, tx, digest, other);
    NothingPending(db, tx);
    var d3 := Next(h, true, Next(h, true, Next(h, true, db, Acquire(tx)), ReadTail(tx)), Insert(tx, digest, other));
    EndOfTransaction(h, true, d3, tx);
  }

  lemma NothingPending(db: Db, tx: TxId)
    requires db.lock.None? && forall t :: t in db.txs && db.txs[t] != Tx([], None) ==> db.lock == Some(t)
    ensures TxOf(db, tx).pending == [] && db.table + TxOf(db, tx).pending == db.table
  {
  }

  lemma ExecFour(h: string -> string, steps: seq<Step>, s1: Step, s2: Step, s3: Step, s4: Step)
    ensures var db := Exec(h, true, EMPTY_DB, steps);
            Exec(h, true, EMPTY_DB, steps + [s1, s2, s3, s4])
            == Next(h, true, Next(h, true, Next(h, true, Next(h, true, db, s1), s2), s3), s4)
  {
    hide Next;
    ExecSnoc(h, true, steps, s1);
    ExecSnoc(h, true, steps + [s1], s2);
    ExecSnoc(h, true, steps + [s1] + [s2], s3);
    ExecSnoc(h, true, steps + [s1] + [s2] + [s3], s4);
    assert steps + [s1, s2, s3, s4] == steps + [s1] + [s2] + [s3] + [s4];
  }

  /** Committed rows are never rewritten: each step only extends the table. */
  lemma {:induction false} AppendOnly(h: string -> string, locking: bool, steps: seq<Step>, k: nat)
    requires k <= |steps|
    ensures Exec(h, locking, EMPTY_DB, steps[..k]).table <= Exec(h, locking, EMPTY_DB, steps).table
    decreases |steps|
  {
    if k == |steps| {
      assert steps[..k] == steps;
    } else {
      AppendOnly(h, locking, steps[..|steps| - 1], k);
      assert steps[..|steps| - 1][..k] == steps[..k];
    }
  }

  lemma ExecSnoc(h: string -> string, locking: bool, steps: seq<Step>, step: Step)
    ensures Exec(h, locking, EMPTY_DB, steps + [step]) == Next(h, locking, Exec(h, locking, EMPTY_DB, steps), step)
  {
    assert (steps + [step])[..|steps|] == steps;
  }

  /** Two transactions that both read the empty tail before either writes. */
  const RACE: seq<Step> :=
    [ReadTail(1)] + [ReadTail(2)] + [Insert(1, "a", "")] + [Insert(2, "b", "")] + [Commit(1)] + [Commit(2)]

  lemma RaceTable(h: string -> string)
    ensures Exec(h, false, EMPTY_DB, RACE).table == [NewRow(h, GENESIS, 0, "a", ""), NewRow(h, GENESIS, 1, "b", "")]
  {
    var r1, r2 := NewRow(h, GENESIS, 0, "a", ""), NewRow(h, GENESIS, 1, "b", "");
    var s := [ReadTail(1)];
    ExecSnoc(h, false, [], ReadTail(1));
    assert [] + s == s;
    assert Exec(h, false, EMPTY_DB, s) == Db([], 0, None, map[1 := Tx([], Some(GENESIS))]);
    ExecSnoc(h, false, s, ReadTail(2));
    s := s + [ReadTail(2)];
    assert Exec(h, false, EMPTY_DB, s) == Db([], 0, None, map[1 := Tx([], Some(GENESIS)), 2 := Tx([], Some(GENESIS))]);
    ExecSnoc(h, false, s, Insert(1, "a", ""));
    s := s + [Insert(1, "a", "")];
    var g := Tx([], Some(GENESIS));
    assert TxOf(Db([], 0, None, map[1 := g, 2 := g]), 1) == g;
    assert [] + [r1] == [r1] && [] + [r2] == [r2];
    assert map[1 := g, 2 := g][1 := Tx([r1], None)] == map[1 := Tx([r1], None), 2 := g];
    assert Exec(h, false, EMPTY_DB, s) == Db([], 1, None, map[1 := Tx([r1], None), 2 := Tx([], Some(GENESIS))]);
    ExecSnoc(h, false, s, Insert(2, "b", ""));
    s := s + [Insert(2, "b", "")];
    assert TxOf(Db([], 1, None, map[1 := Tx([r1], None), 2 := g]), 2) == g;
    assert map[1 := Tx([r1], None), 2 := g][2 := Tx([r2], None)] == map[1 := Tx([r1], None), 2 := Tx([r2], None)];
    assert Exec(h, false, EMPTY_DB, s) == Db([], 2, None, map[1 := Tx([r1], None), 2 := Tx([r2], None)]);
    ExecSnoc(h, false, s, Commit(1));
    s := s + [Commit(1)];
    assert Exec(h, false, EMPTY_DB, s) == Db([r1], 2, None, map[2 := Tx([r2], None)]);
    ExecSnoc(h, false, s, Commit(2));
    assert s + [Commit(2)] == RACE;
  }

  /** What the advisory lock buys: without it the race commits two rows that chain off one tail, and
      the verifier breaks at the second. */
  lemma UnlockedAppendsFork(h: string -> string)
    requires RecordHash(h, "a", GENESIS) != GENESIS
    ensures !Intact(h, Exec(h, false, EMPTY_DB, RACE).table)
  {
    RaceTable(h);
    var table := Exec(h, false, EMPTY_DB, RACE).table;
    assert table[..1] == [table[0]];
    assert !RowOk(h, table, 1);
  }

  // ----- Tamper evidence -----

  ghost predicate DigestComplete(rows: seq<Row>) {
    forall i :: 0 <= i < |rows| ==> HasDigest(rows[i])
  }

  /** A break of the hash function: two inputs with one hash, or an input that hashes to genesis. */
  datatype Forgery = NoForgery | Collision(a: string, b: string) | GenesisPreimage(a: string)

  predicate BreaksHash(h: string -> string, f: Forgery) {
    match f
    case NoForgery => false
    case Collision(a, b) => a != b && h(a) == h(b)
    case GenesisPreimage(a) => h(a) == GENESIS
  }

  function Preimage(r: Row): string
    requires r.digest.Some? && r.prevHash.Some?
  {
    Encode(r.digest.value, r.prevHash.value)
  }

  /** Walks two ledgers back from their heads to the first place where they differ. */
  function ExtractForgery(a: seq<Row>, b: seq<Row>): Forgery
    requires forall i :: 0 <= i < |a| ==> a[i].digest.Some? && a[i].prevHash.Some?
    requires forall i :: 0 <= i < |b| ==> b[i].digest.Some? && b[i].prevHash.Some?
    decreases |a|
  {
    if a == [] && b == [] then NoForgery
    else if a == [] then GenesisPreimage(Preimage(b[|b| - 1]))
    else if b == [] then GenesisPreimage(Preimage(a[|a| - 1]))
    else if Preimage(a[|a| - 1]) != Preimage(b[|b| - 1]) then Collision(Preimage(a[|a| - 1]), Preimage(b[|b| - 1]))
    else ExtractForgery(a[..|a| - 1], b[..|b| - 1])
  }

  /** Equal in every hashed field. */
  ghost predicate SameEvidence(a: seq<Row>, b: seq<Row>) {
    && |a| == |b|
    && forall i :: 0 <= i < |a| ==>
         a[i].contentHash == b[i].contentHash && a[i].prevHash == b[i].prevHash && a[i].digest == b[i].digest
  }

  lemma IntactPrefix(h: string -> string, rows: seq<Row>, k: nat)
    requires Intact(h, rows) && k <= |rows|
    ensures Intact(h, rows[..k])
  {
    forall i | 0 <= i < k ensures RowOk(h, rows[..k], i) {
      assert RowOk(h, rows, i);
      assert rows[..k][..i] == rows[..i];
    }
  }

  lemma IntactHeads(h: string -> string, rows: seq<Row>)
    requires HexDigest(h) && Intact(h, rows) && DigestComplete(rows)
    ensures |Head(rows)| == 64
    ensures rows != [] ==>
      var r := rows[|rows| - 1];
      r.prevHash == Some(Head(rows[..|rows| - 1])) && Head(rows) == h(Preimage(r))
  {
    if rows != [] {
      assert RowOk(h, rows, |rows| - 1);
    }
  }

  lemma LinksPresent(h: string -> string, rows: seq<Row>)
    requires Intact(h, rows)
    ensures forall i :: 0 <= i < |rows| ==> rows[i].prevHash.Some?
  {
    forall i | 0 <= i < |rows| ensures rows[i].prevHash.Some? {
      assert RowOk(h, rows, i);
    }
  }

  /** Tamper evidence: two digest-complete ledgers that both verify and end in the same head hash
      hold the same evidence row by row, or the walk yields a break of the hash function. */
  lemma {:induction false} TamperEvident(h: string -> string, a: seq<Row>, b: seq<Row>)
    requires HexDigest(h)
    requires Intact(h, a) && DigestComplete(a)
    requires Intact(h, b) && DigestComplete(b)
    requires Head(a) == Head(b)
    ensures (forall i :: 0 <= i < |a| ==> a[i].prevHash.Some?) && (forall i :: 0 <= i < |b| ==> b[i].prevHash.Some?)
    ensures SameEvidence(a, b) || BreaksHash(h, ExtractForgery(a, b))
    decreases |a|
  {
    hide RowOk, Intact, HexDigest, Encode;
    LinksPresent(h, a);
    LinksPresent(h, b);
    IntactHeads(h, a);
    IntactHeads(h, b);
    if a != [] && b != [] && Preimage(a[|a| - 1]) == Preimage(b[|b| - 1]) {
      var a0, b0 := a[..|a| - 1], b[..|b| - 1];
      IntactPrefix(h, a, |a0|);
      IntactPrefix(h, b, |b0|);
      IntactHeads(h, a0);
      IntactHeads(h, b0);
      EncodeInjective(a[|a| - 1].digest.value, Head(a0), b[|b| - 1].digest.value, Head(b0));
      TamperEvident(h, a0, b0);
    }
  }

  // ----- What runs commit is tamper evident -----

  /** The row was written by an insertion of the run and kept what it was given. */
  ghost predicate Inserted(steps: seq<Step>, r: Row) {
    exists k :: 0 <= k < |steps| && steps[k].Insert? && r.digest == Some(steps[k].digest) && r.other == steps[k].other
  }

  lemma InsertedLater(steps: seq<Step>, r: Row)
    requires steps != [] && Inserted(steps[..|steps| - 1], r)
    ensures Inserted(steps, r)
  {
    var front := steps[..|steps| - 1];
    var k :| 0 <= k < |front| && front[k].Insert? && r.digest == Some(front[k].digest) && r.other == front[k].other;
    assert steps[k] == front[k];
  }

  ghost predicate AllInserted(steps: seq<Step>, db: Db) {
    && (forall i :: 0 <= i < |db.table| ==> Inserted(steps, db.table[i]))
    && (forall tx, i :: tx in db.txs && 0 <= i < |db.txs[tx].pending| ==> Inserted(steps, db.txs[tx].pending[i]))
  }

  lemma NextKeepsInserted(h: string -> string, locking: bool, db: Db, steps: seq<Step>)
    requires steps != [] && AllInserted(steps[..|steps| - 1], db)
    ensures AllInserted(steps, Next(h, locking, db, steps[|steps| - 1]))
  {
    hide Inserted;
    forall r | Inserted(steps[..|steps| - 1], r) ensures Inserted(steps, r) {
      InsertedLater(steps, r);
    }
    var step, t := steps[|steps| - 1], TxOf(db, steps[|steps| - 1].tx);
    if step.Insert? && t.tail.Some? {
      JustInserted(steps, NewRow(h, t.tail.value, db.nextSeq, step.digest, step.other));
    }
  }

  lemma JustInserted(steps: seq<Step>, r: Row)
    requires steps != [] && steps[|steps| - 1].Insert?
    requires r.digest == Some(steps[|steps| - 1].digest) && r.other == steps[|steps| - 1].other
    ensures Inserted(steps, r)
  {
  }

  /** Over every run each row, committed or pending, keeps the digest and the metadata of an insertion. */
  lemma {:induction false} RowsAreInserted(h: string -> string, locking: bool, steps: seq<Step>)
    ensures AllInserted(steps, Exec(h, locking, EMPTY_DB, steps))
    decreases |steps|
  {
    if steps != [] {
      RowsAreInserted(h, locking, steps[..|steps| - 1]);
      NextKeepsInserted(h, locking, Exec(h, locking, EMPTY_DB, steps[..|steps| - 1]), steps);
    }
  }

  ghost predicate DigestsGiven(steps: seq<Step>) {
    forall k :: 0 <= k < |steps| && steps[k].Insert? ==> steps[k].digest != ""
  }

  /** So with digests given every committed row has its content checked by the verifier for ever. */
  lemma RunsAreDigestComplete(h: string -> string, steps: seq<Step>)
    requires DigestsGiven(steps)
    ensures var table := Exec(h, true, EMPTY_DB, steps).table;
            forall i :: 0 <= i < |table| ==>
              && table[i].digest.Some? && table[i].digest.value != "" && table[i].prevHash.Some?
              && table[i].contentHash == h(table[i].digest.value + ":" + table[i].prevHash.value)
  {
    hide Exec;
    RowsAreInserted(h, true, steps);
    ExecKeepsDbInv(h, steps);
    var table := Exec(h, true, EMPTY_DB, steps).table;
    forall i | 0 <= i < |table| ensures
        && table[i].digest.Some? && table[i].digest.value != "" && table[i].prevHash.Some?
        && table[i].contentHash == h(table[i].digest.value + ":" + table[i].prevHash.value)
    {
      assert RowOk(h, table, i) && Inserted(steps, table[i]);
    }
  }

  /** Whatever happens to a ledger that a run has committed: while it verifies, is digest-complete and ends in the
      hash that the run ended in, it holds the run's evidence row by row, or yields a break of the hash function. */
  lemma CommittedIsTamperEvident(h: string -> string, steps: seq<Step>, b: seq<Row>)
    requires HexDigest(h) && DigestsGiven(steps)
    requires Intact(h, b) && DigestComplete(b) && Head(b) == Head(Exec(h, true, EMPTY_DB, steps).table)
    ensures var table := Exec(h, true, EMPTY_DB, steps).table;
            && (forall i :: 0 <= i < |b| ==> b[i].digest.Some? && b[i].prevHash.Some?)
            && (forall i :: 0 <= i < |table| ==> table[i].digest.Some? && table[i].prevHash.Some?)
            && (SameEvidence(table, b) || BreaksHash(h, ExtractForgery(table, b)))
  {
    RunsAreDigestComplete(h, steps);
    NoFork(h, steps);
    TamperEvident(h, Exec(h, true, EMPTY_DB, steps).table, b);
  }

  /** And no row that a run has committed can be rewritten unseen, except the last under a hash of its own: another
      digest or another hash breaks the ledger, or is a collision. */
  lemma RewriteIsSeen(h: string -> string, steps: seq<Step>, i: nat, r: Row)
    requires DigestsGiven(steps)
    requires var table := Exec(h, true, EMPTY_DB, steps).table;
             && i < |table| && r.seqNo == table[i].seqNo && r.digest.Some? && r.digest.value != ""
             && Intact(h, table[i := r])
    ensures var table := Exec(h, true, EMPTY_DB, steps).table;
            && r.prevHash == table[i].prevHash && r.prevHash.Some? && table[i].digest.Some?
            && r.contentHash == h(r.digest.value + ":" + r.prevHash.value)
            && (i + 1 < |table| ==>
                  h(r.digest.value + ":" + r.prevHash.value) == h(table[i].digest.value + ":" + r.prevHash.value))
  {
    RunsAreDigestComplete(h, steps);
    NoFork(h, steps);
    EditUndetectedIff(h, Exec(h, true, EMPTY_DB, steps).table, i, r);
  }

  // ----- Exactly what the verifier does not see -----

  /** Rewriting one row of an intact ledger, in its place in seq order, goes unseen exactly when its link and its
      content check still hold and the next row, if there is one, still points at it. */
  lemma EditUndetectedIff(h: string -> string, rows: seq<Row>, i: nat, r: Row)
    requires Intact(h, rows) && i < |rows| && Increasing(rows[i := r])
    ensures Intact(h, rows[i := r]) <==>
            && r.prevHash == rows[i].prevHash
            && ContentOk(h, r)
            && (i + 1 < |rows| ==> r.contentHash == rows[i].contentHash)
  {
    var rows' := rows[i := r];
    assert RowOk(h, rows, i);
    assert rows'[..i] == rows[..i];
    if i + 1 < |rows| {
      assert RowOk(h, rows, i + 1);
      assert Head(rows'[..i + 1]) == r.contentHash;
      assert Head(rows[..i + 1]) == rows[i].contentHash;
    }
    if && r.prevHash == rows[i].prevHash && ContentOk(h, r)
       && (i + 1 < |rows| ==> r.contentHash == rows[i].contentHash) {
      forall j | 0 <= j < |rows| ensures RowOk(h, rows', j) {
        assert RowOk(h, rows, j);
        assert Head(rows'[..j]) == Head(rows[..j]);
      }
    }
    if Intact(h, rows') {
      assert RowOk(h, rows', i);
      if i + 1 < |rows| {
        assert RowOk(h, rows', i + 1);
      }
    }
  }

  /** The walk through a ledger with a row put in at place j. */
  lemma AfterInsertion(rows: seq<Row>, j: nat, r: Row)
    requires j <= |rows|
    ensures var rows' := rows[..j] + [r] + rows[j..];
            && (forall k :: 0 <= k < j ==> rows'[k] == rows[k] && rows'[..k] == rows[..k])
            && rows'[j] == r && rows'[..j] == rows[..j]
            && (forall k :: j < k < |rows'| ==>
                  rows'[k] == rows[k - 1] && Head(rows'[..k]) == if k == j + 1 then r.contentHash
                      else Head(rows[..k - 1]))
  {
    InsertedBefore(rows, j, r);
    hide Head;
    var rows' := rows[..j] + [r] + rows[j..];
    forall k | j < k < |rows'|
      ensures rows'[k] == rows[k - 1]
      ensures Head(rows'[..k]) == if k == j + 1 then r.contentHash else Head(rows[..k - 1])
    {
      InsertedAfter(rows, j, r, k);
    }
  }

  lemma InsertedBefore(rows: seq<Row>, j: nat, r: Row)
    requires j <= |rows|
    ensures var rows' := rows[..j] + [r] + rows[j..];
            && rows'[j] == r && rows'[..j] == rows[..j]
            && forall k :: 0 <= k < j ==> rows'[k] == rows[k] && rows'[..k] == rows[..k]
  {
    var rows' := rows[..j] + [r] + rows[j..];
    forall k | 0 <= k < j ensures rows'[k] == rows[k] && rows'[..k] == rows[..k] {
      assert rows'[..k] == rows[..k];
    }
    assert rows'[..j] == rows[..j];
  }

  lemma InsertedAfter(rows: seq<Row>, j: nat, r: Row, k: nat)
    requires j < k <= |rows|
    ensures var rows' := rows[..j] + [r] + rows[j..];
            && rows'[k] == rows[k - 1]
            && Head(rows'[..k]) == if k == j + 1 then r.contentHash else Head(rows[..k - 1])
  {
    var rows' := rows[..j] + [r] + rows[j..];
    assert rows'[k - 1] == if k == j + 1 then r else rows[k - 2];
  }

  /** What the inserted row must look like to go unseen. */
  predicate FitsAt(h: string -> string, rows: seq<Row>, j: nat, r: Row)
    requires j <= |rows|
  {
    && r.prevHash == Some(Head(rows[..j]))
    && ContentOk(h, r)
    && (j < |rows| ==> r.contentHash == Head(rows[..j]))
  }

  lemma FittingGoesUnseen(h: string -> string, rows: seq<Row>, j: nat, r: Row)
    requires Intact(h, rows) && j <= |rows| && FitsAt(h, rows, j, r)
    ensures Intact(h, rows[..j] + [r] + rows[j..])
  {
    hide ContentOk, Head;
    var rows' := rows[..j] + [r] + rows[j..];
    AfterInsertion(rows, j, r);
    forall k | 0 <= k < |rows'| ensures RowOk(h, rows', k) {
      if k < j {
        assert RowOk(h, rows, k);
      } else if k > j {
        assert RowOk(h, rows, k - 1);
      }
    }
  }

  lemma UnseenFits(h: string -> string, rows: seq<Row>, j: nat, r: Row)
    requires Intact(h, rows) && j <= |rows| && Intact(h, rows[..j] + [r] + rows[j..])
    ensures FitsAt(h, rows, j, r)
  {
    hide ContentOk, Head;
    var rows' := rows[..j] + [r] + rows[j..];
    AfterInsertion(rows, j, r);
    assert RowOk(h, rows', j);
    if j < |rows| {
      assert RowOk(h, rows', j + 1) && RowOk(h, rows, j);
    }
  }

  /** Putting a row into an intact ledger goes unseen exactly when it links to the row before it, its content check
      holds, and it is the last or repeats the hash before it. */
  lemma InsertionUndetectedIff(h: string -> string, rows: seq<Row>, j: nat, r: Row)
    requires Intact(h, rows) && j <= |rows|
    ensures Intact(h, rows[..j] + [r] + rows[j..]) <==> FitsAt(h, rows, j, r)
  {
    hide Intact, FitsAt;
    if FitsAt(h, rows, j, r) {
      FittingGoesUnseen(h, rows, j, r);
    } else if Intact(h, rows[..j] + [r] + rows[j..]) {
      UnseenFits(h, rows, j, r);
    }
  }

  /** The rows before the deleted one, and each later row, with the head hash they now follow. */
  lemma AfterDeletion(rows: seq<Row>, i: nat)
    requires i < |rows|
    ensures var rows' := rows[..i] + rows[i + 1..];
            && (forall j :: 0 <= j < i ==> rows'[j] == rows[j] && rows'[..j] == rows[..j])
            && (forall j :: i <= j < |rows'| ==>
                  && rows'[j] == rows[j + 1]
                  && Head(rows'[..j]) == if j == i then Head(rows[..i]) else Head(rows[..j + 1]))
  {
    var rows' := rows[..i] + rows[i + 1..];
    assert rows'[..i] == rows[..i];
  }

  /** Deleting one row goes unseen exactly when it was the last, or its hash repeats the one before it. */
  lemma DeletionUndetectedIff(h: string -> string, rows: seq<Row>, i: nat)
    requires Intact(h, rows) && i < |rows|
    ensures Intact(h, rows[..i] + rows[i + 1..]) <==> i == |rows| - 1 || rows[i].contentHash == Head(rows[..i])
  {
    hide ContentOk;
    var rows' := rows[..i] + rows[i + 1..];
    AfterDeletion(rows, i);
    forall j | 0 <= j < i ensures RowOk(h, rows', j) {
      assert RowOk(h, rows, j);
    }
    if i < |rows| - 1 {
      assert RowOk(h, rows, i + 1) && Head(rows[..i + 1]) == rows[i].contentHash;
      if rows[i].contentHash == Head(rows[..i]) {
        forall j | i <= j < |rows'| ensures RowOk(h, rows', j) {
          assert RowOk(h, rows, j + 1);
        }
      } else {
        assert !RowOk(h, rows', i);
      }
    }
  }

  // ----- Reordering -----

  /** The same row but for its place in seq order. */
  predicate SameRow(r: Row, s: Row) {
    r.(seqNo := s.seqNo) == s
  }

  /** Content hashes are unique, and none is the genesis hash. */
  ghost predicate UniqueHashes(rows: seq<Row>) {
    && (forall i, j :: 0 <= i < j < |rows| ==> rows[i].contentHash != rows[j].contentHash)
    && (forall i :: 0 <= i < |rows| ==> rows[i].contentHash != GENESIS)
  }

  ghost predicate BeginsAs(a: seq<Row>, b: seq<Row>) {
    |b| <= |a| && forall j :: 0 <= j < |b| ==> SameRow(b[j], a[j])
  }

  ghost predicate Among(r: Row, rows: seq<Row>) {
    exists k :: 0 <= k < |rows| && SameRow(r, rows[k])
  }

  lemma HeadsDiffer(rows: seq<Row>, i: nat, j: nat)
    requires UniqueHashes(rows) && i <= |rows| && j <= |rows| && Head(rows[..i]) == Head(rows[..j])
    ensures i == j
  {
    assert i > 0 ==> Head(rows[..i]) == rows[i - 1].contentHash;
    assert j > 0 ==> Head(rows[..j]) == rows[j - 1].contentHash;
  }

  lemma SameHead(a: seq<Row>, b: seq<Row>, n: nat)
    requires n <= |a| && n <= |b| && (n > 0 ==> SameRow(b[n - 1], a[n - 1]))
    ensures Head(a[..n]) == Head(b[..n])
  {
  }

  /** A row of an intact ledger links to the rows before its place only. */
  lemma PlaceOf(h: string -> string, a: seq<Row>, r: Row, n: nat)
    requires Intact(h, a) && UniqueHashes(a) && n <= |a| && Among(r, a) && r.prevHash == Some(Head(a[..n]))
    ensures n < |a| && SameRow(r, a[n])
  {
    hide UniqueHashes, Head;
    var k :| 0 <= k < |a| && SameRow(r, a[k]);
    assert RowOk(h, a, k);
    HeadsDiffer(a, k, n);
  }

  lemma {:induction false} RowsInOrder(h: string -> string, a: seq<Row>, b: seq<Row>, n: nat)
    requires Intact(h, a) && UniqueHashes(a) && Intact(h, b) && n <= |b|
    requires forall j :: 0 <= j < |b| ==> Among(b[j], a)
    ensures n <= |a| && forall j :: 0 <= j < n ==> SameRow(b[j], a[j])
  {
    hide UniqueHashes, Head, Among, SameRow;
    if n > 0 {
      RowsInOrder(h, a, b, n - 1);
      SameHead(a, b, n - 1);
      assert RowOk(h, b, n - 1);
      PlaceOf(h, a, b[n - 1], n - 1);
    }
  }

  /** A ledger put together from rows of an intact one, in any order, with rows left out or repeated and under any
      seq numbers, verifies if and only if it is the intact ledger up to a truncated tail. So no reordering of all
      the rows goes unseen. */
  lemma ReorderingUndetectedIff(h: string -> string, a: seq<Row>, b: seq<Row>)
    requires Intact(h, a) && UniqueHashes(a) && forall j :: 0 <= j < |b| ==> Among(b[j], a)
    ensures Intact(h, b) <==> BeginsAs(a, b)
  {
    hide UniqueHashes, Among;
    if Intact(h, b) {
      RowsInOrder(h, a, b, |b|);
    }
    if BeginsAs(a, b) {
      hide Head;
      forall i | 0 <= i < |b| ensures RowOk(h, b, i) {
        SameHead(a, b, i);
        assert RowOk(h, a, i) && SameRow(b[i], a[i]);
      }
    }
  }
}
