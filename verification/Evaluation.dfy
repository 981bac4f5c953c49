/** Scoring a model on the gold set (bench/eval_harness.py, bench/metrics.py): the counting loop, the micro
    averages over the counts, and the four-decimal rounding under which they are stored. Arithmetic is exact. */
module Evaluation {
  datatype Signature = Signature(name: string)

  datatype Clip = Clip(signatures: seq<Signature>, predictions: seq<Signature>)

  datatype Counts = Counts(tp: int, fp: int, fn: int)

  const ZERO := Counts(0, 0, 0)
  const HIT := Counts(1, 0, 0)
  const FALSE_ALARM := Counts(0, 1, 0)
  const MISS := Counts(0, 0, 1)

  function Plus(a: Counts, b: Counts): Counts {
    Counts(a.tp + b.tp, a.fp + b.fp, a.fn + b.fn)
  }

  lemma PlusAssociates(a: Counts, b: Counts, c: Counts)
    ensures Plus(Plus(a, b), c) == Plus(a, Plus(b, c)) && Plus(a, ZERO) == a
  {
  }

  function Times(n: nat, c: Counts): Counts {
    Counts(n * c.tp, n * c.fp, n * c.fn)
  }

  lemma TimesNext(n: nat, c: Counts)
    ensures Times(0, c) == ZERO && Times(n + 1, c) == Plus(Times(n, c), c)
  {
  }

  function Get(m: map<Signature, Counts>, sig: Signature): Counts {
    if sig in m then m[sig] else ZERO
  }

  function Elements(s: seq<Signature>): set<Signature> {
    set x | x in s
  }

  // ----- What is counted -----

  /** What happened to one signature on one clip, if it was expected or predicted at all. */
  function OnClip(expected: set<Signature>, predicted: set<Signature>, sig: Signature): Counts {
    if sig in expected && sig in predicted then HIT
    else if sig in expected then MISS
    else if sig in predicted then FALSE_ALARM
    else ZERO
  }

  function OnClips(clips: seq<Clip>, sig: Signature): Counts {
    if clips == [] then ZERO else
      var c := clips[|clips| - 1];
      Plus(OnClips(clips[..|clips| - 1], sig), OnClip(Elements(c.signatures), Elements(c.predictions), sig))
  }

  function Mentioned(clips: seq<Clip>): set<Signature> {
    if clips == [] then {} else
      var c := clips[|clips| - 1];
      Mentioned(clips[..|clips| - 1]) + Elements(c.signatures) + Elements(c.predictions)
  }

  /** The signatures expected, over all clips. */
  function Expected(clips: seq<Clip>): nat {
    if clips == [] then 0 else Expected(clips[..|clips| - 1]) + |Elements(clips[|clips| - 1].signatures)|
  }

  /** The alerts raised, over all clips. */
  function Raised(clips: seq<Clip>): nat {
    if clips == [] then 0 else Raised(clips[..|clips| - 1]) + |Elements(clips[|clips| - 1].predictions)|
  }

  // ----- Totals over the report's signatures -----

  /** The sum over all signatures, in no particular order. */
  ghost function Totals(m: map<Signature, Counts>): Counts {
    if m == map[] then ZERO else
      assert m.Keys != {};
      var sig :| sig in m;
      Plus(m[sig], Totals(m - {sig}))
  }

  /** Any signature can be taken out first. */
  lemma {:induction false} TotalsWithout(m: map<Signature, Counts>, sig: Signature)
    requires sig in m
    ensures Totals(m) == Plus(m[sig], Totals(m - {sig}))
  {
    assert m.Keys != {};
    var first :| first in m && Totals(m) == Plus(m[first], Totals(m - {first}));
    if first != sig {
      TotalsWithout(m - {first}, sig);
      TotalsWithout(m - {sig}, first);
      assert m - {first} - {sig} == m - {sig} - {first};
      assert (m - {first})[sig] == m[sig] && (m - {sig})[first] == m[first];
      assert Totals(m) == Plus(m[first], Totals(m - {first}));
    }
  }

  /** `metric_for(sig)` with one field incremented. */
  function Bump(m: map<Signature, Counts>, sig: Signature, c: Counts): map<Signature, Counts> {
    m[sig := Plus(Get(m, sig), c)]
  }

  lemma BumpCounts(m: map<Signature, Counts>, sig: Signature, c: Counts)
    ensures forall s :: s in Bump(m, sig, c) <==> s in m || s == sig
    ensures forall s :: Get(Bump(m, sig, c), s) == if s == sig then Plus(Get(m, s), c) else Get(m, s)
  {
  }

  /** Counting one more outcome for a signature, new or not, counts one more in the totals. */
  lemma BumpTotals(m: map<Signature, Counts>, sig: Signature, c: Counts)
    ensures Totals(Bump(m, sig, c)) == Plus(Totals(m), c)
  {
    var after := Bump(m, sig, c);
    TotalsWithout(after, sig);
    if sig in m {
      TotalsWithout(m, sig);
      assert after - {sig} == m - {sig};
    } else {
      assert after - {sig} == m;
    }
  }

  // ----- The counting loop -----

  predicate TalliedAt(report: map<Signature, Counts>, after: map<Signature, Counts>, sigs: set<Signature>, c: Counts,
                      s: Signature) {
    && (s in after <==> s in report || s in sigs)
    && Get(after, s) == if s in sigs then Plus(Get(report, s), c) else Get(report, s)
  }

  /** Each signature of `sigs` has been counted once more. */
  ghost predicate Tallied(report: map<Signature, Counts>, after: map<Signature, Counts>, sigs: set<Signature>,
                          c: Counts) {
    && (forall s :: TalliedAt(report, after, sigs, c, s))
    && Totals(after) == Plus(Totals(report), Times(|sigs|, c))
  }

  lemma TalliedNext(report: map<Signature, Counts>, after: map<Signature, Counts>, sigs: set<Signature>, c: Counts,
                    sig: Signature)
    requires Tallied(report, after, sigs, c) && sig !in sigs
    ensures Tallied(report, Bump(after, sig, c), sigs + {sig}, c)
  {
    hide Totals, Bump, Get, TalliedAt, Times, Plus;
    TotalsNext(report, after, |sigs|, c, sig);
    assert |sigs + {sig}| == |sigs| + 1;
    forall s ensures TalliedAt(report, Bump(after, sig, c), sigs + {sig}, c, s) {
      TalliedAtNext(report, after, sigs, c, sig, s);
    }
  }

  lemma TotalsNext(report: map<Signature, Counts>, after: map<Signature, Counts>, n: nat, c: Counts, sig: Signature)
    requires Totals(after) == Plus(Totals(report), Times(n, c))
    ensures Totals(Bump(after, sig, c)) == Plus(Totals(report), Times(n + 1, c))
  {
    hide Totals, Bump, Times, Plus;
    BumpTotals(after, sig, c);
    TimesNext(n, c);
    PlusAssociates(Totals(report), Times(n, c), c);
  }

  lemma TalliedAtNext(report: map<Signature, Counts>, after: map<Signature, Counts>, sigs: set<Signature>, c: Counts,
                      sig: Signature, s: Signature)
    requires TalliedAt(report, after, sigs, c, s) && sig !in sigs
    ensures TalliedAt(report, Bump(after, sig, c), sigs + {sig}, c, s)
  {
    hide Bump, Get, Plus;
    BumpCounts(after, sig, c);
    if s == sig {
      assert Get(after, sig) == Get(report, sig);
    }
  }

  lemma TalliedNothing(report: map<Signature, Counts>, c: Counts)
    ensures Tallied(report, report, {}, c)
  {
    hide Totals;
    TimesNext(0, c);
  }

  /** One of the three inner loops. */
  method Tally(report: map<Signature, Counts>, sigs: set<Signature>, c: Counts) returns (after: map<Signature, Counts>)
    ensures Tallied(report, after, sigs, c)
  {
    hide Tallied, Bump;
    after := report;
    var todo := sigs;
    ghost var done: set<Signature> := {};
    TalliedNothing(report, c);
    while todo != {}
      invariant done + todo == sigs && done !! todo
      invariant Tallied(report, after, done, c)
      decreases todo
    {
      var sig :| sig in todo;
      TalliedNext(report, after, done, c, sig);
      after := Bump(after, sig, c);
      todo, done := todo - {sig}, done + {sig};
    }
    assert done == sigs;
  }

  /** Every expected signature is a hit or a miss, every alert a hit or a false alarm. */
  ghost predicate Balanced(clips: seq<Clip>, report: map<Signature, Counts>) {
    var t := Totals(report);
    t.tp >= 0 && t.fp >= 0 && t.fn >= 0 && t.tp + t.fn == Expected(clips) && t.tp + t.fp == Raised(clips)
  }

  /** Every signature is scored by what happened to it on each clip. */
  method Evaluate(clips: seq<Clip>) returns (report: map<Signature, Counts>)
    ensures forall sig :: sig in report <==> sig in Mentioned(clips)
    ensures forall sig :: Get(report, sig) == OnClips(clips, sig)
    ensures Balanced(clips, report)
  {
    hide Totals, Tallied, Get, OnClip;
    report := map[];
    EmptyTotals();
    for i := 0 to |clips|
      invariant forall sig :: sig in report <==> sig in Mentioned(clips[..i])
      invariant forall sig :: Get(report, sig) == OnClips(clips[..i], sig)
      invariant Balanced(clips[..i], report)
    {
      assert clips[..i + 1][..i] == clips[..i];
      ghost var before := report;
      var expected, predicted := Elements(clips[i].signatures), Elements(clips[i].predictions);
      var hits := Tally(report, expected * predicted, HIT);
      var misses := Tally(hits, expected - predicted, MISS);
      report := Tally(misses, predicted - expected, FALSE_ALARM);
      ClipScored(before, hits, misses, report, expected, predicted);
    }
    assert clips[..|clips|] == clips;
  }

  /** What the three loops together do to the report for one clip. */
  lemma ClipScored(report: map<Signature, Counts>, hits: map<Signature, Counts>, misses: map<Signature, Counts>,
                   after: map<Signature, Counts>, expected: set<Signature>, predicted: set<Signature>)
    requires Tallied(report, hits, expected * predicted, HIT)
    requires Tallied(hits, misses, expected - predicted, MISS)
    requires Tallied(misses, after, predicted - expected, FALSE_ALARM)
    ensures forall sig :: sig in after <==> sig in report || sig in expected || sig in predicted
    ensures forall sig :: Get(after, sig) == Plus(Get(report, sig), OnClip(expected, predicted, sig))
    ensures var t, u := Totals(report), Totals(after);
            && u.tp + u.fn == t.tp + t.fn + |expected| && u.tp + u.fp == t.tp + t.fp + |predicted|
            && u.tp >= t.tp && u.fp >= t.fp && u.fn >= t.fn
  {
    hide *;
    ClipCounts(report, hits, misses, after, expected, predicted);
    ClipTotals(report, hits, misses, after, expected, predicted);
  }

  lemma ClipCounts(report: map<Signature, Counts>, hits: map<Signature, Counts>, misses: map<Signature, Counts>,
                   after: map<Signature, Counts>, expected: set<Signature>, predicted: set<Signature>)
    requires Tallied(report, hits, expected * predicted, HIT)
    requires Tallied(hits, misses, expected - predicted, MISS)
    requires Tallied(misses, after, predicted - expected, FALSE_ALARM)
    ensures forall sig :: sig in after <==> sig in report || sig in expected || sig in predicted
    ensures forall sig :: Get(after, sig) == Plus(Get(report, sig), OnClip(expected, predicted, sig))
  {
    hide Totals, Get;
    forall sig
      ensures sig in after <==> sig in report || sig in expected || sig in predicted
      ensures Get(after, sig) == Plus(Get(report, sig), OnClip(expected, predicted, sig))
    {
      assert TalliedAt(report, hits, expected * predicted, HIT, sig);
      assert TalliedAt(hits, misses, expected - predicted, MISS, sig);
      assert TalliedAt(misses, after, predicted - expected, FALSE_ALARM, sig);
    }
  }

  lemma ClipTotals(report: map<Signature, Counts>, hits: map<Signature, Counts>, misses: map<Signature, Counts>,
                   after: map<Signature, Counts>, expected: set<Signature>, predicted: set<Signature>)
    requires Tallied(report, hits, expected * predicted, HIT)
    requires Tallied(hits, misses, expected - predicted, MISS)
    requires Tallied(misses, after, predicted - expected, FALSE_ALARM)
    ensures var t, u := Totals(report), Totals(after);
            && u.tp + u.fn == t.tp + t.fn + |expected| && u.tp + u.fp == t.tp + t.fp + |predicted|
            && u.tp >= t.tp && u.fp >= t.fp && u.fn >= t.fn
  {
    hide Totals, Get, TalliedAt;
    SplitSizes(expected, predicted);
  }

  lemma EmptyTotals()
    ensures Totals(map[]) == ZERO
    ensures forall sig :: Get(map[], sig) == ZERO
  {
  }

  lemma SplitSizes(a: set<Signature>, b: set<Signature>)
    ensures |a * b| + |a - b| == |a| && |a * b| + |b - a| == |b|
  {
    assert a * b + (a - b) == a && b * a + (b - a) == b && a * b == b * a;
  }

  // ----- Micro averages -----

  function Ratio(part: int, rest: int): real {
    if part + rest == 0 then 0.0 else part as real / (part + rest) as real
  }

  ghost function MicroPrecision(m: map<Signature, Counts>): real {
    Ratio(Totals(m).tp, Totals(m).fp)
  }

  ghost function MicroRecall(m: map<Signature, Counts>): real {
    Ratio(Totals(m).tp, Totals(m).fn)
  }

  /** The micro averages of an evaluated gold set are the fractions of alerts that were right and of expected
      signatures that were found. */
  lemma MicroAverages(clips: seq<Clip>, report: map<Signature, Counts>)
    requires Balanced(clips, report)
    ensures IsShare(MicroPrecision(report), Totals(report).tp, Raised(clips))
    ensures IsShare(MicroRecall(report), Totals(report).tp, Expected(clips))
  {
    hide Totals, Ratio, IsShare, Raised, Expected;
    var t := Totals(report);
    RatioIsShare(t.tp, t.fp);
    RatioIsShare(t.tp, t.fn);
  }

  /** The fraction `part` is of `whole`, in [0, 1]; 0 of nothing. */
  predicate IsShare(r: real, part: int, whole: int) {
    0.0 <= r <= 1.0 && r * whole as real == part as real && (whole == 0 ==> r == 0.0)
  }

  lemma RatioIsShare(part: int, rest: int)
    requires part >= 0 && rest >= 0
    ensures IsShare(Ratio(part, rest), part, part + rest)
  {
    if part + rest > 0 {
      assert Ratio(part, rest) * (part + rest) as real == part as real;
    }
  }

  // ----- The stored form -----

  /** Rounding to a whole number, ties to the even one. */
  function HalfEven(u: real): int {
    var low := u.Floor;
    var rest := u - low as real;
    if rest < 0.5 || (rest == 0.5 && low % 2 == 0) then low else low + 1
  }

  function Round4(x: real): real {
    HalfEven(x * 10000.0) as real / 10000.0
  }

  /** A whole number of ten-thousandths. */
  predicate OnGrid(x: real) {
    (x * 10000.0).Floor as real == x * 10000.0
  }

  /** A stored metric: a whole number of ten-thousandths between 0 and 1. */
  predicate Stored(x: real) {
    0.0 <= x <= 1.0 && OnGrid(x)
  }

  lemma HalfEvenBounds(u: real)
    ensures u.Floor <= HalfEven(u) <= u.Floor + 1
    ensures -0.5 <= HalfEven(u) as real - u <= 0.5
    ensures u.Floor as real == u ==> HalfEven(u) == u.Floor
  {
    assert u.Floor as real <= u < u.Floor as real + 1.0;
  }

  lemma HalfEvenMonotone(u: real, v: real)
    requires u <= v
    ensures HalfEven(u) <= HalfEven(v)
  {
    assert u.Floor as real <= u < u.Floor as real + 1.0 && v.Floor as real <= v < v.Floor as real + 1.0;
    assert u.Floor <= v.Floor;
    if u.Floor < v.Floor {
      HalfEvenBounds(u);
      HalfEvenBounds(v);
    }
  }

  lemma WholeOnGrid(n: int)
    ensures OnGrid(n as real / 10000.0)
  {
    var x := n as real / 10000.0;
    assert x * 10000.0 == n as real;
    assert (n as real).Floor == n;
  }

  lemma HalfEvenOfWhole(n: int)
    ensures HalfEven(n as real) == n
  {
    assert (n as real).Floor == n;
    HalfEvenBounds(n as real);
  }

  lemma RoundingIsNear(x: real)
    ensures -0.00005 <= Round4(x) - x <= 0.00005 && OnGrid(Round4(x))
  {
    hide HalfEven, OnGrid;
    HalfEvenBounds(x * 10000.0);
    WholeOnGrid(HalfEven(x * 10000.0));
  }

  lemma RoundingIsMonotone(x: real, y: real)
    requires x <= y
    ensures Round4(x) <= Round4(y)
  {
    hide HalfEven;
    HalfEvenMonotone(x * 10000.0, y * 10000.0);
  }

  lemma RoundingKeepsGrid(x: real)
    requires OnGrid(x)
    ensures Round4(x) == x
  {
    hide HalfEven;
    HalfEvenOfWhole((x * 10000.0).Floor);
  }

  lemma RoundingEnds()
    ensures Round4(0.0) == 0.0 && Round4(1.0) == 1.0
  {
    hide HalfEven;
    HalfEvenOfWhole(0);
    HalfEvenOfWhole(10000);
  }

  /** Rounding stays within half a unit, keeps the order, leaves stored metrics alone and keeps [0, 1]. */
  lemma RoundingIsSafe(x: real, y: real)
    ensures -0.00005 <= Round4(x) - x <= 0.00005
    ensures x <= y ==> Round4(x) <= Round4(y)
    ensures 0.0 <= x <= 1.0 ==> Stored(Round4(x))
    ensures Stored(x) ==> Round4(x) == x
  {
    hide Round4, OnGrid;
    RoundingIsNear(x);
    if x <= y {
      RoundingIsMonotone(x, y);
    }
    if 0.0 <= x <= 1.0 {
      RoundingEnds();
      RoundingIsMonotone(0.0, x);
      RoundingIsMonotone(x, 1.0);
    }
    if Stored(x) {
      RoundingKeepsGrid(x);
    }
  }
}
