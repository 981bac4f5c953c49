/** Ground speed of a track (services/context/sentigon_context/engine.py, TrackState.real_speed): the median of
    the step speeds over the latest positions. Arithmetic is exact and the planar distance is a parameter. */
module Speed {
  import opened Common

  datatype Fix = Fix(t: real, x: real, y: real)

  datatype Row = Row(a: real, b: real, c: real)

  datatype Homography = Homography(u: Row, v: Row, w: Row)

  datatype Point = Point(x: real, y: real)

  /** How a track's positions are measured: the camera's calibration, the frame size and the planar distance. */
  datatype Camera = Camera(h: Homography, width: real, height: real, distance: (Point, Point) -> real)

  function Dot(r: Row, x: real, y: real): real {
    r.a * x + r.b * y + r.c
  }

  function Ground(cam: Camera, f: Fix): Option<Point> {
    var x, y := f.x * cam.width, f.y * cam.height;
    var d := Dot(cam.h.w, x, y);
    if -0.000000001 < d < 0.000000001 then None
    else Some(Point(Dot(cam.h.u, x, y) / d, Dot(cam.h.v, x, y) / d))
  }

  /** The speed of one step, unless its time does not advance, an end lies beyond the calibrated ground, or an
      end has no ground point. */
  function StepSpeed(cam: Camera, a: Fix, b: Fix): Option<real> {
    if b.t - a.t <= 0.0 || a.y < 0.34 || b.y < 0.34 then None
    else
      var wa, wb := Ground(cam, a), Ground(cam, b);
      if wa.None? || wb.None? then None else Some(cam.distance(wa.value, wb.value) / (b.t - a.t))
  }

  /** The third coordinate that the calibration gives the pixel of a fix. */
  function Depth(cam: Camera, f: Fix): real {
    cam.h.w.a * (f.x * cam.width) + cam.h.w.b * (f.y * cam.height) + cam.h.w.c
  }

  /** The calibration maps the fix's pixel to this point of the ground plane, in homogeneous coordinates. */
  predicate MapsTo(cam: Camera, f: Fix, p: Point) {
    && p.x * Depth(cam, f) == cam.h.u.a * (f.x * cam.width) + cam.h.u.b * (f.y * cam.height) + cam.h.u.c
    && p.y * Depth(cam, f) == cam.h.v.a * (f.x * cam.width) + cam.h.v.b * (f.y * cam.height) + cam.h.v.c
  }

  /** The fix has a point on the ground, in the calibrated part of the image. */
  predicate Measurable(cam: Camera, f: Fix) {
    f.y >= 0.34 && (Depth(cam, f) >= 0.000000001 || Depth(cam, f) <= -0.000000001)
  }

  lemma GroundInFull(cam: Camera, f: Fix)
    ensures Ground(cam, f).Some? <==> Depth(cam, f) >= 0.000000001 || Depth(cam, f) <= -0.000000001
    ensures Ground(cam, f).Some? ==> MapsTo(cam, f, Ground(cam, f).value)
  {
    var x, y, d := f.x * cam.width, f.y * cam.height, Depth(cam, f);
    assert Dot(cam.h.w, x, y) == d;
    if Ground(cam, f).Some? {
      Divided(Dot(cam.h.u, x, y), d);
      Divided(Dot(cam.h.v, x, y), d);
    }
  }

  lemma Divided(n: real, d: real)
    requires d != 0.0
    ensures n / d * d == n
  {
  }

  /** A step is measured exactly when time advances between two measurable fixes; its speed times the time between
      them is the distance between the ground points. */
  lemma StepInFull(cam: Camera, a: Fix, b: Fix)
    ensures StepSpeed(cam, a, b).Some? <==> b.t > a.t && Measurable(cam, a) && Measurable(cam, b)
    ensures StepSpeed(cam, a, b).Some? ==>
              exists p, q :: MapsTo(cam, a, p) && MapsTo(cam, b, q)
                             && StepSpeed(cam, a, b).value * (b.t - a.t) == cam.distance(p, q)
  {
    GroundInFull(cam, a);
    GroundInFull(cam, b);
    hide Ground, MapsTo;
    if StepSpeed(cam, a, b).Some? {
      var p, q := Ground(cam, a).value, Ground(cam, b).value;
      Divided(cam.distance(p, q), b.t - a.t);
      assert MapsTo(cam, a, p) && MapsTo(cam, b, q);
    }
  }

  function Steps(cam: Camera, fixes: seq<Fix>): seq<real> {
    if |fixes| < 2 then [] else
      var step := StepSpeed(cam, fixes[|fixes| - 2], fixes[|fixes| - 1]);
      Steps(cam, fixes[..|fixes| - 1]) + if step.Some? then [step.value] else []
  }

  // ----- Sorting and the median -----

  predicate Ascending(s: seq<real>) {
    forall i, j :: 0 <= i < j < |s| ==> s[i] <= s[j]
  }

  function Insert(s: seq<real>, x: real): (r: seq<real>)
    ensures |r| == |s| + 1
  {
    if s == [] then [x]
    else if s[|s| - 1] <= x then s + [x]
    else Insert(s[..|s| - 1], x) + [s[|s| - 1]]
  }

  function Sorted(s: seq<real>): (r: seq<real>)
    ensures |r| == |s|
  {
    if s == [] then [] else Insert(Sorted(s[..|s| - 1]), s[|s| - 1])
  }

  lemma {:induction false} InsertWithin(s: seq<real>, x: real, bound: real)
    requires x <= bound && forall i :: 0 <= i < |s| ==> s[i] <= bound
    ensures forall i :: 0 <= i < |s| + 1 ==> Insert(s, x)[i] <= bound
  {
    if s != [] && s[|s| - 1] > x {
      InsertWithin(s[..|s| - 1], x, bound);
    }
  }

  lemma {:induction false} InsertAscending(s: seq<real>, x: real)
    requires Ascending(s)
    ensures Ascending(Insert(s, x))
  {
    if s != [] && s[|s| - 1] > x {
      InsertAscending(s[..|s| - 1], x);
      InsertWithin(s[..|s| - 1], x, s[|s| - 1]);
    }
  }

  lemma {:induction false} InsertPermutes(s: seq<real>, x: real)
    ensures multiset(Insert(s, x)) == multiset(s) + multiset{x}
  {
    if s != [] && s[|s| - 1] > x {
      InsertPermutes(s[..|s| - 1], x);
      assert s == s[..|s| - 1] + [s[|s| - 1]];
    }
  }

  /** Sorting gives an ascending list of the same values. */
  lemma {:induction false} SortedIsSorted(s: seq<real>)
    ensures Ascending(Sorted(s)) && multiset(Sorted(s)) == multiset(s)
  {
    if s != [] {
      SortedIsSorted(s[..|s| - 1]);
      InsertAscending(Sorted(s[..|s| - 1]), s[|s| - 1]);
      InsertPermutes(Sorted(s[..|s| - 1]), s[|s| - 1]);
      assert s == s[..|s| - 1] + [s[|s| - 1]];
    }
  }

  function Above(s: seq<real>, v: real): nat {
    if s == [] then 0 else Above(s[..|s| - 1], v) + if s[|s| - 1] > v then 1 else 0
  }

  lemma AboveSnoc(s: seq<real>, x: real, v: real)
    ensures Above(s + [x], v) == Above(s, v) + if x > v then 1 else 0
  {
    assert (s + [x])[..|s|] == s;
  }

  lemma InsertSnoc(front: seq<real>, last: real, x: real)
    ensures Insert(front + [last], x) == if last <= x then front + [last] + [x] else Insert(front, x) + [last]
  {
    assert (front + [last])[..|front|] == front;
  }

  lemma FrontAndLast(s: seq<real>)
    requires s != []
    ensures s == s[..|s| - 1] + [s[|s| - 1]]
  {
  }

  lemma InsertIntoNone(x: real, v: real)
    ensures Insert([], x) == [x] && Above([x], v) == Above([], v) + if x > v then 1 else 0
  {
    AboveSnoc([], x, v);
    assert [] + [x] == [x];
  }

  lemma {:induction false} AboveInsert(s: seq<real>, x: real, v: real)
    ensures Above(Insert(s, x), v) == Above(s, v) + if x > v then 1 else 0
  {
    hide Insert, Above;
    if s == [] {
      InsertIntoNone(x, v);
    } else {
      var front, last := s[..|s| - 1], s[|s| - 1];
      FrontAndLast(s);
      InsertSnoc(front, last, x);
      if last <= x {
        AboveSnoc(s, x, v);
      } else {
        AboveInsert(front, x, v);
        AboveSnoc(front, last, v);
        AboveSnoc(Insert(front, x), last, v);
      }
    }
  }

  lemma {:induction false} AboveSorted(s: seq<real>, v: real)
    ensures Above(Sorted(s), v) == Above(s, v)
  {
    if s != [] {
      AboveSorted(s[..|s| - 1], v);
      AboveInsert(Sorted(s[..|s| - 1]), s[|s| - 1], v);
    }
  }

  /** In an ascending list the k-th entry is within v exactly when few enough entries exceed v. */
  lemma {:induction false} RankInAscending(s: seq<real>, k: nat, v: real)
    requires Ascending(s) && k < |s|
    ensures s[k] <= v <==> Above(s, v) <= |s| - 1 - k
  {
    var front, last := s[..|s| - 1], s[|s| - 1];
    if last <= v {
      NoneAbove(s, v);
    } else if k < |front| {
      RankInAscending(front, k, v);
    }
  }

  lemma {:induction false} NoneAbove(s: seq<real>, v: real)
    ensures Above(s, v) == 0 <==> forall i :: 0 <= i < |s| ==> s[i] <= v
  {
    if s != [] {
      NoneAbove(s[..|s| - 1], v);
    }
  }

  function Median(s: seq<real>): real
    requires s != []
  {
    Sorted(s)[|s| / 2]
  }

  /** The median is within v exactly when at most (n - 1) / 2 of the n steps exceed v. */
  lemma MedianRank(s: seq<real>, v: real)
    requires s != []
    ensures Median(s) <= v <==> Above(s, v) <= (|s| - 1) / 2
  {
    SortedIsSorted(s);
    AboveSorted(s, v);
    RankInAscending(Sorted(s), |s| / 2, v);
  }

  // ----- real_speed -----

  function RealSpeedOf(positions: seq<Fix>, cam: Option<Camera>): real {
    if |positions| < 4 || cam.None? then 0.0 else
      var steps := Steps(cam.value, LastN(positions, 8));
      if |steps| < 2 then 0.0 else Median(steps)
  }

  lemma OneFixNoSteps(cam: Camera, fixes: seq<Fix>)
    requires |fixes| == 1
    ensures Steps(cam, fixes) == []
  {
  }

  lemma StepsNext(cam: Camera, fixes: seq<Fix>, i: nat)
    requires 1 <= i < |fixes|
    ensures var step := StepSpeed(cam, fixes[i - 1], fixes[i]);
            var before := Steps(cam, fixes[..i]);
            Steps(cam, fixes[..i + 1]) == if step.Some? then before + [step.value] else before
  {
    hide StepSpeed;
    var first := fixes[..i + 1];
    assert first[..i] == fixes[..i] && first[i - 1] == fixes[i - 1] && first[i] == fixes[i];
  }

  /** The speed is one of the steps of the last eight positions, and within v exactly if less than half of them
      exceed v. */
  lemma SpeedInFull(positions: seq<Fix>, cam: Option<Camera>)
    ensures var speed := RealSpeedOf(positions, cam);
            if |positions| < 4 || cam.None? then speed == 0.0
            else
              var steps := Steps(cam.value, if |positions| <= 8 then positions else positions[|positions| - 8..]);
              if |steps| < 2 then speed == 0.0
              else speed in steps && forall v :: speed <= v <==> 2 * Above(steps, v) < |steps|
  {
    hide Steps, Above;
    if |positions| >= 4 && cam.Some? {
      var steps := Steps(cam.value, LastN(positions, 8));
      if |steps| >= 2 {
        forall v ensures Median(steps) <= v <==> 2 * Above(steps, v) < |steps| {
          MedianRank(steps, v);
        }
        SortedIsSorted(steps);
        assert Median(steps) in multiset(Sorted(steps));
      }
    }
  }

  method RealSpeed(positions: seq<Fix>, cam: Option<Camera>) returns (speed: real)
    ensures speed == RealSpeedOf(positions, cam)
    ensures |positions| < 4 || cam.None? ==> speed == 0.0
    ensures |positions| >= 4 && cam.Some? ==>
              var steps := Steps(cam.value, if |positions| <= 8 then positions else positions[|positions| - 8..]);
              if |steps| < 2 then speed == 0.0
              else speed in steps && forall v :: speed <= v <==> 2 * Above(steps, v) < |steps|
  {
    SpeedInFull(positions, cam);
    hide Steps, Ground, Above;
    if |positions| < 4 || cam.None? {
      return 0.0;
    }
    var recent := LastN(positions, 8);
    var steps: seq<real> := [];
    OneFixNoSteps(cam.value, recent[..1]);
    for i := 1 to |recent|
      invariant steps == Steps(cam.value, recent[..i])
    {
      StepsNext(cam.value, recent, i);
      var a, b := recent[i - 1], recent[i];
      var dt := b.t - a.t;
      if dt <= 0.0 || a.y < 0.34 || b.y < 0.34 {
        continue;
      }
      var wa, wb := Ground(cam.value, a), Ground(cam.value, b);
      if wa.None? || wb.None? {
        continue;
      }
      steps := steps + [cam.value.distance(wa.value, wb.value) / dt];
    }
    assert recent[..|recent|] == recent;
    if |steps| < 2 {
      return 0.0;
    }
    steps := Sorted(steps);
    speed := steps[|steps| / 2];
  }

  /** Steps above v do not lift the speed above v exactly when they are a minority; with two usable steps a single
      jump comes through. */
  lemma MinorityRejected(s: seq<real>, v: real)
    requires s != []
    ensures Median(s) <= v <==> 2 * Above(s, v) < |s|
    ensures |s| == 2 && Above(s, v) == 1 ==> Median(s) > v
  {
    MedianRank(s, v);
  }

  // ----- What the median rejects -----

  /** Every step is usable and within v. */
  ghost predicate Slow(cam: Camera, fixes: seq<Fix>, v: real) {
    forall i :: 0 <= i < |fixes| - 1 ==> Within(StepSpeed(cam, fixes[i], fixes[i + 1]), v)
  }

  predicate Within(step: Option<real>, v: real) {
    step.Some? && step.value <= v
  }

  predicate Exceeds(step: Option<real>, v: real) {
    step.Some? && step.value > v
  }

  /** The steps that a wrong fix j touches, of those between n positions. */
  function Spoiled(n: nat, j: int): nat {
    (if 1 <= j < n then 1 else 0) + if 0 <= j < n - 1 then 1 else 0
  }

  /** The usable steps within v less those above it. */
  function Margin(steps: seq<real>, v: real): int {
    |steps| - 2 * Above(steps, v)
  }

  lemma MarginSnoc(cam: Camera, fixes: seq<Fix>, v: real)
    requires |fixes| >= 2
    ensures var step := StepSpeed(cam, fixes[|fixes| - 2], fixes[|fixes| - 1]);
            var front, all := Steps(cam, fixes[..|fixes| - 1]), Steps(cam, fixes);
            && Margin(all, v) == Margin(front, v) + (if step.None? then 0 else if step.value <= v then 1 else -1)
            && |all| == |front| + (if step.None? then 0 else 1)
  {
    var step := StepSpeed(cam, fixes[|fixes| - 2], fixes[|fixes| - 1]);
    var front := Steps(cam, fixes[..|fixes| - 1]);
    if step.Some? {
      AboveSnoc(front, step.value, v);
    } else {
      assert front + [] == front;
    }
  }

  /** If only the steps that fix j touches may be unusable or above v, the others outweigh them by at least the
      steps there are less twice those touched. */
  lemma {:induction false} MarginAtLeast(cam: Camera, fixes: seq<Fix>, v: real, j: int)
    requires fixes != []
    requires forall i :: 0 <= i < |fixes| - 1 && i != j && i != j - 1
               ==> Within(StepSpeed(cam, fixes[i], fixes[i + 1]), v)
    ensures Margin(Steps(cam, fixes), v) >= |fixes| - 1 - 2 * Spoiled(|fixes|, j)
    ensures |Steps(cam, fixes)| >= |fixes| - 1 - Spoiled(|fixes|, j)
  {
    if |fixes| >= 2 {
      hide StepSpeed, Steps;
      MarginAtLeast(cam, fixes[..|fixes| - 1], v, j);
      MarginSnoc(cam, fixes, v);
    } else {
      assert Steps(cam, fixes) == [];
    }
  }

  /** If both steps that fix j touches are above v, the others outweigh them by no more. */
  lemma {:induction false} MarginAtMost(cam: Camera, fixes: seq<Fix>, v: real, j: int)
    requires fixes != []
    requires forall i :: 0 <= i < |fixes| - 1 && (i == j || i == j - 1)
               ==> Exceeds(StepSpeed(cam, fixes[i], fixes[i + 1]), v)
    ensures Margin(Steps(cam, fixes), v) <= |fixes| - 1 - 2 * Spoiled(|fixes|, j)
  {
    if |fixes| >= 2 {
      hide StepSpeed, Steps;
      MarginAtMost(cam, fixes[..|fixes| - 1], v, j);
      MarginSnoc(cam, fixes, v);
    } else {
      assert Steps(cam, fixes) == [];
    }
  }

  lemma LatestAreSlow(cam: Camera, fixes: seq<Fix>, from: nat, v: real)
    requires from <= |fixes| && Slow(cam, fixes, v)
    ensures Slow(cam, fixes[from..], v)
  {
    hide StepSpeed;
    var latest := fixes[from..];
    forall i | 0 <= i < |latest| - 1 ensures Within(StepSpeed(cam, latest[i], latest[i + 1]), v) {
      assert latest[i] == fixes[from + i] && latest[i + 1] == fixes[from + i + 1];
    }
  }

  lemma GlitchRejectedInWindow(positions: seq<Fix>, cam: Camera, j: nat, wrong: Fix, v: real)
    requires 4 <= |positions| && j < |positions| && Slow(cam, positions, v)
    requires |positions| >= 6 || j == 0 || j == |positions| - 1
    ensures |Steps(cam, positions[j := wrong])| >= 2 && Median(Steps(cam, positions[j := wrong])) <= v
  {
    hide StepSpeed, Steps, Median, Above;
    var bad := positions[j := wrong];
    forall i | 0 <= i < |bad| - 1 && i != j && i != j - 1 ensures Within(StepSpeed(cam, bad[i], bad[i + 1]), v) {
      assert bad[i] == positions[i] && bad[i + 1] == positions[i + 1];
    }
    MarginAtLeast(cam, bad, v, j);
    MinorityRejected(Steps(cam, bad), v);
  }

  /** One wrong position, whatever its time and place, spoils two steps, or one if it is the first or the last.
      The speed still stays within any bound that all true steps meet, provided there are at least six positions,
      or four when the wrong one is an end. */
  lemma GlitchRejected(positions: seq<Fix>, cam: Camera, j: nat, wrong: Fix, v: real)
    requires 4 <= |positions| && j < |positions| && Slow(cam, positions, v)
    requires |positions| >= 6 || j == 0 || j == |positions| - 1
    ensures RealSpeedOf(positions[j := wrong], Some(cam)) <= v
  {
    hide Slow, Steps, Median;
    var from := |positions| - |LastN(positions, 8)|;
    var recent, bad := positions[from..], positions[j := wrong][from..];
    assert LastN(positions[j := wrong], 8) == bad;
    LatestAreSlow(cam, positions, from, v);
    if j >= from {
      assert bad == recent[j - from := wrong];
      GlitchRejectedInWindow(recent, cam, j - from, wrong, v);
    } else {
      assert bad == recent[0 := recent[0]];
      GlitchRejectedInWindow(recent, cam, 0, recent[0], v);
    }
  }

  // ----- Where a glitch comes through -----

  /** The planar distance of points on a common horizontal. */
  function Straight(p: Point, q: Point): real {
    if p.x < q.x then q.x - p.x else p.x - q.x
  }

  /** A camera whose image plane is the ground. */
  const FLAT := Camera(Homography(Row(1.0, 0.0, 0.0), Row(0.0, 1.0, 0.0), Row(0.0, 0.0, 1.0)), 1.0, 1.0, Straight)

  lemma OverOne(x: real, d: real)
    requires d == 1.0
    ensures x / d == x
  {
  }

  lemma FlatGround(f: Fix)
    ensures Ground(FLAT, f) == Some(Point(f.x, f.y))
  {
    var x, y := f.x * FLAT.width, f.y * FLAT.height;
    var u, v, d := Dot(FLAT.h.u, x, y), Dot(FLAT.h.v, x, y), Dot(FLAT.h.w, x, y);
    assert x == f.x && y == f.y && u == x && v == y && d == 1.0;
    OverOne(u, d);
    OverOne(v, d);
    assert Ground(FLAT, f) == Some(Point(u / d, v / d));
  }

  lemma FlatStep(a: Fix, b: Fix)
    requires a.y >= 0.34 && b.y >= 0.34 && b.t == a.t + 1.0
    ensures StepSpeed(FLAT, a, b) == Some(Straight(Point(a.x, a.y), Point(b.x, b.y)))
  {
    hide Ground;
    FlatGround(a);
    FlatGround(b);
    var p, q := Point(a.x, a.y), Point(b.x, b.y);
    OverOne(FLAT.distance(p, q), b.t - a.t);
  }

  function Resting(i: nat): Fix {
    Fix(i as real, 0.0, 0.5)
  }

  /** An object at rest, seen once a second. */
  function AtRest(n: nat): (fixes: seq<Fix>)
    ensures |fixes| == n && forall i :: 0 <= i < n ==> fixes[i] == Resting(i)
  {
    seq(n, i requires 0 <= i < n => Resting(i))
  }

  function Jumped(j: nat): Fix {
    Fix(j as real, 10.0, 0.5)
  }

  lemma RestingStep(i: nat)
    ensures StepSpeed(FLAT, Resting(i), Resting(i + 1)) == Some(0.0)
    ensures StepSpeed(FLAT, Jumped(i), Resting(i + 1)) == Some(10.0)
    ensures StepSpeed(FLAT, Resting(i), Jumped(i + 1)) == Some(10.0)
  {
    hide StepSpeed;
    FlatStep(Resting(i), Resting(i + 1));
    FlatStep(Jumped(i), Resting(i + 1));
    FlatStep(Resting(i), Jumped(i + 1));
  }

  lemma {:induction false} AllUsable(cam: Camera, fixes: seq<Fix>)
    requires fixes != [] && forall i :: 0 <= i < |fixes| - 1 ==> StepSpeed(cam, fixes[i], fixes[i + 1]).Some?
    ensures |Steps(cam, fixes)| == |fixes| - 1
  {
    hide StepSpeed;
    if |fixes| >= 2 {
      AllUsable(cam, fixes[..|fixes| - 1]);
    }
  }

  lemma AtRestIsSlow(n: nat)
    ensures Slow(FLAT, AtRest(n), 0.0)
  {
    hide StepSpeed;
    forall i | 0 <= i < |AtRest(n)| - 1 ensures Within(StepSpeed(FLAT, AtRest(n)[i], AtRest(n)[i + 1]), 0.0) {
      RestingStep(i);
    }
  }

  /** Among four or five positions a wrong one in the middle gives an object at rest a speed. */
  lemma GlitchPasses(n: nat, j: nat)
    requires 4 <= n <= 5 && 0 < j < n - 1
    ensures Slow(FLAT, AtRest(n), 0.0) && RealSpeedOf(AtRest(n)[j := Jumped(j)], Some(FLAT)) > 0.0
  {
    hide StepSpeed, Steps, Median, Above;
    AtRestIsSlow(n);
    hide Slow;
    var bad := AtRest(n)[j := Jumped(j)];
    RestingStep(j - 1);
    RestingStep(j);
    assert bad[j - 1] == Resting(j - 1) && bad[j] == Jumped(j) && bad[j + 1] == Resting(j + 1);
    MarginAtMost(FLAT, bad, 0.0, j);
    forall i | 0 <= i < n - 1 ensures StepSpeed(FLAT, bad[i], bad[i + 1]).Some? {
      if i != j && i != j - 1 {
        assert bad[i] == Resting(i) && bad[i + 1] == Resting(i + 1);
        RestingStep(i);
      }
    }
    AllUsable(FLAT, bad);
    MinorityRejected(Steps(FLAT, bad), 0.0);
    assert LastN(bad, 8) == bad;
  }

  /** With this fix in place of position j the speed is still within v. */
  ghost predicate StaysWithin(cam: Camera, positions: seq<Fix>, j: nat, wrong: Fix, v: real)
    requires j < |positions|
  {
    RealSpeedOf(positions[j := wrong], Some(cam)) <= v
  }

  /** No fix in place of position j, whatever it is, ever lifts the speed above a bound that all true steps meet. */
  ghost predicate GlitchProof(n: nat, j: nat)
    requires j < n
  {
    forall cam: Camera, positions: seq<Fix>, wrong: Fix, v: real ::
      |positions| == n && Slow(cam, positions, v) ==> StaysWithin(cam, positions, j, wrong, v)
  }

  /** For every number of positions from four on and every place of the wrong one: the speed is proof against it
      if and only if there are at least six positions or it is an end. */
  lemma GlitchProofIff(n: nat, j: nat)
    requires 4 <= n && j < n
    ensures GlitchProof(n, j) <==> n >= 6 || j == 0 || j == n - 1
  {
    hide Slow, RealSpeedOf;
    if n >= 6 || j == 0 || j == n - 1 {
      forall cam: Camera, positions: seq<Fix>, wrong: Fix, v: real | |positions| == n && Slow(cam, positions, v)
        ensures StaysWithin(cam, positions, j, wrong, v)
      {
        GlitchRejected(positions, cam, j, wrong, v);
      }
    } else {
      GlitchPasses(n, j);
      assert !StaysWithin(FLAT, AtRest(n), j, Jumped(j), 0.0);
    }
  }
}
