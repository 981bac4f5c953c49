/** What the mask test of services/perception/sentigon_perception/zones.py makes of a silhouette: when its answer is
    the documented one, whether any point of the silhouette's boundary lies in the zone. */
module Silhouettes {
  import opened Zones

  // ----- Segments -----

  /** Twice the signed area of p, q, v: positive when v lies on the right of the line upwards from p to q. */
  function Side(p: Point, q: Point, v: Point): real {
    (v.x - p.x) * (q.y - p.y) - (q.x - p.x) * (v.y - p.y)
  }

  /** The segments p-q and a-b have a point in common. */
  ghost predicate SegmentsMeet(p: Point, q: Point, a: Point, b: Point) {
    exists s: real, t: real :: 0.0 <= s <= 1.0 && 0.0 <= t <= 1.0 && Along(p, q, s) == Along(a, b, t)
  }

  lemma MeetAt(p: Point, q: Point, a: Point, b: Point, s: real, t: real)
    requires 0.0 <= s <= 1.0 && 0.0 <= t <= 1.0 && Along(p, q, s) == Along(a, b, t)
    ensures SegmentsMeet(p, q, a, b)
  {
  }

  /** Neither the order of the segments' ends nor that of the segments matters. */
  lemma MeetReversed(p: Point, q: Point, a: Point, b: Point)
    requires SegmentsMeet(p, q, a, b)
    ensures SegmentsMeet(q, p, a, b) && SegmentsMeet(p, q, b, a)
  {
    var s: real, t: real :| 0.0 <= s <= 1.0 && 0.0 <= t <= 1.0 && Along(p, q, s) == Along(a, b, t);
    AlongBack(p, q, 1.0 - s, s);
    AlongBack(a, b, 1.0 - t, t);
    MeetAt(q, p, a, b, 1.0 - s, t);
    MeetAt(p, q, b, a, s, 1.0 - t);
  }

  lemma Distribute(a: real, b: real, c: real)
    ensures (a + b) * c == a * c + b * c && c * (a + b) == c * a + c * b
    ensures (a - b) * c == a * c - b * c && c * (a - b) == c * a - c * b
  {
  }

  lemma Reassociate(a: real, b: real, c: real)
    ensures a * b * c == a * (b * c) && b * (a * c) == a * (b * c)
  {
  }

  lemma SideAlong(p: Point, q: Point, a: Point, b: Point, t: real)
    ensures Side(p, q, Along(a, b, t)) == Side(p, q, a) + t * (Side(p, q, b) - Side(p, q, a))
  {
    var d, e, dx, dy := q.y - p.y, q.x - p.x, b.x - a.x, b.y - a.y;
    var u, v := a.x - p.x, a.y - p.y;
    var m := Along(a, b, t);
    assert m.x - p.x == u + t * dx && m.y - p.y == v + t * dy;
    Distribute(u, t * dx, d);
    Distribute(v, t * dy, e);
    Reassociate(t, dx, d);
    Reassociate(t, e, dy);
    assert Side(p, q, m) == u * d + t * (dx * d) - (e * v + t * (e * dy));
    assert b.x - p.x == u + dx && b.y - p.y == v + dy;
    Distribute(u, dx, d);
    Distribute(v, dy, e);
    assert Side(p, q, b) - Side(p, q, a) == dx * d - e * dy;
    Distribute(dx * d, e * dy, t);
  }

  lemma MixTwice(a: real, d: real, t1: real, t2: real, r: real)
    ensures a + (t1 + r * (t2 - t1)) * d == (a + t1 * d) + r * ((a + t2 * d) - (a + t1 * d))
  {
    Distribute(t1, r * (t2 - t1), d);
    Reassociate(r, t2 - t1, d);
    Distribute(t2, t1, d);
  }

  lemma ScaledLeft(t: real, d: real)
    requires 0.0 <= t <= 1.0
    ensures 0.0 <= t * d <= d || d <= t * d <= 0.0
  {
    Scaled(d, t);
    assert t * d == d * t;
  }

  lemma Between(a: real, d: real, m: real, lo: real, hi: real)
    requires 0.0 <= m <= d || d <= m <= 0.0
    requires lo <= a <= hi && lo <= a + d <= hi
    ensures lo <= a + m <= hi
  {
  }

  lemma Convex(a: real, b: real, r: real, lo: real, hi: real)
    requires 0.0 <= r <= 1.0 && lo <= a <= hi && lo <= b <= hi
    ensures lo <= a + r * (b - a) <= hi
  {
    var d := b - a;
    ScaledLeft(r, d);
    Between(a, d, r * d, lo, hi);
  }

  /** A point of a part of a segment is a point of the segment. */
  lemma AlongPart(a: Point, b: Point, t1: real, t2: real, r: real) returns (t: real)
    requires 0.0 <= t1 <= 1.0 && 0.0 <= t2 <= 1.0 && 0.0 <= r <= 1.0
    ensures 0.0 <= t <= 1.0 && Along(a, b, t) == Along(Along(a, b, t1), Along(a, b, t2), r)
  {
    t := t1 + r * (t2 - t1);
    Convex(t1, t2, r, 0.0, 1.0);
    MixTwice(a.x, b.x - a.x, t1, t2, r);
    MixTwice(a.y, b.y - a.y, t1, t2, r);
    var p, q := Along(a, b, t), Along(Along(a, b, t1), Along(a, b, t2), r);
    assert p.x == q.x && p.y == q.y;
  }

  lemma Fraction(n: real, d: real)
    requires d > 0.0 && 0.0 <= n <= d
    ensures 0.0 <= n / d <= 1.0 && n / d * d == n
  {
    Quotient(n, d);
    assert d * 0.0 == 0.0 && d * (n / d) == n && d * 1.0 == d;
    CancelLe(0.0, n / d, d);
    CancelLe(n / d, 1.0, d);
  }

  /** A point of the line through p and q whose height is between theirs lies on the segment. */
  lemma OnSegment(p: Point, q: Point, w: Point) returns (s: real)
    requires p.y < q.y && p.y <= w.y <= q.y && Side(p, q, w) == 0.0
    ensures 0.0 <= s <= 1.0 && Along(p, q, s) == w
  {
    var d, e, n := q.y - p.y, q.x - p.x, w.y - p.y;
    s := n / d;
    Fraction(n, d);
    Reassociate(e, s, d);
    assert (w.x - p.x) * d == e * n == e * (s * d) == e * s * d == s * e * d;
    CancelFactor(w.x - p.x, s * e, d);
    assert s * d == n;
    assert Along(p, q, s).x == w.x && Along(p, q, s).y == w.y;
  }

  /** Where a value that falls from positive to not positive is zero. */
  lemma ZeroBetween(s1: real, s2: real) returns (r: real)
    requires s1 > 0.0 >= s2
    ensures 0.0 <= r <= 1.0 && s1 + r * (s2 - s1) == 0.0
  {
    var d := s1 - s2;
    r := s1 / d;
    Fraction(s1, d);
    Negated(r, d);
    assert s2 - s1 == -d;
  }

  /** Two points of the segment a-b on different sides of the line through p and q, at heights between p and q:
      between them a-b meets p-q. */
  lemma SidesDiffer(p: Point, q: Point, a: Point, b: Point, t1: real, t2: real)
    requires p.y < q.y && 0.0 <= t1 <= 1.0 && 0.0 <= t2 <= 1.0
    requires p.y <= Along(a, b, t1).y <= q.y && p.y <= Along(a, b, t2).y <= q.y
    requires Side(p, q, Along(a, b, t1)) > 0.0 >= Side(p, q, Along(a, b, t2))
    ensures SegmentsMeet(p, q, a, b)
  {
    hide Side, SegmentsMeet;
    var u1, u2 := Along(a, b, t1), Along(a, b, t2);
    var r := ZeroBetween(Side(p, q, u1), Side(p, q, u2));
    var t := AlongPart(a, b, t1, t2, r);
    ZeroOnSegment(p, q, u1, u2, r);
    var s: real :| 0.0 <= s <= 1.0 && Along(p, q, s) == Along(u1, u2, r);
    hide Along;
    MeetAt(p, q, a, b, s, t);
  }

  lemma ZeroOnSegment(p: Point, q: Point, u1: Point, u2: Point, r: real)
    requires p.y < q.y && 0.0 <= r <= 1.0 && p.y <= u1.y <= q.y && p.y <= u2.y <= q.y
    requires Side(p, q, u1) + r * (Side(p, q, u2) - Side(p, q, u1)) == 0.0
    ensures exists s: real :: 0.0 <= s <= 1.0 && Along(p, q, s) == Along(u1, u2, r)
  {
    var w := Along(u1, u2, r);
    SideAlong(p, q, u1, u2, r);
    hide Side;
    Convex(u1.y, u2.y, r, p.y, q.y);
    var s := OnSegment(p, q, w);
  }

  // ----- A segment that meets no edge stays on one side of the polygon -----

  lemma EitherFraction(n: real, d: real)
    requires 0.0 <= n <= d || d <= n <= 0.0
    requires d != 0.0
    ensures 0.0 <= n / d <= 1.0 && n / d * d == n
  {
    Quotient(n, d);
    if d > 0.0 {
      Fraction(n, d);
    } else {
      var t, u := n / d, -n / -d;
      Fraction(-n, -d);
      Quotient(-n, -d);
      Negated(u, d);
      assert u * d == n;
      CancelFactor(t, u, d);
    }
  }

  lemma MoveFraction(n: real, u: real, d: real)
    requires d != 0.0
    ensures n * u / d == u / d * n
  {
    var t, q := u / d, n * u / d;
    Quotient(u, d);
    Quotient(n * u, d);
    Reassociate(t, n, d);
    assert q * d == n * u && n * u == n * (t * d) && n * (t * d) == t * n * d;
    CancelFactor(q, t * n, d);
  }

  /** Where the edge a-b passes the height y. */
  lemma CrossingPoint(y: real, a: Point, b: Point) returns (t: real)
    requires Straddles(y, a, b)
    ensures 0.0 <= t <= 1.0 && Along(a, b, t) == Point(MeetX(y, a, b), y)
  {
    var dx, dy, n := b.x - a.x, b.y - a.y, y - a.y;
    t := n / dy;
    EitherFraction(n, dy);
    MoveFraction(dx, n, dy);
    assert MeetX(y, a, b) == dx * n / dy + a.x;
    var m := Along(a, b, t);
    assert m.x == a.x + t * dx && m.y == a.y + t * dy;
    assert m == Point(MeetX(y, a, b), y);
  }

  lemma SideAtLow(p: Point, q: Point, x: real)
    requires p.y < q.y
    ensures Side(p, q, Point(x, p.y)) > 0.0 <==> x > p.x
  {
    var d := q.y - p.y;
    assert (q.x - p.x) * 0.0 == 0.0;
    SignOfProduct(x - p.x, d);
  }

  lemma SideAtHigh(p: Point, q: Point, x: real)
    requires p.y < q.y
    ensures Side(p, q, Point(x, q.y)) > 0.0 <==> x > q.x
  {
    var d := q.y - p.y;
    Distribute(x - p.x, q.x - p.x, d);
    assert Side(p, q, Point(x, q.y)) == (x - q.x) * d;
    SignOfProduct(x - q.x, d);
  }

  lemma SignOfProduct(n: real, d: real)
    requires d > 0.0
    ensures n * d > 0.0 <==> n > 0.0
  {
  }

  /** The vertex lies between the heights of p and q and right of the line through them. */
  predicate Swept(p: Point, q: Point, v: Point) {
    p.y < v.y <= q.y && Side(p, q, v) > 0.0
  }

  /** The part of a rising edge between the heights of p and q, by its ends: they are on one side of p-q. */
  lemma PartOnOneSide(p: Point, q: Point, a: Point, b: Point, t1: real, t2: real)
    requires p.y < q.y && !SegmentsMeet(p, q, a, b) && 0.0 <= t1 <= 1.0 && 0.0 <= t2 <= 1.0
    requires p.y <= Along(a, b, t1).y <= q.y && p.y <= Along(a, b, t2).y <= q.y
    ensures Side(p, q, Along(a, b, t1)) > 0.0 <==> Side(p, q, Along(a, b, t2)) > 0.0
  {
    hide Side, SegmentsMeet;
    if Side(p, q, Along(a, b, t1)) > 0.0 >= Side(p, q, Along(a, b, t2)) {
      SidesDiffer(p, q, a, b, t1, t2);
    } else if Side(p, q, Along(a, b, t2)) > 0.0 >= Side(p, q, Along(a, b, t1)) {
      SidesDiffer(p, q, a, b, t2, t1);
    }
  }

  lemma EndsAlong(a: Point, b: Point)
    ensures Along(a, b, 0.0) == a && Along(a, b, 1.0) == b
  {
  }

  /** An edge that does not meet p-q changes, from the ray at p to the ray at q, exactly as its ends are swept. */
  lemma RisingEdge(p: Point, q: Point, a: Point, b: Point)
    requires p.y < q.y && a.y <= b.y && !SegmentsMeet(p, q, a, b)
    ensures Xor(Crosses(p.x, p.y, a, b), Crosses(q.x, q.y, a, b)) == Xor(Swept(p, q, a), Swept(p, q, b))
  {
    hide Side, SegmentsMeet, MeetX, Along;
    EndsAlong(a, b);
    if b.y > p.y && a.y <= q.y {
      var t1, t2 := 0.0, 1.0;
      if a.y <= p.y {
        t1 := CrossingPoint(p.y, a, b);
        SideAtLow(p, q, MeetX(p.y, a, b));
      }
      if b.y > q.y {
        t2 := CrossingPoint(q.y, a, b);
        SideAtHigh(p, q, MeetX(q.y, a, b));
      }
      PartOnOneSide(p, q, a, b, t1, t2);
    }
  }

  lemma EdgeBalance(p: Point, q: Point, a: Point, b: Point)
    requires p.y < q.y && !SegmentsMeet(p, q, a, b)
    ensures Xor(Crosses(p.x, p.y, a, b), Crosses(q.x, q.y, a, b)) == Xor(Swept(p, q, a), Swept(p, q, b))
  {
    hide Crosses, Swept, SegmentsMeet;
    if a.y <= b.y {
      RisingEdge(p, q, a, b);
    } else {
      if SegmentsMeet(p, q, b, a) {
        MeetReversed(p, q, b, a);
      }
      RisingEdge(p, q, b, a);
      CrossesSymmetric(p.x, p.y, a, b);
      CrossesSymmetric(q.x, q.y, a, b);
    }
  }

  /** Along a level segment the ray does not pass an edge that the segment does not meet. */
  lemma LevelEdge(p: Point, q: Point, a: Point, b: Point)
    requires p.y == q.y && p.x <= q.x && !SegmentsMeet(p, q, a, b)
    ensures Crosses(p.x, p.y, a, b) == Crosses(q.x, q.y, a, b)
  {
    hide MeetX, SegmentsMeet;
    if Straddles(p.y, a, b) {
      var x := MeetX(p.y, a, b);
      if p.x < x <= q.x {
        var t := CrossingPoint(p.y, a, b);
        var n, d := x - p.x, q.x - p.x;
        Fraction(n, d);
        var s := n / d;
        assert s * 0.0 == 0.0 && s * d == n;
        assert Along(p, q, s) == Point(x, p.y);
        MeetAt(p, q, a, b, s, t);
      }
    }
  }

  /** The segment p-q meets no edge of the path. */
  ghost predicate ClearOf(p: Point, q: Point, path: seq<Point>) {
    forall i :: 0 <= i < |path| - 1 ==> !SegmentsMeet(p, q, path[i], path[i + 1])
  }

  lemma ClearOfRest(p: Point, q: Point, path: seq<Point>)
    requires |path| >= 2 && ClearOf(p, q, path)
    ensures ClearOf(p, q, path[1..]) && !SegmentsMeet(p, q, path[0], path[1]) && !SegmentsMeet(p, q, path[1], path[0])
  {
    hide SegmentsMeet;
    forall i | 0 <= i < |path[1..]| - 1 ensures !SegmentsMeet(p, q, path[1..][i], path[1..][i + 1]) {
      assert path[1..][i] == path[i + 1] && path[1..][i + 1] == path[i + 1 + 1];
    }
    assert path[0 + 1] == path[1];
    if SegmentsMeet(p, q, path[1], path[0]) {
      MeetReversed(p, q, path[1], path[0]);
    }
  }

  lemma {:induction false} RisingSegment(p: Point, q: Point, path: seq<Point>)
    requires p.y < q.y && path != [] && ClearOf(p, q, path)
    ensures Xor(PathParity(p.x, p.y, path), PathParity(q.x, q.y, path))
         == Xor(Swept(p, q, path[0]), Swept(p, q, path[|path| - 1]))
  {
    hide Crosses, Swept, SegmentsMeet, ClearOf;
    if |path| >= 2 {
      ClearOfRest(p, q, path);
      RisingSegment(p, q, path[1..]);
      EdgeBalance(p, q, path[1], path[0]);
    }
  }

  lemma {:induction false} LevelSegment(p: Point, q: Point, path: seq<Point>)
    requires p.y == q.y && p.x <= q.x && ClearOf(p, q, path)
    ensures PathParity(p.x, p.y, path) == PathParity(q.x, q.y, path)
  {
    hide Crosses, SegmentsMeet, ClearOf;
    if |path| >= 2 {
      ClearOfRest(p, q, path);
      LevelSegment(p, q, path[1..]);
      LevelEdge(p, q, path[1], path[0]);
    }
  }

  lemma ClearOfReversed(p: Point, q: Point, path: seq<Point>)
    requires ClearOf(p, q, path)
    ensures ClearOf(q, p, path)
  {
    hide SegmentsMeet;
    forall i | 0 <= i < |path| - 1 ensures !SegmentsMeet(q, p, path[i], path[i + 1]) {
      if SegmentsMeet(q, p, path[i], path[i + 1]) {
        MeetReversed(q, p, path[i], path[i + 1]);
      }
    }
  }

  /** The ends of a segment that meets no edge of a polygon are both inside it or both outside. */
  lemma SameSideOfPolygon(p: Point, q: Point, poly: Polygon)
    requires ClearOf(p, q, Closed(poly))
    ensures Parity(p.x, p.y, poly) == Parity(q.x, q.y, poly)
  {
    hide Swept, ClearOf;
    var path := Closed(poly);
    ClearOfReversed(p, q, path);
    if poly != [] {
      if p.y < q.y {
        RisingSegment(p, q, path);
      } else if q.y < p.y {
        RisingSegment(q, p, path);
      } else if p.x <= q.x {
        LevelSegment(p, q, path);
      } else {
        LevelSegment(q, p, path);
      }
    }
  }

  // ----- A silhouette's boundary -----

  /** The listed point after the k-th: the boundary returns to its first. */
  function Next(mask: seq<Point>, k: nat): Point
    requires k < |mask|
  {
    if k + 1 < |mask| then mask[k + 1] else mask[0]
  }

  ghost predicate EdgeEnters(z: Zone, a: Point, b: Point) {
    exists t: real :: 0.0 <= t <= 1.0 && InZone(Along(a, b, t), z)
  }

  /** Some point of the silhouette's boundary, listed or between listed ones, lies in the zone. */
  ghost predicate BoundaryEnters(z: Zone, mask: seq<Point>) {
    exists k :: 0 <= k < |mask| && EdgeEnters(z, mask[k], Next(mask, k))
  }

  lemma ListedPointEnters(z: Zone, a: Point, b: Point)
    requires InZone(a, z)
    ensures EdgeEnters(z, a, b)
  {
    hide InZone;
    EndsAlong(a, b);
    var t := 0.0;
    assert InZone(Along(a, b, t), z);
  }

  lemma HitEnters(z: Zone, mask: seq<Point>)
    requires HitBy(z, mask)
    ensures BoundaryEnters(z, mask)
  {
    hide EdgeEnters, Parity;
    var k :| 0 <= k < |mask| && Parity(mask[k].x, mask[k].y, z.poly);
    ListedPointEnters(z, mask[k], Next(mask, k));
  }

  // ----- Rejecting edges by the zone's box -----

  /** Both points lie on one common outer side of all of the zone's vertices. */
  predicate EdgeOutsideBox(a: Point, b: Point, z: Zone) {
    || (forall k :: 0 <= k < |z.poly| ==> a.x < z.poly[k].x && b.x < z.poly[k].x)
    || (forall k :: 0 <= k < |z.poly| ==> z.poly[k].x <= a.x && z.poly[k].x <= b.x)
    || (forall k :: 0 <= k < |z.poly| ==> a.y < z.poly[k].y && b.y < z.poly[k].y)
    || (forall k :: 0 <= k < |z.poly| ==> z.poly[k].y <= a.y && z.poly[k].y <= b.y)
  }

  lemma MixBetween(a: real, b: real, t: real, m: real)
    requires 0.0 <= t <= 1.0 && m == a + t * (b - a)
    ensures a <= m <= b || b <= m <= a
  {
    var d := b - a;
    assert m == a + t * d;
    ScaledLeft(t, d);
    var e := t * d;
    assert 0.0 <= e <= d || d <= e <= 0.0;
  }

  lemma AlongBetween(a: Point, b: Point, t: real)
    requires 0.0 <= t <= 1.0
    ensures a.x <= Along(a, b, t).x <= b.x || b.x <= Along(a, b, t).x <= a.x
    ensures a.y <= Along(a, b, t).y <= b.y || b.y <= Along(a, b, t).y <= a.y
  {
    MixBetween(a.x, b.x, t, Along(a, b, t).x);
    MixBetween(a.y, b.y, t, Along(a, b, t).y);
  }

  lemma EdgeOutsideBoxMisses(z: Zone, a: Point, b: Point)
    requires EdgeOutsideBox(a, b, z)
    ensures !EdgeEnters(z, a, b)
  {
    hide Parity, Along;
    forall t: real | 0.0 <= t <= 1.0 ensures !InZone(Along(a, b, t), z) {
      var m := Along(a, b, t);
      AlongBetween(a, b, t);
      assert OutsideBox(m, z);
      OutsideBoundingBox(m.x, m.y, z.poly);
    }
  }

  /** For any zone the answer is the documented one if a listed point is inside or the box rejects every edge. */
  lemma BoxDecides(z: Zone, mask: seq<Point>)
    requires HitBy(z, mask) || forall k :: 0 <= k < |mask| ==> EdgeOutsideBox(mask[k], Next(mask, k), z)
    ensures HitBy(z, mask) <==> BoundaryEnters(z, mask)
  {
    hide EdgeEnters, EdgeOutsideBox, HitBy;
    if HitBy(z, mask) {
      HitEnters(z, mask);
    } else {
      forall k | 0 <= k < |mask| ensures !EdgeEnters(z, mask[k], Next(mask, k)) {
        EdgeOutsideBoxMisses(z, mask[k], Next(mask, k));
      }
    }
  }

  // ----- Rectangular zones -----

  function Rectangle(lo: Point, hi: Point): Polygon {
    [lo, Point(hi.x, lo.y), hi, Point(lo.x, hi.y)]
  }

  predicate InBox(p: Point, lo: Point, hi: Point) {
    lo.x <= p.x < hi.x && lo.y <= p.y < hi.y
  }

  /** The numbers between two ends, each of which belongs to the span or not. */
  datatype Span = Span(lo: real, loIn: bool, hi: real, hiIn: bool) {
    predicate Has(t: real) {
      (if loIn then lo <= t else lo < t) && (if hiIn then t <= hi else t < hi)
    }

    predicate Nonempty() {
      if loIn && hiIn then lo <= hi else lo < hi
    }

    function Meet(s: Span): Span {
      var (l, lIn) := if lo < s.lo then (s.lo, s.loIn) else (lo, loIn && (s.lo < lo || s.loIn));
      var (h, hIn) := if s.hi < hi then (s.hi, s.hiIn) else (hi, hiIn && (hi < s.hi || s.hiIn));
      Span(l, lIn, h, hIn)
    }
  }

  lemma NonemptyExact(s: Span)
    ensures s.Nonempty() <==> exists t: real :: s.Has(t)
  {
    if s.Nonempty() {
      assert s.Has((s.lo + s.hi) / 2.0);
    }
  }

  lemma MeetExact(s: Span, u: Span, t: real)
    ensures s.Meet(u).Has(t) <==> s.Has(t) && u.Has(t)
  {
  }

  /** The fractions of the way from a to a + d at which a coordinate is in [lo, hi). */
  function Clip(a: real, d: real, lo: real, hi: real): Span {
    if d > 0.0 then Span((lo - a) / d, true, (hi - a) / d, false)
    else if d < 0.0 then Span((a - hi) / -d, false, (a - lo) / -d, true)
    else if lo <= a < hi then Span(0.0, true, 1.0, true)
    else Span(1.0, true, 0.0, true)
  }

  lemma QuotientLe(n: real, d: real, t: real)
    requires d > 0.0
    ensures n / d <= t <==> n <= t * d
    ensures t <= n / d <==> t * d <= n
  {
    var q := n / d;
    Quotient(n, d);
    assert d * q == n && d * t == t * d;
    if n <= t * d {
      CancelLe(q, t, d);
    }
    if t * d <= n {
      CancelLe(t, q, d);
    }
    if q <= t {
      MulLe(d, q, t);
    }
    if t <= q {
      MulLe(d, t, q);
    }
  }

  lemma RisingClip(a: real, d: real, lo: real, hi: real, t: real)
    requires d > 0.0
    ensures Span((lo - a) / d, true, (hi - a) / d, false).Has(t) <==> lo <= a + t * d < hi
  {
    QuotientLe(lo - a, d, t);
    QuotientLe(hi - a, d, t);
  }

  lemma FallingClip(a: real, d: real, lo: real, hi: real, t: real)
    requires d > 0.0
    ensures Span((a - hi) / d, false, (a - lo) / d, true).Has(t) <==> lo <= a - t * d < hi
  {
    QuotientLe(a - hi, d, t);
    QuotientLe(a - lo, d, t);
  }

  lemma ClipExact(a: real, d: real, lo: real, hi: real, t: real, m: real)
    requires 0.0 <= t <= 1.0 && m == a + t * d
    ensures Clip(a, d, lo, hi).Has(t) <==> lo <= m < hi
  {
    if d > 0.0 {
      RisingClip(a, d, lo, hi, t);
    } else if d < 0.0 {
      FallingClip(a, -d, lo, hi, t);
      Negated(t, d);
    } else {
      assert t * d == 0.0;
    }
  }

  /** The fractions of the edge that lie in the box. */
  function EdgeInBox(a: Point, b: Point, lo: Point, hi: Point): Span {
    Span(0.0, true, 1.0, true).Meet(Clip(a.x, b.x - a.x, lo.x, hi.x)).Meet(Clip(a.y, b.y - a.y, lo.y, hi.y))
  }

  /** Decided from the coordinates of the edge's ends: does some point of the edge lie in the box? */
  predicate EdgeMeetsBox(a: Point, b: Point, lo: Point, hi: Point) {
    EdgeInBox(a, b, lo, hi).Nonempty()
  }

  lemma ClipAlong(a: Point, b: Point, lo: Point, hi: Point, t: real)
    requires 0.0 <= t <= 1.0
    ensures Clip(a.x, b.x - a.x, lo.x, hi.x).Has(t) <==> lo.x <= Along(a, b, t).x < hi.x
    ensures Clip(a.y, b.y - a.y, lo.y, hi.y).Has(t) <==> lo.y <= Along(a, b, t).y < hi.y
  {
    hide Clip, Span.Has;
    ClipExact(a.x, b.x - a.x, lo.x, hi.x, t, Along(a, b, t).x);
    ClipExact(a.y, b.y - a.y, lo.y, hi.y, t, Along(a, b, t).y);
  }

  lemma FractionInBox(a: Point, b: Point, lo: Point, hi: Point, t: real)
    ensures EdgeInBox(a, b, lo, hi).Has(t) <==> 0.0 <= t <= 1.0 && InBox(Along(a, b, t), lo, hi)
  {
    hide Clip, Span.Meet, Along;
    var unit, cx, cy := Span(0.0, true, 1.0, true), Clip(a.x, b.x - a.x, lo.x, hi.x), Clip(a.y, b.y - a.y, lo.y, hi.y);
    assert unit.Has(t) <==> 0.0 <= t <= 1.0;
    hide Span.Has;
    MeetExact(unit, cx, t);
    MeetExact(unit.Meet(cx), cy, t);
    if 0.0 <= t <= 1.0 {
      ClipAlong(a, b, lo, hi, t);
    }
  }

  lemma EdgeMeetsBoxExact(z: Zone, a: Point, b: Point, lo: Point, hi: Point)
    requires lo.x <= hi.x && lo.y <= hi.y && z.poly == Rectangle(lo, hi)
    ensures EdgeEnters(z, a, b) <==> EdgeMeetsBox(a, b, lo, hi)
  {
    hide EdgeInBox, Along, Parity;
    var s := EdgeInBox(a, b, lo, hi);
    NonemptyExact(s);
    forall t: real ensures s.Has(t) <==> 0.0 <= t <= 1.0 && InZone(Along(a, b, t), z) {
      FractionInBox(a, b, lo, hi, t);
      RectangleExact(Along(a, b, t).x, Along(a, b, t).y, lo, hi);
    }
  }

  /** On a rectangular zone the answer is the documented one exactly when a listed point is in the box
      or no edge meets it. */
  lemma RectangleAnswerIff(z: Zone, mask: seq<Point>, lo: Point, hi: Point)
    requires lo.x <= hi.x && lo.y <= hi.y && z.poly == Rectangle(lo, hi)
    ensures (HitBy(z, mask) <==> BoundaryEnters(z, mask))
            <==> || (exists k :: 0 <= k < |mask| && InBox(mask[k], lo, hi))
                 || (forall k :: 0 <= k < |mask| ==> !EdgeMeetsBox(mask[k], Next(mask, k), lo, hi))
  {
    hide EdgeEnters, EdgeMeetsBox, Parity;
    forall k | 0 <= k < |mask|
      ensures Parity(mask[k].x, mask[k].y, z.poly) <==> InBox(mask[k], lo, hi)
      ensures EdgeEnters(z, mask[k], Next(mask, k)) <==> EdgeMeetsBox(mask[k], Next(mask, k), lo, hi)
    {
      RectangleExact(mask[k].x, mask[k].y, lo, hi);
      EdgeMeetsBoxExact(z, mask[k], Next(mask, k), lo, hi);
    }
    if HitBy(z, mask) {
      HitEnters(z, mask);
    }
  }

  // ----- Boundaries that do not meet -----

  /** No edge of the silhouette meets an edge of the polygon. */
  ghost predicate Apart(poly: Polygon, mask: seq<Point>) {
    forall k :: 0 <= k < |mask| ==> ClearOf(mask[k], Next(mask, k), Closed(poly))
  }

  lemma ClosedAt(poly: Polygon, k: nat)
    requires k < |poly|
    ensures |Closed(poly)| == |poly| + 1 && Closed(poly)[k] == poly[k] && Closed(poly)[k + 1] == Next(poly, k)
  {
  }

  lemma PartMeets(a: Point, b: Point, t: real, p: Point, q: Point)
    requires 0.0 <= t <= 1.0 && SegmentsMeet(a, Along(a, b, t), p, q)
    ensures SegmentsMeet(a, b, p, q)
  {
    hide Along;
    EndsAlong(a, b);
    var m := Along(a, b, t);
    var s: real, u: real :| 0.0 <= s <= 1.0 && 0.0 <= u <= 1.0 && Along(a, m, s) == Along(p, q, u);
    var r := AlongPart(a, b, 0.0, t, s);
    MeetAt(a, b, p, q, r, u);
  }

  lemma ClearOfPart(a: Point, b: Point, t: real, path: seq<Point>)
    requires 0.0 <= t <= 1.0 && ClearOf(a, b, path)
    ensures ClearOf(a, Along(a, b, t), path)
  {
    hide Along, SegmentsMeet;
    forall i | 0 <= i < |path| - 1 ensures !SegmentsMeet(a, Along(a, b, t), path[i], path[i + 1]) {
      if SegmentsMeet(a, Along(a, b, t), path[i], path[i + 1]) {
        PartMeets(a, b, t, path[i], path[i + 1]);
      }
    }
  }

  /** A segment that meets no edge of a polygon is inside it as a whole or not at all. */
  lemma SegmentOneSide(poly: Polygon, a: Point, b: Point, t: real)
    requires 0.0 <= t <= 1.0 && ClearOf(a, b, Closed(poly))
    ensures Parity(Along(a, b, t).x, Along(a, b, t).y, poly) == Parity(a.x, a.y, poly)
  {
    hide Along, Parity, ClearOf;
    ClearOfPart(a, b, t, Closed(poly));
    SameSideOfPolygon(a, Along(a, b, t), poly);
  }

  lemma {:induction false} VerticesAlike(poly: Polygon, mask: seq<Point>, k: nat)
    requires Apart(poly, mask) && k < |mask|
    ensures Parity(mask[k].x, mask[k].y, poly) == Parity(mask[0].x, mask[0].y, poly)
  {
    hide Parity, ClearOf;
    if k > 0 {
      VerticesAlike(poly, mask, k - 1);
      SameSideOfPolygon(mask[k - 1], mask[k], poly);
    }
  }

  /** A silhouette whose boundary enters a zone in none of the listed points meets an edge of the zone. */
  lemma MissMeetsAnEdge(z: Zone, mask: seq<Point>)
    requires BoundaryEnters(z, mask) && !HitBy(z, mask)
    ensures exists k, i :: 0 <= k < |mask| && 0 <= i < |z.poly|
                           && SegmentsMeet(mask[k], Next(mask, k), z.poly[i], Next(z.poly, i))
  {
    hide Parity, SegmentsMeet, Along;
    var k :| 0 <= k < |mask| && EdgeEnters(z, mask[k], Next(mask, k));
    var a, b := mask[k], Next(mask, k);
    var t: real :| 0.0 <= t <= 1.0 && InZone(Along(a, b, t), z);
    if ClearOf(a, b, Closed(z.poly)) {
      SegmentOneSide(z.poly, a, b, t);
      assert false;
    }
    var i :| 0 <= i < |Closed(z.poly)| - 1 && SegmentsMeet(a, b, Closed(z.poly)[i], Closed(z.poly)[i + 1]);
    ClosedAt(z.poly, i);
  }

  /** When the two boundaries do not meet, the answer is the documented one, and one listed point decides it. */
  lemma ApartDecides(z: Zone, mask: seq<Point>)
    requires Apart(z.poly, mask) && mask != []
    ensures HitBy(z, mask) <==> BoundaryEnters(z, mask)
    ensures HitBy(z, mask) <==> InZone(mask[0], z)
  {
    hide Parity, ClearOf, EdgeEnters;
    if BoundaryEnters(z, mask) && !HitBy(z, mask) {
      var k :| 0 <= k < |mask| && EdgeEnters(z, mask[k], Next(mask, k));
      EntersAtItsEnd(z, mask[k], Next(mask, k));
    }
    if HitBy(z, mask) {
      HitEnters(z, mask);
      var k :| 0 <= k < |mask| && Parity(mask[k].x, mask[k].y, z.poly);
      VerticesAlike(z.poly, mask, k);
    }
  }

  lemma EntersAtItsEnd(z: Zone, a: Point, b: Point)
    requires ClearOf(a, b, Closed(z.poly)) && EdgeEnters(z, a, b)
    ensures InZone(a, z)
  {
    hide Parity, ClearOf, Along;
    var t: real :| 0.0 <= t <= 1.0 && InZone(Along(a, b, t), z);
    SegmentOneSide(z.poly, a, b, t);
  }

  // ----- A silhouette that overlaps a zone and misses it -----

  lemma ApartBack(poly: Polygon, mask: seq<Point>)
    requires Apart(poly, mask)
    ensures Apart(mask, poly)
  {
    hide SegmentsMeet;
    forall i, k | 0 <= i < |poly| && 0 <= k < |Closed(mask)| - 1
      ensures !SegmentsMeet(poly[i], Next(poly, i), Closed(mask)[k], Closed(mask)[k + 1])
    {
      ClosedAt(poly, i);
      ClosedAt(mask, k);
      MeetSwapped(poly[i], Next(poly, i), mask[k], Next(mask, k));
    }
  }

  lemma MeetSwapped(p: Point, q: Point, a: Point, b: Point)
    ensures SegmentsMeet(p, q, a, b) <==> SegmentsMeet(a, b, p, q)
  {
    hide Along;
    if SegmentsMeet(p, q, a, b) {
      var s: real, t: real :| 0.0 <= s <= 1.0 && 0.0 <= t <= 1.0 && Along(p, q, s) == Along(a, b, t);
      MeetAt(a, b, p, q, t, s);
    }
    if SegmentsMeet(a, b, p, q) {
      var s: real, t: real :| 0.0 <= s <= 1.0 && 0.0 <= t <= 1.0 && Along(a, b, s) == Along(p, q, t);
      MeetAt(p, q, a, b, t, s);
    }
  }

  /** The edge after vertex i is on the ray to the right of w. */
  predicate Ahead(w: Point, poly: Polygon, i: nat)
    requires i < |poly|
  {
    Crosses(w.x, w.y, Next(poly, i), poly[i])
  }

  /** Where that ray passes the edge. */
  function Passes(w: Point, poly: Polygon, i: nat): Point
    requires i < |poly|
  {
    Point(MeetX(w.y, Next(poly, i), poly[i]), w.y)
  }

  lemma {:induction false} SamePathParity(w: Point, c: Point, path: seq<Point>)
    requires forall i :: 0 <= i < |path| - 1
                         ==> Crosses(w.x, w.y, path[i + 1], path[i]) == Crosses(c.x, c.y, path[i + 1], path[i])
    ensures PathParity(w.x, w.y, path) == PathParity(c.x, c.y, path)
  {
    hide Crosses;
    if |path| >= 2 {
      forall i | 0 <= i < |path[1..]| - 1
        ensures Crosses(w.x, w.y, path[1..][i + 1], path[1..][i]) == Crosses(c.x, c.y, path[1..][i + 1], path[1..][i])
      {
        assert path[1..][i] == path[i + 1] && path[1..][i + 1] == path[(i + 1) + 1];
      }
      SamePathParity(w, c, path[1..]);
      assert path[0 + 1] == path[1];
    }
  }

  /** Moving right up to a point before which the ray passes no edge changes nothing. */
  lemma SameUpTo(w: Point, c: Point, poly: Polygon)
    requires w.y == c.y && w.x <= c.x
    requires forall i :: 0 <= i < |poly| && Ahead(w, poly, i) ==> c.x < Passes(w, poly, i).x
    ensures Parity(w.x, w.y, poly) == Parity(c.x, c.y, poly)
  {
    hide MeetX;
    var path := Closed(poly);
    forall i | 0 <= i < |path| - 1
      ensures Crosses(w.x, w.y, path[i + 1], path[i]) == Crosses(c.x, c.y, path[i + 1], path[i])
    {
      ClosedAt(poly, i);
      assert Ahead(w, poly, i) ==> c.x < Passes(w, poly, i).x;
    }
    SamePathParity(w, c, path);
  }

  lemma {:induction false} Uncrossed(w: Point, path: seq<Point>)
    requires forall i :: 0 <= i < |path| - 1 ==> !Crosses(w.x, w.y, path[i + 1], path[i])
    ensures !PathParity(w.x, w.y, path)
  {
    hide Crosses;
    if |path| >= 2 {
      forall i | 0 <= i < |path[1..]| - 1 ensures !Crosses(w.x, w.y, path[1..][i + 1], path[1..][i]) {
        assert path[1..][i] == path[i + 1] && path[1..][i + 1] == path[(i + 1) + 1];
      }
      Uncrossed(w, path[1..]);
      assert path[0 + 1] == path[1];
    }
  }

  /** From inside a polygon the ray passes one of its edges. */
  lemma InsideSeesAnEdge(w: Point, poly: Polygon) returns (i: nat)
    requires Parity(w.x, w.y, poly)
    ensures i < |poly| && Ahead(w, poly, i)
  {
    hide Crosses;
    var path := Closed(poly);
    if forall k :: 0 <= k < |path| - 1 ==> !Crosses(w.x, w.y, path[k + 1], path[k]) {
      Uncrossed(w, path);
    }
    i :| 0 <= i < |path| - 1 && Crosses(w.x, w.y, path[i + 1], path[i]);
    ClosedAt(poly, i);
  }

  /** The nearest of the edges before vertex n that the ray passes. */
  lemma {:induction false} Nearest(w: Point, poly: Polygon, n: nat, i0: nat) returns (i: nat)
    requires n <= |poly| && i0 < |poly| && Ahead(w, poly, i0)
    ensures i < |poly| && Ahead(w, poly, i) && Passes(w, poly, i).x <= Passes(w, poly, i0).x
    ensures forall k :: 0 <= k < n && Ahead(w, poly, k) ==> Passes(w, poly, i).x <= Passes(w, poly, k).x
  {
    hide Ahead, Passes;
    i := i0;
    if n > 0 {
      i := Nearest(w, poly, n - 1, i0);
      if Ahead(w, poly, n - 1) && Passes(w, poly, n - 1).x < Passes(w, poly, i).x {
        i := n - 1;
      }
    }
  }

  lemma PassedPoint(w: Point, poly: Polygon, i: nat) returns (t: real)
    requires i < |poly| && Ahead(w, poly, i)
    ensures 0.0 <= t <= 1.0 && Along(Next(poly, i), poly[i], t) == Passes(w, poly, i)
    ensures w.x < Passes(w, poly, i).x
  {
    hide MeetX, Along;
    t := CrossingPoint(w.y, Next(poly, i), poly[i]);
  }

  /** Where the ray passes an edge of a silhouette that is apart from the polygon, inside is what its vertices are. */
  lemma PassedPointAlike(w: Point, poly: Polygon, mask: seq<Point>, k: nat)
    requires Apart(poly, mask) && k < |mask| && Ahead(w, mask, k)
    ensures Parity(Passes(w, mask, k).x, w.y, poly) == Parity(mask[0].x, mask[0].y, poly)
  {
    hide Parity, ClearOf, Along, Ahead, Next;
    var t := PassedPoint(w, mask, k);
    ClearOfReversed(mask[k], Next(mask, k), Closed(poly));
    SegmentOneSide(poly, Next(mask, k), mask[k], t);
    SameSideOfPolygon(mask[k], Next(mask, k), poly);
    VerticesAlike(poly, mask, k);
  }

  lemma PassedPointsDiffer(w: Point, poly: Polygon, mask: seq<Point>, i: nat, k: nat)
    requires Apart(poly, mask) && i < |poly| && k < |mask| && Ahead(w, poly, i) && Ahead(w, mask, k)
    ensures Passes(w, poly, i) != Passes(w, mask, k)
  {
    hide SegmentsMeet, Along, Ahead, Next;
    var s := PassedPoint(w, poly, i);
    var t := PassedPoint(w, mask, k);
    if Passes(w, poly, i) == Passes(w, mask, k) {
      MeetAt(Next(mask, k), mask[k], Next(poly, i), poly[i], t, s);
      MeetReversed(Next(mask, k), mask[k], Next(poly, i), poly[i]);
      MeetReversed(mask[k], Next(mask, k), Next(poly, i), poly[i]);
      ClosedAt(poly, i);
      assert false;
    }
  }

  lemma FirstVertexTells(z: Zone, mask: seq<Point>, w: Point)
    requires Apart(z.poly, mask) && !HitBy(z, mask) && InZone(w, z)
    ensures Parity(w.x, w.y, mask) <==> Parity(z.poly[0].x, z.poly[0].y, mask)
  {
    hide Parity, Apart, Ahead, MeetX, Next;
    var poly := z.poly;
    var i0 := InsideSeesAnEdge(w, poly);
    var i := Nearest(w, poly, |poly|, i0);
    var c := Passes(w, poly, i);
    var _ := PassedPoint(w, poly, i);
    if k0: nat :| k0 < |mask| && Ahead(w, mask, k0) && Passes(w, mask, k0).x <= c.x {
      var k := Nearest(w, mask, |mask|, k0);
      var d := Passes(w, mask, k);
      var _ := PassedPoint(w, mask, k);
      PassedPointsDiffer(w, poly, mask, i, k);
      SameUpTo(w, d, poly);
      PassedPointAlike(w, poly, mask, k);
      assert false;
    } else {
      SameUpTo(w, c, mask);
      ApartBack(poly, mask);
      PassedPointAlike(w, mask, poly, i);
    }
  }

  /** A silhouette that misses a zone and whose boundary does not meet the zone's covers the zone and its vertices
      as a whole or not at all. So one that overlaps the zone and misses it meets an edge of it or encloses it. */
  lemma MissCoversAllOrNothing(z: Zone, mask: seq<Point>, w: Point, k: nat)
    requires Apart(z.poly, mask) && !HitBy(z, mask) && InZone(w, z) && k < |z.poly|
    ensures Parity(w.x, w.y, mask) <==> Parity(z.poly[k].x, z.poly[k].y, mask)
  {
    hide Parity, Apart;
    FirstVertexTells(z, mask, w);
    ApartBack(z.poly, mask);
    VerticesAlike(mask, z.poly, k);
  }

  // ----- Any zone: finitely many points of an edge decide -----

  /** Where c + t * d is zero, if it is anywhere. */
  function Root(c: real, d: real): real {
    if d == 0.0 then 0.0 else -c / d
  }

  /** The fractions of the edge a-b at which it is level with a vertex of the polygon or on the line of one of
      its edges, and both ends. */
  function Cuts(poly: Polygon, a: Point, b: Point): seq<real> {
    [0.0, 1.0]
    + seq(|poly|, i requires 0 <= i < |poly| => Root(a.y - poly[i].y, b.y - a.y))
    + seq(|poly|, i requires 0 <= i < |poly| => SideCut(Next(poly, i), poly[i], a, b))
  }

  function SideCut(p: Point, q: Point, a: Point, b: Point): real {
    Root(Side(p, q, a), Side(p, q, b) - Side(p, q, a))
  }

  /** One of the cuts, or a point half-way between two of them, is in the zone. */
  predicate SampleEnters(z: Zone, a: Point, b: Point) {
    var cuts := Cuts(z.poly, a, b);
    exists i, j :: 0 <= i < |cuts| && 0 <= j < |cuts| && 0.0 <= Middle(cuts[i], cuts[j]) <= 1.0
                   && InZone(Along(a, b, Middle(cuts[i], cuts[j])), z)
  }

  function Middle(u: real, v: real): real {
    (u + v) / 2.0
  }

  lemma FromRoot(c: real, d: real, t: real, x: real)
    requires d != 0.0 && x == c + t * d
    ensures x == (t - Root(c, d)) * d
  {
    Quotient(-c, d);
    Distribute(t, Root(c, d), d);
  }

  lemma SignOf(n: real, d: real, x: real)
    requires d != 0.0 && x == n * d
    ensures x > 0.0 <==> (n > 0.0 && d > 0.0) || (n < 0.0 && d < 0.0)
    ensures x < 0.0 <==> (n > 0.0 && d < 0.0) || (n < 0.0 && d > 0.0)
  {
    if d > 0.0 {
      SignOfProduct(n, d);
      SignOfProduct(-n, d);
      Negated(n, d);
    } else {
      SignOfProduct(n, -d);
      SignOfProduct(-n, -d);
      Negated(n, d);
      Negated(-n, d);
    }
  }

  lemma SignKept(c: real, d: real, u: real, v: real, t: real, m: real, x: real, y: real)
    requires u < t < v && u < m < v && !(u < Root(c, d) < v) && x == c + t * d && y == c + m * d
    ensures (x > 0.0 <==> y > 0.0) && (x < 0.0 <==> y < 0.0)
  {
    if d == 0.0 {
      assert t * d == 0.0 && m * d == 0.0;
    } else {
      hide Root;
      FromRoot(c, d, t, x);
      FromRoot(c, d, m, y);
      SignOf(t - Root(c, d), d, x);
      SignOf(m - Root(c, d), d, y);
    }
  }

  /** The edge test by the side of the edge's line the point is on. */
  lemma CrossesBySide(p: Point, q: Point, v: Point)
    ensures Crosses(v.x, v.y, p, q)
            <==> Straddles(v.y, p, q) && if p.y < q.y then Side(p, q, v) < 0.0 else Side(p, q, v) > 0.0
  {
    var dx, dy, u, w := q.x - p.x, q.y - p.y, v.y - p.y, v.x - p.x;
    if Straddles(v.y, p, q) {
      var m := dx * u / dy;
      assert MeetX(v.y, p, q) == m + p.x;
      if p.y < q.y {
        QuotientLe(dx * u, dy, w);
      } else {
        NegatedQuotient(dx, u, dy);
        Negated(dx, u);
        Negated(w, dy);
        QuotientLe(dx * -u, -dy, w);
        assert m <= w <==> w * dy <= dx * u;
      }
    }
  }

  /** Between two cuts an edge test does not change. */
  lemma TestKept(poly: Polygon, a: Point, b: Point, i: nat, u: real, v: real, t: real, m: real)
    requires i < |poly| && u < t < v && u < m < v && forall c :: c in Cuts(poly, a, b) ==> !(u < c < v)
    ensures Crosses(Along(a, b, t).x, Along(a, b, t).y, Next(poly, i), poly[i])
         == Crosses(Along(a, b, m).x, Along(a, b, m).y, Next(poly, i), poly[i])
  {
    hide Crosses, Cuts, Side, SideCut, Root, Along;
    var p, q := Next(poly, i), poly[i];
    var n := if i + 1 < |poly| then i + 1 else 0;
    assert poly[n] == p;
    CutsHold(poly, a, b, i);
    CutsHold(poly, a, b, n);
    HeightKept(a, b, p, u, v, t, m);
    HeightKept(a, b, q, u, v, t, m);
    SideKept(a, b, p, q, u, v, t, m);
    CrossesBySide(p, q, Along(a, b, t));
    CrossesBySide(p, q, Along(a, b, m));
  }

  lemma CutsHold(poly: Polygon, a: Point, b: Point, i: nat)
    requires i < |poly|
    ensures Root(a.y - poly[i].y, b.y - a.y) in Cuts(poly, a, b)
    ensures SideCut(Next(poly, i), poly[i], a, b) in Cuts(poly, a, b)
  {
    hide Root, SideCut;
    assert Cuts(poly, a, b)[2 + i] == Root(a.y - poly[i].y, b.y - a.y);
    assert Cuts(poly, a, b)[2 + |poly| + i] == SideCut(Next(poly, i), poly[i], a, b);
  }

  lemma HeightKept(a: Point, b: Point, p: Point, u: real, v: real, t: real, m: real)
    requires u < t < v && u < m < v && !(u < Root(a.y - p.y, b.y - a.y) < v)
    ensures p.y > Along(a, b, t).y <==> p.y > Along(a, b, m).y
  {
    hide Root;
    SignKept(a.y - p.y, b.y - a.y, u, v, t, m, Along(a, b, t).y - p.y, Along(a, b, m).y - p.y);
  }

  lemma SideKept(a: Point, b: Point, p: Point, q: Point, u: real, v: real, t: real, m: real)
    requires u < t < v && u < m < v && !(u < SideCut(p, q, a, b) < v)
    ensures Side(p, q, Along(a, b, t)) > 0.0 <==> Side(p, q, Along(a, b, m)) > 0.0
    ensures Side(p, q, Along(a, b, t)) < 0.0 <==> Side(p, q, Along(a, b, m)) < 0.0
  {
    SideAlong(p, q, a, b, t);
    SideAlong(p, q, a, b, m);
    hide Root, Side, Along;
    var c, d := Side(p, q, a), Side(p, q, b) - Side(p, q, a);
    SignKept(c, d, u, v, t, m, Side(p, q, Along(a, b, t)), Side(p, q, Along(a, b, m)));
  }

  /** Between two cuts an edge is inside the polygon as a whole or not at all. */
  lemma InsideKept(poly: Polygon, a: Point, b: Point, u: real, v: real, t: real, m: real)
    requires u < t < v && u < m < v && forall c :: c in Cuts(poly, a, b) ==> !(u < c < v)
    ensures Parity(Along(a, b, t).x, Along(a, b, t).y, poly) == Parity(Along(a, b, m).x, Along(a, b, m).y, poly)
  {
    hide Crosses, Along, Cuts;
    var w, c, path := Along(a, b, t), Along(a, b, m), Closed(poly);
    forall i | 0 <= i < |path| - 1
      ensures Crosses(w.x, w.y, path[i + 1], path[i]) == Crosses(c.x, c.y, path[i + 1], path[i])
    {
      ClosedAt(poly, i);
      TestKept(poly, a, b, i, u, v, t, m);
    }
    SamePathParity(w, c, path);
  }

  /** The neighbours of t in a list that has values on both sides of it. */
  lemma {:induction false} Neighbours(cuts: seq<real>, t: real) returns (i: nat, j: nat)
    requires |cuts| >= 2 && cuts[0] < t < cuts[1] && t !in cuts
    ensures i < |cuts| && j < |cuts| && cuts[0] <= cuts[i] < t < cuts[j] <= cuts[1]
    ensures forall c :: c in cuts ==> !(cuts[i] < c < cuts[j])
  {
    i, j := 0, 1;
    if |cuts| > 2 {
      var n := |cuts| - 1;
      i, j := Neighbours(cuts[..n], t);
      assert cuts[n] != t;
      if cuts[i] < cuts[n] < t {
        i := n;
      } else if t < cuts[n] < cuts[j] {
        j := n;
      }
      assert forall c :: c in cuts ==> c in cuts[..n] || c == cuts[n];
    }
  }

  lemma SamplesExact(z: Zone, a: Point, b: Point)
    ensures EdgeEnters(z, a, b) <==> SampleEnters(z, a, b)
  {
    hide Parity, Along;
    var cuts := Cuts(z.poly, a, b);
    assert cuts[0] == 0.0 && cuts[1] == 1.0;
    hide Cuts;
    if EdgeEnters(z, a, b) {
      var t: real :| 0.0 <= t <= 1.0 && InZone(Along(a, b, t), z);
      if t in cuts {
        var i :| 0 <= i < |cuts| && cuts[i] == t;
        assert Middle(cuts[i], cuts[i]) == t;
      } else {
        var i, j := Neighbours(cuts, t);
        InsideKept(z.poly, a, b, cuts[i], cuts[j], t, Middle(cuts[i], cuts[j]));
      }
    }
  }

  /** For any zone the answer is the documented one exactly when a listed point is inside or no sample of any edge
      is. */
  lemma AnswerIff(z: Zone, mask: seq<Point>)
    ensures (HitBy(z, mask) <==> BoundaryEnters(z, mask))
            <==> HitBy(z, mask) || forall k :: 0 <= k < |mask| ==> !SampleEnters(z, mask[k], Next(mask, k))
  {
    hide EdgeEnters, SampleEnters, HitBy;
    forall k | 0 <= k < |mask|
      ensures EdgeEnters(z, mask[k], Next(mask, k)) <==> SampleEnters(z, mask[k], Next(mask, k))
    {
      SamplesExact(z, mask[k], Next(mask, k));
    }
    if HitBy(z, mask) {
      HitEnters(z, mask);
    }
  }

  // ----- Silhouettes that reach across a zone or cover it -----

  /** A zone inside a rectangular silhouette is covered by it as a whole and missed. */
  lemma EnclosingMaskMisses(z: Zone, lo: Point, hi: Point)
    requires lo.x <= hi.x && lo.y <= hi.y
    requires forall k :: 0 <= k < |z.poly| ==> lo.x < z.poly[k].x <= hi.x && lo.y <= z.poly[k].y <= hi.y
    ensures !HitBy(z, Rectangle(lo, hi))
    ensures forall p :: InZone(p, z) ==> Parity(p.x, p.y, Rectangle(lo, hi))
  {
    hide Parity;
    MaskOutsideBoxMisses(z, Rectangle(lo, hi));
    forall p | InZone(p, z) ensures Parity(p.x, p.y, Rectangle(lo, hi)) {
      RectangleExact(p.x, p.y, lo, hi);
      if !InBox(p, lo, hi) {
        OutsideBoundingBox(p.x, p.y, z.poly);
      }
    }
  }

  /** A rectangular silhouette that reaches across a rectangular zone enters it and misses it. */
  lemma CrossingMaskMisses(z: Zone, lo: Point, hi: Point, a: Point, b: Point)
    requires lo.x < hi.x && z.poly == Rectangle(lo, hi)
    requires lo.y <= a.y < hi.y && a.y <= b.y && a.x < lo.x && hi.x <= b.x
    ensures !HitBy(z, Rectangle(a, b)) && BoundaryEnters(z, Rectangle(a, b))
  {
    hide Parity;
    var mask := Rectangle(a, b);
    forall k | 0 <= k < |mask| ensures !Parity(mask[k].x, mask[k].y, z.poly) {
      RectangleExact(mask[k].x, mask[k].y, lo, hi);
    }
    var n, d := lo.x - a.x, b.x - a.x;
    var t := n / d;
    Fraction(n, d);
    assert t * 0.0 == 0.0 && Along(mask[0], mask[1], t) == Point(lo.x, a.y);
    RectangleExact(lo.x, a.y, lo, hi);
    assert EdgeEnters(z, mask[0], Next(mask, 0));
  }
}
