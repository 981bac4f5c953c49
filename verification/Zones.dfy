/** Point-in-polygon zone tests of services/perception/sentigon_perception/zones.py, over exact reals.

    The ray-casting loop toggles `inside` at every edge that a rightward ray from (x, y) crosses.
    Its result is the parity of crossed edges of the closed path through the vertices. */
module Zones {
  datatype Point = Point(x: real, y: real)

  type Polygon = seq<Point>

  /** Does the horizontal line at height y separate the end points of the edge a-b? */
  predicate Straddles(y: real, a: Point, b: Point) {
    (a.y > y) != (b.y > y)
  }

  /** Where that line meets the edge. */
  function MeetX(y: real, a: Point, b: Point): real {
    (b.x - a.x) * (y - a.y) / (if b.y - a.y != 0.0 then b.y - a.y else 0.000000001) + a.x
  }

  /** The loop's edge test, with a for poly[i] and b for poly[j]. */
  predicate Crosses(x: real, y: real, a: Point, b: Point) {
    Straddles(y, a, b) && x < MeetX(y, a, b)
  }

  function Xor(p: bool, q: bool): bool {
    p != q
  }

  /** Parity of the crossed edges along an open path. */
  function PathParity(x: real, y: real, path: seq<Point>): bool {
    if |path| < 2 then false
    else Xor(Crosses(x, y, path[1], path[0]), PathParity(x, y, path[1..]))
  }

  /** The path that walks the whole boundary and returns to its first vertex. */
  function Closed(poly: Polygon): seq<Point> {
    if poly == [] then [] else poly + [poly[0]]
  }

  function Parity(x: real, y: real, poly: Polygon): bool {
    PathParity(x, y, Closed(poly))
  }

  method PointInPoly(x: real, y: real, poly: Polygon) returns (inside: bool)
    ensures inside == Parity(x, y, poly)
  {
    inside := false;
    var n := |poly|;
    var j := n - 1;
    ghost var path := if n == 0 then [] else [poly[n - 1]];
    for i := 0 to n
      invariant j == if i == 0 then n - 1 else i - 1
      invariant n > 0 ==> path == [poly[n - 1]] + poly[..i]
      invariant inside == if n == 0 then false else PathParity(x, y, path)
    {
      PathParitySnoc(x, y, path, poly[i]);
      path := path + [poly[i]];
      if Crosses(x, y, poly[i], poly[j]) {
        inside := !inside;
      }
      j := i;
    }
    if n > 0 {
      assert poly[..n] == poly;
      EnterAtLastVertex(x, y, poly);
    }
  }

  // ----- Paths -----

  lemma EdgeParity(x: real, y: real, a: Point, b: Point)
    ensures PathParity(x, y, [a, b]) == Crosses(x, y, b, a)
  {
    assert [a, b][1..] == [b];
  }

  lemma {:induction false} PathParitySnoc(x: real, y: real, path: seq<Point>, p: Point)
    requires path != []
    ensures PathParity(x, y, path + [p]) == Xor(PathParity(x, y, path), Crosses(x, y, p, path[|path| - 1]))
  {
    if |path| > 1 {
      PathParitySnoc(x, y, path[1..], p);
      assert (path + [p])[1..] == path[1..] + [p];
    } else {
      assert (path + [p])[1..] == [p];
    }
  }

  /** A path's parity is the parity of its two parts that meet at vertex k. */
  lemma {:induction false} PathParityJoin(x: real, y: real, path: seq<Point>, k: nat)
    requires k < |path|
    ensures PathParity(x, y, path) == Xor(PathParity(x, y, path[..k + 1]), PathParity(x, y, path[k..]))
    decreases k
  {
    if k == 0 {
      assert path[0..] == path;
    } else {
      PathParityJoin(x, y, path[1..], k - 1);
      assert path[..k + 1][1..] == path[1..][..k];
      assert path[1..][k - 1..] == path[k..];
    }
  }

  /** The loop enters the boundary at the last vertex, the closed path at the first. */
  lemma EnterAtLastVertex(x: real, y: real, poly: Polygon)
    requires poly != []
    ensures PathParity(x, y, [poly[|poly| - 1]] + poly) == Parity(x, y, poly)
  {
    var n := |poly|;
    var path, c := [poly[n - 1]] + poly, Closed(poly);
    PathParityJoin(x, y, path, 1);
    PathParityJoin(x, y, c, n - 1);
    assert path[1..] == poly && path[..2] == [poly[n - 1], poly[0]];
    assert c[..n] == poly && c[n - 1..] == [poly[n - 1], poly[0]];
  }

  /** Walking an edge from either end crosses the ray at the same place. */
  lemma CrossesSymmetric(x: real, y: real, a: Point, b: Point)
    ensures Crosses(x, y, a, b) == Crosses(x, y, b, a)
  {
    if Straddles(y, a, b) {
      RayMeetsEdgeOnce(y, a, b);
    }
  }

  /** The two formulas for the abscissa where the ray meets the edge agree. */
  lemma RayMeetsEdgeOnce(y: real, a: Point, b: Point)
    requires a.y != b.y
    ensures MeetX(y, a, b) == MeetX(y, b, a)
  {
    var dx, dy := b.x - a.x, b.y - a.y;
    var u, v := y - a.y, y - b.y;
    assert u - v == dy;
    Quotient(dx * u, dy);
    Quotient(-dx * v, -dy);
    var q, r := dx * u / dy, (-dx * v) / (-dy);
    assert r * dy == dx * v;
    assert (q - r) * dy == dx * dy;
    CancelFactor(q - r, dx, dy);
  }

  lemma Quotient(n: real, d: real)
    requires d != 0.0
    ensures n / d * d == n
  {
  }

  lemma CancelFactor(p: real, q: real, d: real)
    requires d != 0.0 && p * d == q * d
    ensures p == q
  {
  }

  function Reversed(path: seq<Point>): (r: seq<Point>)
    ensures |r| == |path|
  {
    if path == [] then [] else Reversed(path[1..]) + [path[0]]
  }

  lemma {:induction false} ReversedAt(path: seq<Point>, k: nat)
    requires k < |path|
    ensures Reversed(path)[k] == path[|path| - 1 - k]
  {
    if k < |path| - 1 {
      ReversedAt(path[1..], k);
    }
  }

  lemma {:induction false} ReversedPathParity(x: real, y: real, path: seq<Point>)
    ensures PathParity(x, y, Reversed(path)) == PathParity(x, y, path)
  {
    if |path| > 1 {
      var rest := Reversed(path[1..]);
      ReversedPathParity(x, y, path[1..]);
      PathParitySnoc(x, y, rest, path[0]);
      ReversedAt(path[1..], |rest| - 1);
      CrossesSymmetric(x, y, path[0], path[1]);
    }
  }

  // ----- Laws of the polygon test -----

  function Rotated(poly: Polygon, k: nat): Polygon
    requires k <= |poly|
  {
    poly[k..] + poly[..k]
  }

  /** Which vertex the list starts at does not matter. */
  lemma RotationInvariant(x: real, y: real, poly: Polygon, k: nat)
    requires k <= |poly|
    ensures Parity(x, y, Rotated(poly, k)) == Parity(x, y, poly)
  {
    if k == 0 || k == |poly| {
      assert Rotated(poly, k) == poly;
    } else {
      var c, r := Closed(poly), Closed(Rotated(poly, k));
      PathParityJoin(x, y, c, k);
      PathParityJoin(x, y, r, |poly| - k);
      assert c[k..] == poly[k..] + [poly[0]] == r[..|poly| - k + 1];
      assert c[..k + 1] == poly[..k] + [poly[k]] == r[|poly| - k..];
    }
  }

  /** Nor does the direction in which the boundary is walked. */
  lemma ReversalInvariant(x: real, y: real, poly: Polygon)
    ensures Parity(x, y, Reversed(poly)) == Parity(x, y, poly)
  {
    if |poly| > 0 {
      var n := |poly|;
      var r := Reversed(poly);
      ReversedPathParity(x, y, poly);
      PathParitySnoc(x, y, poly, poly[0]);
      PathParitySnoc(x, y, r, r[0]);
      ReversedAt(poly, 0);
      ReversedAt(poly, n - 1);
      CrossesSymmetric(x, y, poly[0], poly[n - 1]);
    }
  }

  /** Cutting a polygon along the diagonal between vertices i and j: a point is inside the whole
      exactly when it is inside one of the two parts and not the other. */
  lemma DiagonalSplit(x: real, y: real, poly: Polygon, i: nat, j: nat)
    requires i < j < |poly|
    ensures Parity(x, y, poly) == Xor(Parity(x, y, poly[i..j + 1]), Parity(x, y, poly[..i + 1] + poly[j..]))
  {
    hide PathParity, Crosses;
    var a, b := poly[i..j + 1], poly[..i + 1] + poly[j..];
    var c, d := Closed(poly), Closed(b);
    PathParityJoin(x, y, c, i);
    PathParityJoin(x, y, c[i..], j - i);
    assert c[..i + 1] == poly[..i + 1];
    assert c[i..][..j - i + 1] == a;
    assert c[i..][j - i..] == poly[j..] + [poly[0]];
    PathParitySnoc(x, y, a, a[0]);
    PathParityJoin(x, y, d, i);
    PathParityJoin(x, y, d[i..], 1);
    assert d[..i + 1] == poly[..i + 1];
    assert d[i..][..2] == [poly[i], poly[j]];
    assert d[i..][1..] == poly[j..] + [poly[0]];
    EdgeParity(x, y, poly[i], poly[j]);
    CrossesSymmetric(x, y, poly[i], poly[j]);
  }

  /** The point a fraction t of the way along the edge a-b. */
  function Along(a: Point, b: Point, t: real): Point {
    Point(a.x + t * (b.x - a.x), a.y + t * (b.y - a.y))
  }

  lemma MeetXAlong(y: real, a: Point, b: Point, t: real)
    requires a.y != b.y && t != 0.0
    ensures Along(a, b, t).y != a.y
    ensures MeetX(y, a, Along(a, b, t)) == MeetX(y, a, b)
  {
    var m := Along(a, b, t);
    var dx, dy, u := b.x - a.x, b.y - a.y, y - a.y;
    Quotient(dx * u, dy);
    if t * dy == 0.0 {
      CancelFactor(t, 0.0, dy);
    }
    Quotient(t * dx * u, t * dy);
    var q, r := dx * u / dy, t * dx * u / (t * dy);
    assert m.x - a.x == t * dx && m.y - a.y == t * dy;
    assert r * (t * dy) == t * (dx * u) == q * (t * dy);
    CancelFactor(r, q, t * dy);
  }

  lemma Negated(a: real, b: real)
    ensures -a * b == -(a * b) && a * -b == -(a * b)
  {
  }

  lemma Mix(a: real, b: real, s: real, t: real)
    requires s == 1.0 - t
    ensures b + s * (a - b) == a + t * (b - a)
  {
    var d := b - a;
    assert a - b == -d;
    Negated(s, d);
    assert s * d == d - t * d;
  }

  lemma AlongBack(a: Point, b: Point, s: real, t: real)
    requires s == 1.0 - t
    ensures Along(b, a, s) == Along(a, b, t)
  {
    Mix(a.x, b.x, s, t);
    Mix(a.y, b.y, s, t);
    var px, py, qx, qy := b.x + s * (a.x - b.x), b.y + s * (a.y - b.y), a.x + t * (b.x - a.x), a.y + t * (b.y - a.y);
    assert px == qx && py == qy;
    assert Along(b, a, s) == Point(px, py) && Along(a, b, t) == Point(qx, qy);
  }

  /** A point of an edge splits it into two parts, of which the ray crosses one if it crosses the edge. */
  lemma CrossesSplitEdge(x: real, y: real, a: Point, b: Point, t: real)
    requires 0.0 <= t <= 1.0
    ensures Crosses(x, y, a, b) == Xor(Crosses(x, y, a, Along(a, b, t)), Crosses(x, y, Along(a, b, t), b))
  {
    var m := Along(a, b, t);
    if t == 0.0 {
      assert m == a;
    } else if t == 1.0 {
      assert m == b;
    } else if a.y == b.y {
      assert m.y == a.y;
    } else {
      var s := 1.0 - t;
      AlongBack(a, b, s, t);
      MeetXAlong(y, a, b, t);
      MeetXAlong(y, b, a, s);
      RayMeetsEdgeOnce(y, a, b);
      RayMeetsEdgeOnce(y, m, b);
      Scaled(b.y - a.y, t);
    }
  }

  /** The test depends on the boundary, not on how it is cut into edges: a vertex inserted anywhere on
      an edge changes nothing. Every edge is the last one of some rotation of the list. */
  lemma SubdivisionInvariant(x: real, y: real, poly: Polygon, t: real)
    requires poly != [] && 0.0 <= t <= 1.0
    ensures Parity(x, y, poly + [Along(poly[0], poly[|poly| - 1], t)]) == Parity(x, y, poly)
  {
    var m := Along(poly[0], poly[|poly| - 1], t);
    PathParitySnoc(x, y, poly, poly[0]);
    PathParitySnoc(x, y, poly, m);
    PathParitySnoc(x, y, poly + [m], poly[0]);
    CrossesSplitEdge(x, y, poly[0], poly[|poly| - 1], t);
  }

  // ----- Outside the bounding box -----

  /** The number of edges the line at height y separates, along a path, has the parity of its ends. */
  function StraddleParity(y: real, path: seq<Point>): (odd: bool)
    ensures path != [] ==> odd == Straddles(y, path[0], path[|path| - 1])
  {
    if |path| < 2 then false else Xor(Straddles(y, path[1], path[0]), StraddleParity(y, path[1..]))
  }

  lemma {:induction false} AllStraddlersCross(x: real, y: real, path: seq<Point>)
    requires forall k :: 0 <= k < |path| ==> x < path[k].x
    ensures PathParity(x, y, path) == StraddleParity(y, path)
  {
    if |path| > 1 {
      if Straddles(y, path[1], path[0]) {
        MeetsBetween(y, path[1], path[0]);
      }
      AllStraddlersCross(x, y, path[1..]);
    }
  }

  lemma {:induction false} NoneCross(x: real, y: real, path: seq<Point>)
    requires (forall k :: 0 <= k < |path| ==> path[k].x <= x)
             || (forall k :: 0 <= k < |path| ==> path[k].y <= y)
             || (forall k :: 0 <= k < |path| ==> y < path[k].y)
    ensures !PathParity(x, y, path)
  {
    if |path| > 1 {
      if Straddles(y, path[1], path[0]) {
        MeetsBetween(y, path[1], path[0]);
      }
      NoneCross(x, y, path[1..]);
    }
  }

  lemma MulLe(a: real, b: real, c: real)
    requires a >= 0.0 && b <= c
    ensures a * b <= a * c
  {
    var d := c - b;
    assert a * d >= 0.0;
    assert a * c == a * b + a * d;
  }

  lemma CancelLe(p: real, q: real, d: real)
    requires d > 0.0 && d * p <= d * q
    ensures p <= q
  {
    var e := p - q;
    assert d * p == d * q + d * e;
    if e > 0.0 {
      assert d * e > 0.0;
    }
  }

  lemma PartOfPositive(n: real, u: real, d: real)
    requires d > 0.0 && 0.0 <= u <= d && n >= 0.0
    ensures 0.0 <= n * u / d <= n
  {
    var q := n * u / d;
    Quotient(n * u, d);
    MulLe(n, 0.0, u);
    MulLe(n, u, d);
    assert d * q == q * d == n * u && d * n == n * d && d * 0.0 == 0.0 && n * 0.0 == 0.0;
    CancelLe(0.0, q, d);
    CancelLe(q, n, d);
  }

  lemma NegatedNumerator(n: real, u: real, d: real)
    requires d != 0.0
    ensures -n * u / d == -(n * u / d)
  {
    var p, q := -n * u / d, n * u / d;
    Quotient(-n * u, d);
    Quotient(n * u, d);
    Negated(n, u);
    Negated(q, d);
    CancelFactor(p, -q, d);
  }

  /** A part u of a length d cuts the same part off n. */
  lemma PartOf(n: real, u: real, d: real)
    requires d > 0.0 && 0.0 <= u <= d
    ensures 0.0 <= n * u / d <= n || n <= n * u / d <= 0.0
  {
    if n >= 0.0 {
      PartOfPositive(n, u, d);
    } else {
      PartOfPositive(-n, u, d);
      NegatedNumerator(n, u, d);
    }
  }

  lemma NegatedQuotient(n: real, u: real, d: real)
    requires d != 0.0
    ensures n * -u / -d == n * u / d
  {
    var p, q := n * -u / -d, n * u / d;
    Quotient(n * -u, -d);
    Quotient(n * u, d);
    Negated(p, d);
    Negated(n, u);
    CancelFactor(p, q, d);
  }

  /** The ray meets a separated edge between the abscissas of its end points. */
  lemma MeetsBetween(y: real, a: Point, b: Point)
    requires Straddles(y, a, b)
    ensures a.x <= MeetX(y, a, b) <= b.x || b.x <= MeetX(y, a, b) <= a.x
  {
    var dx, dy, u := b.x - a.x, b.y - a.y, y - a.y;
    var m := dx * u / dy;
    assert MeetX(y, a, b) == m + a.x;
    if dy > 0.0 {
      PartOf(dx, u, dy);
    } else {
      PartOf(dx, -u, -dy);
      NegatedQuotient(dx, u, dy);
    }
    assert 0.0 <= m <= dx || dx <= m <= 0.0;
  }

  lemma Scaled(dx: real, t: real)
    requires 0.0 <= t <= 1.0
    ensures 0.0 <= dx * t <= dx || dx <= dx * t <= 0.0
  {
    if dx >= 0.0 {
      MulLe(dx, 0.0, t);
      MulLe(dx, t, 1.0);
    } else {
      MulLe(-dx, 0.0, t);
      MulLe(-dx, t, 1.0);
      Negated(dx, t);
    }
  }

  /** A point left of, right of, below or above every vertex is never inside. On the right and above,
      touching the extreme vertex already counts as outside. */
  lemma OutsideBoundingBox(x: real, y: real, poly: Polygon)
    requires || (forall k :: 0 <= k < |poly| ==> x < poly[k].x)
             || (forall k :: 0 <= k < |poly| ==> poly[k].x <= x)
             || (forall k :: 0 <= k < |poly| ==> y < poly[k].y)
             || (forall k :: 0 <= k < |poly| ==> poly[k].y <= y)
    ensures !Parity(x, y, poly)
  {
    if forall k :: 0 <= k < |poly| ==> x < poly[k].x {
      AllStraddlersCross(x, y, Closed(poly));
    } else {
      NoneCross(x, y, Closed(poly));
    }
  }

  // ----- A reference shape -----

  lemma ParityOfFour(x: real, y: real, a: Point, b: Point, c: Point, d: Point)
    ensures Parity(x, y, [a, b, c, d])
         == Xor(Crosses(x, y, b, a), Xor(Crosses(x, y, c, b), Xor(Crosses(x, y, d, c), Crosses(x, y, a, d))))
  {
    assert Closed([a, b, c, d]) == [a, b, c, d, a];
    assert [a, b, c, d, a][1..] == [b, c, d, a] && [b, c, d, a][1..] == [c, d, a];
    assert [c, d, a][1..] == [d, a] && [d, a][1..] == [a];
    assert PathParity(x, y, [d, a]) == Crosses(x, y, a, d);
    assert PathParity(x, y, [c, d, a]) == Xor(Crosses(x, y, d, c), PathParity(x, y, [d, a]));
    assert PathParity(x, y, [b, c, d, a]) == Xor(Crosses(x, y, c, b), PathParity(x, y, [c, d, a]));
  }

  /** On an axis-parallel rectangle the test is exactly half-open containment. */
  lemma RectangleExact(x: real, y: real, lo: Point, hi: Point)
    requires lo.x <= hi.x && lo.y <= hi.y
    ensures Parity(x, y, [lo, Point(hi.x, lo.y), hi, Point(lo.x, hi.y)]) <==> lo.x <= x < hi.x && lo.y <= y < hi.y
  {
    var lr, ul := Point(hi.x, lo.y), Point(lo.x, hi.y);
    ParityOfFour(x, y, lo, lr, hi, ul);
    if lo.y <= y < hi.y {
      MeetsBetween(y, hi, lr);
      MeetsBetween(y, lo, ul);
    }
  }

  // ----- Zone hits -----

  datatype Zone = Zone(id: string, poly: Polygon)

  predicate HitBy(z: Zone, mask: seq<Point>) {
    exists k :: 0 <= k < |mask| && Parity(mask[k].x, mask[k].y, z.poly)
  }

  /** The ids, in zone order, of the zones that some point of `mask` lies in. */
  function HitIds(zones: seq<Zone>, mask: seq<Point>): seq<string> {
    if zones == [] then [] else
      HitIds(zones[..|zones| - 1], mask) +
      if HitBy(zones[|zones| - 1], mask) then [zones[|zones| - 1].id] else []
  }

  method Hits(zones: seq<Zone>, p: Point) returns (ids: seq<string>)
    ensures ids == HitIds(zones, [p])
  {
    ids := [];
    for i := 0 to |zones|
      invariant ids == HitIds(zones[..i], [p])
    {
      assert zones[..i + 1][..i] == zones[..i];
      assert [p][0] == p;
      var inside := PointInPoly(p.x, p.y, zones[i].poly);
      if inside {
        ids := ids + [zones[i].id];
      }
    }
    assert zones[..|zones|] == zones;
  }

  method HitsMask(zones: seq<Zone>, mask: seq<Point>) returns (ids: seq<string>)
    ensures ids == HitIds(zones, mask)
  {
    ids := [];
    for i := 0 to |zones|
      invariant ids == HitIds(zones[..i], mask)
    {
      assert zones[..i + 1][..i] == zones[..i];
      var any, k := false, 0;
      while !any && k < |mask|
        invariant 0 <= k <= |mask|
        invariant any <==> exists l :: 0 <= l < k && Parity(mask[l].x, mask[l].y, zones[i].poly)
      {
        any := PointInPoly(mask[k].x, mask[k].y, zones[i].poly);
        k := k + 1;
      }
      if any {
        ids := ids + [zones[i].id];
      }
    }
    assert zones[..|zones|] == zones;
  }

  // ----- What a mask hits -----

  predicate InZone(p: Point, z: Zone) {
    Parity(p.x, p.y, z.poly)
  }

  /** The ids returned are exactly those of the zones that some listed point lies in. */
  lemma {:induction false} HitIdsExact(zones: seq<Zone>, mask: seq<Point>, id: string)
    ensures id in HitIds(zones, mask)
            <==> exists i, k :: 0 <= i < |zones| && 0 <= k < |mask| && zones[i].id == id && InZone(mask[k], zones[i])
  {
    hide Parity;
    if zones != [] {
      HitIdsExact(zones[..|zones| - 1], mask, id);
    }
  }

  /** The point lies left of, right of, below or above all of the zone's vertices. */
  predicate OutsideBox(p: Point, z: Zone) {
    || (forall k :: 0 <= k < |z.poly| ==> p.x < z.poly[k].x)
    || (forall k :: 0 <= k < |z.poly| ==> z.poly[k].x <= p.x)
    || (forall k :: 0 <= k < |z.poly| ==> p.y < z.poly[k].y)
    || (forall k :: 0 <= k < |z.poly| ==> z.poly[k].y <= p.y)
  }

  /** A mask whose points all lie outside a zone's bounding box does not hit it, whatever the mask encloses. */
  lemma MaskOutsideBoxMisses(z: Zone, mask: seq<Point>)
    requires forall k :: 0 <= k < |mask| ==> OutsideBox(mask[k], z)
    ensures !HitBy(z, mask)
  {
    hide Parity;
    forall k | 0 <= k < |mask| ensures !Parity(mask[k].x, mask[k].y, z.poly) {
      OutsideBoundingBox(mask[k].x, mask[k].y, z.poly);
    }
  }
}
