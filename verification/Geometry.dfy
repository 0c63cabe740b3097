/** Zone and tripwire geometry: the ray-casting polygon test, segment crossing and crossing
    direction, in exact real arithmetic. */
module Geometry {
  import opened Boxes

  /** Twice the signed area of triangle a b c: positive when c lies to the left of a -> b. */
  function Orient(a: Point, b: Point, c: Point): real {
    (b.x - a.x) * (c.y - a.y) - (b.y - a.y) * (c.x - a.x)
  }

  // ---------------------------------------------------------------- polygon test

  /** Does the ray from `p` towards larger x cross the edge from `b` to `a`? */
  predicate Crosses(p: Point, a: Point, b: Point) {
    ((a.y > p.y) != (b.y > p.y)) && p.x < (b.x - a.x) * (p.y - a.y) / (b.y - a.y) + a.x
  }

  /** Parity of the crossings of the open path through `path`. */
  function PathParity(p: Point, path: seq<Point>): bool {
    if |path| < 2 then false
    else PathParity(p, path[..|path| - 1]) != Crosses(p, path[|path| - 1], path[|path| - 2])
  }

  /** Parity of the crossings of the closed polygon. */
  function Inside(p: Point, poly: seq<Point>): bool {
    if |poly| < 3 then false
    else PathParity(p, poly) != Crosses(p, poly[0], poly[|poly| - 1])
  }

  method PointInPolygon(pt: Point, poly: seq<Point>) returns (inside: bool)
    ensures inside == Inside(pt, poly)
  {
    inside := false;
    var n := |poly|;
    if n < 3 {
      return false;
    }
    var j := n - 1;
    for i := 0 to n
      invariant j == if i == 0 then n - 1 else i - 1
      invariant inside == if i == 0 then false
                          else PathParity(pt, poly[..i]) != Crosses(pt, poly[0], poly[n - 1])
    {
      assert i > 0 ==> poly[..i + 1][..i] == poly[..i];
      if Crosses(pt, poly[i], poly[j]) {
        inside := !inside;
      }
      j := i;
    }
    assert poly[..n] == poly;
  }

  /** The same test without division: an upward edge is crossed by the points strictly on its left,
      a downward edge by the points strictly on its right. */
  predicate CrossesByOrientation(p: Point, a: Point, b: Point) {
    || (a.y <= p.y < b.y && Orient(a, b, p) > 0.0)
    || (b.y <= p.y < a.y && Orient(a, b, p) < 0.0)
  }

  lemma DivisionCompare(u: real, n: real, d: real)
    requires d != 0.0
    ensures d > 0.0 ==> (u < n / d <==> u * d < n)
    ensures d < 0.0 ==> (u < n / d <==> u * d > n)
  {
    var q := n / d;
    assert q * d == n;
    if d > 0.0 {
      assert u < q <==> (q - u) * d > 0.0;
      assert (q - u) * d == n - u * d;
    } else {
      assert u < q <==> (q - u) * d < 0.0;
      assert (q - u) * d == n - u * d;
    }
  }

  lemma CrossesIsOrientation(p: Point, a: Point, b: Point)
    ensures Crosses(p, a, b) == CrossesByOrientation(p, a, b)
  {
    if (a.y > p.y) != (b.y > p.y) {
      var n := (b.x - a.x) * (p.y - a.y);
      DivisionCompare(p.x - a.x, n, b.y - a.y);
      assert Orient(a, b, p) == n - (p.x - a.x) * (b.y - a.y);
    }
  }

  lemma OrientReversed(a: Point, b: Point, p: Point)
    ensures Orient(b, a, p) == -Orient(a, b, p)
  {
  }

  /** An edge is crossed whichever way it is traversed. */
  lemma CrossesSymmetric(p: Point, a: Point, b: Point)
    ensures Crosses(p, a, b) == Crosses(p, b, a)
  {
    CrossesIsOrientation(p, a, b);
    CrossesIsOrientation(p, b, a);
    OrientReversed(a, b, p);
  }

  // ---------------------------------------------------------------- cutting, rotating, reversing

  /** Parity over two joined paths: both paths and the edge between them. */
  lemma {:induction false} PathJoin(p: Point, a: seq<Point>, b: seq<Point>)
    requires a != [] && b != []
    ensures PathParity(p, a + b) == (PathParity(p, a) != (PathParity(p, b) != Crosses(p, b[0], a[|a| - 1])))
    decreases |b|
  {
    var n := |b| - 1;
    assert (a + b)[..|a + b| - 1] == a + b[..n];
    if n == 0 {
      assert a + b[..0] == a;
    } else {
      PathJoin(p, a, b[..n]);
    }
  }

  /** Parity of a path split at one of its vertices. */
  lemma {:induction false} PathSplit(p: Point, path: seq<Point>, k: nat)
    requires k < |path|
    ensures PathParity(p, path) == (PathParity(p, path[..k + 1]) != PathParity(p, path[k..]))
  {
    var a, b := path[..k + 1], path[k + 1..];
    assert path == a + b && path[k..] == [path[k]] + b;
    if b == [] {
      assert a == path;
    } else {
      PathJoin(p, a, b);
      PathJoin(p, [path[k]], b);
    }
  }

  /** Polygons too small for the test have crossing parity 0 anyway. */
  lemma {:induction false} ClosedParity(p: Point, poly: seq<Point>)
    requires poly != []
    ensures Inside(p, poly) == (PathParity(p, poly) != Crosses(p, poly[0], poly[|poly| - 1]))
  {
    if |poly| == 2 {
      assert PathParity(p, poly[..1]) == false;
      CrossesSymmetric(p, poly[0], poly[1]);
    }
  }

  /** Cutting a polygon along the chord between vertices i and j: a point is inside exactly when it
      is inside one of the two pieces but not both. */
  lemma InsideRespectsCuts(p: Point, poly: seq<Point>, i: nat, j: nat)
    requires i < j < |poly|
    ensures Inside(p, poly) == (Inside(p, poly[i..j + 1]) != Inside(p, poly[j..] + poly[..i + 1]))
  {
    var a, b, c := poly[..i + 1], poly[i..j + 1], poly[j..];
    PathSplit(p, poly, j);
    PathSplit(p, poly[..j + 1], i);
    assert poly[..j + 1][..i + 1] == a && poly[..j + 1][i..] == b;
    PathJoin(p, c, a);
    ClosedParity(p, poly);
    ClosedParity(p, b);
    ClosedParity(p, c + a);
    CrossesSymmetric(p, poly[i], poly[j]);
  }

  /** The starting vertex does not matter. */
  lemma InsideIgnoresRotation(p: Point, poly: seq<Point>, k: nat)
    requires k <= |poly|
    ensures Inside(p, poly[k..] + poly[..k]) == Inside(p, poly)
  {
    var a, b := poly[..k], poly[k..];
    assert poly == a + b;
    if a == [] || b == [] {
      assert b + a == poly;
    } else {
      PathJoin(p, a, b);
      PathJoin(p, b, a);
      ClosedParity(p, a + b);
      ClosedParity(p, b + a);
    }
  }

  function Reversed(s: seq<Point>): (r: seq<Point>)
    ensures |r| == |s|
    ensures forall i :: 0 <= i < |s| ==> r[i] == s[|s| - 1 - i]
  {
    if s == [] then [] else [s[|s| - 1]] + Reversed(s[..|s| - 1])
  }

  lemma {:induction false} PathIgnoresDirection(p: Point, path: seq<Point>)
    ensures PathParity(p, Reversed(path)) == PathParity(p, path)
  {
    if |path| > 1 {
      var n := |path| - 1;
      PathIgnoresDirection(p, path[..n]);
      PathJoin(p, [path[n]], Reversed(path[..n]));
      CrossesSymmetric(p, path[n], path[n - 1]);
    }
  }

  /** Neither does the direction in which the vertices are listed. */
  lemma InsideIgnoresDirection(p: Point, poly: seq<Point>)
    ensures Inside(p, Reversed(poly)) == Inside(p, poly)
  {
    if poly != [] {
      PathIgnoresDirection(p, poly);
      ClosedParity(p, poly);
      ClosedParity(p, Reversed(poly));
      CrossesSymmetric(p, poly[0], poly[|poly| - 1]);
    }
  }

  // ---------------------------------------------------------------- triangles and rectangles

  /** In how many triangles of the fan around the first vertex does the point lie, modulo 2? */
  function FanParity(p: Point, poly: seq<Point>): bool {
    if |poly| < 3 then false
    else
      var n := |poly|;
      FanParity(p, poly[..n - 1]) != Inside(p, [poly[0], poly[n - 2], poly[n - 1]])
  }

  /** The polygon test is the parity of the triangle tests of any fan triangulation. */
  lemma {:induction false} InsideIsFanParity(p: Point, poly: seq<Point>)
    ensures Inside(p, poly) == FanParity(p, poly)
  {
    if |poly| >= 3 {
      var n := |poly|;
      InsideIsFanParity(p, poly[..n - 1]);
      InsideRespectsCuts(p, poly, 0, n - 2);
      assert poly[0..n - 1] == poly[..n - 1];
      var last := poly[n - 2..] + poly[..1];
      assert last == [poly[n - 2], poly[n - 1], poly[0]];
      InsideIgnoresRotation(p, last, 2);
      assert last[2..] + last[..2] == [poly[0], poly[n - 2], poly[n - 1]];
    }
  }

  lemma TriangleParity(p: Point, a: Point, b: Point, c: Point)
    ensures Inside(p, [a, b, c])
         == (CrossesByOrientation(p, a, b) != (CrossesByOrientation(p, b, c) != CrossesByOrientation(p, c, a)))
  {
    TriangleCrossings(p, a, b, c);
    CrossesSymmetric(p, a, b);
    CrossesSymmetric(p, b, c);
    CrossesSymmetric(p, a, c);
    CrossesIsOrientation(p, a, b);
    CrossesIsOrientation(p, b, c);
    CrossesIsOrientation(p, c, a);
  }

  lemma TriangleCrossings(p: Point, a: Point, b: Point, c: Point)
    ensures Inside(p, [a, b, c]) == (Crosses(p, b, a) != (Crosses(p, c, b) != Crosses(p, a, c)))
  {
    PathJoin(p, [a], [b]);
    PathJoin(p, [a] + [b], [c]);
    assert [a] + [b] + [c] == [a, b, c];
    assert ([a] + [b])[1] == b;
  }

  /** The three orientations are barycentric weights. */
  lemma Barycentric(p: Point, a: Point, b: Point, c: Point)
    ensures Orient(a, b, p) + Orient(b, c, p) + Orient(c, a, p) == Orient(a, b, c)
    ensures Orient(a, b, p) * (c.y - p.y) + Orient(b, c, p) * (a.y - p.y) + Orient(c, a, p) * (b.y - p.y) == 0.0
  {
  }

  /** `prod` has the sign of the product of `s` and `t`. */
  predicate SignOf(prod: real, s: real, t: real) {
    && (prod > 0.0 <==> (s > 0.0 && t > 0.0) || (s < 0.0 && t < 0.0))
    && (prod < 0.0 <==> (s > 0.0 && t < 0.0) || (s < 0.0 && t > 0.0))
  }

  lemma ProductSign(s: real, t: real)
    ensures SignOf(s * t, s, t)
  {
  }

  /** Is the ray's height crossed, and the point on the crossing side? (heights relative to the point) */
  predicate CrossedAt(u: real, v: real, o: real) {
    (u <= 0.0 < v && o > 0.0) || (v <= 0.0 < u && o < 0.0)
  }

  lemma TriangleSigns(o1: real, o2: real, o3: real, u: real, v: real, w: real, x: real, y: real, z: real)
    requires SignOf(x, o1, w) && SignOf(y, o2, u) && SignOf(z, o3, v) && x + y + z == 0.0
    requires o1 + o2 + o3 > 0.0 && !(u == v == w == 0.0)
    ensures var inside := CrossedAt(u, v, o1) != (CrossedAt(v, w, o2) != CrossedAt(w, u, o3));
            && (o1 > 0.0 && o2 > 0.0 && o3 > 0.0 ==> inside)
            && (inside ==> o1 >= 0.0 && o2 >= 0.0 && o3 >= 0.0)
  {
  }

  /** The point lies strictly on the same side of all three edges. */
  predicate StrictlyWithin(p: Point, a: Point, b: Point, c: Point) {
    || (Orient(a, b, p) > 0.0 && Orient(b, c, p) > 0.0 && Orient(c, a, p) > 0.0)
    || (Orient(a, b, p) < 0.0 && Orient(b, c, p) < 0.0 && Orient(c, a, p) < 0.0)
  }

  /** The triangle is not flat, and the point lies strictly outside none of its edges. */
  predicate WithinClosed(p: Point, a: Point, b: Point, c: Point) {
    || (Orient(a, b, c) > 0.0 && Orient(a, b, p) >= 0.0 && Orient(b, c, p) >= 0.0 && Orient(c, a, p) >= 0.0)
    || (Orient(a, b, c) < 0.0 && Orient(a, b, p) <= 0.0 && Orient(b, c, p) <= 0.0 && Orient(c, a, p) <= 0.0)
  }

  lemma CounterClockwiseTriangle(p: Point, a: Point, b: Point, c: Point)
    requires Orient(a, b, c) > 0.0
    ensures Orient(a, b, p) > 0.0 && Orient(b, c, p) > 0.0 && Orient(c, a, p) > 0.0 ==> Inside(p, [a, b, c])
    ensures Inside(p, [a, b, c]) ==> Orient(a, b, p) >= 0.0 && Orient(b, c, p) >= 0.0 && Orient(c, a, p) >= 0.0
  {
    var o1, o2, o3 := Orient(a, b, p), Orient(b, c, p), Orient(c, a, p);
    var u, v, w := a.y - p.y, b.y - p.y, c.y - p.y;
    Barycentric(p, a, b, c);
    ProductSign(o1, w);
    ProductSign(o2, u);
    ProductSign(o3, v);
    if u == v == w == 0.0 {
      FlatTriangle(a, b, c);
    }
    TriangleSigns(o1, o2, o3, u, v, w, o1 * w, o2 * u, o3 * v);
    TriangleParity(p, a, b, c);
  }

  lemma TimesDifference(k: real, a: real, b: real)
    ensures k * (a - b) == k * a - k * b
  {
  }

  lemma TimesZero(a: real, k: real)
    requires a == 0.0
    ensures a * k == 0.0
  {
  }

  lemma TimesSum(a: real, b: real, k: real)
    ensures (a + b) * k == a * k + b * k
  {
  }

  lemma SignedProduct(s: real, t: real) returns (x: real)
    ensures x == s * t && SignOf(x, s, t)
  {
    x := s * t;
    ProductSign(s, t);
  }

  /** On a flat triangle the orientations balance over the heights. */
  lemma FlatBalance(o1: real, o2: real, o3: real, u: real, v: real, w: real)
    requires o1 + o2 + o3 == 0.0 && o1 * w + o2 * u + o3 * v == 0.0
    ensures o1 * (w - v) == -(o2 * (u - v))
  {
    TimesDifference(o1, w, v);
    TimesDifference(o2, u, v);
    TimesSum(o1, o2, v);
    TimesSum(o1 + o2, o3, v);
    TimesZero(o1 + o2 + o3, v);
  }

  lemma FlatProducts(o1: real, o2: real, o3: real, u: real, v: real, w: real) returns (x: real, y: real)
    requires o1 + o2 + o3 == 0.0 && o1 * w + o2 * u + o3 * v == 0.0
    ensures SignOf(x, o1, w - v) && SignOf(y, o2, u - v) && x == -y
  {
    hide SignOf;
    FlatBalance(o1, o2, o3, u, v, w);
    x := SignedProduct(o1, w - v);
    y := SignedProduct(o2, u - v);
  }

  lemma FlatSigns(o1: real, o2: real, o3: real, u: real, v: real, w: real, x: real, y: real, z: real, x': real,
                  y': real, z': real)
    requires SignOf(x, o1, w - v) && SignOf(x', o2, u - v) && x == -x'
    requires SignOf(y, o2, u - w) && SignOf(y', o3, v - w) && y == -y'
    requires SignOf(z, o3, v - u) && SignOf(z', o1, w - u) && z == -z'
    ensures CrossedAt(u, v, o1) == (CrossedAt(v, w, o2) != CrossedAt(w, u, o3))
  {
  }

  /** A flat triangle contains no point. */
  lemma FlatTriangleIsEmpty(p: Point, a: Point, b: Point, c: Point)
    requires Orient(a, b, c) == 0.0
    ensures !Inside(p, [a, b, c])
  {
    var o1, o2, o3 := Orient(a, b, p), Orient(b, c, p), Orient(c, a, p);
    var u, v, w := a.y - p.y, b.y - p.y, c.y - p.y;
    Barycentric(p, a, b, c);
    var x, x' := FlatProducts(o1, o2, o3, u, v, w);
    var y, y' := FlatProducts(o2, o3, o1, v, w, u);
    var z, z' := FlatProducts(o3, o1, o2, w, u, v);
    FlatSigns(o1, o2, o3, u, v, w, x, y, z, x', y', z');
    TriangleParity(p, a, b, c);
  }

  lemma OrientTurned(a: Point, b: Point, c: Point)
    ensures Orient(c, b, a) == -Orient(a, b, c)
  {
  }

  /** Every triangle, in either direction of its vertices, contains all points strictly inside it and
      none strictly outside; a flat one contains none. */
  lemma InsideTriangle(p: Point, a: Point, b: Point, c: Point)
    ensures StrictlyWithin(p, a, b, c) ==> Inside(p, [a, b, c])
    ensures Inside(p, [a, b, c]) ==> WithinClosed(p, a, b, c)
  {
    OrientReversed(a, b, p);
    OrientReversed(b, c, p);
    OrientReversed(c, a, p);
    OrientTurned(a, b, c);
    Barycentric(p, a, b, c);
    hide Orient;
    if Orient(a, b, c) > 0.0 {
      CounterClockwiseTriangle(p, a, b, c);
    } else if Orient(a, b, c) < 0.0 {
      CounterClockwiseTriangle(p, c, b, a);
      assert Reversed([a, b, c]) == [c, b, a];
      InsideIgnoresDirection(p, [a, b, c]);
    } else {
      FlatTriangleIsEmpty(p, a, b, c);
    }
  }

  lemma FlatTriangle(a: Point, b: Point, c: Point)
    requires a.y == b.y == c.y
    ensures Orient(a, b, c) == 0.0
  {
  }

  lemma VerticalEdge(p: Point, x: real, y0: real, y1: real)
    requires y0 <= y1
    ensures Crosses(p, Point(x, y0), Point(x, y1)) <==> y0 <= p.y < y1 && p.x < x
  {
    var a, b := Point(x, y0), Point(x, y1);
    CrossesIsOrientation(p, a, b);
    assert Orient(a, b, p) == (y1 - y0) * (x - p.x);
    ProductSign(y1 - y0, x - p.x);
  }

  /** On an axis-aligned rectangle the test is the half-open box test. */
  lemma InsideRectangle(p: Point, x0: real, y0: real, x1: real, y1: real)
    requires x0 <= x1 && y0 <= y1
    ensures Inside(p, [Point(x0, y0), Point(x1, y0), Point(x1, y1), Point(x0, y1)])
        <==> x0 <= p.x < x1 && y0 <= p.y < y1
  {
    var a, b, c, d := Point(x0, y0), Point(x1, y0), Point(x1, y1), Point(x0, y1);
    PathJoin(p, [a], [b]);
    PathJoin(p, [a] + [b], [c]);
    PathJoin(p, [a] + [b] + [c], [d]);
    assert [a] + [b] + [c] + [d] == [a, b, c, d];
    assert ([a] + [b])[1] == b && ([a] + [b] + [c])[2] == c;
    VerticalEdge(p, x0, y0, y1);
    VerticalEdge(p, x1, y0, y1);
    CrossesSymmetric(p, b, c);
  }

  // ---------------------------------------------------------------- segment crossing

  predicate SegmentsIntersect(p1: Point, p2: Point, p3: Point, p4: Point) {
    var d1 := Orient(p3, p4, p1);
    var d2 := Orient(p3, p4, p2);
    var d3 := Orient(p1, p2, p3);
    var d4 := Orient(p1, p2, p4);
    ((d1 > 0.0) != (d2 > 0.0)) && ((d3 > 0.0) != (d4 > 0.0))
  }

  /** The point a fraction `t` of the way from `p` to `q`. */
  function At(p: Point, q: Point, t: real): Point {
    Point(p.x + t * (q.x - p.x), p.y + t * (q.y - p.y))
  }

  lemma OrientAt(a: Point, b: Point, p: Point, q: Point, t: real)
    ensures Orient(a, b, At(p, q, t)) == Orient(a, b, p) + t * (Orient(a, b, q) - Orient(a, b, p))
  {
    var dx, dy := b.x - a.x, b.y - a.y;
    var ux, uy := q.x - p.x, q.y - p.y;
    var px, py := p.x - a.x, p.y - a.y;
    assert Orient(a, b, At(p, q, t)) == dx * (py + t * uy) - dy * (px + t * ux);
    assert Orient(a, b, q) - Orient(a, b, p) == dx * uy - dy * ux;
    assert dx * (py + t * uy) - dy * (px + t * ux) == dx * py - dy * px + t * (dx * uy - dy * ux);
  }

  /** The two segments turn at the same rate against each other. */
  lemma OppositeTurns(p1: Point, p2: Point, p3: Point, p4: Point)
    ensures Orient(p3, p4, p1) - Orient(p3, p4, p2) == -(Orient(p1, p2, p3) - Orient(p1, p2, p4))
  {
  }

  /** The segments meet at fractions `t` and `s`. Which of the four end points count depends on the
      side from which p1 -> p2 crosses p3 -> p4. */
  ghost predicate MeetAt(p1: Point, p2: Point, p3: Point, p4: Point, t: real, s: real) {
    && At(p1, p2, t) == At(p3, p4, s)
    && InRange(Orient(p3, p4, p1) - Orient(p3, p4, p2), t, s)
  }

  lemma OnLine(a: Point, b: Point, s: real)
    ensures Orient(a, b, At(a, b, s)) == 0.0
  {
    OrientAt(a, b, a, b, s);
  }

  /** The allowed fractions, by the direction of the turn. */
  predicate InRange(turn: real, t: real, s: real) {
    || (turn > 0.0 && 0.0 < t <= 1.0 && 0.0 <= s < 1.0)
    || (turn < 0.0 && 0.0 <= t < 1.0 && 0.0 < s <= 1.0)
  }

  lemma RangeBySigns(turn: real, t: real, s: real, d1: real, d2: real, d3: real, d4: real)
    requires turn != 0.0
    requires SignOf(d1, t, turn) && SignOf(d2, t - 1.0, turn) && SignOf(d3, -s, turn) && SignOf(d4, 1.0 - s, turn)
    ensures ((d1 > 0.0) != (d2 > 0.0)) && ((d3 > 0.0) != (d4 > 0.0)) <==> InRange(turn, t, s)
  {
  }

  lemma RangeByMultiples(turn: real, t: real, s: real, d1: real, d2: real, d3: real, d4: real)
    requires turn != 0.0
    requires d1 == t * turn && d2 == (t - 1.0) * turn && d3 == -(s * turn) && d4 == (1.0 - s) * turn
    ensures ((d1 > 0.0) != (d2 > 0.0)) && ((d3 > 0.0) != (d4 > 0.0)) <==> InRange(turn, t, s)
  {
    ProductSign(t, turn);
    ProductSign(t - 1.0, turn);
    ProductSign(-s, turn);
    ProductSign(1.0 - s, turn);
    assert (-s) * turn == d3;
    RangeBySigns(turn, t, s, d1, d2, d3, d4);
  }

  /** Orientations of the four end points in terms of the meeting fractions. */
  lemma MeetingOrientations(p1: Point, p2: Point, p3: Point, p4: Point, t: real, s: real)
    requires At(p1, p2, t) == At(p3, p4, s)
    ensures var turn := Orient(p3, p4, p1) - Orient(p3, p4, p2);
            && Orient(p3, p4, p1) == t * turn && Orient(p3, p4, p2) == (t - 1.0) * turn
            && Orient(p1, p2, p3) == -(s * turn) && Orient(p1, p2, p4) == (1.0 - s) * turn
  {
    var turn := Orient(p3, p4, p1) - Orient(p3, p4, p2);
    OppositeTurns(p1, p2, p3, p4);
    OrientAt(p3, p4, p1, p2, t);
    OnLine(p3, p4, s);
    OrientAt(p1, p2, p3, p4, s);
    OnLine(p1, p2, t);
    assert t * (Orient(p3, p4, p2) - Orient(p3, p4, p1)) == -(t * turn);
    assert s * (Orient(p1, p2, p4) - Orient(p1, p2, p3)) == s * turn;
    assert (t - 1.0) * turn == t * turn - turn;
    assert (1.0 - s) * turn == turn - s * turn;
  }

  lemma MeetingDecides(p1: Point, p2: Point, p3: Point, p4: Point, t: real, s: real)
    requires At(p1, p2, t) == At(p3, p4, s) && Orient(p3, p4, p1) != Orient(p3, p4, p2)
    ensures SegmentsIntersect(p1, p2, p3, p4) <==> InRange(Orient(p3, p4, p1) - Orient(p3, p4, p2), t, s)
  {
    var turn := Orient(p3, p4, p1) - Orient(p3, p4, p2);
    MeetingOrientations(p1, p2, p3, p4, t, s);
    RangeByMultiples(turn, t, s, Orient(p3, p4, p1), Orient(p3, p4, p2), Orient(p1, p2, p3), Orient(p1, p2, p4));
  }

  /** Cramer's rule for the crossing point, multiplied out. */
  lemma CrossingPoint(p1: Point, p2: Point, p3: Point, p4: Point)
    ensures var turn := Orient(p3, p4, p1) - Orient(p3, p4, p2);
            && turn * (p1.x - p3.x) + Orient(p3, p4, p1) * (p2.x - p1.x) + Orient(p1, p2, p3) * (p4.x - p3.x) == 0.0
            && turn * (p1.y - p3.y) + Orient(p3, p4, p1) * (p2.y - p1.y) + Orient(p1, p2, p3) * (p4.y - p3.y) == 0.0
  {
    var ux, uy, vx, vy, wx, wy := p2.x - p1.x, p2.y - p1.y, p4.x - p3.x, p4.y - p3.y, p1.x - p3.x, p1.y - p3.y;
    var turn := Orient(p3, p4, p1) - Orient(p3, p4, p2);
    assert Orient(p3, p4, p1) == vx * wy - vy * wx;
    assert Orient(p1, p2, p3) == uy * wx - ux * wy;
    assert turn == vy * ux - vx * uy;
    CramerIdentity(ux, uy, vx, vy, wx, wy);
  }

  lemma CramerIdentity(ux: real, uy: real, vx: real, vy: real, wx: real, wy: real)
    ensures (vy * ux - vx * uy) * wx + (vx * wy - vy * wx) * ux + (uy * wx - ux * wy) * vx == 0.0
    ensures (vy * ux - vx * uy) * wy + (vx * wy - vy * wx) * uy + (uy * wx - ux * wy) * vy == 0.0
  {
  }

  lemma Quotient(turn: real, d: real, e: real, a: real, b: real, u: real, v: real)
    requires turn != 0.0 && turn * (a - b) + d * u + e * v == 0.0
    ensures a + d / turn * u == b + (-e) / turn * v
  {
    var t, s := d / turn, (-e) / turn;
    assert t * turn == d && s * turn == -e;
    assert turn * (a - b) + (t * turn) * u - (s * turn) * v == turn * (a + t * u - b - s * v);
  }

  lemma IntersectingMeets(p1: Point, p2: Point, p3: Point, p4: Point)
    requires SegmentsIntersect(p1, p2, p3, p4)
    ensures exists t, s :: MeetAt(p1, p2, p3, p4, t, s)
  {
    var d1, d3 := Orient(p3, p4, p1), Orient(p1, p2, p3);
    var turn := d1 - Orient(p3, p4, p2);
    var t, s := d1 / turn, (-d3) / turn;
    CrossingPoint(p1, p2, p3, p4);
    Quotient(turn, d1, d3, p1.x, p3.x, p2.x - p1.x, p4.x - p3.x);
    Quotient(turn, d1, d3, p1.y, p3.y, p2.y - p1.y, p4.y - p3.y);
    MeetingDecides(p1, p2, p3, p4, t, s);
    assert MeetAt(p1, p2, p3, p4, t, s);
  }

  /** The crossing test is exact: it answers yes exactly when the segments are not parallel and meet,
      an end point counting on one side only. */
  lemma CrossingIsExact(p1: Point, p2: Point, p3: Point, p4: Point)
    ensures SegmentsIntersect(p1, p2, p3, p4) <==> exists t, s :: MeetAt(p1, p2, p3, p4, t, s)
  {
    if SegmentsIntersect(p1, p2, p3, p4) {
      IntersectingMeets(p1, p2, p3, p4);
    }
    if t, s :| MeetAt(p1, p2, p3, p4, t, s) {
      MeetingDecides(p1, p2, p3, p4, t, s);
    }
  }

  // ---------------------------------------------------------------- crossing direction

  function CrossingDirection(prev: Point, cur: Point, a: Point, b: Point): int {
    var sidePrev := (b.x - a.x) * (prev.y - a.y) - (b.y - a.y) * (prev.x - a.x);
    var sideCur := (b.x - a.x) * (cur.y - a.y) - (b.y - a.y) * (cur.x - a.x);
    if sidePrev == 0.0 && sideCur == 0.0 then 0
    else if sideCur > sidePrev then 1 else -1
  }

  /** For a crossing movement the direction is +1 exactly when it ends strictly to the left of
      a -> b, and -1 otherwise. */
  lemma DirectionIsSide(prev: Point, cur: Point, a: Point, b: Point)
    requires SegmentsIntersect(prev, cur, a, b)
    ensures CrossingDirection(prev, cur, a, b) == if Orient(a, b, cur) > 0.0 then 1 else -1
  {
  }
}
