/** Face alignment: the closed-form least-squares similarity transform from landmarks to a template,
    and the inverse map used for sampling. */
module Alignment {
  import opened Boxes
  import opened RealProducts

  // ---------------------------------------------------------------- the estimate

  function SumX(ps: seq<Point>): real {
    if ps == [] then 0.0 else SumX(ps[1..]) + ps[0].x
  }

  function SumY(ps: seq<Point>): real {
    if ps == [] then 0.0 else SumY(ps[1..]) + ps[0].y
  }

  function Mean(ps: seq<Point>): Point
    requires ps != []
  {
    Point(SumX(ps) / |ps| as real, SumY(ps) / |ps| as real)
  }

  function Shift(p: Point, c: Point): Point {
    Point(p.x - c.x, p.y - c.y)
  }

  function Centred(ps: seq<Point>, c: Point): (r: seq<Point>)
    ensures |r| == |ps| && forall i :: 0 <= i < |ps| ==> r[i] == Shift(ps[i], c)
  {
    if ps == [] then [] else [Shift(ps[0], c)] + Centred(ps[1..], c)
  }

  /** Sum of x x' + y y'. */
  function Dot(ps: seq<Point>, qs: seq<Point>): real
    requires |ps| == |qs|
  {
    if ps == [] then 0.0 else Dot(ps[1..], qs[1..]) + (ps[0].x * qs[0].x + ps[0].y * qs[0].y)
  }

  /** Sum of x y' - y x'. */
  function Cross(ps: seq<Point>, qs: seq<Point>): real
    requires |ps| == |qs|
  {
    if ps == [] then 0.0 else Cross(ps[1..], qs[1..]) + (ps[0].x * qs[0].y - ps[0].y * qs[0].x)
  }

  /** A similarity: rotation and scale as the pair (c, s), then a translation. */
  datatype Similarity = Similarity(c: real, s: real, tx: real, ty: real)

  function Rotate(c: real, s: real, p: Point): Point {
    Point(c * p.x - s * p.y, s * p.x + c * p.y)
  }

  function Apply(t: Similarity, p: Point): Point {
    var r := Rotate(t.c, t.s, p);
    Point(r.x + t.tx, r.y + t.ty)
  }

  function SquaredNorm(p: Point): real {
    p.x * p.x + p.y * p.y
  }

  /** Sum of squared distances between transformed source points and their targets. */
  function Error(t: Similarity, src: seq<Point>, dst: seq<Point>): real
    requires |src| == |dst|
  {
    if src == [] then 0.0
    else Error(t, src[1..], dst[1..]) + SquaredNorm(Shift(Apply(t, src[0]), dst[0]))
  }

  function Denominator(src: seq<Point>): real {
    var d := Dot(src, src);
    if d == 0.0 then 1.0 else d
  }

  /** The transform the program computes, about the centroids of both point lists. */
  function Estimate(src: seq<Point>, dst: seq<Point>): Similarity
    requires |src| == |dst| && src != []
  {
    var sc, dc := Mean(src), Mean(dst);
    var sd, dd := Centred(src, sc), Centred(dst, dc);
    var denom := Denominator(sd);
    var c, s := Dot(sd, dd) / denom, Cross(sd, dd) / denom;
    var r := Rotate(c, s, sc);
    Similarity(c, s, dc.x - r.x, dc.y - r.y)
  }

  /** cos(theta) * scale and sin(theta) * scale, with theta = atan2(b, a) and scale = r / denom where
      r is the length of (a, b), are a / denom and b / denom. */
  lemma PolarForm(a: real, b: real, denom: real, r: real, cosT: real, sinT: real)
    requires denom > 0.0 && r >= 0.0 && r * r == a * a + b * b
    requires r * cosT == a && r * sinT == b
    ensures cosT * (r / denom) == a / denom && sinT * (r / denom) == b / denom
    ensures (r / denom) * (r / denom) == (a / denom) * (a / denom) + (b / denom) * (b / denom)
  {
    var k := 1.0 / denom;
    assert r / denom == r * k && a / denom == a * k && b / denom == b * k;
    assert cosT * (r * k) == (r * cosT) * k && sinT * (r * k) == (r * sinT) * k;
    assert (r * k) * (r * k) == (r * r) * (k * k);
    assert (a * k) * (a * k) + (b * k) * (b * k) == (a * a + b * b) * (k * k);
  }

  // ---------------------------------------------------------------- centroids

  lemma {:induction false} CentredSums(ps: seq<Point>, c: Point)
    ensures SumX(Centred(ps, c)) == SumX(ps) - |ps| as real * c.x
    ensures SumY(Centred(ps, c)) == SumY(ps) - |ps| as real * c.y
  {
    if ps != [] {
      CentredSums(ps[1..], c);
      assert Centred(ps, c)[1..] == Centred(ps[1..], c);
      assert |ps| as real == |ps[1..]| as real + 1.0;
      assert |ps| as real * c.x == |ps[1..]| as real * c.x + c.x;
      assert |ps| as real * c.y == |ps[1..]| as real * c.y + c.y;
    }
  }

  lemma CentredAtMean(ps: seq<Point>)
    requires ps != []
    ensures SumX(Centred(ps, Mean(ps))) == 0.0 && SumY(Centred(ps, Mean(ps))) == 0.0
  {
    CentredSums(ps, Mean(ps));
    var n := |ps| as real;
    assert n * (SumX(ps) / n) == SumX(ps) && n * (SumY(ps) / n) == SumY(ps);
  }

  // ---------------------------------------------------------------- the error as a polynomial

  /** Error of one pair of points, expanded. */
  lemma ExpandPair(c: real, s: real, tx: real, ty: real, x: real, y: real, u: real, v: real)
    ensures SquaredNorm(Shift(Apply(Similarity(c, s, tx, ty), Point(x, y)), Point(u, v)))
         == (c * c + s * s) * (x * x + y * y) - 2.0 * c * (x * u + y * v) - 2.0 * s * (x * v - y * u) + (u * u + v * v)
            + (tx * tx + ty * ty)
            + 2.0 * tx * (c * x - s * y - u) + 2.0 * ty * (s * x + c * y - v)
  {
    var p, q := c * x - s * y, s * x + c * y;
    assert (p + tx - u) * (p + tx - u) == p * p + tx * tx + u * u + 2.0 * tx * (p - u) - 2.0 * p * u;
    assert (q + ty - v) * (q + ty - v) == q * q + ty * ty + v * v + 2.0 * ty * (q - v) - 2.0 * q * v;
    assert p * p + q * q == (c * c + s * s) * (x * x + y * y);
    assert p * u + q * v == c * (x * u + y * v) + s * (x * v - y * u);
  }

  /** The sums the error depends on: number of points, squared norms, products, and coordinate sums. */
  datatype Sums = Sums(n: real, ss: real, dd: real, dot: real, cross: real, sx: real, sy: real, dx: real, dy: real)

  function SumsOf(src: seq<Point>, dst: seq<Point>): Sums
    requires |src| == |dst|
  {
    Sums(|src| as real, Dot(src, src), Dot(dst, dst), Dot(src, dst), Cross(src, dst),
         SumX(src), SumY(src), SumX(dst), SumY(dst))
  }

  function Plus(a: Sums, b: Sums): Sums {
    Sums(a.n + b.n, a.ss + b.ss, a.dd + b.dd, a.dot + b.dot, a.cross + b.cross,
         a.sx + b.sx, a.sy + b.sy, a.dx + b.dx, a.dy + b.dy)
  }

  function Polynomial(t: Similarity, m: Sums): real {
    (t.c * t.c + t.s * t.s) * m.ss - 2.0 * t.c * m.dot - 2.0 * t.s * m.cross + m.dd
    + m.n * (t.tx * t.tx + t.ty * t.ty)
    + 2.0 * t.tx * (t.c * m.sx - t.s * m.sy - m.dx) + 2.0 * t.ty * (t.s * m.sx + t.c * m.sy - m.dy)
  }

  lemma Distribute(k: real, a: real, b: real)
    ensures k * (a + b) == k * a + k * b
  {
  }

  lemma DistributeMinus(k: real, a: real, b: real, u: real)
    requires u == a - b
    ensures k * u == k * a - k * b
  {
  }

  lemma PolynomialAdds(t: Similarity, a: Sums, b: Sums)
    ensures Polynomial(t, Plus(a, b)) == Polynomial(t, a) + Polynomial(t, b)
  {
    var q, w := t.c * t.c + t.s * t.s, t.tx * t.tx + t.ty * t.ty;
    Distribute(q, a.ss, b.ss);
    Distribute(2.0 * t.c, a.dot, b.dot);
    Distribute(2.0 * t.s, a.cross, b.cross);
    Distribute(w, a.n, b.n);
    Distribute(t.c, a.sx, b.sx);
    Distribute(t.s, a.sy, b.sy);
    Distribute(t.s, a.sx, b.sx);
    Distribute(t.c, a.sy, b.sy);
    Distribute(2.0 * t.tx, t.c * a.sx - t.s * a.sy - a.dx, t.c * b.sx - t.s * b.sy - b.dx);
    Distribute(2.0 * t.ty, t.s * a.sx + t.c * a.sy - a.dy, t.s * b.sx + t.c * b.sy - b.dy);
  }

  function PairSums(p: Point, q: Point): Sums {
    Sums(1.0, p.x * p.x + p.y * p.y, q.x * q.x + q.y * q.y, p.x * q.x + p.y * q.y, p.x * q.y - p.y * q.x, p.x, p.y,
         q.x, q.y)
  }

  lemma SumsSplit(src: seq<Point>, dst: seq<Point>)
    requires |src| == |dst| && src != []
    ensures SumsOf(src, dst) == Plus(SumsOf(src[1..], dst[1..]), PairSums(src[0], dst[0]))
  {
    assert |src| as real == |src[1..]| as real + 1.0;
  }

  lemma {:induction false} ErrorIsPolynomial(t: Similarity, src: seq<Point>, dst: seq<Point>)
    requires |src| == |dst|
    ensures Error(t, src, dst) == Polynomial(t, SumsOf(src, dst))
    decreases src, 1
  {
    if src == [] {
      assert SumsOf(src, dst) == Sums(0.0, 0.0, 0.0, 0.0, 0.0, 0.0, 0.0, 0.0, 0.0);
    } else {
      ErrorStep(t, src, dst);
    }
  }

  lemma {:induction false} ErrorStep(t: Similarity, src: seq<Point>, dst: seq<Point>)
    requires |src| == |dst| && src != []
    ensures Error(t, src, dst) == Polynomial(t, SumsOf(src, dst))
    decreases src, 0
  {
    hide Polynomial, SumsOf, PairSums, Plus, SquaredNorm, Apply, Shift;
    ErrorIsPolynomial(t, src[1..], dst[1..]);
    PairPolynomial(t, src[0], dst[0]);
    PolynomialAdds(t, SumsOf(src[1..], dst[1..]), PairSums(src[0], dst[0]));
    SumsSplit(src, dst);
  }

  lemma PairPolynomial(t: Similarity, p: Point, q: Point)
    ensures SquaredNorm(Shift(Apply(t, p), q)) == Polynomial(t, PairSums(p, q))
  {
    ExpandPair(t.c, t.s, t.tx, t.ty, p.x, p.y, q.x, q.y);
  }

  // ---------------------------------------------------------------- moving the origin to the centroids

  /** The same transform, for points measured from `sc` and targets measured from `dc`. */
  function Recentred(t: Similarity, sc: Point, dc: Point): Similarity {
    var r := Rotate(t.c, t.s, sc);
    Similarity(t.c, t.s, t.tx + r.x - dc.x, t.ty + r.y - dc.y)
  }

  lemma RotateShift(c: real, s: real, p: Point, q: Point)
    ensures Rotate(c, s, Shift(p, q)) == Shift(Rotate(c, s, p), Rotate(c, s, q))
  {
    var u := Shift(p, q);
    DistributeMinus(c, p.x, q.x, u.x);
    DistributeMinus(s, p.y, q.y, u.y);
    DistributeMinus(s, p.x, q.x, u.x);
    DistributeMinus(c, p.y, q.y, u.y);
  }

  lemma RecentredPair(t: Similarity, sc: Point, dc: Point, p: Point, q: Point)
    ensures Shift(Apply(Recentred(t, sc, dc), Shift(p, sc)), Shift(q, dc)) == Shift(Apply(t, p), q)
  {
    hide Rotate;
    RotateShift(t.c, t.s, p, sc);
  }

  lemma {:induction false} ErrorRecentred(t: Similarity, src: seq<Point>, dst: seq<Point>, sc: Point, dc: Point)
    requires |src| == |dst|
    ensures Error(t, src, dst) == Error(Recentred(t, sc, dc), Centred(src, sc), Centred(dst, dc))
  {
    if src != [] {
      ErrorRecentred(t, src[1..], dst[1..], sc, dc);
      RecentredPair(t, sc, dc, src[0], dst[0]);
      assert Centred(src, sc)[1..] == Centred(src[1..], sc) && Centred(dst, dc)[1..] == Centred(dst[1..], dc);
    }
  }

  // ---------------------------------------------------------------- least squares

  lemma {:induction false} NormNonNegative(src: seq<Point>)
    ensures Dot(src, src) >= 0.0
  {
    if src != [] {
      NormNonNegative(src[1..]);
      var a := Square(src[0].x);
      var b := Square(src[0].y);
    }
  }

  lemma {:induction false} DegenerateProducts(src: seq<Point>, dst: seq<Point>)
    requires |src| == |dst| && Dot(src, src) == 0.0
    ensures Dot(src, dst) == 0.0 && Cross(src, dst) == 0.0
  {
    if src != [] {
      NormNonNegative(src[1..]);
      ZeroSquares(src[0].x, src[0].y, Dot(src[1..], src[1..]));
      DegenerateProducts(src[1..], dst[1..]);
    }
  }

  lemma ZeroSquares(x: real, y: real, rest: real)
    requires rest >= 0.0 && rest + (x * x + y * y) == 0.0
    ensures x == 0.0 && y == 0.0 && rest == 0.0
  {
    var a := Square(x);
    var b := Square(y);
    assert rest + (a + b) == 0.0;
  }

  /** With both lists centred the error is a square sum around the estimate. */
  lemma CompleteSquare(t: Similarity, m: Sums, c: real, s: real)
    requires m.sx == 0.0 && m.sy == 0.0 && m.dx == 0.0 && m.dy == 0.0
    requires m.dot == m.ss * c && m.cross == m.ss * s
    ensures Polynomial(t, m) == Polynomial(Similarity(c, s, 0.0, 0.0), m)
                                + m.ss * ((t.c - c) * (t.c - c) + (t.s - s) * (t.s - s))
                                    + m.n * (t.tx * t.tx + t.ty * t.ty)
  {
    var a := m.ss;
    assert Polynomial(t, m) == (t.c * t.c + t.s * t.s) * a - 2.0 * t.c * (a * c) - 2.0 * t.s * (a * s) + m.dd
                               + m.n * (t.tx * t.tx + t.ty * t.ty);
    assert Polynomial(Similarity(c, s, 0.0, 0.0), m) == (c * c + s * s) * a - 2.0 * c * (a * c) - 2.0 * s * (a * s)
        + m.dd;
    SquareDifference(a, t.c, c);
    SquareDifference(a, t.s, s);
  }

  lemma SquareDifference(a: real, u: real, c: real)
    ensures u * u * a - 2.0 * u * (a * c) == c * c * a - 2.0 * c * (a * c) + a * ((u - c) * (u - c))
  {
    assert (u - c) * (u - c) == u * u - 2.0 * (u * c) + c * c;
    assert a * ((u - c) * (u - c)) == a * (u * u) - 2.0 * (a * (u * c)) + a * (c * c);
    assert u * (a * c) == a * (u * c) && c * (a * c) == a * (c * c);
  }

  /** How far a transform is from the estimate, measured by the spread of the source points. */
  function Excess(t: Similarity, src: seq<Point>, dst: seq<Point>): real
    requires |src| == |dst| && src != []
  {
    var e := Estimate(src, dst);
    var r := Recentred(t, Mean(src), Mean(dst));
    var spread := Dot(Centred(src, Mean(src)), Centred(src, Mean(src)));
    spread * ((t.c - e.c) * (t.c - e.c) + (t.s - e.s) * (t.s - e.s)) + |src| as real * (r.tx * r.tx + r.ty * r.ty)
  }

  lemma QuotientTimes(a: real, b: real, denom: real, q: real)
    requires denom == if a == 0.0 then 1.0 else a
    requires a == 0.0 ==> b == 0.0
    requires q == b / denom
    ensures b == a * q
  {
    if a == 0.0 {
      assert q == 0.0;
    }
  }

  lemma SpreadOrOne(sd: seq<Point>)
    ensures Denominator(sd) == if Dot(sd, sd) == 0.0 then 1.0 else Dot(sd, sd)
  {
  }

  lemma DegenerateSpread(sd: seq<Point>, dd: seq<Point>)
    requires |sd| == |dd|
    ensures Dot(sd, sd) == 0.0 ==> Dot(sd, dd) == 0.0 && Cross(sd, dd) == 0.0
  {
    if Dot(sd, sd) == 0.0 {
      DegenerateProducts(sd, dd);
    }
  }

  /** Over lists already centred, the quotients times the spread are the products again. */
  lemma CentredProducts(sd: seq<Point>, dd: seq<Point>, c: real, s: real)
    requires |sd| == |dd| && c == Dot(sd, dd) / Denominator(sd) && s == Cross(sd, dd) / Denominator(sd)
    ensures Dot(sd, dd) == Dot(sd, sd) * c && Cross(sd, dd) == Dot(sd, sd) * s
  {
    hide Dot, Cross, Denominator;
    SpreadOrOne(sd);
    DegenerateSpread(sd, dd);
    QuotientTimes(Dot(sd, sd), Dot(sd, dd), Denominator(sd), c);
    QuotientTimes(Dot(sd, sd), Cross(sd, dd), Denominator(sd), s);
  }

  lemma EstimateQuotients(src: seq<Point>, dst: seq<Point>)
    requires |src| == |dst| && src != []
    ensures var sd, dd := Centred(src, Mean(src)), Centred(dst, Mean(dst));
            && Estimate(src, dst).c == Dot(sd, dd) / Denominator(sd)
            && Estimate(src, dst).s == Cross(sd, dd) / Denominator(sd)
  {
    hide Dot, Cross, Mean, Centred, Denominator, Rotate;
  }

  lemma EstimateProducts(src: seq<Point>, dst: seq<Point>)
    requires |src| == |dst| && src != []
    ensures var sd, dd := Centred(src, Mean(src)), Centred(dst, Mean(dst));
            Dot(sd, dd) == Dot(sd, sd) * Estimate(src, dst).c && Cross(sd, dd) == Dot(sd, sd) * Estimate(src, dst).s
  {
    hide Dot, Cross, Mean, Centred, Denominator, Estimate;
    var sd, dd := Centred(src, Mean(src)), Centred(dst, Mean(dst));
    EstimateQuotients(src, dst);
    CentredProducts(sd, dd, Estimate(src, dst).c, Estimate(src, dst).s);
  }

  lemma EstimateTranslation(src: seq<Point>, dst: seq<Point>)
    requires |src| == |dst| && src != []
    ensures CentroidToCentroid(Estimate(src, dst), Mean(src), Mean(dst))
    ensures var e := Estimate(src, dst);
            Recentred(e, Mean(src), Mean(dst)) == Similarity(e.c, e.s, 0.0, 0.0)
  {
    hide Dot, Cross, Mean, Centred, Denominator, Rotate;
  }

  /** The transform takes the source centroid to the target centroid. */
  predicate CentroidToCentroid(e: Similarity, sc: Point, dc: Point) {
    Apply(e, sc) == dc
  }

  /** The error of any similarity exceeds that of the estimate by a sum of squares: the program's
      transform is a least-squares optimum, for any number of landmarks, degenerate ones included. */
  lemma EstimateIsLeastSquares(t: Similarity, src: seq<Point>, dst: seq<Point>)
    requires |src| == |dst| && src != []
    ensures Error(t, src, dst) == Error(Estimate(src, dst), src, dst) + Excess(t, src, dst)
    ensures Error(t, src, dst) >= Error(Estimate(src, dst), src, dst)
  {
    hide Polynomial, Error, Dot, Cross, SumX, SumY, Mean, Centred, Estimate;
    var e := Estimate(src, dst);
    var sc, dc := Mean(src), Mean(dst);
    var sd, dd := Centred(src, sc), Centred(dst, dc);
    CentredAtMean(src);
    CentredAtMean(dst);
    EstimateProducts(src, dst);
    EstimateTranslation(src, dst);
    ErrorRecentred(t, src, dst, sc, dc);
    ErrorRecentred(e, src, dst, sc, dc);
    ErrorIsPolynomial(Recentred(t, sc, dc), sd, dd);
    ErrorIsPolynomial(Recentred(e, sc, dc), sd, dd);
    CompleteSquare(Recentred(t, sc, dc), SumsOf(sd, dd), e.c, e.s);
    ExcessIsNonNegative(t, src, dst);
  }

  lemma ExcessIsNonNegative(t: Similarity, src: seq<Point>, dst: seq<Point>)
    requires |src| == |dst| && src != []
    ensures Excess(t, src, dst) >= 0.0
  {
    hide Dot, Mean, Centred, Estimate, Recentred;
    var e, r := Estimate(src, dst), Recentred(t, Mean(src), Mean(dst));
    var sd := Centred(src, Mean(src));
    NormNonNegative(sd);
    ExcessNonNegative(Dot(sd, sd), t.c - e.c, t.s - e.s, |src| as real, r.tx, r.ty);
    assert r.c == t.c && r.s == t.s by {
      RecentredKeepsRotation(t, Mean(src), Mean(dst));
    }
  }

  lemma RecentredKeepsRotation(t: Similarity, sc: Point, dc: Point)
    ensures Recentred(t, sc, dc).c == t.c && Recentred(t, sc, dc).s == t.s
  {
  }

  lemma ExcessNonNegative(a: real, u: real, v: real, n: real, x: real, y: real)
    requires a >= 0.0 && n >= 0.0
    ensures a * (u * u + v * v) + n * (x * x + y * y) >= 0.0
  {
    var uu := Square(u);
    var vv := Square(v);
    var xx := Square(x);
    var yy := Square(y);
    NonNegativeProduct(a, u * u + v * v);
    NonNegativeProduct(n, x * x + y * y);
  }

  // ---------------------------------------------------------------- the sampling map

  function Unrotate(c: real, s: real, d: Point): Point
    requires c * c + s * s != 0.0
  {
    var scale2 := c * c + s * s;
    Point((c * d.x + s * d.y) / scale2, (-s * d.x + c * d.y) / scale2)
  }

  /** The source point the program samples for a template pixel. */
  function SourceOf(e: Similarity, sc: Point, dc: Point, q: Point): Point
    requires e.c * e.c + e.s * e.s != 0.0
  {
    var u := Unrotate(e.c, e.s, Shift(q, dc));
    Point(u.x + sc.x, u.y + sc.y)
  }

  lemma Cancel(k: real, a: real, b: real)
    requires k != 0.0 && k * a == k * b
    ensures a == b
  {
  }

  lemma QuotientIs(n: real, k: real, a: real)
    requires k != 0.0 && k * a == n
    ensures n / k == a
  {
  }

  lemma RotateBack(c: real, s: real, d: Point)
    requires c * c + s * s != 0.0
    ensures Rotate(c, s, Unrotate(c, s, d)) == d
  {
    var k := c * c + s * s;
    var n, m := c * d.x + s * d.y, -s * d.x + c * d.y;
    var u := Unrotate(c, s, d);
    assert k * u.x == n && k * u.y == m;
    RotatedQuotient(c, s, k, u.x, u.y, n, m);
    assert c * n - s * m == k * d.x && s * n + c * m == k * d.y;
    Cancel(k, Rotate(c, s, u).x, d.x);
    Cancel(k, Rotate(c, s, u).y, d.y);
  }

  lemma RotatedQuotient(c: real, s: real, k: real, x: real, y: real, n: real, m: real)
    requires k * x == n && k * y == m
    ensures k * (c * x - s * y) == c * n - s * m
    ensures k * (s * x + c * y) == s * n + c * m
  {
    assert k * (c * x - s * y) == c * (k * x) - s * (k * y);
    assert k * (s * x + c * y) == s * (k * x) + c * (k * y);
  }

  lemma RotateForth(c: real, s: real, p: Point)
    requires c * c + s * s != 0.0
    ensures Unrotate(c, s, Rotate(c, s, p)) == p
  {
    var k := c * c + s * s;
    var d := Rotate(c, s, p);
    ForthIdentity(c, s, p.x, p.y, d.x, d.y);
    QuotientIs(c * d.x + s * d.y, k, p.x);
    QuotientIs(-s * d.x + c * d.y, k, p.y);
  }

  lemma ForthIdentity(c: real, s: real, x: real, y: real, dx: real, dy: real)
    requires dx == c * x - s * y && dy == s * x + c * y
    ensures c * dx + s * dy == (c * c + s * s) * x && -s * dx + c * dy == (c * c + s * s) * y
  {
    assert c * (c * x - s * y) + s * (s * x + c * y) == (c * c + s * s) * x;
    assert -s * (c * x - s * y) + c * (s * x + c * y) == (c * c + s * s) * y;
  }

  lemma InverseAbout(e: Similarity, sc: Point, dc: Point, p: Point, q: Point)
    requires CentroidToCentroid(e, sc, dc) && e.c * e.c + e.s * e.s != 0.0
    ensures Apply(e, SourceOf(e, sc, dc, q)) == q && SourceOf(e, sc, dc, Apply(e, p)) == p
  {
    hide Rotate, Unrotate;
    var r := SourceOf(e, sc, dc, q);
    RotateBack(e.c, e.s, Shift(q, dc));
    assert Shift(r, sc) == Unrotate(e.c, e.s, Shift(q, dc));
    RotateShift(e.c, e.s, r, sc);
    RotateShift(e.c, e.s, p, sc);
    assert Shift(Apply(e, p), dc) == Rotate(e.c, e.s, Shift(p, sc));
    RotateForth(e.c, e.s, Shift(p, sc));
  }

  /** The estimated transform does not collapse the plane. */
  predicate Scales(e: Similarity) {
    e.c * e.c + e.s * e.s != 0.0
  }

  /** Whenever the estimated scale is not zero, sampling inverts the estimated transform on both sides. */
  lemma SamplingInverts(src: seq<Point>, dst: seq<Point>, p: Point, q: Point)
    requires |src| == |dst| && src != [] && Scales(Estimate(src, dst))
    ensures Apply(Estimate(src, dst), SourceOf(Estimate(src, dst), Mean(src), Mean(dst), q)) == q
    ensures SourceOf(Estimate(src, dst), Mean(src), Mean(dst), Apply(Estimate(src, dst), p)) == p
  {
    hide Estimate, Mean, Apply, SourceOf;
    EstimateTranslation(src, dst);
    InverseAbout(Estimate(src, dst), Mean(src), Mean(dst), p, q);
  }
}
