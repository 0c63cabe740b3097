/** Decoding of the face detector's raw output: two anchors per cell of a square grid, one grid per
    stride, then suppression. */
module FaceDecoding {
  import opened Boxes
  import opened Options
  import opened StableSort
  import opened Suppression

  const STRIDES := [8, 16, 32]

  /** Distances from the anchor's centre to the four sides, in strides. */
  datatype Ltrb = Ltrb(left: real, top: real, right: real, bottom: real)

  /** The output for one stride: a score, a box and, for models that have them, landmarks per anchor. */
  datatype Level = Level(scores: seq<real>, boxes: seq<Ltrb>, landmarks: Option<seq<seq<Point>>>)

  predicate Shaped(v: Level) {
    |v.boxes| == |v.scores| && (v.landmarks.Some? ==> |v.landmarks.value| == |v.scores|)
  }

  function Squared(g: nat): nat {
    g * g
  }

  /** The side of the grid, from the number of anchors: the integer part of the root of n / 2. */
  function Grid(n: nat): (g: nat)
    ensures 2 * Squared(g) <= n < 2 * Squared(g + 1)
    ensures g == 0 <==> n < 2
  {
    if n == 0 then 0
    else
      var g := Grid(n - 1);
      SquareGrows(g + 1, g + 2);
      if 2 * Squared(g + 1) <= n then g + 1 else g
  }

  lemma AtLeast(x: nat, d: nat)
    requires x >= 1
    ensures x * d >= d
  {
  }

  lemma Distribute(x: nat, y: nat, d: nat)
    ensures (x + y) * d == x * d + y * d
  {
  }

  lemma SquareGrows(a: nat, b: nat)
    requires a < b
    ensures Squared(a) < Squared(b)
  {
    Distribute(a, b - a, b);
    Distribute(a, b - a, a);
    AtLeast(b - a, b);
  }

  datatype Cell = Cell(gx: nat, gy: nat)

  function CellOf(i: nat, grid: nat): Cell
    requires grid > 0
  {
    Cell(i / 2 % grid, i / 2 / grid)
  }

  function Anchor(c: Cell, stride: nat): Point {
    Point((c.gx * stride + stride / 2) as real, (c.gy * stride + stride / 2) as real)
  }

  function BoxAround(a: Point, d: Ltrb, stride: nat): Box {
    var x1, y1 := a.x - d.left * stride as real, a.y - d.top * stride as real;
    var x2, y2 := a.x + d.right * stride as real, a.y + d.bottom * stride as real;
    Box(x1, y1, x2 - x1, y2 - y1)
  }

  function LandmarksAround(a: Point, ps: seq<Point>, stride: nat): (r: seq<Point>)
    ensures |r| == |ps|
  {
    seq(|ps|, i requires 0 <= i < |ps| => Point(ps[i].x * stride as real + a.x, ps[i].y * stride as real + a.y))
  }

  function FaceAt(v: Level, i: nat, stride: nat): Face
    requires Shaped(v) && i < |v.scores| && Grid(|v.scores|) > 0
  {
    var a := Anchor(CellOf(i, Grid(|v.scores|)), stride);
    Face(BoxAround(a, v.boxes[i], stride), v.scores[i],
         if v.landmarks.Some? then LandmarksAround(a, v.landmarks.value[i], stride) else [])
  }

  /** The faces of the first `n` anchors whose score exceeds the threshold. */
  function LevelFaces(v: Level, n: nat, stride: nat, conf: real): seq<Face>
    requires Shaped(v) && n <= |v.scores| && Grid(|v.scores|) > 0
  {
    if n == 0 then []
    else LevelFaces(v, n - 1, stride, conf) + if v.scores[n - 1] > conf then [FaceAt(v, n - 1, stride)] else []
  }

  predicate Confident(v: Level, conf: real) {
    exists i :: 0 <= i < |v.scores| && v.scores[i] > conf
  }

  /** A confident anchor without a grid to stand in: the division by the grid's side raises. */
  predicate Gridless(v: Level, conf: real) {
    Confident(v, conf) && Grid(|v.scores|) == 0
  }

  function FacesOf(v: Level, stride: nat, conf: real): seq<Face>
    requires Shaped(v) && !Gridless(v, conf)
  {
    if Confident(v, conf) then LevelFaces(v, |v.scores|, stride, conf) else []
  }

  /** The faces of the first `n` strides. */
  function AllFaces(levels: seq<Level>, n: nat, conf: real): seq<Face>
    requires n <= |levels| == |STRIDES|
    requires forall k :: 0 <= k < n ==> Shaped(levels[k]) && !Gridless(levels[k], conf)
  {
    if n == 0 then [] else AllFaces(levels, n - 1, conf) + FacesOf(levels[n - 1], STRIDES[n - 1], conf)
  }

  datatype Result = Raised | Faces(faces: seq<Face>)

  method DecodeLevel(v: Level, stride: nat, conf: real) returns (faces: seq<Face>)
    requires Shaped(v) && |v.scores| >= 2
    ensures faces == LevelFaces(v, |v.scores|, stride, conf)
  {
    faces := [];
    for i := 0 to |v.scores|
      invariant faces == LevelFaces(v, i, stride, conf)
    {
      if v.scores[i] > conf {
        faces := faces + [FaceAt(v, i, stride)];
      }
    }
  }

  method Decode(levels: seq<Level>, conf: real) returns (r: Result)
    requires |levels| == |STRIDES| && forall k :: 0 <= k < |levels| ==> Shaped(levels[k])
    ensures r.Raised? <==> exists k :: 0 <= k < |levels| && Gridless(levels[k], conf)
    ensures r.Faces? ==> Decoded(AllFaces(levels, |levels|, conf), r.faces)
  {
    hide Decoded, Eliminate, Sort, LevelFaces, Grid;
    var faces: seq<Face> := [];
    for si := 0 to |STRIDES|
      invariant forall k :: 0 <= k < si ==> !Gridless(levels[k], conf)
      invariant faces == AllFaces(levels, si, conf)
    {
      var v := levels[si];
      if !Confident(v, conf) {
        continue;
      }
      if Grid(|v.scores|) == 0 {
        return Raised;
      }
      var found := DecodeLevel(v, STRIDES[si], conf);
      faces := faces + found;
    }
    var kept := SuppressFaces(faces);
    SuppressedAreDecoded(faces);
    r := Faces(kept);
  }

  // ---------------------------------------------------------------- what is returned

  ghost predicate InScoreOrder(kept: seq<Face>) {
    forall i, j :: 0 <= i < j < |kept| ==> kept[i].score >= kept[j].score && FaceIou(kept[i].box, kept[j].box) < NMS_IOU
  }

  /** Face `f` overlaps a kept face that scores at least as high. */
  ghost predicate Outdone(kept: seq<Face>, f: Face) {
    exists k :: k in kept && FaceIou(k.box, f.box) >= NMS_IOU && k.score >= f.score
  }

  /** The list is full of faces that score at least as high as `f`. */
  ghost predicate Crowded(kept: seq<Face>, f: Face) {
    |kept| == TOP_K && forall k :: k in kept ==> k.score >= f.score
  }

  /** Faces in descending score, none overlapping another, at most `TOP_K`; a face is missing only if
      it overlaps a better one or the list is full of better ones. */
  ghost predicate Decoded(all: seq<Face>, kept: seq<Face>) {
    && |kept| <= TOP_K
    && (forall k :: k in kept ==> k in all)
    && InScoreOrder(kept)
    && (forall f :: f in all && f !in kept ==> Outdone(kept, f) || Crowded(kept, f))
  }

  lemma PrefixMember(all: seq<Face>, n: nat, j: nat)
    requires j < |all| && n <= |all|
    ensures j < n ==> all[j] in all[..n]
  {
    if j < n {
      assert all[..n][j] == all[j];
    }
  }

  lemma {:induction false} CutMembers(all: seq<Face>, f: Face)
    requires Ordered(all, ByFaceScore) && |all| > TOP_K && f in all && f !in all[..TOP_K]
    ensures Crowded(all[..TOP_K], f)
  {
    var j :| 0 <= j < |all| && all[j] == f;
    PrefixMember(all, TOP_K, j);
    forall k | k in all[..TOP_K] ensures k.score >= f.score {
      var i :| 0 <= i < TOP_K && all[..TOP_K][i] == k;
      assert ByFaceScore(all[i]) <= ByFaceScore(all[j]);
    }
  }

  lemma {:induction false} KeptInScoreOrder(all: seq<Face>, kept: seq<Face>)
    requires PairwiseClear(all, FaceOverlap()) && Ordered(all, ByFaceScore) && kept <= all
    ensures InScoreOrder(kept)
  {
    hide FaceIou;
    forall i, j | 0 <= i < j < |kept|
      ensures kept[i].score >= kept[j].score && FaceIou(kept[i].box, kept[j].box) < NMS_IOU
    {
      assert kept[i] == all[i] && kept[j] == all[j];
      assert !FaceOverlap()(all[i], all[j]) && ByFaceScore(all[i]) <= ByFaceScore(all[j]);
    }
  }

  function Cut(all: seq<Face>): (kept: seq<Face>)
    ensures kept <= all && |kept| <= TOP_K
  {
    if |all| <= TOP_K then all else all[..TOP_K]
  }

  lemma CutFrom(all: seq<Face>, order: seq<Face>, faces: seq<Face>)
    requires (forall f :: f in all ==> f in order) && forall f :: f in order ==> f in faces
    ensures forall f :: f in Cut(all) ==> f in faces
  {
    forall f | f in Cut(all) ensures f in faces {
      var i :| 0 <= i < |Cut(all)| && Cut(all)[i] == f;
      assert all[i] == f && f in all;
    }
  }

  lemma {:induction false} SuppressedAreDecoded(faces: seq<Face>)
    ensures Decoded(faces, Cut(Eliminate(Sort(faces, ByFaceScore), FaceOverlap())))
  {
    var order := Sort(faces, ByFaceScore);
    var all := Eliminate(order, FaceOverlap());
    SortOrders(faces, ByFaceScore);
    SortMembers(faces, ByFaceScore);
    KeptAreClear(order, FaceOverlap());
    KeptAreOrdered(order, FaceOverlap(), ByFaceScore);
    EliminateMembers(order, FaceOverlap());
    hide Eliminate, Sort, Cut, Ordered, PairwiseClear, InScoreOrder, Outdone, Crowded;
    KeptInScoreOrder(all, Cut(all));
    CutFrom(all, order, faces);
    forall f | f in faces && f !in Cut(all) ensures Outdone(Cut(all), f) || Crowded(Cut(all), f) {
      MissingFace(faces, f);
    }
  }

  lemma {:induction false} MissingFace(faces: seq<Face>, f: Face)
    requires f in faces
    ensures var kept := Cut(Eliminate(Sort(faces, ByFaceScore), FaceOverlap()));
            f in kept || Outdone(kept, f) || Crowded(kept, f)
  {
    var order := Sort(faces, ByFaceScore);
    var all := Eliminate(order, FaceOverlap());
    SortOrders(faces, ByFaceScore);
    SortMembers(faces, ByFaceScore);
    KeptAreOrdered(order, FaceOverlap(), ByFaceScore);
    if f in all {
      if |all| > TOP_K && f !in all[..TOP_K] {
        CutMembers(all, f);
      }
    } else {
      DroppedHaveWitness(order, FaceOverlap(), ByFaceScore, f);
      var k :| k in all && FaceOverlap()(k, f) && ByFaceScore(k) <= ByFaceScore(f);
      if |all| > TOP_K && k !in all[..TOP_K] {
        CutMembers(all, k);
      }
    }
  }

  // ---------------------------------------------------------------- anchors

  /** Decoding raises exactly on an output with one anchor, if that anchor is confident. */
  lemma GridlessWhen(v: Level, conf: real)
    ensures Gridless(v, conf) <==> |v.scores| == 1 && v.scores[0] > conf
  {
  }

  /** A full grid of side `g`, two anchors per cell, is recognised as such. */
  lemma GridOfFull(g: nat)
    ensures Grid(2 * Squared(g)) == g
  {
    var h := Grid(2 * Squared(g));
    if h + 1 < g {
      SquareGrows(h + 1, g);
    } else if g < h {
      SquareGrows(g, h);
    }
  }

  lemma QuotientUnique(q: nat, r: nat, q': nat, r': nat, d: nat)
    requires q * d + r == q' * d + r' && r < d && r' < d
    ensures q == q' && r == r'
  {
    if q < q' {
      Distribute(q, q' - q, d);
      AtLeast(q' - q, d);
    } else if q' < q {
      Distribute(q', q - q', d);
      AtLeast(q - q', d);
    }
  }

  lemma CellHolds(i: nat, g: nat)
    requires g > 0
    ensures CellOf(i, g).gx < g && i / 2 == CellOf(i, g).gy * g + CellOf(i, g).gx
  {
  }

  /** On a full grid the anchors of a cell are the two consecutive indices at its row-major position. */
  lemma AnchorsFillGrid(g: nat, c: Cell, a: nat)
    requires c.gx < g && c.gy < g && a < 2
    ensures var n := 2 * (c.gy * g + c.gx) + a; n < 2 * Squared(g) && CellOf(n, g) == c
  {
    var n := 2 * (c.gy * g + c.gx) + a;
    CellHolds(n, g);
    hide CellOf;
    assert n / 2 == c.gy * g + c.gx;
    QuotientUnique(CellOf(n, g).gy, CellOf(n, g).gx, c.gy, c.gx, g);
    Distribute(c.gy, g - c.gy, g);
    AtLeast(g - c.gy, g);
  }

  lemma SameProduct(x: nat, y: nat, k: nat)
    requires k > 0
    ensures x * k == y * k <==> x == y
  {
    if x * k == y * k {
      QuotientUnique(x, 0, y, 0, k);
    }
  }

  /** Two anchors share a centre exactly when they form one pair. */
  lemma CentresAreDistinct(g: nat, i: nat, j: nat, stride: nat)
    requires g > 0 && stride > 0
    ensures Anchor(CellOf(i, g), stride) == Anchor(CellOf(j, g), stride) <==> i / 2 == j / 2
  {
    CellHolds(i, g);
    CellHolds(j, g);
    var s, t := CellOf(i, g), CellOf(j, g);
    SameProduct(s.gx, t.gx, stride);
    SameProduct(s.gy, t.gy, stride);
  }

  /** The distances a box was decoded from can be read back from it. */
  lemma BoxRoundTrip(a: Point, d: Ltrb, stride: nat)
    requires stride > 0
    ensures var b := BoxAround(a, d, stride);
            var s := stride as real;
            d == Ltrb((a.x - b.x) / s, (a.y - b.y) / s, (b.x + b.w - a.x) / s, (b.y + b.h - a.y) / s)
  {
    var s := stride as real;
    TimesOver(d.left, s);
    TimesOver(d.top, s);
    TimesOver(d.right, s);
    TimesOver(d.bottom, s);
  }

  lemma TimesOver(x: real, s: real)
    requires s != 0.0
    ensures x * s / s == x
  {
  }
}
