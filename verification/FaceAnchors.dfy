/** What the decoded faces are: one face per anchor above the threshold, measured from the middle of
    the anchor's cell, with sides and landmarks in units of the stride. */
module FaceAnchors {
  import opened Boxes
  import opened Options
  import opened Overlaps
  import opened Selections
  import opened Suppression
  import opened FaceDecoding

  /** The square of side `stride` in column `gx` and row `gy` of the grid. */
  function CellBox(gx: nat, gy: nat, stride: nat): Box {
    Box((gx * stride) as real, (gy * stride) as real, stride as real, stride as real)
  }

  /** On the strides of the detector an anchor stands in the middle of its cell. */
  lemma AnchorIsMidpoint(c: Cell, stride: nat)
    requires stride in STRIDES
    ensures IsMidpoint(Anchor(c, stride), CellBox(c.gx, c.gy, stride))
  {
    assert stride % 2 == 0 && (stride / 2) as real == stride as real / 2.0;
  }

  /** The cell in which anchor `i` stands: cells are numbered row by row, two anchors each. */
  ghost predicate StandsIn(i: nat, grid: nat, gx: nat, gy: nat) {
    gx < grid && i / 2 == gy * grid + gx
  }

  /** Each side of the box lies its distance, times the stride, away from the point. */
  ghost predicate SidesFrom(c: Point, d: Ltrb, s: real, b: Box) {
    && c.x - b.x == d.left * s && c.y - b.y == d.top * s
    && b.x + b.w - c.x == d.right * s && b.y + b.h - c.y == d.bottom * s
  }

  /** Each landmark lies its offset, times the stride, away from the point. */
  ghost predicate MarksFrom(c: Point, offsets: seq<Point>, s: real, marks: seq<Point>) {
    && |marks| == |offsets|
    && forall k :: 0 <= k < |offsets| ==> marks[k].x - c.x == offsets[k].x * s && marks[k].y - c.y == offsets[k].y * s
  }

  /** Face `f` is what anchor `i` says. */
  ghost predicate Says(v: Level, i: nat, stride: nat, f: Face)
    requires Shaped(v) && i < |v.scores|
  {
    && f.score == v.scores[i]
    && exists gx: nat, gy: nat, c: Point ::
         && StandsIn(i, Grid(|v.scores|), gx, gy)
         && IsMidpoint(c, CellBox(gx, gy, stride))
         && SidesFrom(c, v.boxes[i], stride as real, f.box)
         && MarksFrom(c, if v.landmarks.Some? then v.landmarks.value[i] else [], stride as real, f.landmarks)
  }

  lemma FaceSays(v: Level, i: nat, stride: nat)
    requires Shaped(v) && i < |v.scores| && Grid(|v.scores|) > 0 && stride in STRIDES
    ensures Says(v, i, stride, FaceAt(v, i, stride))
  {
    var cell := CellOf(i, Grid(|v.scores|));
    var c, f := Anchor(cell, stride), FaceAt(v, i, stride);
    CellHolds(i, Grid(|v.scores|));
    AnchorIsMidpoint(cell, stride);
    assert StandsIn(i, Grid(|v.scores|), cell.gx, cell.gy);
    assert SidesFrom(c, v.boxes[i], stride as real, f.box);
    MarksAround(c, if v.landmarks.Some? then v.landmarks.value[i] else [], stride);
  }

  lemma MarksAround(c: Point, offsets: seq<Point>, stride: nat)
    ensures MarksFrom(c, offsets, stride as real, LandmarksAround(c, offsets, stride))
    ensures offsets == [] ==> MarksFrom(c, offsets, stride as real, [])
  {
  }

  /** The anchors whose score exceeds the threshold. */
  function Above(scores: seq<real>, conf: real): nat -> bool {
    (i: nat) => i < |scores| && scores[i] > conf
  }

  /** One face per selected anchor, in the order of the anchors. */
  lemma {:induction false} FacesOfSelected(v: Level, n: nat, stride: nat, conf: real, at: seq<nat>)
    requires Shaped(v) && n <= |v.scores| && Grid(|v.scores|) > 0 && stride in STRIDES
    requires Selects(at, n, Above(v.scores, conf))
    ensures var faces := LevelFaces(v, n, stride, conf);
            |faces| == |at| && forall j :: 0 <= j < |at| ==> at[j] < |v.scores| && Says(v, at[j], stride, faces[j])
  {
    hide Grid, Says, Selects, FaceAt;
    if n == 0 {
      SelectionBelow(at, n, Above(v.scores, conf));
    } else {
      SelectionSplit(at, n, Above(v.scores, conf));
      FacesOfSelected(v, n - 1, stride, conf, if v.scores[n - 1] > conf then at[..|at| - 1] else at);
      FaceSays(v, n - 1, stride);
    }
  }

  // ---------------------------------------------------------------- all strides

  /** Anchor `i` of the level exceeds the threshold and says what face `f` is. */
  ghost predicate Tells(v: Level, i: nat, stride: nat, conf: real, f: Face)
    requires Shaped(v)
  {
    i < |v.scores| && v.scores[i] > conf && Says(v, i, stride, f)
  }

  ghost predicate Decodable(levels: seq<Level>, conf: real) {
    |levels| == |STRIDES| && forall k :: 0 <= k < |levels| ==> Shaped(levels[k]) && !Gridless(levels[k], conf)
  }

  lemma {:induction false} LevelTells(v: Level, stride: nat, conf: real)
    requires Shaped(v) && !Gridless(v, conf) && stride in STRIDES
    ensures forall f :: f in FacesOf(v, stride, conf) ==> exists i: nat :: Tells(v, i, stride, conf, f)
    ensures forall i: nat :: i < |v.scores| && v.scores[i] > conf ==>
              exists f :: f in FacesOf(v, stride, conf) && Tells(v, i, stride, conf, f)
  {
    if Confident(v, conf) {
      var n := |v.scores|;
      var at := SomeSelection(n, Above(v.scores, conf));
      FacesOfSelected(v, n, stride, conf, at);
      hide Says, Grid, LevelFaces;
      var faces := LevelFaces(v, n, stride, conf);
      forall f | f in faces ensures exists i: nat :: Tells(v, i, stride, conf, f) {
        var j :| 0 <= j < |faces| && faces[j] == f;
        assert at[j] in at;
        assert Tells(v, at[j], stride, conf, f);
      }
      forall i: nat | i < n && v.scores[i] > conf ensures exists f :: f in faces && Tells(v, i, stride, conf, f) {
        assert i in at;
        var j :| 0 <= j < |at| && at[j] == i;
        assert faces[j] in faces && Tells(v, i, stride, conf, faces[j]);
      }
    }
  }

  /** Every candidate of a frame is what some confident anchor of the three outputs says, each output read
      with its own stride. */
  lemma {:induction false} CandidateTells(levels: seq<Level>, n: nat, conf: real, f: Face)
    returns (k: nat, i: nat)
    requires Decodable(levels, conf) && n <= |levels| && f in AllFaces(levels, n, conf)
    ensures k < n && Tells(levels[k], i, STRIDES[k], conf, f)
  {
    LevelTells(levels[n - 1], STRIDES[n - 1], conf);
    hide Tells, FacesOf, Gridless;
    if f in FacesOf(levels[n - 1], STRIDES[n - 1], conf) {
      k := n - 1;
      i :| Tells(levels[k], i, STRIDES[k], conf, f);
    } else {
      k, i := CandidateTells(levels, n - 1, conf, f);
    }
  }

  /** And every confident anchor has such a candidate. */
  lemma {:induction false} AnchorTells(levels: seq<Level>, n: nat, conf: real, k: nat, i: nat) returns (f: Face)
    requires Decodable(levels, conf) && k < n <= |levels|
    requires i < |levels[k].scores| && levels[k].scores[i] > conf
    ensures f in AllFaces(levels, n, conf) && Tells(levels[k], i, STRIDES[k], conf, f)
  {
    LevelTells(levels[k], STRIDES[k], conf);
    hide Tells, FacesOf, Gridless, AllFaces;
    f :| f in FacesOf(levels[k], STRIDES[k], conf) && Tells(levels[k], i, STRIDES[k], conf, f);
    FacesAreCandidates(levels, n, conf, k, f);
  }

  lemma {:induction false} FacesAreCandidates(levels: seq<Level>, n: nat, conf: real, k: nat, f: Face)
    requires Decodable(levels, conf) && k < n <= |levels| && f in FacesOf(levels[k], STRIDES[k], conf)
    ensures f in AllFaces(levels, n, conf)
  {
    hide FacesOf, Gridless;
    if k < n - 1 {
      FacesAreCandidates(levels, n - 1, conf, k, f);
    }
  }

  /** For boxes of non-negative size the face detector measures overlap as the object detectors do. */
  lemma FaceIouIsIou(a: Box, b: Box)
    requires Sized(a) && Sized(b)
    ensures FaceIou(a, b) == Iou(a, b)
  {
    hide Intersection;
    SharedBelow(a, b);
    SharedBelow(b, a);
    IntersectionSymmetric(a, b);
  }
}
