/** Decoding of YOLO-style detector output in either of its two layouts. */
module Decoding {
  import opened Boxes
  import opened Suppression
  import TrackIds
  import Tracking

  /** A two-dimensional array with its shape. */
  datatype Tensor = Tensor(rows: nat, cols: nat, cells: seq<seq<real>>)

  predicate WellShaped(m: Tensor) {
    |m.cells| == m.rows && forall i :: 0 <= i < m.rows ==> |m.cells[i]| == m.cols
  }

  function Column(m: Tensor, j: nat): (r: seq<real>)
    requires WellShaped(m) && j < m.cols
    ensures |r| == m.rows && forall i :: 0 <= i < m.rows ==> r[i] == m.cells[i][j]
  {
    seq(m.rows, i requires 0 <= i < m.rows => m.cells[i][j])
  }

  function Columns(m: Tensor): (r: seq<seq<real>>)
    requires WellShaped(m)
    ensures |r| == m.cols && forall j :: 0 <= j < m.cols ==> r[j] == Column(m, j)
  {
    seq(m.cols, j requires 0 <= j < m.cols => Column(m, j))
  }

  function Transpose(m: Tensor): (t: Tensor)
    requires WellShaped(m)
    ensures WellShaped(t)
  {
    Tensor(m.cols, m.rows, Columns(m))
  }

  /** Layout detection by shape: which axis holds the anchors. */
  predicate AnchorsInColumns(rows: nat, cols: nat) {
    if cols < 6 then true
    else if rows < 6 then false
    else cols > rows
  }

  datatype Params = Params(labels: seq<string>, confThr: real, iouThr: real, inW: real, inH: real, frameW: real,
                           frameH: real)

  predicate ProperSizes(p: Params) {
    p.inW != 0.0 && p.inH != 0.0 && p.frameW != 0.0 && p.frameH != 0.0
  }

  /** Index of the first largest entry. */
  function ArgMax(v: seq<real>): (k: nat)
    requires v != []
    ensures k < |v|
    ensures forall i :: 0 <= i < |v| ==> v[i] <= v[k]
    ensures forall i :: 0 <= i < k ==> v[i] < v[k]
  {
    if |v| == 1 then 0
    else
      var n := |v| - 1;
      var k := ArgMax(v[..n]);
      if v[n] > v[k] then n else k
  }

  function AnchorBox(a: seq<real>, p: Params): Box
    requires |a| >= 4 && ProperSizes(p)
  {
    var sx, sy := p.frameW / p.inW, p.frameH / p.inH;
    Box((a[0] - a[2] / 2.0) * sx / p.frameW, (a[1] - a[3] / 2.0) * sy / p.frameH,
        a[2] * sx / p.frameW, a[3] * sy / p.frameH)
  }

  datatype Decoded = Decoded(boxes: seq<Box>, scores: seq<real>, classes: seq<nat>)

  predicate Anchors(as_: seq<seq<real>>) {
    forall i :: 0 <= i < |as_| ==> |as_[i]| >= 5
  }

  /** The boxes, scores and classes of the anchors whose best class reaches the threshold. */
  function DecodeAnchors(anchors: seq<seq<real>>, p: Params): (d: Decoded)
    requires Anchors(anchors) && ProperSizes(p)
    ensures |d.boxes| == |d.scores| == |d.classes|
    ensures forall i :: 0 <= i < |d.scores| ==> d.scores[i] >= p.confThr
  {
    if anchors == [] then Decoded([], [], [])
    else
      var n := |anchors| - 1;
      var d := DecodeAnchors(anchors[..n], p);
      var a := anchors[n];
      var k := ArgMax(a[4..]);
      if a[4 + k] < p.confThr then d
      else Decoded(d.boxes + [AnchorBox(a, p)], d.scores + [a[4 + k]], d.classes + [k])
  }

  /** The best class of every column. */
  function BestClasses(m: Tensor): (best: seq<nat>)
    requires WellShaped(m) && m.rows >= 5
    ensures |best| == m.cols
    ensures forall j :: 0 <= j < m.cols ==> best[j] == ArgMax(Column(m, j)[4..])
  {
    seq(m.cols, j requires 0 <= j < m.cols => ArgMax(Column(m, j)[4..]))
  }

  /** Anchors in columns: the best class of every column is found first, then the kept ones decoded. */
  method DecodeColumns(m: Tensor, p: Params) returns (d: Decoded)
    requires WellShaped(m) && m.rows >= 5 && ProperSizes(p)
    ensures d == DecodeAnchors(Columns(m), p)
  {
    hide AnchorBox, ArgMax, Columns;
    var best := BestClasses(m);
    ghost var anchors := Columns(m);
    d := Decoded([], [], []);
    for j := 0 to m.cols
      invariant d == DecodeAnchors(anchors[..j], p)
    {
      assert anchors[..j + 1][..j] == anchors[..j];
      var a := Column(m, j);
      assert anchors[j] == a;
      var conf := a[4 + best[j]];
      if conf >= p.confThr {
        d := Decoded(d.boxes + [AnchorBox(a, p)], d.scores + [conf], d.classes + [best[j]]);
      }
    }
    assert anchors[..m.cols] == anchors;
  }

  /** Anchors in rows. */
  method DecodeRows(m: Tensor, p: Params) returns (d: Decoded)
    requires WellShaped(m) && m.cols >= 5 && ProperSizes(p)
    ensures d == DecodeAnchors(m.cells, p)
  {
    d := Decoded([], [], []);
    for row := 0 to m.rows
      invariant d == DecodeAnchors(m.cells[..row], p)
    {
      assert m.cells[..row + 1][..row] == m.cells[..row];
      var a := m.cells[row];
      var k := ArgMax(a[4..]);
      if a[4 + k] < p.confThr {
        continue;
      }
      d := Decoded(d.boxes + [AnchorBox(a, p)], d.scores + [a[4 + k]], d.classes + [k]);
    }
    assert m.cells[..m.rows] == m.cells;
  }

  function ClassName(labels: seq<string>, k: nat): string {
    if k < |labels| then labels[k] else "class_" + TrackIds.Decimal(k)
  }

  function Detections(d: Decoded, keep: seq<nat>, labels: seq<string>): (r: seq<Tracking.Detection>)
    requires |d.boxes| == |d.scores| == |d.classes| && forall i :: 0 <= i < |keep| ==> keep[i] < |d.boxes|
    ensures |r| == |keep|
    ensures forall i :: 0 <= i < |r| ==>
              r[i] == Tracking.Detection(ClassName(labels, d.classes[keep[i]]), d.scores[keep[i]], d.boxes[keep[i]])
  {
    seq(|keep|, i requires 0 <= i < |keep| =>
      Tracking.Detection(ClassName(labels, d.classes[keep[i]]), d.scores[keep[i]], d.boxes[keep[i]]))
  }

  function Survivors(d: Decoded, p: Params): (keep: seq<nat>)
    requires |d.boxes| == |d.scores|
    ensures forall i :: 0 <= i < |keep| ==> keep[i] < |d.boxes|
  {
    KeptIndices(d.boxes, d.scores, p.iouThr);
    Indices(Kept(d.boxes, d.scores, p.iouThr))
  }

  /** Detections, or the exception raised when there is no class score to look at. */
  datatype Result = Raised | Found(detections: seq<Tracking.Detection>)

  /** The anchors of a tensor in whichever layout its shape suggests; none when it has no class scores. */
  function AnchorsOf(m: Tensor): seq<seq<real>>
    requires WellShaped(m)
  {
    if AnchorsInColumns(m.rows, m.cols) then Columns(m) else m.cells
  }

  function Postprocess(m: Tensor, p: Params): Result
    requires WellShaped(m) && ProperSizes(p)
  {
    if AnchorsInColumns(m.rows, m.cols) && m.rows < 5 then Raised
    else
      var d := DecodeAnchors(AnchorsOf(m), p);
      Found(Detections(d, Survivors(d, p), p.labels))
  }

  method PostprocessYolo(m: Tensor, p: Params) returns (r: Result)
    requires WellShaped(m) && ProperSizes(p)
    ensures r == Postprocess(m, p)
  {
    var d: Decoded;
    if AnchorsInColumns(m.rows, m.cols) {
      if m.rows < 5 {
        return Raised;
      }
      d := DecodeColumns(m, p);
    } else {
      d := DecodeRows(m, p);
    }
    var keep := Nms(d.boxes, d.scores, p.iouThr);
    r := Found(Detections(d, keep, p.labels));
  }

  // ---------------------------------------------------------------- both layouts decode alike

  /** Transposing flips the detected layout exactly when the shape is not square and one side is at
      least 6. */
  lemma LayoutFlips(rows: nat, cols: nat)
    ensures AnchorsInColumns(rows, cols) != AnchorsInColumns(cols, rows) <==> rows != cols && (rows >= 6 || cols >= 6)
  {
  }

  lemma ColumnsOfTranspose(m: Tensor)
    requires WellShaped(m)
    ensures Columns(Transpose(m)) == m.cells
  {
    forall i | 0 <= i < m.rows ensures Columns(Transpose(m))[i] == m.cells[i] {
      assert Column(Transpose(m), i) == m.cells[i];
    }
  }

  /** A tensor and its transpose give the same detections whenever the shape tells the layouts apart. */
  lemma TransposeInvariant(m: Tensor, p: Params)
    requires WellShaped(m) && ProperSizes(p)
    requires m.rows != m.cols && (m.rows >= 6 || m.cols >= 6)
    ensures Postprocess(m, p) == Postprocess(Transpose(m), p) && Postprocess(m, p).Found?
  {
    LayoutFlips(m.rows, m.cols);
    ColumnsOfTranspose(m);
  }

  /** Every detection reaches the confidence threshold; they come in descending confidence and no
      two overlap by more than the threshold. */
  lemma DetectionsAreClear(m: Tensor, p: Params, i: nat, j: nat)
    requires WellShaped(m) && ProperSizes(p) && Postprocess(m, p).Found?
    requires i < j < |Postprocess(m, p).detections|
    ensures var ds := Postprocess(m, p).detections;
            && ds[i].confidence >= ds[j].confidence >= p.confThr
            && Iou(ds[i].bbox, ds[j].bbox) <= p.iouThr
  {
    var d := DecodeAnchors(AnchorsOf(m), p);
    KeptIsSuppressed(d.boxes, d.scores, p.iouThr);
  }

  /** The frame size cancels: a box is the anchor's box in units of the model input. */
  lemma FrameSizeCancels(a: seq<real>, p: Params)
    requires |a| >= 4 && ProperSizes(p)
    ensures AnchorBox(a, p)
         == Box((a[0] - a[2] / 2.0) / p.inW, (a[1] - a[3] / 2.0) / p.inH, a[2] / p.inW, a[3] / p.inH)
  {
    Cancels(a[0] - a[2] / 2.0, p.frameW, p.inW);
    Cancels(a[1] - a[3] / 2.0, p.frameH, p.inH);
    Cancels(a[2], p.frameW, p.inW);
    Cancels(a[3], p.frameH, p.inH);
  }

  lemma Cancels(v: real, f: real, n: real)
    requires f != 0.0 && n != 0.0
    ensures v * (f / n) / f == v / n
  {
    var q := f / n;
    assert q * n == f;
    var r := v * q / f;
    assert r * f == v * q;
    assert (r * n) * f == v * (q * n) == v * f;
    assert r * n == v;
  }
}
