/** What the decoded detections are: one per anchor whose best class reaches the threshold, with the
    box centred where the anchor says, in units of the model input. */
module DecodedAnchors {
  import opened Boxes
  import opened Suppression
  import opened Selections
  import opened Decoding
  import Tracking

  // ---------------------------------------------------------------- layouts

  /** With more anchors than rows of values, and at least 6 of those, the anchors are found in either
      layout. */
  lemma EitherLayoutIsRead(m: Tensor)
    requires WellShaped(m) && m.rows > m.cols >= 6
    ensures AnchorsOf(m) == m.cells && AnchorsOf(Transpose(m)) == m.cells
  {
    ColumnsOfTranspose(m);
  }

  // ---------------------------------------------------------------- one anchor

  /** Some class score of the anchor reaches the threshold. */
  ghost predicate Reaches(a: seq<real>, thr: real) {
    exists k :: 4 <= k < |a| && a[k] >= thr
  }

  /** The score is the greatest of the class scores and the class the first that has it. */
  ghost predicate BestClass(a: seq<real>, k: nat, score: real) {
    && 4 + k < |a| && a[4 + k] == score
    && (forall i :: 4 <= i < |a| ==> a[i] <= score)
    && (forall i :: 4 <= i < 4 + k ==> a[i] < score)
  }

  /** The box has the anchor's centre and size, divided by the size of the model input. */
  ghost predicate BoxSays(a: seq<real>, p: Params, b: Box)
    requires ProperSizes(p)
  {
    |a| >= 4 && IsMidpoint(Point(a[0] / p.inW, a[1] / p.inH), b) && b.w == a[2] / p.inW && b.h == a[3] / p.inH
  }

  lemma BestOfArgMax(a: seq<real>, thr: real)
    requires |a| >= 5
    ensures var k := ArgMax(a[4..]);
            BestClass(a, k, a[4 + k]) && (a[4 + k] >= thr <==> Reaches(a, thr))
  {
    var k := ArgMax(a[4..]);
    forall i | 4 <= i < |a| ensures a[i] <= a[4 + k] && (i < 4 + k ==> a[i] < a[4 + k]) {
      assert a[i] == a[4..][i - 4];
    }
  }

  lemma HalfOf(c: real, w: real, n: real)
    requires n != 0.0
    ensures (c - w / 2.0) / n + w / n / 2.0 == c / n
  {
    var u, v := c / n, w / n;
    assert u * n == c && v * n == w;
    Quotient(c - w / 2.0, n, u - v / 2.0);
  }

  lemma Quotient(x: real, n: real, q: real)
    requires n != 0.0 && q * n == x
    ensures x / n == q
  {
  }

  lemma AnchorBoxSays(a: seq<real>, p: Params)
    requires |a| >= 4 && ProperSizes(p)
    ensures BoxSays(a, p, AnchorBox(a, p))
  {
    FrameSizeCancels(a, p);
    hide AnchorBox;
    HalfOf(a[0], a[2], p.inW);
    HalfOf(a[1], a[3], p.inH);
  }

  // ---------------------------------------------------------------- all anchors

  /** The anchors with a class score that reaches the threshold. */
  ghost function Confident(anchors: seq<seq<real>>, thr: real): nat -> bool {
    (i: nat) => i < |anchors| && Reaches(anchors[i], thr)
  }

  /** Entry `j` of the decoded lists is what anchor `i` says. */
  ghost predicate Says(a: seq<real>, p: Params, d: Decoded, j: nat)
    requires ProperSizes(p) && |d.boxes| == |d.scores| == |d.classes| && j < |d.boxes|
  {
    BestClass(a, d.classes[j], d.scores[j]) && BoxSays(a, p, d.boxes[j])
  }

  /** One entry per selected anchor, in the order of the anchors. */
  lemma {:induction false} EntriesOfSelected(anchors: seq<seq<real>>, n: nat, p: Params, at: seq<nat>)
    requires Anchors(anchors) && ProperSizes(p) && n <= |anchors|
    requires Selects(at, n, Confident(anchors, p.confThr))
    ensures var d := DecodeAnchors(anchors[..n], p);
            |d.boxes| == |at| && forall j :: 0 <= j < |at| ==> at[j] < |anchors| && Says(anchors[at[j]], p, d, j)
  {
    hide BestClass, BoxSays, Selects, AnchorBox, ArgMax;
    if n == 0 {
      SelectionBelow(at, n, Confident(anchors, p.confThr));
    } else {
      var a := anchors[n - 1];
      SelectionSplit(at, n, Confident(anchors, p.confThr));
      assert anchors[..n][..n - 1] == anchors[..n - 1];
      BestOfArgMax(a, p.confThr);
      AnchorBoxSays(a, p);
      hide Reaches;
      EntriesOfSelected(anchors, n - 1, p, if Reaches(a, p.confThr) then at[..|at| - 1] else at);
    }
  }

  // ---------------------------------------------------------------- what is reported

  /** A decoded entry is reported, or overlaps a reported detection at least as confident. */
  lemma {:induction false} MissingAreOverlapped(m: Tensor, p: Params, i: nat)
    requires WellShaped(m) && ProperSizes(p) && Postprocess(m, p).Found?
    requires i < |DecodeAnchors(AnchorsOf(m), p).boxes|
    ensures var d := DecodeAnchors(AnchorsOf(m), p);
            var ds := Postprocess(m, p).detections;
            exists j :: 0 <= j < |ds| && ds[j].confidence >= d.scores[i]
                        && (ds[j] == Tracking.Detection(ClassName(p.labels, d.classes[i]), d.scores[i], d.boxes[i])
                            || Iou(ds[j].bbox, d.boxes[i]) > p.iouThr)
  {
    var d := DecodeAnchors(AnchorsOf(m), p);
    var keep := Survivors(d, p);
    KeptIsSuppressed(d.boxes, d.scores, p.iouThr);
    hide DecodeAnchors, Kept, Iou, AnchorsInColumns, AnchorsOf;
    var ds := Detections(d, keep, p.labels);
    if i in keep {
      var j :| 0 <= j < |keep| && keep[j] == i;
      assert ds[j].confidence >= d.scores[i];
    } else {
      assert OutscoredBy(d.boxes, d.scores, p.iouThr, keep, i);
      var k :| 0 <= k < |keep| && d.scores[keep[k]] >= d.scores[i] && Iou(d.boxes[keep[k]], d.boxes[i]) > p.iouThr;
      assert ds[k].confidence >= d.scores[i];
    }
  }
}
