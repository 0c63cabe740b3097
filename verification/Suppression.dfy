/** Non-maximum suppression. The object detectors remove, for each accepted box, every later box
    that overlaps it; the face detector instead accepts a box when no accepted box overlaps it, and
    stops after a fixed number. Over one score order and one symmetric overlap test both are the
    same algorithm. */
module Suppression {
  import opened Boxes
  import opened StableSort

  // ---------------------------------------------------------------- the two greedy loops

  /** `s` without the elements that clash with `k`, order kept. */
  function Drop<T>(s: seq<T>, k: T, clash: (T, T) -> bool): (r: seq<T>)
    ensures |r| <= |s|
    ensures forall i :: 0 <= i < |r| ==> r[i] in s && !clash(k, r[i])
    ensures forall i :: 0 <= i < |s| && !clash(k, s[i]) ==> s[i] in r
  {
    if s == [] then []
    else if clash(k, s[0]) then Drop(s[1..], k, clash)
    else [s[0]] + Drop(s[1..], k, clash)
  }

  /** Accept the head, remove what it clashes with, continue. */
  function Eliminate<T>(order: seq<T>, clash: (T, T) -> bool): seq<T>
    decreases |order|
  {
    if order == [] then [] else [order[0]] + Eliminate(Drop(order[1..], order[0], clash), clash)
  }

  predicate Clear<T>(f: T, kept: seq<T>, clash: (T, T) -> bool) {
    forall i :: 0 <= i < |kept| ==> !clash(f, kept[i])
  }

  /** Walk the order once, accepting what clashes with nothing accepted so far. */
  function Accept<T>(order: seq<T>, kept: seq<T>, clash: (T, T) -> bool): seq<T> {
    if order == [] then kept
    else Accept(order[1..], if Clear(order[0], kept, clash) then kept + [order[0]] else kept, clash)
  }

  /** The same walk, stopped as soon as `top` elements are accepted. */
  function AcceptTop<T>(order: seq<T>, kept: seq<T>, top: nat, clash: (T, T) -> bool): seq<T> {
    if order == [] then kept
    else
      var kept' := if Clear(order[0], kept, clash) then kept + [order[0]] else kept;
      if |kept'| >= top then kept' else AcceptTop(order[1..], kept', top, clash)
  }

  ghost predicate Symmetric<T(!new)>(clash: (T, T) -> bool) {
    forall a, b :: clash(a, b) == clash(b, a)
  }

  // ---------------------------------------------------------------- agreement

  /** `s` without whatever clashes with an element of `kept`. */
  ghost function DropAll<T>(s: seq<T>, kept: seq<T>, clash: (T, T) -> bool): seq<T> {
    if s == [] then []
    else if Clear(s[0], kept, clash) then [s[0]] + DropAll(s[1..], kept, clash)
    else DropAll(s[1..], kept, clash)
  }

  lemma {:induction false} DropAllNothing<T>(s: seq<T>, clash: (T, T) -> bool)
    ensures DropAll(s, [], clash) == s
  {
    if s != [] {
      DropAllNothing(s[1..], clash);
      assert s == [s[0]] + s[1..];
    }
  }

  lemma {:induction false} DropAllOneMore<T(!new)>(s: seq<T>, kept: seq<T>, k: T, clash: (T, T) -> bool)
    requires Symmetric(clash)
    ensures DropAll(s, kept + [k], clash) == Drop(DropAll(s, kept, clash), k, clash)
  {
    if s != [] {
      DropAllOneMore(s[1..], kept, k, clash);
      assert Clear(s[0], kept + [k], clash) <==> Clear(s[0], kept, clash) && !clash(s[0], k) by {
        assert (kept + [k])[|kept|] == k;
        assert forall i :: 0 <= i < |kept| ==> (kept + [k])[i] == kept[i];
      }
      assert clash(s[0], k) == clash(k, s[0]);
      if Clear(s[0], kept, clash) {
        var rest := DropAll(s[1..], kept, clash);
        assert ([s[0]] + rest)[1..] == rest;
      }
    }
  }

  lemma {:induction false} AcceptIsEliminate<T(!new)>(order: seq<T>, kept: seq<T>, clash: (T, T) -> bool)
    requires Symmetric(clash)
    ensures Accept(order, kept, clash) == kept + Eliminate(DropAll(order, kept, clash), clash)
    decreases |order|
  {
    if order == [] {
      assert DropAll(order, kept, clash) == [];
    } else if Clear(order[0], kept, clash) {
      var f := order[0];
      var rest := DropAll(order[1..], kept, clash);
      calc {
        Accept(order, kept, clash);
        Accept(order[1..], kept + [f], clash);
        { AcceptIsEliminate(order[1..], kept + [f], clash); }
        kept + [f] + Eliminate(DropAll(order[1..], kept + [f], clash), clash);
        { DropAllOneMore(order[1..], kept, f, clash); }
        kept + [f] + Eliminate(Drop(rest, f, clash), clash);
        { EliminateCons(f, rest, clash); }
        kept + Eliminate([f] + rest, clash);
      }
    } else {
      AcceptIsEliminate(order[1..], kept, clash);
    }
  }

  lemma EliminateCons<T>(f: T, rest: seq<T>, clash: (T, T) -> bool)
    ensures Eliminate([f] + rest, clash) == [f] + Eliminate(Drop(rest, f, clash), clash)
  {
    assert ([f] + rest)[1..] == rest;
  }

  /** The two suppression loops return the same list. */
  lemma LoopsAgree<T(!new)>(order: seq<T>, clash: (T, T) -> bool)
    requires Symmetric(clash)
    ensures Accept(order, [], clash) == Eliminate(order, clash)
  {
    AcceptIsEliminate(order, [], clash);
    DropAllNothing(order, clash);
  }

  lemma {:induction false} AcceptExtends<T>(order: seq<T>, kept: seq<T>, clash: (T, T) -> bool)
    ensures kept <= Accept(order, kept, clash)
  {
    if order != [] {
      AcceptExtends(order[1..], if Clear(order[0], kept, clash) then kept + [order[0]] else kept, clash);
    }
  }

  /** Stopping early keeps exactly the first `top` of the uncut result. */
  lemma {:induction false} CutIsPrefix<T>(order: seq<T>, kept: seq<T>, top: nat, clash: (T, T) -> bool)
    requires |kept| < top
    ensures var all := Accept(order, kept, clash);
            AcceptTop(order, kept, top, clash) == if |all| <= top then all else all[..top]
  {
    if order != [] {
      var kept' := if Clear(order[0], kept, clash) then kept + [order[0]] else kept;
      AcceptExtends(order[1..], kept', clash);
      if |kept'| < top {
        CutIsPrefix(order[1..], kept', top, clash);
      }
    }
  }

  // ---------------------------------------------------------------- what is kept and what is dropped

  ghost predicate PairwiseClear<T>(s: seq<T>, clash: (T, T) -> bool) {
    forall i, j :: 0 <= i < j < |s| ==> !clash(s[i], s[j])
  }

  lemma {:induction false} EliminateMembers<T>(order: seq<T>, clash: (T, T) -> bool)
    ensures forall x :: x in Eliminate(order, clash) ==> x in order
    decreases |order|
  {
    if order != [] {
      EliminateMembers(Drop(order[1..], order[0], clash), clash);
    }
  }

  /** No two kept elements clash. */
  lemma {:induction false} KeptAreClear<T>(order: seq<T>, clash: (T, T) -> bool)
    ensures PairwiseClear(Eliminate(order, clash), clash)
    decreases |order|
  {
    if order != [] {
      var rest := Drop(order[1..], order[0], clash);
      KeptAreClear(rest, clash);
      EliminateMembers(rest, clash);
      assert forall j :: 0 <= j < |Eliminate(rest, clash)| ==> Eliminate(rest, clash)[j] in rest;
    }
  }

  lemma {:induction false} DropOrdered<T>(s: seq<T>, k: T, clash: (T, T) -> bool, key: T -> real)
    requires Ordered(s, key)
    ensures Ordered(Drop(s, k, clash), key)
  {
    if s != [] {
      assert Ordered(s[1..], key);
      DropOrdered(s[1..], k, clash, key);
      var d := Drop(s[1..], k, clash);
      assert forall i :: 0 <= i < |d| ==> d[i] in s[1..];
    }
  }

  /** The result is in score order (keys are negated scores). */
  lemma {:induction false} KeptAreOrdered<T>(order: seq<T>, clash: (T, T) -> bool, key: T -> real)
    requires Ordered(order, key)
    ensures Ordered(Eliminate(order, clash), key)
    decreases |order|
  {
    if order != [] {
      var rest := Drop(order[1..], order[0], clash);
      assert Ordered(order[1..], key);
      DropOrdered(order[1..], order[0], clash, key);
      KeptAreOrdered(rest, clash, key);
      EliminateMembers(rest, clash);
      var tail := Eliminate(rest, clash);
      forall i | 0 <= i < |tail| ensures key(order[0]) <= key(tail[i]) {
        assert tail[i] in rest && tail[i] in order[1..];
      }
    }
  }

  ghost predicate HasWitness<T>(kept: seq<T>, clash: (T, T) -> bool, key: T -> real, x: T) {
    exists k :: k in kept && clash(k, x) && key(k) <= key(x)
  }

  /** Every element is kept or clashes with a kept one that scores at least as high. */
  lemma {:induction false} DroppedHaveWitness<T>(order: seq<T>, clash: (T, T) -> bool, key: T -> real, x: T)
    requires Ordered(order, key) && x in order && x !in Eliminate(order, clash)
    ensures HasWitness(Eliminate(order, clash), clash, key, x)
    decreases |order|
  {
    var head := order[0];
    var rest := Drop(order[1..], head, clash);
    assert head == Eliminate(order, clash)[0];
    assert x in order[1..];
    if x in rest {
      assert Ordered(order[1..], key);
      DropOrdered(order[1..], head, clash, key);
      assert x !in Eliminate(rest, clash) by {
        assert forall k :: k in Eliminate(rest, clash) ==> k in Eliminate(order, clash);
      }
      DroppedHaveWitness(rest, clash, key, x);
      var k :| k in Eliminate(rest, clash) && clash(k, x) && key(k) <= key(x);
      assert k in Eliminate(order, clash);
    }
  }

  lemma {:induction false} DropNothing<T>(s: seq<T>, k: T, clash: (T, T) -> bool)
    requires forall i :: 0 <= i < |s| ==> !clash(k, s[i])
    ensures Drop(s, k, clash) == s
  {
    if s != [] {
      DropNothing(s[1..], k, clash);
      assert s == [s[0]] + s[1..];
    }
  }

  lemma {:induction false} EliminateOfClear<T>(s: seq<T>, clash: (T, T) -> bool)
    requires PairwiseClear(s, clash)
    ensures Eliminate(s, clash) == s
  {
    if s != [] {
      DropNothing(s[1..], s[0], clash);
      EliminateOfClear(s[1..], clash);
      assert s == [s[0]] + s[1..];
    }
  }

  /** Sorting and suppressing what was kept returns it unchanged. */
  lemma SuppressionIdempotent<T>(s: seq<T>, clash: (T, T) -> bool, key: T -> real)
    ensures var kept := Eliminate(Sort(s, key), clash);
            Eliminate(Sort(kept, key), clash) == kept
  {
    SortOrders(s, key);
    KeptAreOrdered(Sort(s, key), clash, key);
    KeptAreClear(Sort(s, key), clash);
    var kept := Eliminate(Sort(s, key), clash);
    SortOfOrdered(kept, key);
    EliminateOfClear(kept, clash);
  }

  // ---------------------------------------------------------------- object detectors

  datatype Candidate = Candidate(index: nat, box: Box, score: real)

  function Candidates(boxes: seq<Box>, scores: seq<real>): (r: seq<Candidate>)
    requires |boxes| == |scores|
    ensures |r| == |boxes|
    ensures forall i :: 0 <= i < |r| ==> r[i] == Candidate(i, boxes[i], scores[i])
  {
    seq(|boxes|, i requires 0 <= i < |boxes| => Candidate(i, boxes[i], scores[i]))
  }

  function ByScore(c: Candidate): real {
    -c.score
  }

  /** Boxes overlap when their IoU exceeds the threshold. */
  function OverlapAbove(thr: real): (Candidate, Candidate) -> bool {
    (a: Candidate, b: Candidate) => Iou(a.box, b.box) > thr
  }

  lemma OverlapAboveSymmetric(thr: real)
    ensures Symmetric(OverlapAbove(thr))
  {
    forall a, b ensures OverlapAbove(thr)(a, b) == OverlapAbove(thr)(b, a) {
      IouSymmetric(a.box, b.box);
    }
  }

  /** What the detector's suppression returns, as candidates. */
  function Kept(boxes: seq<Box>, scores: seq<real>, thr: real): seq<Candidate>
    requires |boxes| == |scores|
  {
    Eliminate(Sort(Candidates(boxes, scores), ByScore), OverlapAbove(thr))
  }

  /** The face detector's way of suppressing would keep the same candidates in the same order. */
  lemma DetectorLoopsAgree(boxes: seq<Box>, scores: seq<real>, thr: real)
    requires |boxes| == |scores|
    ensures Accept(Sort(Candidates(boxes, scores), ByScore), [], OverlapAbove(thr)) == Kept(boxes, scores, thr)
  {
    OverlapAboveSymmetric(thr);
    LoopsAgree(Sort(Candidates(boxes, scores), ByScore), OverlapAbove(thr));
  }

  function Indices(cs: seq<Candidate>): (r: seq<nat>)
    ensures |r| == |cs|
    ensures forall i :: 0 <= i < |r| ==> r[i] == cs[i].index
  {
    seq(|cs|, i requires 0 <= i < |cs| => cs[i].index)
  }

  lemma KeptIndices(boxes: seq<Box>, scores: seq<real>, thr: real)
    requires |boxes| == |scores|
    ensures forall c :: c in Kept(boxes, scores, thr) ==>
              c.index < |boxes| && c == Candidate(c.index, boxes[c.index], scores[c.index])
  {
    var cs := Candidates(boxes, scores);
    EliminateMembers(Sort(cs, ByScore), OverlapAbove(thr));
    SortMembers(cs, ByScore);
  }

  lemma IndexKept(cs: seq<Candidate>, c: Candidate)
    requires c in cs
    ensures c.index in Indices(cs)
  {
    var p :| 0 <= p < |cs| && cs[p] == c;
    assert Indices(cs)[p] == c.index;
  }

  ghost predicate KeptInOrder(boxes: seq<Box>, scores: seq<real>, thr: real, keep: seq<nat>)
    requires |boxes| == |scores|
    requires forall i :: 0 <= i < |keep| ==> keep[i] < |boxes|
  {
    forall i, j :: 0 <= i < j < |keep| ==>
      scores[keep[i]] >= scores[keep[j]] && Iou(boxes[keep[i]], boxes[keep[j]]) <= thr
  }

  ghost predicate OutscoredBy(boxes: seq<Box>, scores: seq<real>, thr: real, keep: seq<nat>, i: nat)
    requires |boxes| == |scores| && i < |boxes|
  {
    exists k :: k in keep && k < |boxes| && scores[k] >= scores[i] && Iou(boxes[k], boxes[i]) > thr
  }

  lemma KeptIndicesInOrder(boxes: seq<Box>, scores: seq<real>, thr: real)
    requires |boxes| == |scores|
    ensures var keep := Indices(Kept(boxes, scores, thr));
            (forall i :: 0 <= i < |keep| ==> keep[i] < |boxes|) && KeptInOrder(boxes, scores, thr, keep)
  {
    var order := Sort(Candidates(boxes, scores), ByScore);
    var kept := Kept(boxes, scores, thr);
    KeptIndices(boxes, scores, thr);
    SortOrders(Candidates(boxes, scores), ByScore);
    KeptAreClear(order, OverlapAbove(thr));
    KeptAreOrdered(order, OverlapAbove(thr), ByScore);
    forall i, j | 0 <= i < j < |kept|
      ensures scores[kept[i].index] >= scores[kept[j].index]
      ensures Iou(boxes[kept[i].index], boxes[kept[j].index]) <= thr
    {
      assert kept[i] in kept && kept[j] in kept;
      assert ByScore(kept[i]) <= ByScore(kept[j]);
      assert !OverlapAbove(thr)(kept[i], kept[j]);
    }
  }

  lemma DroppedIndexOutscored(boxes: seq<Box>, scores: seq<real>, thr: real, i: nat)
    requires |boxes| == |scores| && i < |boxes|
    requires i !in Indices(Kept(boxes, scores, thr))
    ensures OutscoredBy(boxes, scores, thr, Indices(Kept(boxes, scores, thr)), i)
  {
    var order := Sort(Candidates(boxes, scores), ByScore);
    var kept := Kept(boxes, scores, thr);
    var keep := Indices(kept);
    KeptIndices(boxes, scores, thr);
    SortOrders(Candidates(boxes, scores), ByScore);
    SortMembers(Candidates(boxes, scores), ByScore);
    var c := Candidates(boxes, scores)[i];
    assert c in order;
    if c in kept {
      IndexKept(kept, c);
      assert false;
    }
    DroppedHaveWitness(order, OverlapAbove(thr), ByScore, c);
    var k :| k in kept && OverlapAbove(thr)(k, c) && ByScore(k) <= ByScore(c);
    IndexKept(kept, k);
  }

  /** The kept boxes do not overlap, come in descending score, and each dropped box overlaps a
      kept box of score at least its own. */
  ghost predicate Suppressed(boxes: seq<Box>, scores: seq<real>, thr: real, keep: seq<nat>)
    requires |boxes| == |scores|
  {
    && (forall i :: 0 <= i < |keep| ==> keep[i] < |boxes|)
    && KeptInOrder(boxes, scores, thr, keep)
    && (forall i: nat :: i < |boxes| && i !in keep ==> OutscoredBy(boxes, scores, thr, keep, i))
  }

  lemma KeptIsSuppressed(boxes: seq<Box>, scores: seq<real>, thr: real)
    requires |boxes| == |scores|
    ensures Suppressed(boxes, scores, thr, Indices(Kept(boxes, scores, thr)))
  {
    var keep := Indices(Kept(boxes, scores, thr));
    KeptIndicesInOrder(boxes, scores, thr);
    forall i: nat | i < |boxes| && i !in keep ensures OutscoredBy(boxes, scores, thr, keep, i) {
      DroppedIndexOutscored(boxes, scores, thr, i);
    }
  }

  /** The elimination loop over box indices. */
  method Nms(boxes: seq<Box>, scores: seq<real>, thr: real) returns (keep: seq<nat>)
    requires |boxes| == |scores|
    ensures keep == Indices(Kept(boxes, scores, thr))
    ensures Suppressed(boxes, scores, thr, keep)
  {
    var order := Sort(Candidates(boxes, scores), ByScore);
    ghost var kept: seq<Candidate> := [];
    keep := [];
    while order != []
      invariant |keep| == |kept| && forall k :: 0 <= k < |keep| ==> keep[k] == kept[k].index
      invariant kept + Eliminate(order, OverlapAbove(thr)) == Kept(boxes, scores, thr)
      decreases |order|
    {
      var i := order[0];
      EliminateHead(kept, order, OverlapAbove(thr));
      keep := keep + [i.index];
      kept := kept + [i];
      order := Drop(order[1..], i, OverlapAbove(thr));
    }
    assert kept == Kept(boxes, scores, thr);
    assert keep == Indices(kept);
    KeptIsSuppressed(boxes, scores, thr);
  }

  lemma EliminateHead<T>(kept: seq<T>, order: seq<T>, clash: (T, T) -> bool)
    requires order != []
    ensures kept + Eliminate(order, clash)
         == kept + [order[0]] + Eliminate(Drop(order[1..], order[0], clash), clash)
  {
  }

  // ---------------------------------------------------------------- face detector

  const NMS_IOU := 0.4
  const TOP_K := 50

  datatype Face = Face(box: Box, score: real, landmarks: seq<Point>)

  function ByFaceScore(f: Face): real {
    -f.score
  }

  /** The face detector's own IoU: 0 only when the union is exactly zero. */
  function FaceIou(a: Box, b: Box): real {
    var inter := Intersection(a, b);
    var union := a.w * a.h + b.w * b.h - inter;
    if union != 0.0 then inter / union else 0.0
  }

  /** Faces overlap when their IoU reaches the threshold (the object detectors need more). */
  function FaceOverlap(): (Face, Face) -> bool {
    (a: Face, b: Face) => FaceIou(a.box, b.box) >= NMS_IOU
  }

  lemma FaceOverlapSymmetric()
    ensures Symmetric(FaceOverlap())
  {
    forall a: Face, b: Face ensures FaceOverlap()(a, b) == FaceOverlap()(b, a) {
      FaceIouSymmetric(a.box, b.box);
    }
  }

  lemma FaceIouSymmetric(a: Box, b: Box)
    ensures FaceIou(a, b) == FaceIou(b, a)
  {
    IntersectionSymmetric(a, b);
  }

  /** The face detector's loop returns the first `TOP_K` faces that the elimination loop would
      keep under the same overlap test. */
  method SuppressFaces(faces: seq<Face>) returns (kept: seq<Face>)
    ensures var all := Eliminate(Sort(faces, ByFaceScore), FaceOverlap());
            kept == if |all| <= TOP_K then all else all[..TOP_K]
  {
    var order := Sort(faces, ByFaceScore);
    kept := [];
    var i := 0;
    while i < |order|
      invariant 0 <= i <= |order|
      invariant |kept| < TOP_K
      invariant AcceptTop(order, [], TOP_K, FaceOverlap()) == AcceptTop(order[i..], kept, TOP_K, FaceOverlap())
    {
      var f := order[i];
      if Clear(f, kept, FaceOverlap()) {
        kept := kept + [f];
      }
      if |kept| >= TOP_K {
        break;
      }
      assert order[i..][1..] == order[i + 1..];
      i := i + 1;
    }
    assert kept == AcceptTop(order, [], TOP_K, FaceOverlap());
    CutIsPrefix(order, [], TOP_K, FaceOverlap());
    FaceOverlapSymmetric();
    LoopsAgree(order, FaceOverlap());
  }
}
