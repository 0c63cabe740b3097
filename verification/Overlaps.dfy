/** What the shared area and the intersection over union of two boxes measure. */
module Overlaps {
  import opened Boxes
  import opened RealProducts

  // ---------------------------------------------------------------- the shared area

  /** The number lies both in [a, a + w] and in [c, c + v]. */
  predicate InBoth(t: real, a: real, w: real, c: real, v: real) {
    a <= t <= a + w && c <= t <= c + v
  }

  /** The numbers from `lo` to `hi` are those that lie in both intervals. */
  ghost predicate CommonInterval(lo: real, hi: real, a: real, w: real, c: real, v: real) {
    lo <= hi && forall t :: lo <= t <= hi <==> InBoth(t, a, w, c, v)
  }

  ghost predicate NothingCommon(a: real, w: real, c: real, v: real) {
    forall t :: !InBoth(t, a, w, c, v)
  }

  function CommonLength(a: real, w: real, c: real, v: real): real {
    Max(0.0, Min(a + w, c + v) - Max(a, c))
  }

  lemma SharedIsProduct(a: Box, b: Box)
    ensures Intersection(a, b) == CommonLength(a.x, a.w, b.x, b.w) * CommonLength(a.y, a.h, b.y, b.h)
  {
  }

  lemma LengthOfCommon(lo: real, hi: real, a: real, w: real, c: real, v: real)
    requires CommonInterval(lo, hi, a, w, c, v)
    ensures CommonLength(a, w, c, v) == hi - lo
  {
    assert InBoth(lo, a, w, c, v) && InBoth(hi, a, w, c, v);
    assert InBoth(Max(a, c), a, w, c, v) && InBoth(Min(a + w, c + v), a, w, c, v);
  }

  lemma LengthOfNothing(a: real, w: real, c: real, v: real)
    requires NothingCommon(a, w, c, v)
    ensures CommonLength(a, w, c, v) == 0.0
  {
    assert !InBoth(Max(a, c), a, w, c, v);
  }

  /** Two intervals have an interval in common, or no number at all. */
  lemma CommonOrNothing(a: real, w: real, c: real, v: real)
    ensures CommonInterval(Max(a, c), Min(a + w, c + v), a, w, c, v) || NothingCommon(a, w, c, v)
  {
  }

  /** The shared area is the product of the lengths of the common intervals of the two axes. */
  lemma SharedArea(a: Box, b: Box, x0: real, x1: real, y0: real, y1: real)
    requires CommonInterval(x0, x1, a.x, a.w, b.x, b.w) && CommonInterval(y0, y1, a.y, a.h, b.y, b.h)
    ensures Intersection(a, b) == (x1 - x0) * (y1 - y0)
  {
    hide CommonInterval, CommonLength;
    SharedIsProduct(a, b);
    LengthOfCommon(x0, x1, a.x, a.w, b.x, b.w);
    LengthOfCommon(y0, y1, a.y, a.h, b.y, b.h);
  }

  lemma ZeroTimes(u: real, v: real)
    ensures u == 0.0 || v == 0.0 ==> u * v == 0.0
  {
  }

  /** Boxes with no number in common on one axis share nothing. */
  lemma NothingShared(a: Box, b: Box)
    requires NothingCommon(a.x, a.w, b.x, b.w) || NothingCommon(a.y, a.h, b.y, b.h)
    ensures Intersection(a, b) == 0.0
  {
    hide NothingCommon, CommonLength, Intersection;
    SharedIsProduct(a, b);
    ZeroTimes(CommonLength(a.x, a.w, b.x, b.w), CommonLength(a.y, a.h, b.y, b.h));
    if NothingCommon(a.x, a.w, b.x, b.w) {
      LengthOfNothing(a.x, a.w, b.x, b.w);
    } else {
      LengthOfNothing(a.y, a.h, b.y, b.h);
    }
  }

  // ---------------------------------------------------------------- the share

  /** The sizes of a box are not negative. */
  predicate Sized(b: Box) {
    b.w >= 0.0 && b.h >= 0.0
  }

  lemma ProductBelow(u: real, v: real, x: real, y: real)
    requires 0.0 <= u <= x && 0.0 <= v <= y
    ensures 0.0 <= u * v <= x * y
  {
    NonNegativeProduct(u, v);
    NonNegativeProduct(u, y - v);
    NonNegativeProduct(x - u, y);
    assert u * (y - v) == u * y - u * v;
    assert (x - u) * y == x * y - u * y;
  }

  lemma SharedBelow(a: Box, b: Box)
    requires Sized(a) && Sized(b)
    ensures 0.0 <= Intersection(a, b) <= a.w * a.h
  {
    hide Intersection;
    SharedIsProduct(a, b);
    ProductBelow(CommonLength(a.x, a.w, b.x, b.w), CommonLength(a.y, a.h, b.y, b.h), a.w, a.h);
  }

  /** The area the two boxes cover together. */
  function Covered(a: Box, b: Box): real {
    a.w * a.h + b.w * b.h - Intersection(a, b)
  }

  lemma IouOfCovered(a: Box, b: Box)
    requires Covered(a, b) > 0.0
    ensures Iou(a, b) == Intersection(a, b) / Covered(a, b)
  {
  }

  lemma ShareInRange(u: real, v: real, q: real)
    requires 0.0 <= u <= v && v > 0.0 && q == u / v
    ensures 0.0 <= q <= 1.0 && q * v == u
  {
    assert q * v == u;
    if q < 0.0 {
      PositiveProduct(-q, v, (-q) * v);
    }
    if q > 1.0 {
      PositiveProduct(q - 1.0, v, (q - 1.0) * v);
    }
  }

  /** The overlap is the share of the area the boxes cover together that both cover; it lies between 0
      and 1. */
  lemma IouIsShare(a: Box, b: Box)
    requires Sized(a) && Sized(b) && (a.w * a.h > 0.0 || b.w * b.h > 0.0)
    ensures Covered(a, b) > 0.0 && Iou(a, b) * Covered(a, b) == Intersection(a, b)
    ensures 0.0 <= Iou(a, b) <= 1.0
  {
    SharedBelow(a, b);
    SharedBelow(b, a);
    IntersectionSymmetric(a, b);
    CoveredPositive(a, b);
    IouOfCovered(a, b);
    hide Covered, Intersection, Iou;
    ShareInRange(Intersection(a, b), Covered(a, b), Iou(a, b));
  }

  lemma CoveredPositive(a: Box, b: Box)
    requires 0.0 <= Intersection(a, b) <= a.w * a.h && Intersection(a, b) <= b.w * b.h
    requires a.w * a.h > 0.0 || b.w * b.h > 0.0
    ensures Covered(a, b) > 0.0 && Intersection(a, b) <= Covered(a, b)
  {
    hide Intersection;
  }

  lemma WholeShare(u: real, v: real)
    requires u == v && v > 0.0
    ensures u / v == 1.0
  {
  }

  lemma SharedWithSelf(a: Box)
    requires a.w > 0.0 && a.h > 0.0
    ensures Intersection(a, a) == Covered(a, a) && Covered(a, a) > 0.0
  {
    PositiveProduct(a.w, a.h, a.w * a.h);
    SharedIsProduct(a, a);
    assert CommonLength(a.x, a.w, a.x, a.w) == a.w && CommonLength(a.y, a.h, a.y, a.h) == a.h;
    hide Intersection, CommonLength;
  }

  /** A box of positive area overlaps itself fully. */
  lemma SameBoxOverlaps(a: Box)
    requires a.w > 0.0 && a.h > 0.0
    ensures Iou(a, a) == 1.0
  {
    SharedWithSelf(a);
    IouOfCovered(a, a);
    hide Intersection, Covered, Iou;
    WholeShare(Intersection(a, a), Covered(a, a));
  }

  /** Boxes that share nothing do not overlap. */
  lemma ApartDoNotOverlap(a: Box, b: Box)
    requires Intersection(a, b) == 0.0
    ensures Iou(a, b) == 0.0
  {
    hide Intersection;
  }
}
