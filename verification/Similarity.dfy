/** What the cosine similarity measures, and what follows for the search: vectors pointing the same
    way score 1, opposite vectors -1, and among entries of one length the nearest is found. */
module Similarity {
  import opened Options
  import opened RealProducts
  import opened Matching

  ghost predicate NonZero(a: seq<real>) {
    exists i :: 0 <= i < |a| && a[i] != 0.0
  }

  /** `b` is `k` times `a`. */
  ghost predicate Multiple(k: real, a: seq<real>, b: seq<real>) {
    |a| == |b| && forall i :: 0 <= i < |a| ==> b[i] == k * a[i]
  }

  ghost predicate SameDirection(a: seq<real>, b: seq<real>) {
    NonZero(a) && exists k :: k > 0.0 && Multiple(k, a, b)
  }

  ghost predicate OppositeDirection(a: seq<real>, b: seq<real>) {
    NonZero(a) && exists k :: k < 0.0 && Multiple(k, a, b)
  }

  // ---------------------------------------------------------------- symmetry and scaling

  lemma {:induction false} DotSymmetric(a: seq<real>, b: seq<real>)
    requires |a| == |b|
    ensures Dot(a, b) == Dot(b, a)
  {
    if a != [] {
      DotSymmetric(a[1..], b[1..]);
    }
  }

  lemma SwappedRatio(d: real, na: real, nb: real)
    ensures Ratio(d, na, nb) == Ratio(d, nb, na)
  {
  }

  /** The similarity does not depend on which vector comes first. */
  lemma CosineSymmetric(sqrt: real -> real, a: seq<real>, b: seq<real>)
    ensures Cosine(sqrt, a, b) == Cosine(sqrt, b, a)
  {
    hide Dot, Ratio;
    if |a| == |b| {
      DotSymmetric(a, b);
      SwappedRatio(Dot(a, b), sqrt(Dot(a, a)), sqrt(Dot(b, b)));
    }
  }

  lemma ScaledSum(k: real, x: real, y: real, d: real)
    ensures k * d + (k * x) * y == k * (d + x * y)
  {
  }

  lemma {:induction false} DotOfMultiple(k: real, a: seq<real>, b: seq<real>, c: seq<real>)
    requires Multiple(k, a, b) && |c| == |a|
    ensures Dot(b, c) == k * Dot(a, c)
  {
    if a != [] {
      DotOfMultiple(k, a[1..], b[1..], c[1..]);
      ScaledSum(k, a[0], c[0], Dot(a[1..], c[1..]));
    }
  }

  lemma {:induction false} SquaredMultiple(k: real, a: seq<real>, b: seq<real>)
    requires Multiple(k, a, b)
    ensures Dot(b, b) == k * (k * Dot(a, a))
  {
    hide Dot;
    DotOfMultiple(k, a, b, b);
    DotSymmetric(a, b);
    DotOfMultiple(k, a, b, a);
  }

  lemma RootsEqual(u: real, v: real)
    requires u >= 0.0 && v >= 0.0 && u * u == v * v
    ensures u == v
  {
    if u > v {
      if v > 0.0 {
        LargerSquare(u, v);
      } else {
        var s := Square(u);
      }
    } else if v > u {
      if u > 0.0 {
        LargerSquare(v, u);
      } else {
        var s := Square(v);
      }
    }
  }

  lemma SquareOfProduct(k: real, n: real)
    ensures (k * n) * (k * n) == k * (k * (n * n))
  {
  }

  function Size(k: real): real {
    if k < 0.0 then -k else k
  }

  lemma {:induction false} NormOfMultiple(sqrt: real -> real, k: real, a: seq<real>, b: seq<real>)
    requires IsSqrt(sqrt) && Multiple(k, a, b)
    ensures sqrt(Dot(b, b)) == Size(k) * sqrt(Dot(a, a))
  {
    hide Dot;
    NormNonNegative(a);
    NormNonNegative(b);
    SquaredMultiple(k, a, b);
    var n := sqrt(Dot(a, a));
    SquareOfProduct(Size(k), n);
    NonNegativeProduct(Size(k), n);
    RootsEqual(sqrt(Dot(b, b)), Size(k) * n);
  }

  lemma CancelFactor(k: real, d: real, na: real, nb: real, d': real, na': real)
    requires k != 0.0 && d' == k * d && na' == Size(k) * na
    ensures Ratio(d', na', nb) == if k > 0.0 then Ratio(d, na, nb) else -Ratio(d, na, nb)
  {
    if na != 0.0 && nb != 0.0 {
      var m, q := na * nb, d / (na * nb);
      assert q * m == d;
      assert na' * nb == Size(k) * m;
      QuotientOf(d', Size(k) * m, if k > 0.0 then q else -q);
    }
  }

  lemma QuotientOf(x: real, m: real, q: real)
    requires m != 0.0 && x == q * m
    ensures x / m == q
  {
  }

  /** Stretching a vector leaves its similarity to any other unchanged; turning it round negates it. */
  lemma {:induction false} CosineScales(sqrt: real -> real, k: real, a: seq<real>, b: seq<real>, c: seq<real>)
    requires IsSqrt(sqrt) && Multiple(k, a, b) && k != 0.0
    ensures Cosine(sqrt, b, c) == if k > 0.0 then Cosine(sqrt, a, c) else -Cosine(sqrt, a, c)
    ensures Cosine(sqrt, c, b) == if k > 0.0 then Cosine(sqrt, c, a) else -Cosine(sqrt, c, a)
  {
    hide Dot, Ratio, Size, Multiple;
    CosineSymmetric(sqrt, b, c);
    CosineSymmetric(sqrt, a, c);
    SameLength(k, a, b);
    if |a| == |c| && a != [] {
      DotOfMultiple(k, a, b, c);
      NormOfMultiple(sqrt, k, a, b);
      CancelFactor(k, Dot(a, c), sqrt(Dot(a, a)), sqrt(Dot(c, c)), Dot(b, c), sqrt(Dot(b, b)));
    }
  }

  lemma SameLength(k: real, a: seq<real>, b: seq<real>)
    requires Multiple(k, a, b)
    ensures |a| == |b| && (a == [] <==> b == [])
  {
  }

  // ---------------------------------------------------------------- the extreme values

  lemma DotOfZero(a: seq<real>, b: seq<real>)
    requires |a| == |b| && !NonZero(a)
    ensures Dot(a, b) == 0.0
  {
    if a != [] {
      assert a[0] == 0.0;
      DotOfZero(a[1..], b[1..]);
    }
  }

  lemma {:induction false} NormPositive(a: seq<real>)
    ensures Dot(a, a) > 0.0 <==> NonZero(a)
  {
    NormNonNegative(a);
    if NonZero(a) {
      var s := Square(a[0]);
      NormNonNegative(a[1..]);
      if a[0] == 0.0 {
        var i :| 0 <= i < |a| && a[i] != 0.0;
        assert a[1..][i - 1] != 0.0;
        NormPositive(a[1..]);
      }
    } else {
      DotOfZero(a, a);
    }
  }

  lemma {:induction false} SelfSimilarity(sqrt: real -> real, a: seq<real>)
    requires IsSqrt(sqrt) && NonZero(a)
    ensures Cosine(sqrt, a, a) == 1.0
  {
    hide Dot;
    NormPositive(a);
    var n := sqrt(Dot(a, a));
    QuotientOf(Dot(a, a), n * n, 1.0);
  }

  /** Where the polynomial vanishes, the second vector is `t` times the first. */
  lemma {:induction false} VanishingQuadratic(t: real, a: seq<real>, b: seq<real>)
    requires |a| == |b| && Quadratic(t, Dot(a, a), Dot(a, b), Dot(b, b)) <= 0.0
    ensures Multiple(t, a, b)
  {
    hide Quadratic;
    if a != [] {
      QuadraticNonNegative(t, a[1..], b[1..]);
      VanishingParts(t, Dot(a[1..], a[1..]), Dot(a[1..], b[1..]), Dot(b[1..], b[1..]), a[0], b[0],
                     Dot(a, a), Dot(a, b), Dot(b, b));
      VanishingQuadratic(t, a[1..], b[1..]);
      forall i | 0 <= i < |a| ensures b[i] == t * a[i] {
        if i > 0 {
          assert b[1..][i - 1] == t * a[1..][i - 1];
        }
      }
    }
  }

  lemma VanishingPair(t: real, x: real, y: real)
    ensures Quadratic(t, x * x, x * y, y * y) <= 0.0 ==> y == t * x
  {
    var s := Square(t * x - y);
    SquareOfDifference(t * x, y);
    ProductsOf(t, x, y);
  }

  lemma VanishingParts(t: real, aa: real, ab: real, bb: real, x: real, y: real, aa': real, ab': real, bb': real)
    requires aa' == aa + x * x && ab' == ab + x * y && bb' == bb + y * y
    requires Quadratic(t, aa', ab', bb') <= 0.0 <= Quadratic(t, aa, ab, bb)
    ensures Quadratic(t, aa, ab, bb) <= 0.0 && y == t * x
  {
    hide Quadratic;
    QuadraticAdds(t, aa, ab, bb, x * x, x * y, y * y);
    QuadraticOfPair(t, x, y);
    VanishingPair(t, x, y);
  }

  /** The polynomial at its minimum, when the product equals the product of the norms up to sign. */
  lemma MinimumVanishes(aa: real, ab: real, bb: real)
    requires aa > 0.0 && ab * ab == aa * bb
    ensures Quadratic(ab / aa, aa, ab, bb) == 0.0
  {
    var t := ab / aa;
    assert t * aa == ab;
    assert t * t * aa == t * ab;
    assert aa * (t * ab) == (t * aa) * ab;
    SameFactor(aa, t * ab, bb);
  }

  lemma SameFactor(k: real, x: real, y: real)
    requires k != 0.0 && k * x == k * y
    ensures x == y
  {
  }

  lemma FullRatio(d: real, na: real, nb: real, aa: real, bb: real, e: real)
    requires na * na == aa && nb * nb == bb && na >= 0.0 && nb >= 0.0 && e * e == 1.0
    requires Ratio(d, na, nb) == e
    ensures d * d == aa * bb && aa > 0.0 && bb > 0.0
    ensures d == e * (na * nb) && na * nb > 0.0
  {
    var m := na * nb;
    PositiveProduct(na, nb, m);
    PositiveProduct(na, na, aa);
    PositiveProduct(nb, nb, bb);
    assert d == e * m;
    assert d * d == (e * e) * (m * m);
    assert m * m == aa * bb;
  }

  lemma {:induction false} ExtremeIsMultiple(sqrt: real -> real, a: seq<real>, b: seq<real>, e: real)
    requires IsSqrt(sqrt) && e * e == 1.0 && Cosine(sqrt, a, b) == e
    ensures NonZero(a) && exists k :: k * e > 0.0 && Multiple(k, a, b)
  {
    hide Dot, Quadratic, Ratio, NonZero;
    var aa, ab, bb := Dot(a, a), Dot(a, b), Dot(b, b);
    NormNonNegative(a);
    NormNonNegative(b);
    NormPositive(a);
    FullRatio(ab, sqrt(aa), sqrt(bb), aa, bb, e);
    MinimumVanishes(aa, ab, bb);
    VanishingQuadratic(ab / aa, a, b);
    SignOfQuotient(ab, aa, e, sqrt(aa) * sqrt(bb));
  }

  lemma SignOfQuotient(ab: real, aa: real, e: real, m: real)
    requires aa > 0.0 && m > 0.0 && ab == e * m && e * e == 1.0
    ensures ab / aa * e > 0.0
  {
    var t := ab / aa;
    assert t * aa == ab;
    assert (t * e) * aa == (e * e) * m;
    PositiveQuotient(t * e, aa, m);
  }

  lemma PositiveQuotient(x: real, k: real, m: real)
    requires x * k == m && m > 0.0 && k > 0.0
    ensures x > 0.0
  {
    if x <= 0.0 {
      NonNegativeProduct(-x, k);
    }
  }

  /** Two vectors score 1 exactly when they are non-zero and point the same way. */
  lemma {:induction false} OneIsSameDirection(sqrt: real -> real, a: seq<real>, b: seq<real>)
    requires IsSqrt(sqrt)
    ensures Cosine(sqrt, a, b) == 1.0 <==> SameDirection(a, b)
  {
    hide Cosine, Multiple;
    if Cosine(sqrt, a, b) == 1.0 {
      ExtremeIsMultiple(sqrt, a, b, 1.0);
    }
    if SameDirection(a, b) {
      var k :| k > 0.0 && Multiple(k, a, b);
      CosineScales(sqrt, k, a, b, a);
      SelfSimilarity(sqrt, a);
    }
  }

  /** Two vectors score -1 exactly when they are non-zero and point opposite ways. */
  lemma {:induction false} MinusOneIsOpposite(sqrt: real -> real, a: seq<real>, b: seq<real>)
    requires IsSqrt(sqrt)
    ensures Cosine(sqrt, a, b) == -1.0 <==> OppositeDirection(a, b)
  {
    hide Cosine, Multiple;
    if Cosine(sqrt, a, b) == -1.0 {
      ExtremeIsMultiple(sqrt, a, b, -1.0);
    }
    if OppositeDirection(a, b) {
      var k :| k < 0.0 && Multiple(k, a, b);
      CosineScales(sqrt, k, a, b, a);
      SelfSimilarity(sqrt, a);
    }
  }

  // ---------------------------------------------------------------- similarity and distance

  function SquaredDistance(a: seq<real>, b: seq<real>): real
    requires |a| == |b|
  {
    if a == [] then 0.0 else SquaredDistance(a[1..], b[1..]) + (a[0] - b[0]) * (a[0] - b[0])
  }

  function Origin(n: nat): (o: seq<real>)
    ensures |o| == n && forall i :: 0 <= i < n ==> o[i] == 0.0
  {
    seq(n, _ => 0.0)
  }

  /** The vector's distance from the origin is `l`. */
  ghost predicate HasLength(a: seq<real>, l: real) {
    l >= 0.0 && l * l == SquaredDistance(a, Origin(|a|))
  }

  lemma {:induction false} DistanceExpands(a: seq<real>, b: seq<real>)
    requires |a| == |b|
    ensures SquaredDistance(a, b) == Dot(a, a) - 2.0 * Dot(a, b) + Dot(b, b)
  {
    if a != [] {
      DistanceExpands(a[1..], b[1..]);
      SquareOfDifference(a[0], b[0]);
    }
  }

  lemma {:induction false} SquaredLength(a: seq<real>)
    ensures SquaredDistance(a, Origin(|a|)) == Dot(a, a)
  {
    DistanceExpands(a, Origin(|a|));
    DotSymmetric(a, Origin(|a|));
    assert !NonZero(Origin(|a|));
    DotOfZero(Origin(|a|), a);
    DotOfZero(Origin(|a|), Origin(|a|));
  }

  /** The law of cosines: the similarity of two vectors is the cosine of the angle at which their
      lengths give the distance between them. */
  lemma {:induction false} LawOfCosines(sqrt: real -> real, a: seq<real>, b: seq<real>, la: real, lb: real)
    requires IsSqrt(sqrt) && |a| == |b| && HasLength(a, la) && HasLength(b, lb)
    ensures SquaredDistance(a, b) == la * la + lb * lb - 2.0 * (la * lb * Cosine(sqrt, a, b))
  {
    hide Dot, Ratio, SquaredDistance, Origin;
    var aa, ab, bb := Dot(a, a), Dot(a, b), Dot(b, b);
    SquaredLength(a);
    SquaredLength(b);
    DistanceExpands(a, b);
    NormNonNegative(a);
    NormNonNegative(b);
    RootsEqual(la, sqrt(aa));
    RootsEqual(lb, sqrt(bb));
    if la == 0.0 || lb == 0.0 {
      NormPositive(a);
      NormPositive(b);
      NoProduct(a, b);
    } else {
      RatioTimes(ab, la, lb);
    }
  }

  lemma NoProduct(a: seq<real>, b: seq<real>)
    requires |a| == |b| && (!NonZero(a) || !NonZero(b))
    ensures Dot(a, b) == 0.0
  {
    DotSymmetric(a, b);
    if !NonZero(a) {
      DotOfZero(a, b);
    } else {
      DotOfZero(b, a);
    }
  }

  lemma RatioTimes(d: real, na: real, nb: real)
    requires na != 0.0 && nb != 0.0
    ensures na * nb * Ratio(d, na, nb) == d
  {
  }

  // ---------------------------------------------------------------- the search

  /** An entry pointing the same way as the vector scores 1, the best possible; whoever is named
      has such an entry, and unless somebody is enrolled under the empty id the answer is `known`. */
  lemma {:induction false} SameDirectionIsFound(sqrt: real -> real, threshold: real, vector: seq<real>,
                                                version: string, enrolled: seq<Enrolled>, e: Enrolled)
    requires IsSqrt(sqrt) && Eligible(version, enrolled, e) && SameDirection(vector, e.embedding)
    ensures var b := Scan(sqrt, vector, version, enrolled);
            && b.score == 1.0
            && b.id.Some?
            && exists f :: Eligible(version, enrolled, f) && f.personId == b.id.value
                           && SameDirection(vector, f.embedding)
    ensures threshold <= 1.0 && (forall f :: Eligible(version, enrolled, f) ==> f.personId != "") ==>
            var r := Recognized(Scan(sqrt, vector, version, enrolled), threshold);
            r.status == "known" && r.similarity == Some(1.0) && r.personId.Some?
  {
    hide Cosine, SameDirection;
    var b := Scan(sqrt, vector, version, enrolled);
    ScanIsMaximum(sqrt, vector, version, enrolled);
    OneIsSameDirection(sqrt, vector, e.embedding);
    var f :| Eligible(version, enrolled, f) && f.personId == b.id.value
             && Cosine(sqrt, vector, f.embedding) == b.score;
    CosineInRange(sqrt, vector, f.embedding);
    OneIsSameDirection(sqrt, vector, f.embedding);
  }

  lemma CloserScoresHigher(l: real, m: real, c: real, c': real, d: real, d': real)
    requires l > 0.0 && m > 0.0 && c <= c'
    requires d == l * l + m * m - 2.0 * (l * m * c) && d' == l * l + m * m - 2.0 * (l * m * c')
    ensures d' <= d
  {
    PositiveProduct(l, m, l * m);
    NonNegativeProduct(l * m, c' - c);
  }

  /** Among entries of one length the person named has the entry nearest to the vector. */
  lemma {:induction false} NearestIsFound(sqrt: real -> real, vector: seq<real>, version: string,
                                          enrolled: seq<Enrolled>, l: real, m: real)
    requires IsSqrt(sqrt) && l > 0.0 && m > 0.0 && HasLength(vector, l)
    requires forall e :: Eligible(version, enrolled, e) ==> |e.embedding| == |vector| && HasLength(e.embedding, m)
    requires Scan(sqrt, vector, version, enrolled).id.Some?
    ensures exists f :: Eligible(version, enrolled, f)
                        && f.personId == Scan(sqrt, vector, version, enrolled).id.value
                        && forall e :: Eligible(version, enrolled, e) ==>
                             SquaredDistance(vector, f.embedding) <= SquaredDistance(vector, e.embedding)
  {
    hide Cosine, HasLength, SquaredDistance;
    var b := Scan(sqrt, vector, version, enrolled);
    ScanIsMaximum(sqrt, vector, version, enrolled);
    var f :| Eligible(version, enrolled, f) && f.personId == b.id.value
             && Cosine(sqrt, vector, f.embedding) == b.score;
    LawOfCosines(sqrt, vector, f.embedding, l, m);
    forall e | Eligible(version, enrolled, e)
      ensures SquaredDistance(vector, f.embedding) <= SquaredDistance(vector, e.embedding)
    {
      LawOfCosines(sqrt, vector, e.embedding, l, m);
      CloserScoresHigher(l, m, Cosine(sqrt, vector, e.embedding), Cosine(sqrt, vector, f.embedding),
                         SquaredDistance(vector, e.embedding), SquaredDistance(vector, f.embedding));
    }
  }

  /** Some same-version entry scores above -1 and reaches the bound. */
  ghost predicate Reaches(sqrt: real -> real, vector: seq<real>, version: string, enrolled: seq<Enrolled>,
                          bound: real) {
    exists e :: Eligible(version, enrolled, e) && Cosine(sqrt, vector, e.embedding) > -1.0
                && Cosine(sqrt, vector, e.embedding) >= bound
  }

  /** The three answers: `known` from the threshold on, `uncertain` in the band of 0.05 below it and
      `unknown` otherwise or when the entry found has the empty id; a similarity is given exactly
      when a person with a non-empty id is. */
  lemma {:induction false} AnswerBands(sqrt: real -> real, threshold: real, vector: seq<real>, version: string,
                                       enrolled: seq<Enrolled>)
    ensures var b := Scan(sqrt, vector, version, enrolled);
            var r := Recognized(b, threshold);
            && r.personId == b.id
            && r.similarity == (if b.id in {None, Some("")} then None else Some(b.score))
            && r.status == if b.id == Some("") then "unknown"
                           else if Reaches(sqrt, vector, version, enrolled, threshold) then "known"
                           else if Reaches(sqrt, vector, version, enrolled, threshold - 0.05) then "uncertain"
                           else "unknown"
  {
    hide Cosine;
    ScanIsMaximum(sqrt, vector, version, enrolled);
    var b := Scan(sqrt, vector, version, enrolled);
    if b.id.Some? {
      var e :| Eligible(version, enrolled, e) && e.personId == b.id.value
               && Cosine(sqrt, vector, e.embedding) == b.score;
    }
  }

  /** Entry `i` is of the version searched for, and every earlier such entry scores lower. */
  ghost predicate FirstOfScore(sqrt: real -> real, vector: seq<real>, version: string, enrolled: seq<Enrolled>,
                               i: int) {
    && 0 <= i < |enrolled| && enrolled[i].version == version
    && forall j :: 0 <= j < i && enrolled[j].version == version ==>
         Cosine(sqrt, vector, enrolled[j].embedding) < Cosine(sqrt, vector, enrolled[i].embedding)
  }

  /** On a tie the entry standing first is named. */
  lemma {:induction false} FirstIsNamed(sqrt: real -> real, vector: seq<real>, version: string,
                                        enrolled: seq<Enrolled>)
    ensures var b := Scan(sqrt, vector, version, enrolled);
            b.id.Some? ==>
              exists i :: FirstOfScore(sqrt, vector, version, enrolled, i)
                          && enrolled[i].personId == b.id.value
                          && Cosine(sqrt, vector, enrolled[i].embedding) == b.score
  {
    hide Cosine;
    if enrolled != [] {
      var n := |enrolled| - 1;
      var before := enrolled[..n];
      var b, r := Scan(sqrt, vector, version, before), Scan(sqrt, vector, version, enrolled);
      FirstIsNamed(sqrt, vector, version, before);
      ScanIsMaximum(sqrt, vector, version, before);
      if r != b {
        assert forall j :: 0 <= j < n ==> before[j] == enrolled[j] && before[j] in before;
        assert FirstOfScore(sqrt, vector, version, enrolled, n);
      } else if b.id.Some? {
        var i :| FirstOfScore(sqrt, vector, version, before, i) && before[i].personId == b.id.value
                 && Cosine(sqrt, vector, before[i].embedding) == b.score;
        assert FirstOfScore(sqrt, vector, version, enrolled, i);
      }
    }
  }
}
