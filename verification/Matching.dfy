/** Identity matching by cosine similarity within one model version, and the classification bands.
    The square root is a parameter, required only to be one. */
module Matching {
  import opened Options
  import opened RealProducts

  ghost predicate IsSqrt(sqrt: real -> real) {
    forall x :: x >= 0.0 ==> sqrt(x) >= 0.0 && sqrt(x) * sqrt(x) == x
  }

  function Dot(a: seq<real>, b: seq<real>): real
    requires |a| == |b|
  {
    if a == [] then 0.0 else Dot(a[1..], b[1..]) + a[0] * b[0]
  }

  function Cosine(sqrt: real -> real, a: seq<real>, b: seq<real>): real {
    if |a| != |b| || a == [] then 0.0
    else Ratio(Dot(a, b), sqrt(Dot(a, a)), sqrt(Dot(b, b)))
  }

  /** The product over the norms, 0 for a zero vector. */
  function Ratio(dot: real, na: real, nb: real): real {
    if na == 0.0 || nb == 0.0 then 0.0 else dot / (na * nb)
  }

  // ---------------------------------------------------------------- Cauchy-Schwarz

  /** The squared length of t a - b, as a polynomial in t. */
  function Quadratic(t: real, aa: real, ab: real, bb: real): real {
    t * t * aa - 2.0 * t * ab + bb
  }

  lemma TimesSum(k: real, a: real, b: real)
    ensures k * (a + b) == k * a + k * b
  {
  }

  lemma QuadraticAdds(t: real, aa: real, ab: real, bb: real, p: real, q: real, r: real)
    ensures Quadratic(t, aa + p, ab + q, bb + r) == Quadratic(t, aa, ab, bb) + Quadratic(t, p, q, r)
  {
    TimesSum(t * t, aa, p);
    TimesSum(2.0 * t, ab, q);
  }

  lemma SquareOfDifference(u: real, y: real)
    ensures (u - y) * (u - y) == u * u - 2.0 * (u * y) + y * y
  {
  }

  lemma ProductsOf(t: real, x: real, y: real)
    ensures (t * x) * (t * x) == t * t * (x * x)
    ensures 2.0 * ((t * x) * y) == 2.0 * t * (x * y)
  {
  }

  /** For one coordinate the polynomial is a square. */
  lemma QuadraticOfPair(t: real, x: real, y: real)
    ensures Quadratic(t, x * x, x * y, y * y) >= 0.0
  {
    var s := Square(t * x - y);
    SquareOfDifference(t * x, y);
    ProductsOf(t, x, y);
  }

  lemma QuadraticGrows(t: real, aa: real, ab: real, bb: real, x: real, y: real, aa': real, ab': real, bb': real)
    requires aa' == aa + x * x && ab' == ab + x * y && bb' == bb + y * y
    ensures Quadratic(t, aa', ab', bb') >= Quadratic(t, aa, ab, bb)
  {
    hide Quadratic;
    QuadraticAdds(t, aa, ab, bb, x * x, x * y, y * y);
    QuadraticOfPair(t, x, y);
  }

  lemma {:induction false} QuadraticNonNegative(t: real, a: seq<real>, b: seq<real>)
    requires |a| == |b|
    ensures Quadratic(t, Dot(a, a), Dot(a, b), Dot(b, b)) >= 0.0
  {
    hide Quadratic;
    if a == [] {
      ZeroQuadratic(t);
    } else {
      QuadraticNonNegative(t, a[1..], b[1..]);
      QuadraticGrows(t, Dot(a[1..], a[1..]), Dot(a[1..], b[1..]), Dot(b[1..], b[1..]), a[0], b[0],
                     Dot(a, a), Dot(a, b), Dot(b, b));
    }
  }

  lemma ZeroQuadratic(t: real)
    ensures Quadratic(t, 0.0, 0.0, 0.0) == 0.0
  {
  }

  lemma {:induction false} NormNonNegative(a: seq<real>)
    ensures Dot(a, a) >= 0.0
  {
    if a != [] {
      NormNonNegative(a[1..]);
      var s := Square(a[0]);
    }
  }

  lemma {:induction false} ZeroVector(a: seq<real>, b: seq<real>)
    requires |a| == |b| && Dot(a, a) == 0.0
    ensures Dot(a, b) == 0.0
  {
    if a != [] {
      NormNonNegative(a[1..]);
      var s := Square(a[0]);
      ZeroVector(a[1..], b[1..]);
    }
  }

  lemma MinimumOfQuadratic(aa: real, ab: real, bb: real)
    requires aa > 0.0 && Quadratic(ab / aa, aa, ab, bb) >= 0.0
    ensures ab * ab <= aa * bb
  {
    var t := ab / aa;
    assert t * aa == ab;
    assert t * t * aa == t * ab;
    var m := bb - t * ab;
    assert Quadratic(t, aa, ab, bb) == m;
    NonNegativeProduct(aa, m);
    assert aa * m == aa * bb - (t * aa) * ab;
  }

  /** The Cauchy-Schwarz inequality for vectors of any length. */
  lemma CauchySchwarz(a: seq<real>, b: seq<real>)
    requires |a| == |b|
    ensures Dot(a, b) * Dot(a, b) <= Dot(a, a) * Dot(b, b)
  {
    hide Dot, Quadratic;
    NormNonNegative(a);
    if Dot(a, a) == 0.0 {
      ZeroVector(a, b);
    } else {
      QuadraticNonNegative(Dot(a, b) / Dot(a, a), a, b);
      MinimumOfQuadratic(Dot(a, a), Dot(a, b), Dot(b, b));
    }
  }

  lemma LargerSquare(d: real, m: real)
    requires d > m > 0.0
    ensures d * d > m * m
  {
    PositiveProduct(d - m, d + m, (d - m) * (d + m));
    assert (d - m) * (d + m) == d * d - m * m;
  }

  lemma SquaresOrdered(d: real, m: real)
    requires m > 0.0 && d * d <= m * m
    ensures -m <= d <= m
  {
    if d > m {
      LargerSquare(d, m);
    } else if -d > m {
      LargerSquare(-d, m);
    }
  }

  lemma QuotientInUnit(d: real, na: real, nb: real)
    requires na * nb > 0.0 && -(na * nb) <= d <= na * nb
    ensures -1.0 <= d / (na * nb) <= 1.0
  {
    var m := na * nb;
    var q := d / m;
    assert q * m == d;
  }

  /** Cosine similarity lies between -1 and 1. */
  lemma CosineInRange(sqrt: real -> real, a: seq<real>, b: seq<real>)
    requires IsSqrt(sqrt)
    ensures -1.0 <= Cosine(sqrt, a, b) <= 1.0
  {
    hide Dot, Ratio;
    if |a| == |b| && a != [] {
      NormNonNegative(a);
      NormNonNegative(b);
      CauchySchwarz(a, b);
      QuotientOfNorms(Dot(a, b), Dot(a, a), Dot(b, b), sqrt(Dot(a, a)), sqrt(Dot(b, b)));
    }
  }

  lemma QuotientOfNorms(d: real, aa: real, bb: real, na: real, nb: real)
    requires na >= 0.0 && nb >= 0.0 && na * na == aa && nb * nb == bb && d * d <= aa * bb
    ensures -1.0 <= Ratio(d, na, nb) <= 1.0
  {
    if na != 0.0 && nb != 0.0 {
      var m := na * nb;
      PositiveProduct(na, nb, m);
      assert m * m == aa * bb;
      SquaresOrdered(d, m);
      QuotientInUnit(d, na, nb);
    }
  }

  // ---------------------------------------------------------------- classification

  const UNCERTAIN_DELTA := 0.05

  function Classify(similarity: Option<real>, threshold: real, delta: real): string {
    if similarity.None? then "unknown"
    else if similarity.value >= threshold then "known"
    else if similarity.value >= threshold - delta then "uncertain"
    else "unknown"
  }

  // ---------------------------------------------------------------- search

  datatype Enrolled = Enrolled(personId: string, embedding: seq<real>, version: string)

  datatype Recognition = Recognition(personId: Option<string>, similarity: Option<real>, status: string)

  datatype Best = Best(id: Option<string>, score: real)

  /** The scan: the first same-version entry of largest score, if any score exceeds -1. */
  function Scan(sqrt: real -> real, vector: seq<real>, version: string, enrolled: seq<Enrolled>): Best {
    if enrolled == [] then Best(None, -1.0)
    else
      var n := |enrolled| - 1;
      var b := Scan(sqrt, vector, version, enrolled[..n]);
      var score := Cosine(sqrt, vector, enrolled[n].embedding);
      if enrolled[n].version == version && score > b.score then Best(Some(enrolled[n].personId), score) else b
  }

  /** An empty id counts as no match. */
  function Recognized(b: Best, threshold: real): Recognition {
    var similarity := if b.id.Some? && b.id.value != "" then Some(b.score) else None;
    Recognition(b.id, similarity, Classify(similarity, threshold, UNCERTAIN_DELTA))
  }

  method Search(sqrt: real -> real, threshold: real, vector: seq<real>, version: string, enrolled: seq<Enrolled>)
    returns (r: Recognition)
    ensures r == Recognized(Scan(sqrt, vector, version, enrolled), threshold)
  {
    var bestId: Option<string>, bestScore := None, -1.0;
    for i := 0 to |enrolled|
      invariant Best(bestId, bestScore) == Scan(sqrt, vector, version, enrolled[..i])
    {
      assert enrolled[..i + 1][..i] == enrolled[..i];
      if enrolled[i].version != version {
        continue;
      }
      var score := Cosine(sqrt, vector, enrolled[i].embedding);
      if score > bestScore {
        bestScore, bestId := score, Some(enrolled[i].personId);
      }
    }
    assert enrolled[..|enrolled|] == enrolled;
    var similarity := if bestId.Some? && bestId.value != "" then Some(bestScore) else None;
    r := Recognition(bestId, similarity, Classify(similarity, threshold, UNCERTAIN_DELTA));
  }

  ghost predicate Eligible(version: string, enrolled: seq<Enrolled>, e: Enrolled) {
    e in enrolled && e.version == version
  }

  ghost predicate Attains(sqrt: real -> real, vector: seq<real>, version: string, enrolled: seq<Enrolled>, id: string,
                          score: real) {
    exists e :: Eligible(version, enrolled, e) && e.personId == id && Cosine(sqrt, vector, e.embedding) == score
  }

  /** No eligible entry scores higher, and the score is that of an entry with the id found. */
  ghost predicate IsMaximum(sqrt: real -> real, vector: seq<real>, version: string, enrolled: seq<Enrolled>, b: Best) {
    && (forall e :: Eligible(version, enrolled, e) ==> Cosine(sqrt, vector, e.embedding) <= b.score)
    && match b.id
       case None => b.score == -1.0
       case Some(id) => b.score > -1.0 && Attains(sqrt, vector, version, enrolled, id, b.score)
  }

  lemma EligibleSplit(version: string, enrolled: seq<Enrolled>, e: Enrolled)
    requires enrolled != []
    ensures var n := |enrolled| - 1;
            Eligible(version, enrolled, e)
            <==> Eligible(version, enrolled[..n], e) || (e == enrolled[n] && e.version == version)
  {
    assert enrolled == enrolled[..|enrolled| - 1] + [enrolled[|enrolled| - 1]];
  }

  lemma {:induction false} ScanIsMaximum(sqrt: real -> real, vector: seq<real>, version: string,
                                         enrolled: seq<Enrolled>)
    ensures IsMaximum(sqrt, vector, version, enrolled, Scan(sqrt, vector, version, enrolled))
  {
    hide Cosine;
    if enrolled != [] {
      var n := |enrolled| - 1;
      var b, r := Scan(sqrt, vector, version, enrolled[..n]), Scan(sqrt, vector, version, enrolled);
      ScanIsMaximum(sqrt, vector, version, enrolled[..n]);
      forall e | Eligible(version, enrolled, e) ensures Cosine(sqrt, vector, e.embedding) <= r.score {
        EligibleSplit(version, enrolled, e);
      }
      EligibleSplit(version, enrolled, enrolled[n]);
      if r.id.Some? && r == b {
        var e :| Eligible(version, enrolled[..n], e) && e.personId == r.id.value
                 && Cosine(sqrt, vector, e.embedding) == r.score;
        EligibleSplit(version, enrolled, e);
      }
    }
  }

  /** Nobody is found exactly when every same-version score is -1, the least possible: starting the
      search at -1 loses no other candidate. */
  lemma NobodyFoundWhen(sqrt: real -> real, vector: seq<real>, version: string, enrolled: seq<Enrolled>)
    requires IsSqrt(sqrt)
    ensures Scan(sqrt, vector, version, enrolled).id.None?
        <==> forall e :: Eligible(version, enrolled, e) ==> Cosine(sqrt, vector, e.embedding) == -1.0
  {
    ScanIsMaximum(sqrt, vector, version, enrolled);
    forall e ensures -1.0 <= Cosine(sqrt, vector, e) {
      CosineInRange(sqrt, vector, e);
    }
  }

  /** The answer is `known` exactly when some same-version entry scores above -1 and reaches the
      threshold, unless the entry found has the empty id, which counts as nobody. */
  lemma KnownWhen(sqrt: real -> real, threshold: real, vector: seq<real>, version: string, enrolled: seq<Enrolled>)
    ensures var b := Scan(sqrt, vector, version, enrolled);
            Recognized(b, threshold).status == "known"
            <==> b.id != Some("")
                 && exists e :: Eligible(version, enrolled, e) && Cosine(sqrt, vector, e.embedding) > -1.0
                                && Cosine(sqrt, vector, e.embedding) >= threshold
  {
    hide Cosine;
    ScanIsMaximum(sqrt, vector, version, enrolled);
    var b := Scan(sqrt, vector, version, enrolled);
    if b.id.Some? {
      var e :| Eligible(version, enrolled, e) && e.personId == b.id.value
               && Cosine(sqrt, vector, e.embedding) == b.score;
    }
  }

  // ---------------------------------------------------------------- what the result depends on

  function OfVersion(version: string, enrolled: seq<Enrolled>): seq<Enrolled> {
    if enrolled == [] then []
    else
      var n := |enrolled| - 1;
      OfVersion(version, enrolled[..n]) + if enrolled[n].version == version then [enrolled[n]] else []
  }

  /** Entries of other versions, wherever they stand, have no influence. */
  lemma {:induction false} OtherVersionsIgnored(sqrt: real -> real, vector: seq<real>, version: string,
                                                enrolled: seq<Enrolled>)
    ensures Scan(sqrt, vector, version, enrolled) == Scan(sqrt, vector, version, OfVersion(version, enrolled))
  {
    if enrolled != [] {
      var n := |enrolled| - 1;
      OtherVersionsIgnored(sqrt, vector, version, enrolled[..n]);
      var of := OfVersion(version, enrolled);
      if enrolled[n].version == version {
        assert of[..|of| - 1] == OfVersion(version, enrolled[..n]) && of[|of| - 1] == enrolled[n];
      } else {
        assert of == OfVersion(version, enrolled[..n]);
      }
    }
  }

  /** The order of the same-version entries can change who is named on a tie, never the score nor
      whether somebody is found. */
  lemma ScoreIgnoresOrder(sqrt: real -> real, vector: seq<real>, version: string, enrolled: seq<Enrolled>,
                          enrolled': seq<Enrolled>)
    requires forall e :: Eligible(version, enrolled, e) <==> Eligible(version, enrolled', e)
    ensures Scan(sqrt, vector, version, enrolled).score == Scan(sqrt, vector, version, enrolled').score
    ensures Scan(sqrt, vector, version, enrolled).id.None? <==> Scan(sqrt, vector, version, enrolled').id.None?
  {
    hide Cosine;
    ScanIsMaximum(sqrt, vector, version, enrolled);
    ScanIsMaximum(sqrt, vector, version, enrolled');
  }
}
