/** Signs of products of real numbers, one fact at a time for the solver. */
module RealProducts {
  lemma PositiveProduct(u: real, v: real, a: real)
    requires u > 0.0 && v > 0.0 && a == u * v
    ensures a > 0.0
  {
  }

  lemma NonNegativeProduct(a: real, b: real)
    requires a >= 0.0 && b >= 0.0
    ensures a * b >= 0.0
  {
  }

  lemma Square(x: real) returns (a: real)
    ensures a == x * x && a >= 0.0
    ensures x != 0.0 ==> a > 0.0
  {
    a := x * x;
    if x > 0.0 {
      PositiveProduct(x, x, a);
    } else if x < 0.0 {
      PositiveProduct(-x, -x, a);
    }
  }
}
