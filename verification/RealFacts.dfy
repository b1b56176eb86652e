/** Facts of real arithmetic that the solver takes one at a time. */
module RealFacts {

  lemma QuotientTimes(p: real, q: real)
    requires q != 0.0
    ensures (p / q) * q == p && q * (p / q) == p
  {
  }

  lemma QuotientIs(p: real, q: real, r: real)
    requires q != 0.0 && r == p / q
    ensures r * q == p
  {
  }

  lemma QuotientOf(p: real, r: real, d: real)
    requires d > 0.0 && p == r * d
    ensures p / d == r
  {
  }

  lemma PositiveProduct(p: real, q: real, r: real)
    requires p > 0.0 && q > 0.0 && r == p * q
    ensures r > 0.0
  {
  }

  lemma ZeroFactor(x: real)
    ensures 0.0 * x == 0.0
  {
  }

  lemma SquarePositive(a: real, s: real)
    requires a != 0.0 && s == a * a
    ensures s > 0.0
  {
    if a > 0.0 {
      PositiveProduct(a, a, s);
    } else {
      assert s == (-a) * (-a);
      PositiveProduct(-a, -a, s);
    }
  }

  lemma NonNegativeQuotient(p: real, q: real)
    requires p >= 0.0 && q > 0.0
    ensures p / q >= 0.0
  {
  }
}
