/** Facts about division of reals by a positive divisor, kept in small
    lemmas so that the solver meets each product on its own. */
module Reals {

  lemma FactorNonNegative(a: real, n: real)
    requires n > 0.0 && a * n >= 0.0
    ensures a >= 0.0
  {
  }

  /** Dividing by a positive number keeps the order. */
  lemma DivMonotone(x: real, y: real, d: real)
    requires d > 0.0 && x <= y
    ensures x / d <= y / d
  {
    assert (y / d - x / d) * d == y - x;
    FactorNonNegative(y / d - x / d, d);
  }

  /** A quotient of a number in [0, d] by d lies in [0, 1]. */
  lemma QuotientInUnitInterval(s: real, d: real)
    requires d > 0.0 && 0.0 <= s <= d
    ensures 0.0 <= s / d <= 1.0
  {
    assert (s / d) * d == s;
    FactorNonNegative(s / d, d);
    assert (1.0 - s / d) * d == d - s;
    FactorNonNegative(1.0 - s / d, d);
  }

  /** A quotient by a positive number is 0 exactly when the dividend is. */
  lemma QuotientZero(s: real, d: real)
    requires d > 0.0
    ensures s / d == 0.0 <==> s == 0.0
  {
    assert (s / d) * d == s;
  }

  lemma DivSelf(d: real)
    requires d > 0.0
    ensures d / d == 1.0
  {
  }
}
