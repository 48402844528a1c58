/**
 * Signs of products and comparison of quotients, over the reals.
 *
 * Metrics are quotients, and most inequalities between metrics are inequalities between
 * products after both sides have been multiplied out. These lemmas do that step once, so
 * that the modules about metrics only have to compare the products.
 *
 * Divisors are positive throughout.
 */
module Fractions {

  lemma ProductSign(d: real, k: real)
    ensures d < 0.0 && k > 0.0 ==> d * k < 0.0
    ensures d > 0.0 && k > 0.0 ==> d * k > 0.0
    ensures d >= 0.0 && k >= 0.0 ==> d * k >= 0.0
  {
  }

  lemma FactorSign(d: real, k: real)
    requires k > 0.0
    ensures d * k >= 0.0 ==> d >= 0.0
    ensures d * k > 0.0 ==> d > 0.0
  {
    ProductSign(d, k);
  }

  /** Quotients compare as their cross products do. */
  lemma CrossMultiply(a: real, m: real, b: real, n: real)
    requires m > 0.0 && n > 0.0
    ensures a * n <= b * m ==> a / m <= b / n
    ensures a * n < b * m ==> a / m < b / n
  {
    FactorSign(b / n - a / m, m * n);
  }
}
