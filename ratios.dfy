/** Facts about the ratio comparisons the engine's thresholds are written as. */
module Ratios {
  /** Comparing a ratio with a bound is comparing the numerator with the
      bound times the denominator. */
  lemma RatioAtLeast(a: real, d: real, bound: real)
    requires d > 0.0
    ensures a / d >= bound <==> a >= bound * d
    ensures a / d <= bound <==> a <= bound * d
  {
    var q := a / d;
    assert q * d == a;
    assert (q - bound) * d == a - bound * d;
    if q > bound {
      assert (q - bound) * d > 0.0;
    } else if q < bound {
      assert (q - bound) * d < 0.0;
    }
  }
}
