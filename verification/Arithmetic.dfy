/** Products and quotients of integers. */
module Arithmetic {
  import opened Basics

  lemma MulMonotone(x: int, y: int, d: int)
    requires x <= y && 0 <= d
    ensures x * d <= y * d
  {
    assert (y - x) * d >= 0;
  }

  lemma SmallMultiple(m: int, d: int)
    requires d > 0 && -d < m * d < d
    ensures m == 0
  {
    MulMonotone(1, Max(1, m), d);
    MulMonotone(Min(-1, m), -1, d);
  }

  /** Quotient and remainder are the only ones with a remainder in range. */
  lemma QuotientIs(p: int, d: int, r: int, rest: int)
    requires 0 <= rest < d && p == r * d + rest
    ensures p / d == r && p % d == rest
  {
    var q := p / d;
    assert p == q * d + p % d;
    assert (q - r) * d == rest - p % d;
    SmallMultiple(q - r, d);
  }
}
