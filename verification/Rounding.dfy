/** Quotients of reals rounded to the nearest integer, halves up. */
module Rounding {

  /** r is x/d rounded. */
  predicate RoundsTo(r: int, x: real, d: real) {
    (2.0 * r as real - 1.0) * d <= 2.0 * x < (2.0 * r as real + 1.0) * d
  }

  lemma QuotientOrder(a: real, b: real, d: real)
    requires d > 0.0
    ensures (a <= b ==> a * d <= b * d) && (a < b ==> a * d < b * d)
  {
    if a < b {
      assert (b - a) * d > 0.0;
    }
  }

  lemma TwiceQuotient(x: real, d: real, q: real, twice: real)
    requires d > 0.0 && q == x / d && twice == 2.0 * q
    ensures twice * d == 2.0 * x
  {
    assert q * d == x;
    assert twice * d == 2.0 * (q * d);
  }

  /** Adding one half and rounding down rounds to the nearest. */
  lemma RoundedQuotient(x: real, d: real, r: int)
    requires d > 0.0 && r == (x / d + 0.5).Floor
    ensures RoundsTo(r, x, d)
  {
    var q := x / d;
    assert r as real <= q + 0.5 < r as real + 1.0;
    var twice := 2.0 * q;
    TwiceQuotient(x, d, q, twice);
    QuotientOrder(2.0 * r as real - 1.0, twice, d);
    QuotientOrder(twice, 2.0 * r as real + 1.0, d);
  }
}
