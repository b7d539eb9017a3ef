/** Facts about products and quotients that the proofs share. */
module Arithmetic {
  lemma Distribute(k: nat, x: int)
    ensures (1 + k) * x == x + k * x
  {
  }

  lemma CancelLess(a: int, b: int, c: nat)
    requires a * c < b * c
    ensures a < b
  {
  }

  lemma CancelAtMost(a: nat, b: nat, c: nat)
    requires c > 0 && a * c <= b * c
    ensures a <= b
  {
  }

  lemma QuotientAtLeast(x: int, k: int, divisor: int)
    requires divisor > 0 && k * divisor <= x
    ensures k <= x / divisor
  {
    assert x < (x / divisor + 1) * divisor;
    CancelLess(k, x / divisor + 1, divisor);
  }

  lemma QuotientBounds(x: nat, divisor: nat)
    requires divisor > 0
    ensures 0 <= x / divisor && x / divisor * divisor <= x < (x / divisor + 1) * divisor
  {
  }

  lemma QuotientIs(x: int, divisor: int, q: int, r: int)
    requires divisor > 0 && x == q * divisor + r && 0 <= r < divisor
    ensures x / divisor == q
  {
    QuotientAtLeast(x, q, divisor);
    assert x / divisor * divisor <= x < q * divisor + divisor == (q + 1) * divisor;
    CancelLess(x / divisor, q + 1, divisor);
  }
}
