/** math.LegacyDec: decimals with 18 places as scaled integers, rounded half to even. */
module Decimal {
  import opened Arithmetic

  const ONE: int := 1_000_000_000_000_000_000
  const HALF: int := 500_000_000_000_000_000

  /** chopPrecisionAndRound on a magnitude: drop 18 places, ties to the even neighbour. */
  function ChopNat(x: nat): nat {
    var q, r := x / ONE, x % ONE;
    if r < HALF then q else if r > HALF then q + 1 else if q % 2 == 0 then q else q + 1
  }

  function Chop(x: int): int {
    if x < 0 then -(ChopNat(-x) as int) else ChopNat(x)
  }

  /** big.Int.Quo truncates towards zero. */
  function TruncDiv(a: int, b: int): int
    requires b != 0
  {
    var q := (if a < 0 then -a else a) / (if b < 0 then -b else b);
    if (a < 0) == (b < 0) then q else -q
  }

  function FromInt(n: int): int {
    n * ONE
  }

  function Mul(a: int, b: int): int {
    Chop(a * b)
  }

  /** The quotient is cut at 36 places and then rounded to 18. */
  function Quo(a: int, b: int): int
    requires b != 0
  {
    Chop(TruncDiv(a * ONE * ONE, b))
  }

  function Ceil(a: int): int {
    var q := TruncDiv(a, ONE);
    if a == q * ONE || a < 0 then q * ONE else (q + 1) * ONE
  }

  function RoundInt(a: int): int {
    Chop(a)
  }

  // ---------- Rounding ----------

  /** The rounded value is a nearest one, and the even one on a tie. */
  lemma ChopNearest(x: int)
    ensures var rest := x - Chop(x) * 1_000_000_000_000_000_000;
            && -500_000_000_000_000_000 <= rest <= 500_000_000_000_000_000
            && (rest in {-500_000_000_000_000_000, 500_000_000_000_000_000} ==> Chop(x) % 2 == 0)
  {
  }

  lemma ChopExact(k: int)
    ensures Chop(k * ONE) == k
  {
  }

  lemma ChopNatMonotone(x: nat, y: nat)
    requires x <= y
    ensures ChopNat(x) <= ChopNat(y)
  {
    if x / ONE < y / ONE {
      assert ChopNat(x) <= x / ONE + 1 <= y / ONE <= ChopNat(y);
    }
  }

  lemma ChopMonotone(x: int, y: int)
    requires x <= y
    ensures Chop(x) <= Chop(y)
  {
    if x >= 0 { ChopNatMonotone(x, y); } else if y < 0 { ChopNatMonotone(-y, -x); }
  }

  /** Multiplying by a whole number loses nothing. */
  lemma MulWhole(a: int, n: int)
    ensures Mul(a, FromInt(n)) == a * n
  {
    assert a * (n * ONE) == (a * n) * ONE;
    ChopExact(a * n);
  }

  /** Rounding up gives the least whole number that is not below the value. */
  lemma CeilIsCeiling(a: int)
    ensures var n := RoundInt(Ceil(a)); (n - 1) * ONE < a <= n * ONE
  {
    var q := TruncDiv(a, ONE);
    ChopExact(q);
    ChopExact(q + 1);
  }

  lemma CancelScale(n: nat, d: nat)
    requires d > 0
    ensures (n * ONE) / (d * ONE) == n / d
  {
    var q, r := n / d, n % d;
    assert n == q * d + r;
    assert n * ONE == q * (d * ONE) + r * ONE;
    QuotientIs(n * ONE, d * ONE, q, r * ONE);
  }

  /** The quotient of two whole numbers, before rounding. */
  lemma WholeQuotient(a: nat, b: nat)
    requires b > 0
    ensures TruncDiv(FromInt(a) * ONE * ONE, FromInt(b)) == a * ONE * ONE / b
  {
    CancelScale(a * ONE * ONE, b);
    assert FromInt(a) * ONE * ONE == (a * ONE * ONE) * ONE;
  }

  /** A quotient that is cut at 36 places and then rounded to 18 is the exact one up to half a unit and the cut. */
  lemma RoundedFraction(t: int, r: int, part: nat, whole: nat)
    requires t * whole <= part * ONE * ONE < (t + 1) * whole && -HALF <= t - r * ONE <= HALF
    ensures -(HALF + 1) * whole <= r * ONE * whole - part * ONE * ONE <= HALF * whole
  {
    assert (r * ONE) * whole <= (t + HALF) * whole == t * whole + HALF * whole;
    assert (r * ONE) * whole >= (t - HALF) * whole == t * whole - HALF * whole;
    assert (t + 1) * whole == t * whole + whole;
    assert (HALF + 1) * whole == HALF * whole + whole;
  }
}
