/** The effective inflation of app/mint.go. */
module Mint {
  import opened Wrappers
  import opened Decimal
  import opened Arithmetic

  datatype MintError = Overflow | NonPositiveStake

  const TWO_256: int := 0x1_0000000000000000_0000000000000000_0000000000000000_0000000000000000

  /** What is left of the developer stake after the pool fees, given in percent. */
  function DevStakeMinusFees(devStake: int, totalFees: int): int {
    TruncDiv(devStake * (100 - totalFees), 100)
  }

  /** getDelegatorStakeRatio on the values read from the keepers; SafeSub fails beyond 256 bits. */
  function StakeRatio(totalStake: int, devStake: int, totalFees: int): Result<int, MintError> {
    var delStake := totalStake - DevStakeMinusFees(devStake, totalFees);
    if !(-TWO_256 < delStake < TWO_256) then Err(Overflow)
    else if totalStake <= 0 || delStake <= 0 then Err(NonPositiveStake)
    else Ok(Quo(FromInt(delStake), FromInt(totalStake)))
  }

  /** CustomMintQueryServer.Inflation: without a ratio the minter's own inflation is returned. */
  function Inflation(minterInflation: int, ratio: Result<int, MintError>): int {
    match ratio
    case Err(_) => minterInflation
    case Ok(r) => Mul(minterInflation, r)
  }

  lemma TruncatedQuotient(part: nat, whole: nat)
    requires whole > 0
    ensures var t := TruncDiv(FromInt(part) * ONE * ONE, FromInt(whole));
            t >= 0 && t * whole <= part * ONE * ONE < (t + 1) * whole
  {
    WholeQuotient(part, whole);
    QuotientBounds(part * ONE * ONE, whole);
  }

  /** A fraction of a whole lies between zero and one and is the exact one up to half a unit in the last place. */
  lemma FractionBounds(part: nat, whole: nat)
    requires 0 < part <= whole
    ensures var r := Quo(FromInt(part), FromInt(whole));
            && 0 <= r <= ONE
            && -(HALF + 1) * whole <= r * ONE * whole - part * ONE * ONE <= HALF * whole
  {
    var t := TruncDiv(FromInt(part) * ONE * ONE, FromInt(whole));
    TruncatedQuotient(part, whole);
    assert t <= ONE * ONE by { FractionAtMostOne(t, part, whole); }
    ChopMonotone(0, t);
    ChopMonotone(t, ONE * ONE);
    ChopExact(ONE);
    ChopNearest(t);
    RoundedFraction(t, Chop(t), part, whole);
  }

  lemma FractionAtMostOne(t: nat, part: nat, whole: nat)
    requires part <= whole && t * whole <= part * ONE * ONE && whole > 0
    ensures t <= ONE * ONE
  {
    assert part * ONE * ONE <= (ONE * ONE) * whole;
    CancelAtMost(t, ONE * ONE, whole);
  }

  /** A hundred times the delegators' stake, before the developer stake net of fees is rounded to whole tokens. */
  function DelegatorHundredths(totalStake: int, devStake: int, totalFees: int): int {
    100 * totalStake - devStake * (100 - totalFees)
  }

  /** The delegators' stake is theirs rounded up to whole tokens. */
  lemma DelegatorStake(totalStake: int, devStake: nat, totalFees: int)
    requires 0 <= totalFees <= 100
    ensures var del := totalStake - DevStakeMinusFees(devStake, totalFees);
            && del <= totalStake
            && 100 * (del - 1) < DelegatorHundredths(totalStake, devStake, totalFees) <= 100 * del
  {
    assert devStake * (100 - totalFees) >= 0;
  }

  /**
   For pool fees of at most 100 percent: a ratio is returned exactly when the delegators hold something; it lies
   in [0, 1] and is their part of the total stake, cut at 36 places and rounded to the nearest at 18.
   */
  lemma RatioIsDelegatorPart(totalStake: nat, devStake: nat, totalFees: int)
    requires 0 <= totalFees <= 100 && totalStake < TWO_256 && devStake < TWO_256
    ensures var ratio := StakeRatio(totalStake, devStake, totalFees);
            var del := totalStake - DevStakeMinusFees(devStake, totalFees);
            && (ratio.Ok? <==> DelegatorHundredths(totalStake, devStake, totalFees) > 0)
            && (ratio.Ok? ==>
                  && 0 <= ratio.value <= ONE
                  && -(HALF + 1) * totalStake <= ratio.value * ONE * totalStake - del * ONE * ONE <= HALF * totalStake)
  {
    DelegatorStake(totalStake, devStake, totalFees);
    var del := totalStake - DevStakeMinusFees(devStake, totalFees);
    assert devStake * (100 - totalFees) <= devStake * 100;
    if del > 0 { FractionBounds(del, totalStake); }
  }

  /** Which of the two errors is returned, and when. */
  lemma RatioRefused(totalStake: int, devStake: int, totalFees: int)
    ensures var r := StakeRatio(totalStake, devStake, totalFees);
            var del := totalStake - DevStakeMinusFees(devStake, totalFees);
            var fits := -TWO_256 < del && del < TWO_256;
            && (r == Err(Overflow) <==> !fits)
            && (r == Err(NonPositiveStake) <==> fits && (totalStake <= 0 || del <= 0))
  {
  }

  /**
   The effective inflation lies between zero and the minter's inflation; with a ratio it is their product rounded
   to the nearest, without one it is the minter's inflation.
   */
  lemma InflationBounds(totalStake: int, devStake: nat, totalFees: int, minterInflation: nat)
    requires 0 <= totalFees <= 100
    ensures var ratio := StakeRatio(totalStake, devStake, totalFees); var i := Inflation(minterInflation, ratio);
            && 0 <= i <= minterInflation
            && (if ratio.Ok? then 0 <= ratio.value <= ONE && -HALF <= minterInflation * ratio.value - i * ONE <= HALF
                else i == minterInflation)
  {
    var ratio := StakeRatio(totalStake, devStake, totalFees);
    if ratio.Ok? {
      DelegatorStake(totalStake, devStake, totalFees);
      FractionBounds(totalStake - DevStakeMinusFees(devStake, totalFees), totalStake);
      var r := ratio.value;
      assert 0 <= minterInflation * r <= minterInflation * ONE by { Product(minterInflation, r); }
      ChopMonotone(0, minterInflation * r);
      ChopMonotone(minterInflation * r, minterInflation * ONE);
      ChopExact(minterInflation);
      ChopNearest(minterInflation * r);
    }
  }

  lemma Product(x: nat, r: int)
    requires 0 <= r <= ONE
    ensures 0 <= x * r <= x * ONE
  {
    assert x * (ONE - r) >= 0;
  }
}
