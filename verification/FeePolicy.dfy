/** The minimum fee: what app/ante/fee.go demands and what sdk/tx.go offers. */
module FeePolicy {
  import opened Wrappers
  import opened Coins
  import opened Decimal

  const TWO_63: int := 0x8000_0000_0000_0000
  const TWO_64: int := 0x1_0000_0000_0000_0000

  type Uint64 = x: int | 0 <= x < TWO_64

  const MICRO_OPEN := "uopen"
  const MICRO_CREDIT := "ucredit"
  /** DefaultMinGasPrice, "0.001" */
  const DEFAULT_MIN_GAS_PRICE: int := 1_000_000_000_000_000
  const CREDIT_FEE_MULTIPLIER := 10

  datatype FeeCheckError = ZeroFees | TooManyDenoms | UnsupportedDenom | InsufficientFee

  /** A Go uint64 cast to int64. */
  function Int64(x: Uint64): int {
    if x < TWO_63 then x else x - TWO_64
  }

  function Multiplier(denom: string): int {
    if denom == MICRO_CREDIT then CREDIT_FEE_MULTIPLIER else 1
  }

  /** A validator price of zero is replaced by the default. */
  function EffectivePrice(price: int): int {
    if price == 0 then DEFAULT_MIN_GAS_PRICE else price
  }

  function RequiredAmount(price: int, gas: int, multiplier: int): int {
    RoundInt(Ceil(Mul(Mul(price, FromInt(gas)), FromInt(multiplier))))
  }

  /**
   checkTxFeeWithMinGasPrices; `allowZero` is the chain setting, None without a core keeper; `price(denom)` may be nil.
   */
  function CheckFee(fees: CoinList, gas: Uint64, checkTx: bool, allowZero: Option<bool>, price: string -> Option<int>):
    Result<CoinList, FeeCheckError>
  {
    if fees == [] then (if allowZero == Some(true) then Ok(fees) else Err(ZeroFees))
    else if |fees| > 1 then Err(TooManyDenoms)
    else if !checkTx then Ok(fees)
    else
      var fee := fees[0];
      match price(fee.denom)
      case None => Err(UnsupportedDenom)
      case Some(p) =>
        if fee.amount < RequiredAmount(EffectivePrice(p), Int64(gas), Multiplier(fee.denom)) then Err(InsufficientFee)
        else Ok(fees)
  }

  /** The fee evaluateTx computes for an adjusted gas limit. */
  function ClientFee(gas: Uint64, denom: string): int {
    RequiredAmount(DEFAULT_MIN_GAS_PRICE, gas, Multiplier(denom))
  }

  // ---------- No rounding loss ----------

  /** The required amount is the exact product of price, gas and multiplier, rounded up once. */
  lemma RequiredIsCeiling(price: int, gas: int, multiplier: int)
    ensures var n := RequiredAmount(price, gas, multiplier);
            (n - 1) * ONE < price * gas * multiplier <= n * ONE
  {
    MulWhole(price, gas);
    MulWhole(price * gas, multiplier);
    CeilIsCeiling(price * gas * multiplier);
  }

  lemma AtLeastRequired(x: int, price: int, gas: int, multiplier: int)
    ensures x >= RequiredAmount(price, gas, multiplier) <==> x * ONE >= price * gas * multiplier
  {
    RequiredIsCeiling(price, gas, multiplier);
  }

  /**
   In CheckTx a single fee coin of a supported denomination passes exactly when the price it pays per gas, taken as the
   int64 it is cast to, meets the minimum.
   */
  lemma PassesIffPriceMet(fee: Coin, gas: Uint64, allowZero: Option<bool>, price: string -> Option<int>)
    ensures CheckFee([fee], gas, true, allowZero, price).Ok? <==>
            price(fee.denom).Some? &&
            fee.amount * ONE >= EffectivePrice(price(fee.denom).value) * Int64(gas) * Multiplier(fee.denom)
  {
    hide RequiredAmount, EffectivePrice, Multiplier;
    if price(fee.denom).Some? {
      AtLeastRequired(fee.amount, EffectivePrice(price(fee.denom).value), Int64(gas), Multiplier(fee.denom));
    }
  }

  /**
   For a positive price the check is a lower bound on what a fee of one unit or more must pay exactly when the gas
   limit is below 2^63: above it the cast makes the required amount non-positive and every fee passes. The check of the
   SDK that runs before the fee decorator refuses such gas limits, so this is about the function alone.
   */
  lemma FloorHoldsIffGasFits(gas: Uint64, denom: string, price: int)
    requires gas > 0 && price > 0
    ensures (forall x :: x >= 0 && x >= RequiredAmount(price, Int64(gas), Multiplier(denom)) ==>
                           x * ONE >= price * gas * Multiplier(denom)) <==> gas < TWO_63
  {
    var m := Multiplier(denom);
    assert m > 0;
    hide RequiredAmount, Multiplier;
    if gas < TWO_63 {
      forall x | x >= RequiredAmount(price, gas, m) ensures x * ONE >= price * gas * m {
        AtLeastRequired(x, price, gas, m);
      }
    } else {
      Positive(price, gas, m);
      Negative(price, -Int64(gas), m);
      AtLeastRequired(0, price, Int64(gas), m);
      assert 0 >= RequiredAmount(price, Int64(gas), m);
    }
  }

  lemma Positive(a: int, b: int, c: int)
    requires a > 0 && b > 0 && c > 0
    ensures a * b * c > 0
  {
    assert a * b > 0;
  }

  lemma Negative(a: int, b: int, c: int)
    requires a > 0 && b > 0 && c > 0
    ensures a * (-b) * c < 0
  {
    assert a * (-b) < 0;
  }

  // ---------- The price in figures ----------

  /**
   The node's check on a single fee coin, without a name for any constant: prices are in units of 10^-18, a price of
   zero counts as 0.001, "ucredit" costs ten times as much, and the gas limit is read as an int64.
   */
  lemma PriceInFigures(fee: Coin, gas: Uint64, allowZero: Option<bool>, price: string -> Option<int>)
    ensures var r := CheckFee([fee], gas, true, allowZero, price);
            var signed := if gas < 0x8000_0000_0000_0000 then gas else gas - 0x1_0000_0000_0000_0000;
            match price(fee.denom)
            case None => r == Err(UnsupportedDenom)
            case Some(p) =>
              var floor := if p == 0 then 1_000_000_000_000_000 else p;
              if fee.amount * 1_000_000_000_000_000_000 >= floor * signed * (if fee.denom == "ucredit" then 10 else 1)
              then r == Ok([fee]) else r == Err(InsufficientFee)
  {
    PassesIffPriceMet(fee, gas, allowZero, price);
    hide RequiredAmount;
  }

  /** The check on any fee: none passes only where the chain allows it, two never, one always outside CheckTx. */
  lemma FeeCheckedExactly(
    fees: CoinList, gas: Uint64, checkTx: bool, allowZero: Option<bool>, price: string -> Option<int>)
    ensures var r := CheckFee(fees, gas, checkTx, allowZero, price);
            && (|fees| == 0 ==> r == if allowZero == Some(true) then Ok([]) else Err(ZeroFees))
            && (|fees| > 1 ==> r == Err(TooManyDenoms))
            && (|fees| == 1 && !checkTx ==> r == Ok(fees))
            && (|fees| == 1 && checkTx ==> r == CheckFee([fees[0]], gas, true, allowZero, price))
  {
    if |fees| == 1 { assert fees == [fees[0]]; }
  }

  /** The client's fee in the same figures: 0.001 a unit of gas, ten times that in "ucredit", rounded up. */
  lemma ClientFeeInFigures(gas: Uint64, denom: string)
    ensures var n := ClientFee(gas, denom); var m := if denom == "ucredit" then 10 else 1;
            (n - 1) * 1_000_000_000_000_000_000 < 1_000_000_000_000_000 * gas * m <= n * 1_000_000_000_000_000_000
  {
    RequiredIsCeiling(DEFAULT_MIN_GAS_PRICE, gas, Multiplier(denom));
    hide RequiredAmount;
  }

  // ---------- Client and node agree ----------

  lemma PriceMonotone(p: int, q: int, gas: nat, multiplier: nat)
    requires 0 <= p <= q
    ensures p * gas * multiplier <= q * gas * multiplier
  {
    assert (q - p) * gas >= 0;
    assert (q * gas - p * gas) * multiplier >= 0;
  }

  /**
   For every gas limit below 2^63 and both fee denominations, the client's fee passes the check of every
   validator whose minimum price is at most the default; where that price is zero or the default, one unit less fails.
   */
  lemma ClientFeePasses(gas: Uint64, denom: string, price: string -> Option<int>, allowZero: Option<bool>)
    requires 1 <= gas < TWO_63 && denom in {MICRO_OPEN, MICRO_CREDIT}
    requires price(denom).Some? && 0 <= price(denom).value <= DEFAULT_MIN_GAS_PRICE
    ensures ClientFee(gas, denom) > 0
    ensures CheckFee([Coin(denom, ClientFee(gas, denom))], gas, true, allowZero, price) ==
            Ok([Coin(denom, ClientFee(gas, denom))])
    ensures price(denom).value in {0, DEFAULT_MIN_GAS_PRICE} ==>
              CheckFee([Coin(denom, ClientFee(gas, denom) - 1)], gas, true, allowZero, price) == Err(InsufficientFee)
  {
    var p, m, x := EffectivePrice(price(denom).value), Multiplier(denom), ClientFee(gas, denom);
    assert m > 0 && 0 < p <= DEFAULT_MIN_GAS_PRICE &&
      (price(denom).value in {0, DEFAULT_MIN_GAS_PRICE} ==> p == DEFAULT_MIN_GAS_PRICE);
    hide RequiredAmount, Multiplier, EffectivePrice;
    RequiredIsCeiling(DEFAULT_MIN_GAS_PRICE, gas, m);
    Positive(DEFAULT_MIN_GAS_PRICE, gas, m);
    PriceMonotone(p, DEFAULT_MIN_GAS_PRICE, gas, m);
    AtLeastRequired(x, p, gas, m);
  }

  // ---------- The client ----------

  /** The transaction under construction. */
  class TxDraft {
    var gasLimit: Uint64
    var fee: CoinList
    var feeGranter: Option<string>

    constructor ()
      ensures gasLimit == 0 && fee == [] && feeGranter == None
    {
      gasLimit, fee, feeGranter := 0, [], None;
    }
  }

  class TxBuilder {
    var gasLimit: Uint64
    var feeAmt: int
    const feeTokenDenom: string
    const feeGranter: Option<string>

    constructor (denom: string, granter: Option<string>, gas: Uint64, amount: int)
      ensures feeTokenDenom == denom && feeGranter == granter && gasLimit == gas && feeAmt == amount
    {
      feeTokenDenom, feeGranter, gasLimit, feeAmt := denom, granter, gas, amount;
    }

    /**
     evaluateTx after a simulation that used `gasUsed`; `adjusted` is that amount after the
     floating-point gas adjustment. No simulated gas leaves everything as it was.
     */
    method EvaluateTx(tx: TxDraft, gasUsed: Uint64, adjusted: Uint64)
      modifies this, tx
      ensures gasUsed == 0 ==> gasLimit == old(gasLimit) && feeAmt == old(feeAmt)
      ensures gasUsed == 0 ==> tx.gasLimit == old(tx.gasLimit) && tx.fee == old(tx.fee)
      ensures gasUsed == 0 ==> tx.feeGranter == old(tx.feeGranter)
      ensures gasUsed > 0 ==> gasLimit == tx.gasLimit == adjusted && feeAmt == ClientFee(adjusted, feeTokenDenom)
      ensures gasUsed > 0 ==> tx.feeGranter == if feeGranter.Some? then feeGranter else old(tx.feeGranter)
      ensures gasUsed > 0 ==> tx.fee == if adjusted == 0 then [] else [Coin(feeTokenDenom, feeAmt)]
    {
      if gasUsed == 0 {
        return;
      }
      tx.gasLimit := adjusted;
      gasLimit := adjusted;
      var multiplier := if feeTokenDenom == MICRO_CREDIT then CREDIT_FEE_MULTIPLIER else 1;
      var required := RequiredAmount(DEFAULT_MIN_GAS_PRICE, adjusted, multiplier);
      ClientFeeFits(adjusted, feeTokenDenom);
      hide RequiredAmount;
      tx.fee := if required == 0 then [] else [Coin(feeTokenDenom, required)];
      if -TWO_63 <= required < TWO_63 {
        feeAmt := required;
      }
      if feeGranter.Some? {
        tx.feeGranter := feeGranter;
      }
    }
  }

  /** The fee always fits the builder's int64, and is zero only for zero gas. */
  lemma ClientFeeFits(gas: Uint64, denom: string)
    ensures 0 <= ClientFee(gas, denom) < TWO_63
    ensures ClientFee(gas, denom) == 0 <==> gas == 0
  {
    RequiredIsCeiling(DEFAULT_MIN_GAS_PRICE, gas, Multiplier(denom));
  }
}
