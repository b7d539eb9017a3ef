/** The allowances as the mutable objects of basic_fee.go, periodic_fee.go and filtered_fee.go. */
module AllowanceObjects {
  import opened Wrappers
  import opened Coins
  import A = Allowance

  class GasMeter {
    var consumed: nat

    constructor ()
      ensures consumed == 0
    {
      consumed := 0;
    }

    method ConsumeGas(amount: nat)
      modifies this
      ensures consumed == old(consumed) + amount
    {
      consumed := consumed + amount;
    }
  }

  class BasicAllowance {
    var spendLimit: Option<CoinList>
    var expiration: Option<A.Time>

    constructor (b: A.Basic)
      ensures View() == b
    {
      spendLimit, expiration := b.spendLimit, b.expiration;
    }

    function View(): A.Basic
      reads this
    {
      A.Basic(spendLimit, expiration)
    }

    method Accept(now: A.Time, fee: CoinList) returns (remove: bool, err: Option<A.FeeError>)
      modifies this
      ensures A.Verdict(View(), remove, err) == A.AcceptBasic(old(View()), now, fee)
    {
      if expiration.Some? && expiration.value < now {
        return true, Some(A.LimitExpired);
      }
      if spendLimit.Some? {
        var left := Minus(spendLimit.value, fee);
        if IsAnyNegative(left) {
          return false, Some(A.BasicLimitExceeded);
        }
        spendLimit := Some(left);
        return IsZero(left), None;
      }
      return false, None;
    }
  }

  class PeriodicAllowance {
    var basic: A.Basic
    var period: int
    var periodSpendLimit: CoinList
    var periodCanSpend: CoinList
    var periodReset: A.Time

    constructor (p: A.Periodic)
      ensures View() == p
    {
      basic, period, periodReset := p.basic, p.period, p.periodReset;
      periodSpendLimit, periodCanSpend := p.periodSpendLimit, p.periodCanSpend;
    }

    function View(): A.Periodic
      reads this
    {
      A.Periodic(basic, period, periodSpendLimit, periodCanSpend, periodReset)
    }

    method TryResetPeriod(now: A.Time)
      modifies this
      ensures View() == A.TryReset(old(View()), now)
    {
      if now < periodReset {
        return;
      }
      var total := A.LimitOrEmpty(basic);
      if IsAnyNegative(Minus(total, periodSpendLimit)) && total != [] {
        periodCanSpend := total;
      } else {
        periodCanSpend := periodSpendLimit;
      }
      periodReset := periodReset + period;
      if now > periodReset {
        periodReset := now + period;
      }
    }

    method Accept(now: A.Time, fee: CoinList) returns (remove: bool, err: Option<A.FeeError>)
      modifies this
      ensures A.Verdict(View(), remove, err) == A.AcceptPeriodic(old(View()), now, fee)
    {
      if basic.expiration.Some? && now > basic.expiration.value {
        return true, Some(A.LimitExpired);
      }
      TryResetPeriod(now);
      periodCanSpend := Minus(periodCanSpend, fee);
      if IsAnyNegative(periodCanSpend) {
        return false, Some(A.PeriodLimitExceeded);
      }
      if basic.spendLimit.Some? {
        basic := basic.(spendLimit := Some(Minus(basic.spendLimit.value, fee)));
        if IsAnyNegative(basic.spendLimit.value) {
          return false, Some(A.AbsoluteLimitExceeded);
        }
        return IsZero(basic.spendLimit.value), None;
      }
      return false, None;
    }
  }

  /** The interface FeeAllowanceI: a reference to one of the three kinds. */
  datatype FeeAllowance =
    | BasicRef(basic: BasicAllowance)
    | PeriodicRef(periodic: PeriodicAllowance)
    | FilterRef(filter: AllowedMsgAllowance)

  /**
   The wrapped allowance lives in an `Any`: `inner` is its cached object, `packed` what its bytes encode.
   Only `packed` reaches the store, and Accept works on `inner`.
   */
  class AllowedMsgAllowance {
    var inner: FeeAllowance
    var packed: A.Allowance
    var allowed: seq<A.Text>
    ghost var Repr: set<object>

    ghost predicate Valid()
      reads this, Repr
      decreases Repr
    {
      && this in Repr
      && match inner
         case BasicRef(b) => b in Repr
         case PeriodicRef(p) => p in Repr
         case FilterRef(f) => f in Repr && f.Repr <= Repr && this !in f.Repr && f.Valid()
    }

    /** The cached objects as a value. */
    ghost function View(): A.Allowance
      requires Valid()
      reads this, Repr
      decreases Repr, 1
    {
      A.Filtered(InnerView(), allowed)
    }

    ghost function InnerView(): A.Allowance
      requires Valid()
      reads this, Repr
      decreases Repr, 0
    {
      match inner
      case BasicRef(b) => A.OfBasic(b.View())
      case PeriodicRef(p) => A.OfPeriodic(p.View())
      case FilterRef(f) => f.View()
    }

    /** What marshalling this object writes. */
    function Stored(): A.Allowance
      reads this
    {
      A.Filtered(packed, allowed)
    }

    /** types.NewAnyWithValue(inner): the bytes of the cached object, themselves taken from its packed form. */
    function Snapshot(): A.Allowance
      reads this, match inner case BasicRef(b) => {b as object} case PeriodicRef(p) => {p} case FilterRef(f) => {f}
    {
      match inner
      case BasicRef(b) => A.OfBasic(b.View())
      case PeriodicRef(p) => A.OfPeriodic(p.View())
      case FilterRef(f) => f.Stored()
    }

    /** NewAllowedMsgAllowance */
    constructor (allowance: FeeAllowance, allowedMsgs: seq<A.Text>)
      requires allowance.FilterRef? ==> allowance.filter.Valid()
      ensures Valid() && inner == allowance && allowed == allowedMsgs && packed == Snapshot()
      ensures Repr == {this} + match allowance
                               case BasicRef(b) => {b as object}
                               case PeriodicRef(p) => {p}
                               case FilterRef(f) => f.Repr
    {
      inner, allowed := allowance, allowedMsgs;
      match allowance {
        case BasicRef(b) => packed := A.OfBasic(b.View()); Repr := {this, b};
        case PeriodicRef(p) => packed := A.OfPeriodic(p.View()); Repr := {this, p};
        case FilterRef(f) => packed := f.Stored(); Repr := {this} + f.Repr;
      }
    }

    method SetAllowance()
      modifies this`packed
      ensures packed == old(Snapshot())
    {
      packed := Snapshot();
    }

    /** allowedMsgsToMap */
    method AllowedMsgsToMap(meter: GasMeter) returns (msgsMap: map<A.Text, bool>)
      modifies meter
      ensures meter.consumed == old(meter.consumed) + A.GAS_PER_ITERATION * |allowed|
      ensures forall m :: m in msgsMap && msgsMap[m] <==> m in allowed
    {
      msgsMap := map[];
      for i := 0 to |allowed|
        invariant meter.consumed == old(meter.consumed) + A.GAS_PER_ITERATION * i
        invariant forall m :: m in msgsMap && msgsMap[m] <==> m in allowed[..i]
      {
        meter.ConsumeGas(A.GAS_PER_ITERATION);
        msgsMap := msgsMap[allowed[i] := true];
      }
      assert allowed[..|allowed|] == allowed;
    }

    /** allMsgTypesAllowed: stops at the first message that is not allowed. */
    method AllMsgTypesAllowed(msgs: seq<A.Text>, meter: GasMeter) returns (ok: bool)
      modifies meter
      ensures ok <==> A.AllAllowed(allowed, msgs)
      ensures meter.consumed == old(meter.consumed) + A.LevelGas(allowed, msgs)
    {
      var msgsMap := AllowedMsgsToMap(meter);
      for i := 0 to |msgs|
        invariant forall m <- msgs[..i] :: m in allowed
        invariant meter.consumed + A.GAS_PER_ITERATION * A.Examined(allowed, msgs[i..])
               == old(meter.consumed) + A.LevelGas(allowed, msgs)
      {
        meter.ConsumeGas(A.GAS_PER_ITERATION);
        assert msgs[i..][1..] == msgs[i + 1..];
        if !(msgs[i] in msgsMap && msgsMap[msgs[i]]) {
          return false;
        }
      }
      assert msgs[..|msgs|] == msgs;
      return true;
    }

    /**
     Accept: results and cached objects as on values, gas for every level reached, and what would be
     stored: the new state at every level after an acceptance that keeps the grant, else what it was.
     */
    method Accept(u: A.Use, meter: GasMeter) returns (remove: bool, err: Option<A.FeeError>)
      requires Valid() && meter !in Repr
      modifies Repr, meter
      ensures Valid() && Repr == old(Repr)
      ensures A.Verdict(View(), remove, err) == A.Accept(old(View()), u)
      ensures meter.consumed == old(meter.consumed) + A.FilterGas(old(View()), u.msgs)
      ensures Stored() == if err.None? && !remove then View() else old(Stored())
      decreases Repr
    {
      var ok := AllMsgTypesAllowed(u.msgs, meter);
      if !ok {
        return false, Some(A.MessageNotAllowed);
      }
      match inner {
        case BasicRef(b) => remove, err := b.Accept(u.now, u.fee);
        case PeriodicRef(p) => remove, err := p.Accept(u.now, u.fee);
        case FilterRef(f) => remove, err := f.Accept(u, meter);
      }
      if err.None? && !remove {
        SetAllowance();
      }
    }
  }
}
