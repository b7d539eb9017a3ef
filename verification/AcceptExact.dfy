/** Exactly when each kind of allowance accepts a fee, which error it gives otherwise, and what it leaves. */
module AcceptExact {
  import opened Wrappers
  import opened Coins
  import opened Allowance
  import opened Arithmetic

  /** `left` is a valid list of what `fee` leaves of `had`, denomination by denomination. */
  ghost predicate Leaves(had: CoinList, fee: CoinList, left: CoinList) {
    Valid(left) && forall d :: AmountOf(left, d) == AmountOf(had, d) - AmountOf(fee, d)
  }

  ghost predicate SameAmounts(a: CoinList, b: CoinList) {
    forall d :: AmountOf(a, d) == AmountOf(b, d)
  }

  lemma NothingLeft(had: CoinList, fee: CoinList)
    requires Sorted(had) && Sorted(fee)
    ensures IsZero(Minus(had, fee)) <==> SameAmounts(had, fee)
  {
    SafeSub(had, fee);
    var left := Minus(had, fee);
    if left == [] {
      forall d ensures AmountOf(had, d) == AmountOf(fee, d) { assert AmountOf(left, d) == 0; }
    } else {
      MinusSorted(had, fee);
      MinusNonZero(had, fee);
      AmountOfMember(left, 0);
      assert AmountOf(had, left[0].denom) != AmountOf(fee, left[0].denom);
    }
  }

  /**
   A basic allowance refuses after its expiry time, and a fee its limit does not cover; without a limit it covers every
   fee. On acceptance the limit shrinks by the fee, and nothing else changes; it is used up when nothing is left.
   */
  lemma BasicVerdict(b: Basic, now: Time, fee: CoinList)
    requires SoundBasic(b) && Fee(fee)
    ensures var v := AcceptBasic(b, now, fee);
            v.err == if b.expiration.Some? && b.expiration.value < now then Some(LimitExpired)
                     else if b.spendLimit.Some? && !Covers(b.spendLimit.value, fee) then Some(BasicLimitExceeded)
                     else None
    ensures var v := AcceptBasic(b, now, fee);
            v.err.Some? ==> v.after == b && (v.remove <==> b.expiration.Some? && b.expiration.value < now)
    ensures var v := AcceptBasic(b, now, fee);
            v.err.None? && b.spendLimit.None? ==> v.after == b && !v.remove
    ensures var v := AcceptBasic(b, now, fee);
            v.err.None? && b.spendLimit.Some? ==>
              && v.after.expiration == b.expiration && v.after.spendLimit.Some?
              && Leaves(b.spendLimit.value, fee, v.after.spendLimit.value)
              && (v.remove <==> SameAmounts(b.spendLimit.value, fee))
  {
    if b.spendLimit.Some? {
      SafeSub(b.spendLimit.value, fee);
      NothingLeft(b.spendLimit.value, fee);
    }
  }

  /** What a use at `now` may spend: what is left of the period, or from the reset time on a whole of one limit. */
  ghost function Available(p: Periodic, now: Time): CoinList {
    if now < p.periodReset then p.periodCanSpend
    else if p.basic.spendLimit.Some? && !Covers(p.basic.spendLimit.value, p.periodSpendLimit) then
      p.basic.spendLimit.value
    else p.periodSpendLimit
  }

  /** A reset that is due puts one whole limit at the disposal of the period and moves the reset time on. */
  lemma ResetExact(p: Periodic, now: Time)
    requires SoundPeriodic(p)
    ensures var q := TryReset(p, now);
            && q == p.(periodCanSpend := Available(p, now), periodReset := q.periodReset)
            && q.periodReset == if now < p.periodReset then p.periodReset
                                else if now <= p.periodReset + p.period then p.periodReset + p.period
                                else now + p.period
    ensures Valid(Available(p, now))
  {
    SafeSub(LimitOrEmpty(p.basic), p.periodSpendLimit);
  }

  /**
   A periodic allowance refuses after its expiry time, a fee that exceeds what the period may spend, and one that
   exceeds the total limit, in this order.
   */
  lemma PeriodicVerdict(p: Periodic, now: Time, fee: CoinList)
    requires SoundPeriodic(p) && Fee(fee)
    ensures var v := AcceptPeriodic(p, now, fee); var limit := p.basic.spendLimit;
            v.err == if p.basic.expiration.Some? && p.basic.expiration.value < now then Some(LimitExpired)
                     else if !Covers(Available(p, now), fee) then Some(PeriodLimitExceeded)
                     else if limit.Some? && !Covers(limit.value, fee) then Some(AbsoluteLimitExceeded)
                     else None
    ensures var v := AcceptPeriodic(p, now, fee);
            v.err.Some? ==> (v.remove <==> p.basic.expiration.Some? && p.basic.expiration.value < now)
  {
    ResetExact(p, now);
    SafeSub(Available(p, now), fee);
    if p.basic.spendLimit.Some? { SafeSub(p.basic.spendLimit.value, fee); }
  }

  /** On acceptance both budgets shrink by the fee, the reset time moves on if it was due, and nothing else changes. */
  lemma PeriodicEffect(p: Periodic, now: Time, fee: CoinList)
    requires SoundPeriodic(p) && Fee(fee) && AcceptPeriodic(p, now, fee).err.None?
    ensures var v := AcceptPeriodic(p, now, fee); var q := v.after;
            && q.period == p.period && q.periodSpendLimit == p.periodSpendLimit
            && q.basic.expiration == p.basic.expiration
            && Leaves(Available(p, now), fee, q.periodCanSpend)
            && q.periodReset == (if now < p.periodReset then p.periodReset
                                 else if now <= p.periodReset + p.period then p.periodReset + p.period
                                 else now + p.period)
    ensures var v := AcceptPeriodic(p, now, fee);
            p.basic.spendLimit.None? ==> v.after.basic.spendLimit.None? && !v.remove
    ensures var v := AcceptPeriodic(p, now, fee);
            p.basic.spendLimit.Some? ==>
              && v.after.basic.spendLimit.Some?
              && Leaves(p.basic.spendLimit.value, fee, v.after.basic.spendLimit.value)
              && (v.remove <==> SameAmounts(p.basic.spendLimit.value, fee))
  {
    ResetExact(p, now);
    SafeSub(Available(p, now), fee);
    if p.basic.spendLimit.Some? {
      SafeSub(p.basic.spendLimit.value, fee);
      NothingLeft(p.basic.spendLimit.value, fee);
    }
  }

  ghost predicate CanPayBasic(b: Basic, now: Time, fee: CoinList) {
    && (b.expiration.Some? ==> now <= b.expiration.value)
    && (b.spendLimit.Some? ==> Covers(b.spendLimit.value, fee))
  }

  /**
   At any nesting depth: a use is paid exactly when every message is in every list, the innermost allowance has not
   expired, its total limit, if any, covers the fee, and, if it is periodic, so does what the period may spend.
   */
  lemma PaysExactly(a: Allowance, u: Use)
    requires Sound(a) && Fee(u.fee)
    ensures Pays(Live(a), u) <==>
            && (forall list, m :: list in Filters(a) && m in u.msgs ==> m in list)
            && match Innermost(a)
               case OfBasic(b) => CanPayBasic(b, u.now, u.fee)
               case OfPeriodic(p) => CanPayBasic(p.basic, u.now, u.fee) && Covers(Available(p, u.now), u.fee)
  {
    SoundInnermost(a);
    FilterRefinesInnermost(a, u);
    match Innermost(a) {
      case OfBasic(b) => BasicVerdict(b, u.now, u.fee);
      case OfPeriodic(p) => PeriodicVerdict(p, u.now, u.fee);
    }
  }

  // ---------- Gas ----------

  /** A list is searched for the messages in order, up to the first that is not in it. */
  lemma {:induction false} ExaminedExact(allowed: seq<Text>, msgs: seq<Text>)
    ensures var n := Examined(allowed, msgs);
            && n <= |msgs|
            && (AllAllowed(allowed, msgs) ==> n == |msgs|)
            && (!AllAllowed(allowed, msgs) ==>
                  n > 0 && msgs[n - 1] !in allowed && forall j :: 0 <= j < n - 1 ==> msgs[j] in allowed)
  {
    if msgs != [] {
      ExaminedExact(allowed, msgs[1..]);
      assert msgs == [msgs[0]] + msgs[1..];
    }
  }

  function TotalLength(lists: seq<seq<Text>>): nat {
    if lists == [] then 0 else |lists[0]| + TotalLength(lists[1..])
  }

  /** Every message of a use passes the first `k` lists, and the next list, if there is one, stops one. */
  predicate StoppedAt(lists: seq<seq<Text>>, msgs: seq<Text>, k: nat) {
    && k <= |lists| && (forall i :: 0 <= i < k ==> AllAllowed(lists[i], msgs))
    && (k < |lists| ==> !AllAllowed(lists[k], msgs))
  }

  /**
   Ten units of gas for every entry of every list that is reached, for every message at every level that is passed, and
   for the messages examined at the level that stops the use.
   */
  lemma {:induction false} FilterGasExact(a: Allowance, msgs: seq<Text>, k: nat)
    requires StoppedAt(Filters(a), msgs, k)
    ensures FilterGas(a, msgs) ==
            10 * (TotalLength(Filters(a)[..k]) + k * |msgs|
                  + if k < |Filters(a)| then |Filters(a)[k]| + Examined(Filters(a)[k], msgs) else 0)
  {
    if a.Filtered? {
      var lists := Filters(a);
      assert lists[0] == a.allowed && lists[1..] == Filters(a.inner);
      if k > 0 {
        assert AllAllowed(a.allowed, msgs) && StoppedAt(Filters(a.inner), msgs, k - 1);
        FilterGasExact(a.inner, msgs, k - 1);
        assert lists[..k][1..] == Filters(a.inner)[..k - 1] && lists[..k][0] == a.allowed;
        ExaminedExact(a.allowed, msgs);
        assert k < |lists| ==> lists[k] == Filters(a.inner)[k - 1];
        hide AllAllowed, Examined, StoppedAt;
        Distribute(k - 1, |msgs|);
      }
    }
  }

  // ---------- Validation ----------

  lemma Held(cs: CoinList, d: string)
    requires Valid(cs)
    ensures AmountOf(cs, d) > 0 <==> exists x <- cs :: x.denom == d
  {
    AmountOfSign(cs, d);
    if x :| x in cs && x.denom == d {
      var i :| 0 <= i < |cs| && cs[i] == x;
      AmountOfMember(cs, i);
    }
  }

  /** Of whatever `a` holds, `b` holds something. */
  ghost predicate Backed(a: CoinList, b: CoinList) {
    forall d :: AmountOf(a, d) > 0 ==> AmountOf(b, d) > 0
  }

  lemma SubsetIsPositive(a: CoinList, b: CoinList)
    requires Valid(a) && Valid(b)
    ensures DenomsSubsetOf(a, b) <==> Backed(a, b)
  {
    if DenomsSubsetOf(a, b) {
      forall d | AmountOf(a, d) > 0 ensures AmountOf(b, d) > 0 {
        Held(a, d);
        var x :| x in a && x.denom == d;
        var y :| y in b && y.denom == x.denom;
        Held(b, d);
      }
    }
    if Backed(a, b) {
      forall x <- a ensures exists y <- b :: y.denom == x.denom {
        Held(a, x.denom);
        Held(b, x.denom);
      }
    }
  }

  /** A limit that is given holds at least one coin, and an expiry that is given is not before 1970. */
  predicate WellMade(b: Basic) {
    && (b.spendLimit.Some? ==> Valid(b.spendLimit.value) && |b.spendLimit.value| > 0)
    && (b.expiration.Some? ==> 0 <= b.expiration.value)
  }

  /** The period limit holds at least one coin, all of denominations that the total limit, if any, holds too. */
  ghost predicate WellMadePeriodic(p: Periodic) {
    && WellMade(p.basic) && 0 <= p.period
    && Valid(p.periodSpendLimit) && |p.periodSpendLimit| > 0 && Valid(p.periodCanSpend)
    && (p.basic.spendLimit.Some? ==> Backed(p.periodSpendLimit, p.basic.spendLimit.value))
  }

  /** ValidateBasic, at any nesting depth: no list is empty, and the innermost allowance is well made. */
  lemma {:induction false} ValidatesExactly(a: Allowance)
    ensures ValidateBasic(a) <==>
            && (forall list <- Filters(a) :: |list| > 0)
            && match Innermost(a) case OfBasic(b) => WellMade(b) case OfPeriodic(p) => WellMadePeriodic(p)
  {
    if a.Filtered? {
      ValidatesExactly(a.inner);
      assert Filters(a)[0] == a.allowed && Filters(a)[1..] == Filters(a.inner);
      assert forall list <- Filters(a) :: list == a.allowed || list in Filters(a.inner);
    } else if a.OfPeriodic? && a.p.basic.spendLimit.Some? {
      if Valid(a.p.periodSpendLimit) && Valid(a.p.basic.spendLimit.value) {
        SubsetIsPositive(a.p.periodSpendLimit, a.p.basic.spendLimit.value);
      }
    }
  }
}
