/**
 When every reset of a periodic allowance keeps to its period limit, and the limits for which that is plain to see.
 */
module ResetLimits {
  import opened Coins
  import opened Allowance
  import opened PeriodicRuns
  import opened RateLimits

  /** Every stored state a run passes through is comparable. */
  ghost predicate AlwaysComparable(s: Slot, uses: seq<Use>)
    requires s.Live? ==> s.a.OfPeriodic?
    decreases |uses|
  {
    (s.Live? ==> Comparable(s.a.p)) && (uses != [] ==> AlwaysComparable(Step(s, uses[0]), uses[1..]))
  }

  /** The total limit is unset, or both limits are in the single denomination `d`. */
  predicate SingleDenom(p: Periodic, d: string) {
    p.basic.spendLimit.None? ||
    ((forall c <- p.basic.spendLimit.value :: c.denom == d) && (forall c <- p.periodSpendLimit :: c.denom == d))
  }

  lemma SingleIsComparable(p: Periodic, d: string)
    requires SingleDenom(p, d)
    ensures Comparable(p)
  {
    if p.basic.spendLimit.Some? {
      var a, b := p.basic.spendLimit.value, p.periodSpendLimit;
      forall x ensures x != d ==> AmountOf(a, x) == 0 == AmountOf(b, x) {
        if x != d { AmountOfAbsent(a, x); AmountOfAbsent(b, x); }
      }
    }
  }

  lemma MinusDenoms(a: CoinList, b: CoinList, d: string)
    requires (forall c <- a :: c.denom == d) && Covers(a, b) && Sorted(a) && Fee(b)
    ensures forall c <- Minus(a, b) :: c.denom == d
  {
    SafeSub(a, b);
    var diff := Minus(a, b);
    forall i | 0 <= i < |diff| ensures diff[i].denom == d {
      var x := diff[i].denom;
      AmountOfMember(diff, i);
      FeeNonNegative(b, x);
      assert diff[i] in diff;
      if x != d { AmountOfAbsent(a, x); }
    }
  }

  lemma {:induction false} SingleStaysComparable(p: Periodic, uses: seq<Use>, d: string)
    requires SoundPeriodic(p) && SingleDenom(p, d) && Fees(uses)
    ensures AlwaysComparable(Live(OfPeriodic(p)), uses)
    decreases |uses|
  {
    SingleIsComparable(p, d);
    if uses != [] {
      var u := uses[0];
      var s := Step(Live(OfPeriodic(p)), u);
      StepConserves(OfPeriodic(p), u);
      if s.Live? {
        if Pays(Live(OfPeriodic(p)), u) && p.basic.spendLimit.Some? {
          SafeSub(p.basic.spendLimit.value, u.fee);
          MinusDenoms(p.basic.spendLimit.value, u.fee, d);
        }
        SingleStaysComparable(s.a.p, uses[1..], d);
      } else {
        GoneAlwaysComparable(s, uses[1..]);
      }
    }
  }

  lemma {:induction false} GoneAlwaysComparable(s: Slot, uses: seq<Use>)
    requires !s.Live?
    ensures AlwaysComparable(s, uses)
  {
    if uses != [] { GoneAlwaysComparable(s, uses[1..]); }
  }

  /** A total that the period limit covers stays covered, as it only shrinks. */
  lemma {:induction false} CoveredStaysComparable(p: Periodic, uses: seq<Use>)
    requires SoundPeriodic(p) && Fees(uses) && p.basic.spendLimit.Some? &&
             Covers(p.periodSpendLimit, p.basic.spendLimit.value)
    ensures AlwaysComparable(Start(p), uses)
    decreases |uses|
  {
    if uses != [] {
      var u := uses[0];
      var s := Step(Start(p), u);
      StepConserves(OfPeriodic(p), u);
      if s.Live? {
        forall d ensures AmountOf(u.fee, d) >= 0 { FeeNonNegative(u.fee, d); }
        CoveredStaysComparable(s.a.p, uses[1..]);
      } else {
        GoneAlwaysComparable(s, uses[1..]);
      }
    }
  }

  lemma {:induction false} GoneResetsNothing(s: Slot, uses: seq<Use>)
    requires !s.Live?
    ensures ResetsComparable(s, uses)
  {
    if uses != [] { GoneResetsNothing(s, uses[1..]); }
  }

  /**
   A run in which a reset finds incomparable limits shows two coins: one running short, one above its period limit.
   */
  lemma {:induction false} FirstIncomparable(p: Periodic, uses: seq<Use>) returns (n: nat, x: string, y: string)
    requires SoundPeriodic(p) && Fees(uses)
    ensures !ResetsComparable(Start(p), uses) ==> RunsShort(p, n, x) && x != y && Total(p, y) > PerPeriod(p, y)
    decreases |uses|
  {
    n, x, y := 0, "", "";
    if uses != [] {
      var u := uses[0];
      var s' := Step(Start(p), u);
      StoredAfter(p, u);
      if Pays(Start(p), u) && Due(p, u.now) && !Comparable(p) {
        n := 1;
        x, y := IncomparableCoins(p, u.now);
      } else if s'.Live? {
        hide SoundPeriodic, RunsShort, AmountOf, Comparable, Fee, AcceptPeriodic;
        n, x, y := FirstIncomparable(s'.a.p, uses[1..]);
        if Pays(Start(p), u) && !ResetsComparable(s', uses[1..]) {
          IncomparableBefore(p, u, n, x, y);
          n := if Due(p, u.now) then n + 1 else n;
        }
      } else {
        GoneResetsNothing(s', uses[1..]);
      }
    }
  }

  lemma IncomparableCoins(p: Periodic, now: Time) returns (x: string, y: string)
    requires SoundPeriodic(p) && Due(p, now) && !Comparable(p) && !Before(p.basic.expiration, now)
    ensures RunsShort(p, 1, x) && x != y && Total(p, y) > PerPeriod(p, y)
  {
    x := ShortNow(p, now);
    y :| AmountOf(p.basic.spendLimit.value, y) > AmountOf(p.periodSpendLimit, y);
  }

  lemma IncomparableBefore(p: Periodic, u: Use, n: nat, x: string, y: string)
    requires SoundPeriodic(p) && Fee(u.fee) && AcceptPeriodic(p, u.now, u.fee).err.None?
    requires Due(p, u.now) ==> Comparable(p)
    requires var q := AcceptPeriodic(p, u.now, u.fee).after; RunsShort(q, n, x) && Total(q, y) > PerPeriod(q, y)
    ensures RunsShort(p, if Due(p, u.now) then n + 1 else n, x) && Total(p, y) > PerPeriod(p, y)
  {
    ShortBefore(p, u, n, x);
    PaidAmounts(p, u, y);
    FeeNonNegative(u.fee, y);
  }

  /**
   The condition, to be read off the allowance: for every coin of the period limit that can run short in time, no other
   coin of the total limit is above its period limit.
   */
  predicate ResetsWithin(p: Periodic)
    requires SoundPeriodic(p)
  {
    p.basic.spendLimit.Some? ==>
      forall x <- p.periodSpendLimit :: StartsInTime(p, ShortFromCoin(p, x)) ==>
        forall y <- p.basic.spendLimit.value :: y.denom == x.denom || Total(p, y.denom) <= PerPeriod(p, y.denom)
  }

  lemma ResetsWithinExact(p: Periodic)
    requires SoundPeriodic(p)
    ensures ResetsWithin(p) <==>
            forall n: nat, x, y :: RunsShort(p, n, x) && x != y ==> Total(p, y) <= PerPeriod(p, y)
  {
    hide StartsInTime;
    if ResetsWithin(p) {
      forall n: nat, x, y | RunsShort(p, n, x) && x != y ensures Total(p, y) <= PerPeriod(p, y) {
        OthersWithin(p, n, x, y);
      }
    } else {
      var x :| x in p.periodSpendLimit && StartsInTime(p, ShortFromCoin(p, x)) &&
        exists y <- p.basic.spendLimit.value ::
          y.denom != x.denom && Total(p, y.denom) > PerPeriod(p, y.denom);
      var y :| y in p.basic.spendLimit.value && y.denom != x.denom && Total(p, y.denom) > PerPeriod(p, y.denom);
      CoinIsPositive(p.periodSpendLimit, x);
      assert RunsShort(p, ShortFromCoin(p, x), x.denom);
    }
  }

  lemma OthersWithin(p: Periodic, n: nat, x: string, y: string)
    requires SoundPeriodic(p) && ResetsWithin(p) && RunsShort(p, n, x) && x != y
    ensures Total(p, y) <= PerPeriod(p, y)
  {
    ShortFromExact(p, x, n);
    InTimeBefore(p, ShortFrom(p, x), n);
    AmountOfSign(p.periodSpendLimit, x);
    AmountOfSign(p.basic.spendLimit.value, y);
    FeeNonNegative(p.periodSpendLimit, y);
    var c := Coin(x, PerPeriod(p, x));
    assert ShortFromCoin(p, c) == ShortFrom(p, x);
    hide ShortFrom, AmountOf, StartsInTime, SoundPeriodic;
  }

  /**
   In every run the chain can produce, every reset keeps to the period limit, exactly for the allowances that meet this
   condition, with or without an expiry.
   */
  lemma EveryResetExact(p: Periodic)
    requires SoundPeriodic(p)
    ensures (forall uses :: Possible(uses) ==> ResetsComparable(Start(p), uses)) <==> ResetsWithin(p)
  {
    hide SoundPeriodic, RunsShort, AmountOf, ResetsComparable, ResetsWithin, Possible, Asks;
    ResetsWithinExact(p);
    if ResetsWithin(p) {
      forall uses | Possible(uses) ensures ResetsComparable(Start(p), uses) {
        PossibleFees(uses);
        var n, x, y := FirstIncomparable(p, uses);
      }
    } else {
      var n: nat, x, y :| RunsShort(p, n, x) && x != y && Total(p, y) > PerPeriod(p, y);
      PeriodLimitNonNegative(p, y);
      var uses := ShortRun(p, n, x, y, [[]]);
      AsksPossible(uses, [[]], p.periodReset - 1, p.periodReset + (n - 1) * p.period);
    }
  }

  lemma PeriodLimitNonNegative(p: Periodic, d: string)
    requires SoundPeriodic(p)
    ensures PerPeriod(p, d) >= 0
  {
    FeeNonNegative(p.periodSpendLimit, d);
  }

  lemma CoveredResets(p: Periodic)
    requires SoundPeriodic(p) && p.basic.spendLimit.Some? && Covers(p.periodSpendLimit, p.basic.spendLimit.value)
    ensures ResetsWithin(p)
  {
    hide SoundPeriodic;
    forall y ensures Total(p, y) <= PerPeriod(p, y) {}
  }

  /** Without an expiry: no total limit, or one that the period limit covers, or both in one denomination. */
  lemma UnexpiringResets(p: Periodic)
    requires SoundPeriodic(p) && p.basic.expiration.None? && p.periodSpendLimit != []
    ensures ResetsWithin(p) <==>
            || p.basic.spendLimit.None?
            || Covers(p.periodSpendLimit, p.basic.spendLimit.value)
            || exists d :: SingleDenom(p, d)
  {
    if p.basic.spendLimit.Some? {
      if Covers(p.periodSpendLimit, p.basic.spendLimit.value) {
        CoveredResets(p);
      } else if !exists d :: SingleDenom(p, d) {
        var x, y := TwoParts(p);
        AmountOfSign(p.periodSpendLimit, x);
        AmountOfSign(p.basic.spendLimit.value, y);
        PeriodLimitNonNegative(p, y);
        assert Coin(x, PerPeriod(p, x)) in p.periodSpendLimit && Coin(y, Total(p, y)) in p.basic.spendLimit.value;
        assert StartsInTime(p, ShortFromCoin(p, Coin(x, PerPeriod(p, x))));
      }
    }
  }

  /** Two coins that tell, unless the total is covered or there is only one coin. */
  lemma TwoParts(p: Periodic) returns (x: string, y: string)
    requires SoundPeriodic(p) && p.periodSpendLimit != [] && p.basic.spendLimit.Some?
    requires !Covers(p.periodSpendLimit, p.basic.spendLimit.value) && (forall d :: !SingleDenom(p, d))
    ensures x != y && PerPeriod(p, x) > 0 && Total(p, y) > PerPeriod(p, y)
  {
    var total := p.basic.spendLimit.value;
    y :| AmountOf(total, y) > AmountOf(p.periodSpendLimit, y);
    if c :| c in p.periodSpendLimit && c.denom != y {
      CoinIsPositive(p.periodSpendLimit, c);
      x := c.denom;
    } else {
      x := y;
      assert !SingleDenom(p, x);
      var z :| z in total && z.denom != x;
      CoinIsPositive(total, z);
      y := z.denom;
      AmountOfAbsent(p.periodSpendLimit, y);
      assert p.periodSpendLimit[0] in p.periodSpendLimit;
      CoinIsPositive(p.periodSpendLimit, p.periodSpendLimit[0]);
    }
  }

  /** Those allowances keep to the rate as well, whether or not they expire. */
  lemma SimpleLimitsWithinRate(p: Periodic, d: string)
    requires SoundPeriodic(p)
    requires p.basic.spendLimit.Some? ==> Covers(p.periodSpendLimit, p.basic.spendLimit.value) || SingleDenom(p, d)
    ensures WithinRate(p)
  {
    hide WithinRate, Sorted;
    WithinRateExact(p);
    forall n: nat, x, y | RunsShort(p, n, x) ensures !Exceeds(p, n, y) {
      FeeNonNegative(p.periodCanSpend, y);
      FeeNonNegative(p.periodSpendLimit, y);
      if Covers(p.periodSpendLimit, p.basic.spendLimit.value) {
        assert Total(p, y) <= PerPeriod(p, y);
        assert (n - 1) * PerPeriod(p, y) >= 0;
      } else {
        if x != d { AmountOfAbsent(p.periodSpendLimit, x); }
        if y != d { AmountOfAbsent(p.basic.spendLimit.value, y); }
        assert n * PerPeriod(p, y) >= 0;
      }
    }
  }

  /** The rate limit under any filters, for these allowances, in every run at all. */
  lemma RateLimitHolds(a: Allowance, uses: seq<Use>, end: Time, d: string)
    requires Innermost(a).OfPeriodic? && Sound(a) && Innermost(a).p.period > 0
    requires Fees(uses) && forall u <- uses :: u.now <= end
    requires var p := Innermost(a).p;
             || p.basic.spendLimit.None?
             || Covers(p.periodSpendLimit, p.basic.spendLimit.value)
             || exists single :: SingleDenom(p, single)
    ensures KeepsRate(Live(a), Innermost(a).p, uses, end, d)
  {
    var p := Innermost(a).p;
    SoundInnermost(a);
    var single :|
      p.basic.spendLimit.None? || Covers(p.periodSpendLimit, p.basic.spendLimit.value) || SingleDenom(p, single);
    SimpleLimitsWithinRate(p, single);
    hide SoundPeriodic, WithinRate, AmountOf, SingleDenom;
    RunRefinesInnermost(a, uses, d);
    RateLimit(p, Admitted(Filters(a), uses), end, d);
  }
}
