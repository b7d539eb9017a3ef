/** What the periodic allowance of periodic_fee.go guarantees over whole runs. */
module PeriodicRuns {
  import opened Wrappers
  import opened Coins
  import opened Allowance
  import opened Arithmetic

  predicate Due(p: Periodic, now: Time) {
    now >= p.periodReset
  }

  // ---------- The reset schedule ----------

  /**
   A due reset moves on by at least a period and lands between now and now + period: by exactly one period if it is no
   more than a period late, and to one period from now if it is later.
   */
  lemma ResetSchedule(p: Periodic, now: Time)
    requires p.period >= 0 && Due(p, now)
    ensures var r := TryReset(p, now).periodReset;
            && r >= p.periodReset + p.period
            && now <= r <= now + p.period
            && (now <= p.periodReset + p.period ==> r == p.periodReset + p.period)
            && (now > p.periodReset + p.period ==> r == now + p.period)
  {
  }

  /** Paid uses of a run that reset the period. */
  function Resets(s: Slot, uses: seq<Use>): nat
    requires s.Live? ==> s.a.OfPeriodic?
    decreases |uses|
  {
    if uses == [] then 0
    else (if Pays(s, uses[0]) && Due(s.a.p, uses[0].now) then 1 else 0) + Resets(Step(s, uses[0]), uses[1..])
  }

  /** No paid use comes more than one period after the reset time it meets. */
  predicate Punctual(s: Slot, uses: seq<Use>)
    requires s.Live? ==> s.a.OfPeriodic?
    decreases |uses|
  {
    uses != [] ==>
      && (Pays(s, uses[0]) && Due(s.a.p, uses[0].now) ==> uses[0].now <= s.a.p.periodReset + s.a.p.period)
      && Punctual(Step(s, uses[0]), uses[1..])
  }

  /** After k saved resets the reset time has moved by at least k periods, and by exactly k in a punctual run. */
  lemma {:induction false} ScheduleOverRun(p: Periodic, uses: seq<Use>)
    requires p.period >= 0 && Run(Live(OfPeriodic(p)), uses).Live?
    ensures var s := Live(OfPeriodic(p)); var end := Run(s, uses);
            && end.a.OfPeriodic? && end.a.p.period == p.period
            && end.a.p.periodReset >= p.periodReset + Resets(s, uses) * p.period
            && (Punctual(s, uses) ==> end.a.p.periodReset == p.periodReset + Resets(s, uses) * p.period)
    decreases |uses|
  {
    var s := Live(OfPeriodic(p));
    if uses != [] {
      var s' := Step(s, uses[0]);
      if !s'.Live? { GoneStaysGone(s', uses[1..], ""); }
      ScheduleOverRun(s'.a.p, uses[1..]);
      if Pays(s, uses[0]) && Due(p, uses[0].now) {
        ResetSchedule(p, uses[0].now);
        Distribute(Resets(s', uses[1..]), p.period);
      }
    }
  }

  /** Before the reset time no use resets the period, and the reset time stays. */
  lemma {:induction false} QuietUntilReset(p: Periodic, uses: seq<Use>)
    requires forall u <- uses :: u.now < p.periodReset
    ensures var s := Live(OfPeriodic(p)); var end := Run(s, uses);
            Resets(s, uses) == 0 && (end.Live? ==> end.a.OfPeriodic? && end.a.p.periodReset == p.periodReset)
    decreases |uses|
  {
    if uses != [] {
      assert uses[0].now < p.periodReset;
      var s := Step(Live(OfPeriodic(p)), uses[0]);
      if s.Live? { QuietUntilReset(s.a.p, uses[1..]); } else { NoResetsGone(s, uses[1..]); }
    }
  }

  lemma {:induction false} NoResetsGone(s: Slot, uses: seq<Use>)
    requires !s.Live?
    ensures Run(s, uses) == s && Resets(s, uses) == 0
    decreases |uses|
  {
    if uses != [] { NoResetsGone(s, uses[1..]); }
  }

  /**
   After a saved reset that came more than a period late nothing resets the period for one whole period, counted from
   the time of that reset; from then on it is due again, and not before.
   */
  lemma WholePeriodAfterLateReset(p: Periodic, reset: Use, later: seq<Use>, t: Time)
    requires Pays(Live(OfPeriodic(p)), reset) && p.period >= 0 && reset.now > p.periodReset + p.period
    requires forall u <- later :: u.now < reset.now + p.period
    ensures var s := Step(Live(OfPeriodic(p)), reset); var end := Run(s, later);
            && (s.Live? ==> s.a.OfPeriodic?) && Resets(s, later) == 0
            && (end.Live? ==> end.a.OfPeriodic? && (Due(end.a.p, t) <==> t >= reset.now + p.period))
  {
    ResetSchedule(p, reset.now);
    var s := Step(Live(OfPeriodic(p)), reset);
    if s.Live? { QuietUntilReset(s.a.p, later); } else { NoResetsGone(s, later); }
  }

  // ---------- The amount a reset makes available ----------

  function Min(x: int, y: int): int {
    if x < y then x else y
  }

  /** The total limit is unset, or one of the two limits covers the other in every denomination. */
  ghost predicate Comparable(p: Periodic) {
    p.basic.spendLimit.Some? ==>
      Covers(p.basic.spendLimit.value, p.periodSpendLimit) || Covers(p.periodSpendLimit, p.basic.spendLimit.value)
  }

  /** What the comment on tryResetPeriod promises: the lesser of the period limit and the total limit. */
  function Lesser(p: Periodic, d: string): int {
    match p.basic.spendLimit
    case None => AmountOf(p.periodSpendLimit, d)
    case Some(limit) => Min(AmountOf(limit, d), AmountOf(p.periodSpendLimit, d))
  }

  /**
   The code picks one of the two whole lists, so it delivers the lesser amount in every denomination
   exactly when the two lists are comparable.
   */
  lemma TopUpIsLesserIffComparable(p: Periodic, now: Time)
    requires SoundPeriodic(p) && Due(p, now)
    ensures (forall d :: AmountOf(TryReset(p, now).periodCanSpend, d) == Lesser(p, d)) <==> Comparable(p)
    ensures Covers(p.periodSpendLimit, TryReset(p, now).periodCanSpend) <==> Comparable(p)
  {
    var total := LimitOrEmpty(p.basic);
    SafeSub(total, p.periodSpendLimit);
    var can := TryReset(p, now).periodCanSpend;
    if p.basic.spendLimit.Some? {
      if (forall d :: AmountOf(can, d) == Lesser(p, d)) && !Covers(total, p.periodSpendLimit) {
        forall d ensures AmountOf(total, d) <= AmountOf(p.periodSpendLimit, d) {
          assert AmountOf(can, d) == Lesser(p, d);
        }
      }
    }
  }

  const TOTAL := [Coin("a", 5), Coin("b", 60)]
  const PER_PERIOD := [Coin("a", 10), Coin("b", 10)]
  const ALL_OF_B := [Coin("b", 60)]
  const INCOMPARABLE := Periodic(Basic(Some(TOTAL), None), 100, PER_PERIOD, [], 0)

  lemma OneCoin(denom: string, x: int, d: string)
    ensures AmountOf([Coin(denom, x)], d) == if denom == d then x else 0
  {
    assert [Coin(denom, x)][1..] == [];
  }

  lemma TwoCoins(x: int, y: int)
    ensures var cs := [Coin("a", x), Coin("b", y)];
            Sorted(cs) && AmountOf(cs, "a") == x && AmountOf(cs, "b") == y
  {
    var cs, tail := [Coin("a", x), Coin("b", y)], [Coin("b", y)];
    assert DenomLess("a", "b") by { assert Codes("a")[0] == 97 && Codes("b")[0] == 98; }
    assert cs[1..] == tail && "a"[0] != "b"[0];
    OneCoin("b", y, "a");
    OneCoin("b", y, "b");
  }

  lemma IncomparableReset()
    ensures Valid(TOTAL) && Valid(PER_PERIOD) && !Comparable(INCOMPARABLE)
    ensures TryReset(INCOMPARABLE, 0).periodCanSpend == TOTAL
  {
    TwoCoins(5, 60);
    TwoCoins(10, 10);
    SafeSub(TOTAL, PER_PERIOD);
    assert AmountOf(TOTAL, "a") < AmountOf(PER_PERIOD, "a") && AmountOf(PER_PERIOD, "b") < AmountOf(TOTAL, "b");
  }

  lemma CoversAllOfB()
    ensures Fee(ALL_OF_B) && AmountOf(ALL_OF_B, "b") == 60 && Covers(TOTAL, ALL_OF_B)
  {
    TwoCoins(5, 60);
    assert ALL_OF_B[1..] == [];
    assert AmountOf(ALL_OF_B, "b") == 60;
    forall d ensures AmountOf(ALL_OF_B, d) <= AmountOf(TOTAL, d) { FeeNonNegative(TOTAL, d); }
  }

  /** Two denominations: one use right after the reset spends 60 "b" although the period limit allows 10. */
  lemma RateLimitFailsForIncomparableLimits()
    ensures ValidPeriodic(INCOMPARABLE) && !Comparable(INCOMPARABLE)
    ensures AmountOf(INCOMPARABLE.periodCanSpend, "b") + AmountOf(INCOMPARABLE.periodSpendLimit, "b") == 10
    ensures Spent(Live(OfPeriodic(INCOMPARABLE)), [Use(0, ALL_OF_B, [])], "b") == 60
  {
    IncomparableReset();
    TwoCoins(10, 10);
    CoversAllOfB();
    SafeSub(TOTAL, ALL_OF_B);
    assert AcceptPeriodic(INCOMPARABLE, 0, ALL_OF_B).err.None?;
    var uses := [Use(0, ALL_OF_B, [])];
    assert uses[1..] == [];
    assert Pays(Live(OfPeriodic(INCOMPARABLE)), uses[0]);
  }

  lemma ComparableTopUp(p: Periodic, now: Time, d: string)
    requires SoundPeriodic(p) && Due(p, now) && Comparable(p)
    ensures AmountOf(TryReset(p, now).periodCanSpend, d) <= AmountOf(p.periodSpendLimit, d)
  {
    TopUpIsLesserIffComparable(p, now);
    assert AmountOf(TryReset(p, now).periodCanSpend, d) == Lesser(p, d);
  }

  // ---------- The rate limit ----------

  /** Resets that can have happened by time `end` when the next one is due at `reset`. */
  function PeriodsStarted(reset: Time, period: int, end: Time): nat
    requires period > 0
  {
    if end < reset then 0 else (end - reset) / period + 1
  }

  lemma NextPeriod(reset: Time, next: Time, period: int, end: Time)
    requires period > 0 && reset <= end && next >= reset + period
    ensures PeriodsStarted(next, period, end) + 1 <= PeriodsStarted(reset, period, end)
  {
    if end >= next {
      var k := (end - next) / period;
      Distribute(k, period);
      QuotientAtLeast(end - reset, 1 + k, period);
    } else {
      QuotientAtLeast(end - reset, 0, period);
    }
  }

  /** One paid step against the budget `can + limit * periods`. */
  lemma PaidStep(p: Periodic, u: Use, end: Time, d: string)
    requires SoundPeriodic(p) && p.period > 0 && (Due(p, u.now) ==> Comparable(p)) && Fee(u.fee) && u.now <= end
    requires AcceptPeriodic(p, u.now, u.fee).err.None?
    ensures var q := AcceptPeriodic(p, u.now, u.fee).after;
            var limit := AmountOf(p.periodSpendLimit, d);
            && q.periodSpendLimit == p.periodSpendLimit && q.period == p.period
            && AmountOf(u.fee, d) + AmountOf(q.periodCanSpend, d) + limit * PeriodsStarted(q.periodReset, p.period, end)
               <= AmountOf(p.periodCanSpend, d) + limit * PeriodsStarted(p.periodReset, p.period, end)
  {
    var q := TryReset(p, u.now);
    ResetIsSound(p, u.now);
    SafeSub(q.periodCanSpend, u.fee);
    assert AmountOf(Minus(q.periodCanSpend, u.fee), d) == AmountOf(q.periodCanSpend, d) - AmountOf(u.fee, d);
    if Due(p, u.now) {
      ComparableTopUp(p, u.now, d);
      FeeNonNegative(p.periodSpendLimit, d);
      FeeNonNegative(p.periodCanSpend, d);
      ResetSchedule(p, u.now);
      NextPeriod(p.periodReset, q.periodReset, p.period, end);
      OneMore(AmountOf(p.periodSpendLimit, d), PeriodsStarted(q.periodReset, p.period, end),
              PeriodsStarted(p.periodReset, p.period, end));
    }
  }

  lemma OneMore(limit: nat, k: nat, m: nat)
    requires k + 1 <= m
    ensures limit + limit * k <= limit * m
  {
    assert limit * m == limit * (k + 1) + limit * (m - k - 1);
  }

  /** What a paid fee leaves for the period is not negative. */
  lemma NothingOverspent(p: Periodic, u: Use, d: string)
    requires SoundPeriodic(p) && Fee(u.fee) && AcceptPeriodic(p, u.now, u.fee).err.None?
    ensures AmountOf(AcceptPeriodic(p, u.now, u.fee).after.periodCanSpend, d) >= 0
  {
    var can := TryReset(p, u.now).periodCanSpend;
    ResetIsSound(p, u.now);
    SafeSub(can, u.fee);
    FeeNonNegative(Minus(can, u.fee), d);
  }

  lemma NonNegativeProduct(x: nat, y: nat)
    ensures x * y >= 0
  {
  }

  lemma FinalFee(p: Periodic, u: Use, end: Time, d: string)
    requires SoundPeriodic(p) && p.period > 0 && Fee(u.fee)
    requires AcceptPeriodic(p, u.now, u.fee).err.None?
    ensures var q := AcceptPeriodic(p, u.now, u.fee).after;
            AmountOf(q.periodCanSpend, d)
            + AmountOf(p.periodSpendLimit, d) * PeriodsStarted(q.periodReset, p.period, end) >= 0
  {
    NothingOverspent(p, u, d);
    FeeNonNegative(p.periodSpendLimit, d);
    hide AmountOf, AcceptPeriodic, PeriodsStarted, SoundPeriodic;
    var q := AcceptPeriodic(p, u.now, u.fee).after;
    NonNegativeProduct(AmountOf(p.periodSpendLimit, d), PeriodsStarted(q.periodReset, p.period, end));
  }

  // ---------- The period budget never outgrows the total limit ----------

  ghost predicate Capped(p: Periodic) {
    p.basic.spendLimit.Some? ==> Covers(p.basic.spendLimit.value, p.periodCanSpend)
  }

  /** A due reset leaves no more for the period than for the whole, in any number of denominations. */
  lemma ResetCaps(p: Periodic, now: Time)
    requires SoundPeriodic(p) && Due(p, now)
    ensures Capped(TryReset(p, now))
  {
    SafeSub(LimitOrEmpty(p.basic), p.periodSpendLimit);
  }

  /** From a capped state the absolute limit is never what rejects a fee, and a saved state is capped again. */
  lemma CappedStep(p: Periodic, u: Use)
    requires SoundPeriodic(p) && Fee(u.fee) && (Capped(p) || Due(p, u.now))
    ensures var v := AcceptPeriodic(p, u.now, u.fee);
            && v.err != Some(AbsoluteLimitExceeded)
            && (v.err.None? ==> Capped(v.after))
  {
    var q := TryReset(p, u.now);
    if Due(p, u.now) { ResetCaps(p, u.now); }
    ResetIsSound(p, u.now);
    SafeSub(q.periodCanSpend, u.fee);
    if q.basic.spendLimit.Some? {
      var total := q.basic.spendLimit.value;
      SafeSub(total, u.fee);
      if Covers(q.periodCanSpend, u.fee) {
        forall d ensures AmountOf(u.fee, d) <= AmountOf(total, d) {
          assert AmountOf(u.fee, d) <= AmountOf(q.periodCanSpend, d) <= AmountOf(total, d);
        }
      }
    }
  }

  lemma {:induction false} CappedRun(p: Periodic, uses: seq<Use>)
    requires SoundPeriodic(p) && Capped(p) && Fees(uses)
    ensures var end := Run(Live(OfPeriodic(p)), uses);
            end.Live? ==> end.a.OfPeriodic? && SoundPeriodic(end.a.p) && Capped(end.a.p)
    decreases |uses|
  {
    if uses != [] {
      var s := Step(Live(OfPeriodic(p)), uses[0]);
      StepConserves(OfPeriodic(p), uses[0]);
      CappedStep(p, uses[0]);
      if s.Live? { CappedRun(s.a.p, uses[1..]); } else { GoneStaysGone(s, uses[1..], ""); }
    }
  }

  /**
   In every run, from the first paid use that resets the period on, a fee is never rejected by the
   absolute limit: `reset` is that use, `later` any uses after it, `next` the use that is tried then.
   */
  lemma AbsoluteLimitNeverFires(p: Periodic, reset: Use, later: seq<Use>, next: Use)
    requires SoundPeriodic(p) && Fee(reset.fee) && Fees(later) && Fee(next.fee)
    requires Due(p, reset.now) && Pays(Live(OfPeriodic(p)), reset)
    ensures var s := Run(Step(Live(OfPeriodic(p)), reset), later);
            s.Live? ==> Accept(s.a, next).err != Some(AbsoluteLimitExceeded)
  {
    CappedStep(p, reset);
    StepConserves(OfPeriodic(p), reset);
    var s := Step(Live(OfPeriodic(p)), reset);
    if s.Live? {
      CappedRun(s.a.p, later);
      var t := Run(s, later);
      if t.Live? { CappedStep(t.a.p, next); }
    } else {
      GoneStaysGone(s, later, "");
    }
  }
}
