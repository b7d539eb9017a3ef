/** When a periodic allowance keeps to its rate: exactly which limits do, and the runs that break the others. */
module RateLimits {
  import opened Coins
  import opened Allowance
  import opened Arithmetic
  import opened PeriodicRuns

  // ---------- Payments in one denomination ----------

  function One(denom: string, amount: int): CoinList {
    [Coin(denom, amount)]
  }

  lemma OneAmount(denom: string, amount: nat)
    ensures Fee(One(denom, amount)) && (amount > 0 ==> Valid(One(denom, amount)))
    ensures forall d :: AmountOf(One(denom, amount), d) == if d == denom then amount else 0
  {
    assert One(denom, amount)[1..] == [];
  }

  /** The total limit, zero where it is unset. */
  function Total(p: Periodic, d: string): int {
    AmountOf(LimitOrEmpty(p.basic), d)
  }

  function PerPeriod(p: Periodic, d: string): int {
    AmountOf(p.periodSpendLimit, d)
  }

  function CanSpend(p: Periodic, d: string): int {
    AmountOf(p.periodCanSpend, d)
  }

  /**
   A payment within both budgets is accepted and lowers both; it does not use the grant up if another coin is left.
   */
  lemma PayOne(p: Periodic, now: Time, x: string, amount: nat)
    requires SoundPeriodic(p) && p.basic.spendLimit.Some? && !Before(p.basic.expiration, now)
    requires amount <= AmountOf(TryReset(p, now).periodCanSpend, x) && amount <= Total(p, x)
    ensures var v := AcceptPeriodic(p, now, One(x, amount)); var q := v.after;
            && v.err.None? && q.basic.spendLimit.Some? && q.basic.expiration == p.basic.expiration
            && q.period == p.period && q.periodSpendLimit == p.periodSpendLimit
            && q.periodReset == TryReset(p, now).periodReset
            && (forall d :: Total(q, d) == Total(p, d) - if d == x then amount else 0)
            && (v.remove ==> forall d :: Total(q, d) == 0)
            && (!v.remove ==> SoundPeriodic(q))
  {
    var fee, r := One(x, amount), TryReset(p, now);
    OneAmount(x, amount);
    ResetIsSound(p, now);
    forall d ensures AmountOf(fee, d) <= AmountOf(r.periodCanSpend, d) && AmountOf(fee, d) <= Total(p, d) {
      FeeNonNegative(r.periodCanSpend, d);
      FeeNonNegative(p.basic.spendLimit.value, d);
    }
    hide Sorted;
    SafeSub(r.periodCanSpend, fee);
    SafeSub(p.basic.spendLimit.value, fee);
  }

  function Start(p: Periodic): Slot {
    Live(OfPeriodic(p))
  }

  /** Spending of a run that begins with a paid use. */
  lemma SpentFirst(p: Periodic, u: Use, rest: seq<Use>, d: string)
    requires AcceptPeriodic(p, u.now, u.fee).err.None? && !AcceptPeriodic(p, u.now, u.fee).remove
    ensures Spent(Start(p), [u] + rest, d) ==
            AmountOf(u.fee, d) + Spent(Start(AcceptPeriodic(p, u.now, u.fee).after), rest, d)
  {
    hide AcceptPeriodic, AmountOf;
    assert ([u] + rest)[1..] == rest;
  }

  // ---------- Exactly when a reset keeps to the period limit ----------

  /** Where the total does not cover the period limit, a due reset makes all of it available. */
  lemma IncomparableTopUp(p: Periodic, now: Time)
    requires SoundPeriodic(p) && p.basic.spendLimit.Some? && Due(p, now) &&
             !Covers(p.basic.spendLimit.value, p.periodSpendLimit)
    ensures TryReset(p, now).periodCanSpend == p.basic.spendLimit.value
  {
    SafeSub(p.basic.spendLimit.value, p.periodSpendLimit);
  }

  lemma CoveredTopUp(p: Periodic, now: Time)
    requires SoundPeriodic(p) && p.basic.spendLimit.Some? && Due(p, now) &&
             Covers(p.basic.spendLimit.value, p.periodSpendLimit)
    ensures TryReset(p, now).periodCanSpend == p.periodSpendLimit
  {
    SafeSub(p.basic.spendLimit.value, p.periodSpendLimit);
  }

  /**
   At a due reset before the expiry, every fee that can be paid is within the period limit exactly when the limits are
   comparable.
   */
  lemma ResetSpendExact(p: Periodic, now: Time)
    requires SoundPeriodic(p) && Due(p, now) && !Before(p.basic.expiration, now)
    ensures (forall fee :: Fee(fee) && AcceptPeriodic(p, now, fee).err.None? ==> Covers(p.periodSpendLimit, fee)) <==>
            Comparable(p)
  {
    hide Sorted;
    if Comparable(p) {
      forall fee | Fee(fee) && AcceptPeriodic(p, now, fee).err.None? ensures Covers(p.periodSpendLimit, fee) {
        FeeWithinTopUp(p, now, fee);
      }
    } else {
      assert !Covers(p.periodSpendLimit, p.basic.spendLimit.value);
      var y :| AmountOf(p.basic.spendLimit.value, y) > AmountOf(p.periodSpendLimit, y);
      FeeNonNegative(p.periodSpendLimit, y);
      IncomparableTopUp(p, now);
      PayOne(p, now, y, Total(p, y));
      OneAmount(y, Total(p, y));
      assert !Covers(p.periodSpendLimit, One(y, Total(p, y)));
    }
  }

  lemma FeeWithinTopUp(p: Periodic, now: Time, fee: CoinList)
    requires SoundPeriodic(p) && Due(p, now) && Comparable(p) && Fee(fee) && AcceptPeriodic(p, now, fee).err.None?
    ensures Covers(p.periodSpendLimit, fee)
  {
    ResetIsSound(p, now);
    hide Sorted;
    SafeSub(TryReset(p, now).periodCanSpend, fee);
    forall d ensures AmountOf(fee, d) <= PerPeriod(p, d) { ComparableTopUp(p, now, d); }
  }

  // ---------- The rate over whole runs ----------

  /** The bound on what is spent by time `end`: what was left plus one period limit per period started. */
  predicate KeepsRate(s: Slot, p: Periodic, uses: seq<Use>, end: Time, d: string)
    requires p.period > 0
  {
    Spent(s, uses, d) <= CanSpend(p, d) + PerPeriod(p, d) * PeriodsStarted(p.periodReset, p.period, end)
  }

  /** The n-th period starts no later than the expiry. */
  predicate StartsInTime(p: Periodic, n: nat) {
    !Before(p.basic.expiration, p.periodReset + (n - 1) * p.period)
  }

  /** By the n-th period the budget of `x` can be spent down so far that the total no longer covers the period limit. */
  predicate RunsShort(p: Periodic, n: nat, x: string) {
    && n >= 1 && StartsInTime(p, n) && p.basic.spendLimit.Some?
    && PerPeriod(p, x) > 0 && Total(p, x) < CanSpend(p, x) + n * PerPeriod(p, x)
  }

  lemma ShortNow(p: Periodic, now: Time) returns (x: string)
    requires SoundPeriodic(p) && Due(p, now) && !Comparable(p) && !Before(p.basic.expiration, now)
    ensures RunsShort(p, 1, x) && Total(p, x) < PerPeriod(p, x)
  {
    assert !Covers(p.basic.spendLimit.value, p.periodSpendLimit);
    x :| AmountOf(p.basic.spendLimit.value, x) < AmountOf(p.periodSpendLimit, x);
    FeeNonNegative(p.basic.spendLimit.value, x);
    FeeNonNegative(p.periodCanSpend, x);
  }

  /** The budgets after a paid use. */
  lemma PaidAmounts(p: Periodic, u: Use, x: string)
    requires AcceptPeriodic(p, u.now, u.fee).err.None?
    ensures var q := AcceptPeriodic(p, u.now, u.fee).after; var r := TryReset(p, u.now);
            && q.periodReset == r.periodReset && q.period == p.period && q.periodSpendLimit == p.periodSpendLimit
            && q.basic.expiration == p.basic.expiration && (q.basic.spendLimit.Some? <==> p.basic.spendLimit.Some?)
            && CanSpend(q, x) == CanSpend(r, x) - AmountOf(u.fee, x)
            && (p.basic.spendLimit.Some? ==> Total(q, x) == Total(p, x) - AmountOf(u.fee, x))
  {
    MinusAmount(TryReset(p, u.now).periodCanSpend, u.fee, x);
    MinusAmount(LimitOrEmpty(p.basic), u.fee, x);
  }

  /** What runs short after a paid use ran short before it, a period later if the use reset the period. */
  lemma ShortBefore(p: Periodic, u: Use, n: nat, x: string)
    requires SoundPeriodic(p) && Fee(u.fee) && AcceptPeriodic(p, u.now, u.fee).err.None? &&
             (Due(p, u.now) ==> Comparable(p))
    requires RunsShort(AcceptPeriodic(p, u.now, u.fee).after, n, x)
    ensures RunsShort(p, if Due(p, u.now) then n + 1 else n, x)
  {
    PaidAmounts(p, u, x);
    var q := AcceptPeriodic(p, u.now, u.fee).after;
    if Due(p, u.now) {
      FeeNonNegative(p.periodCanSpend, x);
      ResetSchedule(p, u.now);
      ComparableTopUp(p, u.now, x);
      hide AmountOf, AcceptPeriodic, SoundPeriodic, TryReset, Comparable;
      Distribute(n, PerPeriod(p, x));
      Later(p.periodReset, q.periodReset, p.period, n);
    }
  }

  lemma Later(reset: Time, next: Time, period: nat, n: nat)
    requires n >= 1 && next >= reset + period
    ensures reset + (n + 1 - 1) * period <= next + (n - 1) * period
  {
    Distribute(n - 1, period);
  }

  lemma Budget(p: Periodic, end: Time, d: string)
    requires SoundPeriodic(p) && p.period > 0
    ensures CanSpend(p, d) >= 0 && PerPeriod(p, d) * PeriodsStarted(p.periodReset, p.period, end) >= 0
  {
    FeeNonNegative(p.periodCanSpend, d);
    FeeNonNegative(p.periodSpendLimit, d);
  }

  lemma StoredAfter(p: Periodic, u: Use)
    requires SoundPeriodic(p) && Fee(u.fee)
    ensures var s := Step(Start(p), u);
            s.Live? ==> && s.a.OfPeriodic? && SoundPeriodic(s.a.p) && s.a.p.period == p.period
                        && s.a.p == if Pays(Start(p), u) then AcceptPeriodic(p, u.now, u.fee).after else p
  {
    StepConserves(OfPeriodic(p), u);
  }

  lemma PeriodsLeft(p: Periodic, u: Use, end: Time, n: nat)
    requires p.period > 0 && u.now <= end && AcceptPeriodic(p, u.now, u.fee).err.None?
    requires n <= PeriodsStarted(AcceptPeriodic(p, u.now, u.fee).after.periodReset, p.period, end)
    ensures (if Due(p, u.now) then n + 1 else n) <= PeriodsStarted(p.periodReset, p.period, end)
  {
    var next := TryReset(p, u.now).periodReset;
    assert AcceptPeriodic(p, u.now, u.fee).after.periodReset == next;
    if Due(p, u.now) {
      ResetSchedule(p, u.now);
      NextPeriod(p.periodReset, next, p.period, end);
    }
  }

  /** A run keeps to the rate, or some coin runs short within it. */
  lemma {:induction false} KeepsOrShort(p: Periodic, uses: seq<Use>, end: Time, d: string) returns (n: nat, x: string)
    requires SoundPeriodic(p) && p.period > 0 && Fees(uses) && forall u <- uses :: u.now <= end
    ensures KeepsRate(Start(p), p, uses, end, d) ||
            (RunsShort(p, n, x) && n <= PeriodsStarted(p.periodReset, p.period, end))
    decreases |uses|, 1
  {
    n, x := 0, "";
    Budget(p, end, d);
    if uses != [] {
      var u := uses[0];
      var s' := Step(Start(p), u);
      StoredAfter(p, u);
      hide SoundPeriodic, RunsShort, AmountOf, Comparable, Fee;
      if !Pays(Start(p), u) {
        if s'.Live? { n, x := KeepsOrShort(p, uses[1..], end, d); } else { GoneStaysGone(s', uses[1..], d); }
      } else if Due(p, u.now) && !Comparable(p) {
        x := ShortNow(p, u.now);
        n := 1;
      } else {
        n, x := PaidKeepsOrShort(p, uses, end, d);
      }
    }
  }

  lemma {:induction false} PaidKeepsOrShort(p: Periodic, uses: seq<Use>, end: Time, d: string)
      returns (n: nat, x: string)
    requires SoundPeriodic(p) && p.period > 0 && Fees(uses) && (forall u <- uses :: u.now <= end) && uses != []
    requires Pays(Start(p), uses[0]) && (Due(p, uses[0].now) ==> Comparable(p))
    ensures KeepsRate(Start(p), p, uses, end, d) ||
            (RunsShort(p, n, x) && n <= PeriodsStarted(p.periodReset, p.period, end))
    decreases |uses|, 0
  {
    n, x := 0, "";
    var u := uses[0];
    var s', q := Step(Start(p), u), AcceptPeriodic(p, u.now, u.fee).after;
    StoredAfter(p, u);
    PaidStep(p, u, end, d);
    if s'.Live? {
      hide AcceptPeriodic, SoundPeriodic, RunsShort, AmountOf, Comparable, Fee;
      n, x := KeepsOrShort(q, uses[1..], end, d);
      if !KeepsRate(Start(q), q, uses[1..], end, d) {
        ShortBefore(p, u, n, x);
        PeriodsLeft(p, u, end, n);
        n := if Due(p, u.now) then n + 1 else n;
      }
    } else {
      GoneStaysGone(s', uses[1..], d);
      FinalFee(p, u, end, d);
    }
  }

  // ---------- Runs that break the rate ----------

  predicate Chronological(uses: seq<Use>) {
    forall i, j :: 0 <= i < j < |uses| ==> uses[i].now <= uses[j].now
  }

  lemma ChronologicalFirst(u: Use, rest: seq<Use>)
    requires Chronological(rest) && forall v <- rest :: u.now <= v.now
    ensures Chronological([u] + rest)
  {
    var uses := [u] + rest;
    forall i, j | 0 <= i < j < |uses| ensures uses[i].now <= uses[j].now {
      assert uses[j] == rest[j - 1];
      if i > 0 { assert uses[i] == rest[i - 1]; }
    }
  }

  /** A run the chain can produce: in order of time, every use with a message and a fee of at most one coin. */
  predicate Possible(uses: seq<Use>) {
    Chronological(uses) && forall u <- uses :: u.msgs != [] && |u.fee| <= 1 && Valid(u.fee)
  }

  /** The uses of the runs below: one coin for the given messages, within the given times. */
  predicate Asks(uses: seq<Use>, msgs: seq<Text>, from: Time, to: Time) {
    Chronological(uses) && forall u <- uses :: from <= u.now <= to && u.msgs == msgs && |u.fee| == 1 && Valid(u.fee)
  }

  lemma AskFirst(u: Use, rest: seq<Use>, msgs: seq<Text>, from: Time, to: Time)
    requires Asks(rest, msgs, from, to) && Asks([u], msgs, u.now, to) && u.now <= from
    ensures Asks([u] + rest, msgs, u.now, to)
  {
    hide Valid;
    ChronologicalFirst(u, rest);
    assert u in [u];
  }

  /** Every paid use that resets the period finds comparable limits. */
  ghost predicate ResetsComparable(s: Slot, uses: seq<Use>)
    requires s.Live? ==> s.a.OfPeriodic?
    decreases |uses|
  {
    uses != [] ==>
      && (Pays(s, uses[0]) && Due(s.a.p, uses[0].now) ==> Comparable(s.a.p))
      && ResetsComparable(Step(s, uses[0]), uses[1..])
  }

  /**
   The whole of `y` can be spent by the n-th period, if `x` runs short by then; if that is more than a period limit,
   some reset on the way finds incomparable limits.
   */
  lemma {:induction false} DrainRun(p: Periodic, n: nat, x: string, y: string, msgs: seq<Text>) returns (uses: seq<Use>)
    requires SoundPeriodic(p) && p.basic.spendLimit.Some? && n >= 1 && StartsInTime(p, n)
    requires x != y && PerPeriod(p, x) > 0 && Total(p, x) < n * PerPeriod(p, x) && Total(p, y) > 0
    ensures Asks(uses, msgs, p.periodReset, p.periodReset + (n - 1) * p.period)
    ensures Spent(Start(p), uses, y) == Total(p, y)
    ensures Total(p, y) > PerPeriod(p, y) ==> !ResetsComparable(Start(p), uses)
    decreases n
  {
    var now, total := p.periodReset, p.basic.spendLimit.value;
    InTimeEarlier(p, n);
    if !Covers(total, p.periodSpendLimit) {
      IncomparableTopUp(p, now);
      SpendAll(p, now, y, msgs);
      uses := [AskFor(now, y, Total(p, y), msgs)];
    } else {
      assert PerPeriod(p, x) <= Total(p, x);
      Distribute(n - 1, PerPeriod(p, x));
      var u := SpendPeriod(p, x, y, msgs);
      var q := AcceptPeriodic(p, now, u.fee).after;
      Later(p.periodReset, q.periodReset, p.period, n - 1);
      hide AcceptPeriodic, AmountOf, SoundPeriodic, Asks, Comparable;
      var rest := DrainRun(q, n - 1, x, y, msgs);
      SpentFirst(p, u, rest, y);
      uses := [u] + rest;
      assert uses[1..] == rest;
      Widen(rest, msgs, q.periodReset, now, p.periodReset + (n - 1) * p.period);
      AskOne(u, msgs, p.periodReset + (n - 1) * p.period);
      AskFirst(u, rest, msgs, now, p.periodReset + (n - 1) * p.period);
    }
  }

  lemma Widen(uses: seq<Use>, msgs: seq<Text>, from: Time, from': Time, to: Time)
    requires Asks(uses, msgs, from, to) && from' <= from
    ensures Asks(uses, msgs, from', to)
  {
  }

  lemma AskOne(u: Use, msgs: seq<Text>, to: Time)
    requires u.msgs == msgs && |u.fee| == 1 && Valid(u.fee) && u.now <= to
    ensures Asks([u], msgs, u.now, to)
  {
  }

  /** At a reset that the total covers, the period limit of `x` can be spent. */
  lemma SpendPeriod(p: Periodic, x: string, y: string, msgs: seq<Text>) returns (u: Use)
    requires SoundPeriodic(p) && p.basic.spendLimit.Some? && !Before(p.basic.expiration, p.periodReset)
    requires Covers(p.basic.spendLimit.value, p.periodSpendLimit) && x != y && PerPeriod(p, x) > 0 && Total(p, y) > 0
    ensures u == AskFor(p.periodReset, x, PerPeriod(p, x), msgs) && Valid(u.fee) && AmountOf(u.fee, y) == 0
    ensures var v := AcceptPeriodic(p, u.now, u.fee); var q := v.after;
            && v.err.None? && !v.remove && Step(Start(p), u) == Start(q) && SoundPeriodic(q)
            && q.basic.spendLimit.Some? && q.basic.expiration == p.basic.expiration && q.period == p.period
            && q.periodReset == p.periodReset + p.period && q.periodSpendLimit == p.periodSpendLimit
            && Total(q, x) == Total(p, x) - PerPeriod(p, x) && Total(q, y) == Total(p, y)
  {
    u := AskFor(p.periodReset, x, PerPeriod(p, x), msgs);
    assert PerPeriod(p, x) <= Total(p, x);
    CoveredTopUp(p, u.now);
    ResetSchedule(p, u.now);
    PayOne(p, u.now, x, PerPeriod(p, x));
    OneAmount(x, PerPeriod(p, x));
    assert Total(AcceptPeriodic(p, u.now, u.fee).after, y) == Total(p, y);
  }

  lemma InTimeEarlier(p: Periodic, n: nat)
    requires p.period >= 0 && n >= 1 && StartsInTime(p, n)
    ensures !Before(p.basic.expiration, p.periodReset) && p.periodReset <= p.periodReset + (n - 1) * p.period
  {
    assert (n - 1) * p.period >= 0;
  }

  function AskFor(now: Time, denom: string, amount: int, msgs: seq<Text>): Use {
    Use(now, One(denom, amount), msgs)
  }

  /** Where a reset makes the whole total available, all of one coin can be spent at once. */
  lemma SpendAll(p: Periodic, now: Time, y: string, msgs: seq<Text>)
    requires SoundPeriodic(p) && p.basic.spendLimit.Some? && !Before(p.basic.expiration, now)
    requires TryReset(p, now).periodCanSpend == p.basic.spendLimit.value && Total(p, y) > 0
    ensures var u := AskFor(now, y, Total(p, y), msgs);
            Valid(u.fee) && Pays(Start(p), u) && Spent(Start(p), [u], y) == Total(p, y)
  {
    PayOne(p, now, y, Total(p, y));
    OneAmount(y, Total(p, y));
    var uses := [AskFor(now, y, Total(p, y), msgs)];
    hide AcceptPeriodic;
    assert uses[1..] == [];
    assert Pays(Start(p), uses[0]);
  }

  /** The total of `y` is more than the rate allows by the n-th period. */
  predicate Exceeds(p: Periodic, n: nat, y: string) {
    Total(p, y) > CanSpend(p, y) + n * PerPeriod(p, y)
  }

  lemma PeriodsBy(reset: Time, period: nat, n: nat)
    requires period > 0 && n >= 1
    ensures PeriodsStarted(reset, period, reset + (n - 1) * period) == n
  {
    QuotientIs((n - 1) * period, period, n - 1, 0);
  }

  /** Before the first reset, whatever is left of `x` can be spent. */
  lemma SpendLeft(p: Periodic, n: nat, x: string, y: string, msgs: seq<Text>) returns (u: Use)
    requires SoundPeriodic(p) && RunsShort(p, n, x) && x != y && Total(p, y) > 0 && Min(CanSpend(p, x), Total(p, x)) > 0
    ensures u.now == p.periodReset - 1 && u.msgs == msgs && |u.fee| == 1 && Valid(u.fee) && AmountOf(u.fee, y) == 0
    ensures var v := AcceptPeriodic(p, u.now, u.fee); var q := v.after;
            && v.err.None? && !v.remove && Step(Start(p), u) == Start(q) && SoundPeriodic(q)
            && q.basic.spendLimit.Some? && q.basic.expiration == p.basic.expiration && q.period == p.period
            && q.periodReset == p.periodReset && q.periodSpendLimit == p.periodSpendLimit
            && Total(q, x) < n * PerPeriod(p, x) && Total(q, y) == Total(p, y)
  {
    assert n * PerPeriod(p, x) > 0;
    InTimeEarlier(p, n);
    var amount := Min(CanSpend(p, x), Total(p, x));
    u := AskFor(p.periodReset - 1, x, amount, msgs);
    hide AmountOf, SoundPeriodic, AcceptPeriodic, Valid;
    PayOne(p, u.now, x, amount);
    OneAmount(x, amount);
    assert Total(AcceptPeriodic(p, u.now, u.fee).after, y) == Total(p, y);
  }

  lemma NothingLeft(p: Periodic, n: nat, x: string)
    requires SoundPeriodic(p) && RunsShort(p, n, x) && Min(CanSpend(p, x), Total(p, x)) <= 0
    ensures Total(p, x) < n * PerPeriod(p, x)
  {
    FeeNonNegative(p.basic.spendLimit.value, x);
    FeeNonNegative(p.periodCanSpend, x);
    assert n * PerPeriod(p, x) > 0;
  }

  lemma ShortFacts(p: Periodic, n: nat, x: string)
    requires SoundPeriodic(p) && RunsShort(p, n, x)
    ensures n >= 1 && StartsInTime(p, n) && p.basic.spendLimit.Some? && PerPeriod(p, x) > 0
    ensures p.periodReset <= p.periodReset + (n - 1) * p.period
  {
    InTimeEarlier(p, n);
  }

  /** Spend what is left of `x` before the first reset, drain it, and take all of `y`. */
  lemma ShortRun(p: Periodic, n: nat, x: string, y: string, msgs: seq<Text>) returns (uses: seq<Use>)
    requires SoundPeriodic(p) && RunsShort(p, n, x) && x != y && Total(p, y) > 0
    ensures n >= 1 && Asks(uses, msgs, p.periodReset - 1, p.periodReset + (n - 1) * p.period)
    ensures Spent(Start(p), uses, y) == Total(p, y)
    ensures Total(p, y) > PerPeriod(p, y) ==> !ResetsComparable(Start(p), uses)
  {
    hide *;
    ShortFacts(p, n, x);
    if Min(CanSpend(p, x), Total(p, x)) <= 0 {
      NothingLeft(p, n, x);
      uses := DrainRun(p, n, x, y, msgs);
      Widen(uses, msgs, p.periodReset, p.periodReset - 1, p.periodReset + (n - 1) * p.period);
    } else {
      var u := SpendLeft(p, n, x, y, msgs);
      var rest := DrainAfter(p, u, n, x, y, msgs);
      uses := [u] + rest;
      ShortRunJoined(p, u, rest, y, msgs, p.periodReset + (n - 1) * p.period);
    }
  }

  lemma DrainAfter(p: Periodic, u: Use, n: nat, x: string, y: string, msgs: seq<Text>) returns (rest: seq<Use>)
    requires AcceptPeriodic(p, u.now, u.fee).err.None? && n >= 1 && StartsInTime(p, n) && PerPeriod(p, x) > 0 && x != y
    requires var q := AcceptPeriodic(p, u.now, u.fee).after;
             && SoundPeriodic(q) && q.basic.spendLimit.Some? && q.basic.expiration == p.basic.expiration
             && q.period == p.period && q.periodReset == p.periodReset && q.periodSpendLimit == p.periodSpendLimit
             && Total(q, x) < n * PerPeriod(p, x) && Total(q, y) == Total(p, y) > 0
    ensures Asks(rest, msgs, p.periodReset, p.periodReset + (n - 1) * p.period)
    ensures var q := AcceptPeriodic(p, u.now, u.fee).after;
            && Spent(Start(q), rest, y) == Total(p, y)
            && (Total(p, y) > PerPeriod(p, y) ==> !ResetsComparable(Start(q), rest))
  {
    hide AmountOf, SoundPeriodic, AcceptPeriodic, Asks, Spent, ResetsComparable;
    rest := DrainRun(AcceptPeriodic(p, u.now, u.fee).after, n, x, y, msgs);
  }

  lemma ShortRunJoined(p: Periodic, u: Use, rest: seq<Use>, y: string, msgs: seq<Text>, end: Time)
    requires u.now == p.periodReset - 1 && u.msgs == msgs && |u.fee| == 1 && Valid(u.fee) && AmountOf(u.fee, y) == 0
    requires AcceptPeriodic(p, u.now, u.fee).err.None? && !AcceptPeriodic(p, u.now, u.fee).remove
    requires Step(Start(p), u) == Start(AcceptPeriodic(p, u.now, u.fee).after)
    requires Asks(rest, msgs, p.periodReset, end) && p.periodReset <= end
    ensures Asks([u] + rest, msgs, p.periodReset - 1, end)
    ensures var q := AcceptPeriodic(p, u.now, u.fee).after;
            && Spent(Start(p), [u] + rest, y) == Spent(Start(q), rest, y)
            && (!ResetsComparable(Start(q), rest) ==> !ResetsComparable(Start(p), [u] + rest))
  {
    hide AmountOf, AcceptPeriodic, Valid, Asks, Comparable;
    SpentFirst(p, u, rest, y);
    assert ([u] + rest)[1..] == rest;
    AskOne(u, msgs, end);
    AskFirst(u, rest, msgs, p.periodReset, end);
  }

  lemma SpendsTooMuch(p: Periodic, n: nat, y: string, uses: seq<Use>)
    requires p.period > 0 && n >= 1 && Exceeds(p, n, y) && Spent(Start(p), uses, y) == Total(p, y)
    ensures !KeepsRate(Start(p), p, uses, p.periodReset + (n - 1) * p.period, y)
  {
    hide AmountOf, Spent;
    PeriodsBy(p.periodReset, p.period, n);
  }

  lemma Apart(p: Periodic, n: nat, x: string, y: string)
    requires SoundPeriodic(p) && RunsShort(p, n, x) && Exceeds(p, n, y)
    ensures x != y && Total(p, y) > 0
  {
    FeeNonNegative(p.periodCanSpend, y);
    FeeNonNegative(p.periodSpendLimit, y);
    assert n * PerPeriod(p, y) >= 0;
  }

  /** Where the total of `y` exceeds the rate by the period in which `x` runs short, such a run breaks the rate. */
  lemma BreakingRun(p: Periodic, n: nat, x: string, y: string, msgs: seq<Text>) returns (uses: seq<Use>)
    requires SoundPeriodic(p) && p.period > 0 && RunsShort(p, n, x) && Exceeds(p, n, y)
    ensures n >= 1 && Asks(uses, msgs, p.periodReset - 1, p.periodReset + (n - 1) * p.period)
    ensures !KeepsRate(Start(p), p, uses, p.periodReset + (n - 1) * p.period, y)
  {
    hide AmountOf, SoundPeriodic, RunsShort, Exceeds, Asks, Spent, ResetsComparable;
    Apart(p, n, x, y);
    uses := ShortRun(p, n, x, y, msgs);
    SpendsTooMuch(p, n, y, uses);
  }

  // ---------- Exactly which allowances keep to the rate ----------

  /** The first period by which `x` runs short. */
  function ShortFrom(p: Periodic, x: string): (n: nat)
    requires PerPeriod(p, x) > 0
    ensures n >= 1 && Total(p, x) < CanSpend(p, x) + n * PerPeriod(p, x)
  {
    var gap := Total(p, x) - CanSpend(p, x);
    if gap < PerPeriod(p, x) then 1 else QuotientBounds(gap, PerPeriod(p, x)); gap / PerPeriod(p, x) + 1
  }

  /**
   The condition, to be read off the allowance: for every coin of the period limit that can run short in time, no coin
   of the total limit is by then more than the rate allows.
   */
  predicate WithinRate(p: Periodic)
    requires SoundPeriodic(p)
  {
    p.basic.spendLimit.Some? ==>
      forall x <- p.periodSpendLimit ::
        var n := ShortFromCoin(p, x);
        StartsInTime(p, n) ==> forall y <- p.basic.spendLimit.value :: !Exceeds(p, n, y.denom)
  }

  function ShortFromCoin(p: Periodic, x: Coin): nat
    requires SoundPeriodic(p) && x in p.periodSpendLimit
  {
    CoinIsPositive(p.periodSpendLimit, x);
    ShortFrom(p, x.denom)
  }

  lemma CoinIsPositive(cs: CoinList, c: Coin)
    requires Valid(cs) && c in cs
    ensures AmountOf(cs, c.denom) == c.amount > 0
  {
    var i :| 0 <= i < |cs| && cs[i] == c;
    AmountOfMember(cs, i);
  }

  /** No earlier period would do, and the coin stays short from then on. */
  lemma ShortFromExact(p: Periodic, x: string, n: nat)
    requires SoundPeriodic(p) && RunsShort(p, n, x)
    ensures ShortFrom(p, x) <= n
  {
    var gap, limit := Total(p, x) - CanSpend(p, x), PerPeriod(p, x);
    if gap >= limit {
      QuotientBounds(gap, limit);
      CancelLess(gap / limit, n, limit);
    }
  }

  /** The condition speaks of all coins and all periods. */
  lemma WithinRateExact(p: Periodic)
    requires SoundPeriodic(p)
    ensures WithinRate(p) <==> forall n: nat, x, y :: RunsShort(p, n, x) ==> !Exceeds(p, n, y)
  {
    hide StartsInTime;
    if WithinRate(p) {
      forall n: nat, x, y | RunsShort(p, n, x) ensures !Exceeds(p, n, y) { NotExceeded(p, n, x, y); }
    } else {
      var x :| x in p.periodSpendLimit && StartsInTime(p, ShortFromCoin(p, x)) &&
               exists y <- p.basic.spendLimit.value :: Exceeds(p, ShortFromCoin(p, x), y.denom);
      var y :| y in p.basic.spendLimit.value && Exceeds(p, ShortFromCoin(p, x), y.denom);
      CoinIsPositive(p.periodSpendLimit, x);
      assert RunsShort(p, ShortFromCoin(p, x), x.denom);
    }
  }

  lemma InTimeBefore(p: Periodic, m: nat, n: nat)
    requires p.period >= 0 && m <= n && StartsInTime(p, n)
    ensures StartsInTime(p, m)
  {
    MorePeriods(n - m, n - m, p.period);
    assert (n - 1) * p.period == (m - 1) * p.period + (n - m) * p.period;
  }

  /** The condition at the first period in which `x` runs short, for every coin `y`. */
  lemma NotExceededAtFirst(p: Periodic, x: string, y: string)
    requires SoundPeriodic(p) && WithinRate(p) && p.basic.spendLimit.Some? && PerPeriod(p, x) > 0
    requires StartsInTime(p, ShortFrom(p, x))
    ensures !Exceeds(p, ShortFrom(p, x), y)
  {
    AmountOfSign(p.periodSpendLimit, x);
    AmountOfSign(p.basic.spendLimit.value, y);
    FeeNonNegative(p.periodSpendLimit, y);
    FeeNonNegative(p.periodCanSpend, y);
    var c := Coin(x, PerPeriod(p, x));
    assert ShortFromCoin(p, c) == ShortFrom(p, x);
    hide ShortFrom, AmountOf, StartsInTime, SoundPeriodic;
    MorePeriods(0, ShortFrom(p, x), PerPeriod(p, y));
  }

  lemma NotExceeded(p: Periodic, n: nat, x: string, y: string)
    requires SoundPeriodic(p) && WithinRate(p) && RunsShort(p, n, x)
    ensures !Exceeds(p, n, y)
  {
    FeeNonNegative(p.periodSpendLimit, y);
    ShortFromExact(p, x, n);
    var m := ShortFrom(p, x);
    InTimeBefore(p, m, n);
    hide WithinRate, AmountOf, StartsInTime, SoundPeriodic;
    NotExceededAtFirst(p, x, y);
    hide ShortFrom;
    MorePeriods(m, n, PerPeriod(p, y));
  }

  lemma SpentWithinTotal(p: Periodic, uses: seq<Use>, d: string)
    requires SoundPeriodic(p) && p.basic.spendLimit.Some? && Fees(uses)
    ensures Spent(Start(p), uses, d) <= Total(p, d)
  {
    InnermostConserves(OfPeriodic(p), uses, d);
    var end := Run(Start(p), uses);
    if end.Live? { LimitNonNegative(end.a, d); }
  }

  /** Within the condition, every run keeps to the rate. */
  lemma RateLimit(p: Periodic, uses: seq<Use>, end: Time, d: string)
    requires SoundPeriodic(p) && p.period > 0 && WithinRate(p) && Fees(uses) && forall u <- uses :: u.now <= end
    ensures KeepsRate(Start(p), p, uses, end, d)
  {
    hide WithinRate;
    var n, x := KeepsOrShort(p, uses, end, d);
    if RunsShort(p, n, x) && n <= PeriodsStarted(p.periodReset, p.period, end) {
      WithinRateExact(p);
      assert !Exceeds(p, n, d);
      SpentWithinTotal(p, uses, d);
      FeeNonNegative(p.periodSpendLimit, d);
      MorePeriods(n, PeriodsStarted(p.periodReset, p.period, end), PerPeriod(p, d));
    }
  }

  lemma MorePeriods(n: nat, m: nat, limit: nat)
    requires n <= m
    ensures n * limit <= limit * m
  {
    assert (m - n) * limit >= 0;
  }

  lemma {:induction false} AllAdmitted(filters: seq<seq<Text>>, uses: seq<Use>)
    requires forall u <- uses :: Passes(filters, u.msgs)
    ensures Admitted(filters, uses) == uses
  {
    hide Passes;
    if uses != [] { AllAdmitted(filters, uses[1..]); }
  }

  lemma {:induction false} NoneAdmitted(filters: seq<seq<Text>>, uses: seq<Use>)
    requires forall u <- uses :: !Passes(filters, u.msgs)
    ensures Admitted(filters, uses) == []
  {
    hide Passes;
    if uses != [] { NoneAdmitted(filters, uses[1..]); }
  }

  /** Some message is in every list. */
  ghost predicate Usable(a: Allowance) {
    exists m: Text :: Passes(Filters(a), [m])
  }

  /** ValidateBasic admits nested filters with no message in common; such a grant is not usable. */
  lemma DisjointFiltersUnusable(a: Allowance, m: Text, m': Text)
    requires ValidateBasic(a) && m != m'
    ensures var nested := Filtered(Filtered(a, [m]), [m']); ValidateBasic(nested) && !Usable(nested)
  {
    var nested := Filtered(Filtered(a, [m]), [m']);
    assert Filters(nested.inner) == [[m]] + Filters(a) && Filters(nested) == [[m']] + Filters(nested.inner);
    assert [m] in Filters(nested) by { assert Filters(nested)[1] == [m]; }
    assert [m'] in Filters(nested) by { assert Filters(nested)[0] == [m']; }
    forall k: Text ensures !Passes(Filters(nested), [k]) {
      assert k in [k];
      assert AllAllowed([m'], [k]) ==> k == m';
      assert AllAllowed([m], [k]) ==> k == m;
    }
  }

  lemma PassesFirst(filters: seq<seq<Text>>, msgs: seq<Text>)
    requires msgs != [] && Passes(filters, msgs)
    ensures Passes(filters, [msgs[0]])
  {
    forall f <- filters ensures AllAllowed(f, [msgs[0]]) { assert AllAllowed(f, msgs) && msgs[0] in msgs; }
  }

  /** In every run the chain can produce, the fees accepted by any time stay within the rate. */
  ghost predicate AlwaysKeepsRate(a: Allowance, p: Periodic)
    requires p.period > 0
  {
    forall uses: seq<Use>, end: Time, d: string ::
      Possible(uses) && (forall u <- uses :: u.now <= end) ==> KeepsRate(Live(a), p, uses, end, d)
  }

  lemma PossibleFees(uses: seq<Use>)
    requires Possible(uses)
    ensures Fees(uses)
  {
  }

  lemma AsksPossible(uses: seq<Use>, msgs: seq<Text>, from: Time, to: Time)
    requires Asks(uses, msgs, from, to) && msgs != []
    ensures Possible(uses) && forall u <- uses :: u.now <= to && u.msgs == msgs
  {
  }

  lemma UnusableKeepsRate(a: Allowance, uses: seq<Use>, end: Time, d: string)
    requires Innermost(a).OfPeriodic? && SoundPeriodic(Innermost(a).p) && Innermost(a).p.period > 0
    requires !Usable(a) && Possible(uses)
    ensures KeepsRate(Live(a), Innermost(a).p, uses, end, d)
  {
    forall u <- uses ensures !Passes(Filters(a), u.msgs) {
      if Passes(Filters(a), u.msgs) { PassesFirst(Filters(a), u.msgs); }
    }
    hide Passes, Valid, SoundPeriodic, AmountOf, Usable;
    NoneAdmitted(Filters(a), uses);
    RunRefinesInnermost(a, uses, d);
    Budget(Innermost(a).p, end, d);
  }

  lemma BreakingRunFiltered(a: Allowance, n: nat, x: string, y: string, m: Text)
    requires Innermost(a).OfPeriodic? && SoundPeriodic(Innermost(a).p) && Innermost(a).p.period > 0
    requires RunsShort(Innermost(a).p, n, x) && Exceeds(Innermost(a).p, n, y) && Passes(Filters(a), [m])
    ensures !AlwaysKeepsRate(a, Innermost(a).p)
  {
    var p := Innermost(a).p;
    hide Passes, SoundPeriodic, RunsShort, Exceeds, AmountOf, Spent, Asks, Possible;
    var uses := BreakingRun(p, n, x, y, [m]);
    AsksPossible(uses, [m], p.periodReset - 1, p.periodReset + (n - 1) * p.period);
    AllAdmitted(Filters(a), uses);
    RunRefinesInnermost(a, uses, y);
    assert !KeepsRate(Live(a), p, uses, p.periodReset + (n - 1) * p.period, y);
  }

  /**
   The rate limit, under any filters: in every run the chain can produce the fees accepted by any time stay within what
   was left plus one period limit per period started, exactly if the limits meet the condition or no message passes the
   filters.
   */
  lemma RateLimitExact(a: Allowance)
    requires Innermost(a).OfPeriodic? && Sound(a) && Innermost(a).p.period > 0
    ensures SoundPeriodic(Innermost(a).p)
    ensures AlwaysKeepsRate(a, Innermost(a).p) <==> WithinRate(Innermost(a).p) || !Usable(a)
  {
    var p := Innermost(a).p;
    SoundInnermost(a);
    hide WithinRate, RunsShort, Exceeds, SoundPeriodic, AmountOf, Spent, Passes, Possible;
    if WithinRate(p) || !Usable(a) {
      forall uses: seq<Use>, end: Time, d: string | Possible(uses) && (forall u <- uses :: u.now <= end)
        ensures KeepsRate(Live(a), p, uses, end, d)
      {
        if WithinRate(p) {
          PossibleFees(uses);
          RunRefinesInnermost(a, uses, d);
          RateLimit(p, Admitted(Filters(a), uses), end, d);
        } else {
          UnusableKeepsRate(a, uses, end, d);
        }
      }
    } else {
      WithinRateExact(p);
      var n: nat, x, y :| RunsShort(p, n, x) && Exceeds(p, n, y);
      var m: Text :| Passes(Filters(a), [m]);
      BreakingRunFiltered(a, n, x, y, m);
    }
  }
}
