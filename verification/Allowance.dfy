/**
 Fee allowances as values: one `Accept` step of each kind, the storage rule of the keeper around it,
 and runs of such steps.
 */
module Allowance {
  import opened Wrappers
  import opened Coins
  import Lex

  /** A Go string that is only compared and stored: message type URLs, DIDs, addresses. */
  type Text = Lex.bytes

  /** Nanoseconds since the Unix epoch. */
  type Time = int

  /** A missing spend limit (Go's nil) means unlimited. */
  datatype Basic = Basic(spendLimit: Option<CoinList>, expiration: Option<Time>)

  datatype Periodic = Periodic(
    basic: Basic,
    period: int,
    periodSpendLimit: CoinList,
    periodCanSpend: CoinList,
    periodReset: Time)

  /** `Filtered` is AllowedMsgAllowance; messages are represented by their type URLs. */
  datatype Allowance =
    | OfBasic(b: Basic)
    | OfPeriodic(p: Periodic)
    | Filtered(inner: Allowance, allowed: seq<Text>)

  datatype FeeError =
    | LimitExpired
    | BasicLimitExceeded
    | PeriodLimitExceeded
    | AbsoluteLimitExceeded
    | MessageNotAllowed

  /** The allowance in memory after the call and the two results of Accept. */
  datatype Verdict<+A> = Verdict(after: A, remove: bool, err: Option<FeeError>)

  datatype Use = Use(now: Time, fee: CoinList, msgs: seq<Text>)

  // ---------- Accept ----------

  function AcceptBasic(b: Basic, now: Time, fee: CoinList): Verdict<Basic> {
    if b.expiration.Some? && b.expiration.value < now then Verdict(b, true, Some(LimitExpired))
    else match b.spendLimit
         case None => Verdict(b, false, None)
         case Some(limit) =>
           var left := Minus(limit, fee);
           if IsAnyNegative(left) then Verdict(b, false, Some(BasicLimitExceeded))
           else Verdict(b.(spendLimit := Some(left)), IsZero(left), None)
  }

  function LimitOrEmpty(b: Basic): CoinList {
    if b.spendLimit.Some? then b.spendLimit.value else []
  }

  /** tryResetPeriod */
  function TryReset(p: Periodic, now: Time): Periodic {
    if now < p.periodReset then p
    else
      var total := LimitOrEmpty(p.basic);
      var canSpend := if IsAnyNegative(Minus(total, p.periodSpendLimit)) && total != [] then total
                      else p.periodSpendLimit;
      var next := p.periodReset + p.period;
      p.(periodCanSpend := canSpend, periodReset := if now > next then now + p.period else next)
  }

  function AcceptPeriodic(p: Periodic, now: Time, fee: CoinList): Verdict<Periodic> {
    if p.basic.expiration.Some? && p.basic.expiration.value < now then Verdict(p, true, Some(LimitExpired))
    else
      var q := TryReset(p, now);
      var can := Minus(q.periodCanSpend, fee);
      var q' := q.(periodCanSpend := can);
      if IsAnyNegative(can) then Verdict(q', false, Some(PeriodLimitExceeded))
      else match q.basic.spendLimit
           case None => Verdict(q', false, None)
           case Some(limit) =>
             var left := Minus(limit, fee);
             var q'' := q'.(basic := q.basic.(spendLimit := Some(left)));
             if IsAnyNegative(left) then Verdict(q'', false, Some(AbsoluteLimitExceeded))
             else Verdict(q'', IsZero(left), None)
  }

  predicate AllAllowed(allowed: seq<Text>, msgs: seq<Text>) {
    forall m <- msgs :: m in allowed
  }

  function Accept(a: Allowance, u: Use): Verdict<Allowance> {
    match a
    case OfBasic(b) => var v := AcceptBasic(b, u.now, u.fee); Verdict(OfBasic(v.after), v.remove, v.err)
    case OfPeriodic(p) => var v := AcceptPeriodic(p, u.now, u.fee); Verdict(OfPeriodic(v.after), v.remove, v.err)
    case Filtered(inner, allowed) =>
      if !AllAllowed(allowed, u.msgs) then Verdict(a, false, Some(MessageNotAllowed))
      else var v := Accept(inner, u); Verdict(Filtered(v.after, allowed), v.remove, v.err)
  }

  function ExpiresAt(a: Allowance): Option<Time> {
    match a
    case OfBasic(b) => b.expiration
    case OfPeriodic(p) => p.basic.expiration
    case Filtered(inner, _) => ExpiresAt(inner)
  }

  predicate Before(t: Option<Time>, now: Time) {
    t.Some? && t.value < now
  }

  // ---------- ValidateBasic and what it establishes ----------

  predicate ValidBasic(b: Basic) {
    && (b.spendLimit.Some? ==> Valid(b.spendLimit.value) && b.spendLimit.value != [])
    && (b.expiration.Some? ==> b.expiration.value >= 0)
  }

  predicate DenomsSubsetOf(a: CoinList, b: CoinList) {
    forall x <- a :: exists y <- b :: y.denom == x.denom
  }

  predicate ValidPeriodic(p: Periodic) {
    && ValidBasic(p.basic)
    && Valid(p.periodSpendLimit) && p.periodSpendLimit != []
    && Valid(p.periodCanSpend)
    && (p.basic.spendLimit.Some? ==> DenomsSubsetOf(p.periodSpendLimit, p.basic.spendLimit.value))
    && p.period >= 0
  }

  predicate ValidateBasic(a: Allowance) {
    match a
    case OfBasic(b) => ValidBasic(b)
    case OfPeriodic(p) => ValidPeriodic(p)
    case Filtered(inner, allowed) => allowed != [] && ValidateBasic(inner)
  }

  predicate SoundBasic(b: Basic) {
    b.spendLimit.Some? ==> Valid(b.spendLimit.value) && b.spendLimit.value != []
  }

  predicate SoundPeriodic(p: Periodic) {
    SoundBasic(p.basic) && Valid(p.periodSpendLimit) && Valid(p.periodCanSpend) && p.period >= 0
  }

  /** Holds of every validated allowance and of every stored one; in particular a stored limit is never empty. */
  predicate Sound(a: Allowance) {
    match a
    case OfBasic(b) => SoundBasic(b)
    case OfPeriodic(p) => SoundPeriodic(p)
    case Filtered(inner, _) => Sound(inner)
  }

  lemma {:induction false} ValidatedIsSound(a: Allowance)
    requires ValidateBasic(a)
    ensures Sound(a)
  {
    if a.Filtered? { ValidatedIsSound(a.inner); }
  }

  // ---------- The filter refines the innermost allowance ----------

  function Innermost(a: Allowance): (i: Allowance)
    ensures !i.Filtered?
  {
    if a.Filtered? then Innermost(a.inner) else a
  }

  /** The allowed lists from the outside in. */
  function Filters(a: Allowance): seq<seq<Text>> {
    if a.Filtered? then [a.allowed] + Filters(a.inner) else []
  }

  predicate Passes(filters: seq<seq<Text>>, msgs: seq<Text>) {
    forall f <- filters :: AllAllowed(f, msgs)
  }

  /**
   Whatever the nesting depth: a use passes iff every message is in every list; then the two results and the new
   state are those of the innermost allowance, and the lists stay; otherwise nothing changes. The innermost
   allowance ignores messages.
   */
  lemma {:induction false} FilterRefinesInnermost(a: Allowance, u: Use)
    ensures ExpiresAt(a) == ExpiresAt(Innermost(a))
    ensures Passes(Filters(a), u.msgs) ==>
              var v := Accept(a, u); var w := Accept(Innermost(a), u);
              v.remove == w.remove && v.err == w.err && Innermost(v.after) == w.after && Filters(v.after) == Filters(a)
    ensures !Passes(Filters(a), u.msgs) ==> Accept(a, u) == Verdict(a, false, Some(MessageNotAllowed))
  {
    if a.Filtered? {
      FilterRefinesInnermost(a.inner, u);
      assert Filters(a)[0] == a.allowed && Filters(a)[1..] == Filters(a.inner);
      if AllAllowed(a.allowed, u.msgs) {
        assert Passes(Filters(a), u.msgs) <==> Passes(Filters(a.inner), u.msgs) by {
          forall f | f in Filters(a) ensures f == a.allowed || f in Filters(a.inner) {}
        }
      }
    }
  }

  /** Removal together with an error happens exactly for admissible messages after the expiry time. */
  lemma RemovedWithError(a: Allowance, u: Use)
    ensures var v := Accept(a, u);
            v.remove && v.err.Some? <==> Passes(Filters(a), u.msgs) && Before(ExpiresAt(a), u.now)
    ensures var v := Accept(a, u); v.remove && v.err.Some? ==> v.err == Some(LimitExpired)
  {
    FilterRefinesInnermost(a, u);
  }

  // ---------- Gas of the filters ----------

  const GAS_PER_ITERATION := 10

  /** Messages looked at until the first one that is not allowed. */
  function Examined(allowed: seq<Text>, msgs: seq<Text>): nat {
    if msgs == [] then 0 else if msgs[0] in allowed then 1 + Examined(allowed, msgs[1..]) else 1
  }

  function LevelGas(allowed: seq<Text>, msgs: seq<Text>): nat {
    GAS_PER_ITERATION * (|allowed| + Examined(allowed, msgs))
  }

  /** Gas of Accept: every level that is reached pays for its list and for the messages it examines. */
  function FilterGas(a: Allowance, msgs: seq<Text>): nat {
    if !a.Filtered? then 0
    else LevelGas(a.allowed, msgs) + (if AllAllowed(a.allowed, msgs) then FilterGas(a.inner, msgs) else 0)
  }

  // ---------- Storage and runs ----------

  /** What the keeper holds: the allowance, or why it is gone. */
  datatype Slot = Live(a: Allowance) | UsedUp | Expired

  /** UseGrantedFees around one Accept: save on acceptance, delete on `remove`, otherwise leave the stored value. */
  function Step(s: Slot, u: Use): Slot {
    if !s.Live? then s
    else
      var v := Accept(s.a, u);
      if v.remove then (if v.err.None? then UsedUp else Expired)
      else if v.err.Some? then s
      else Live(v.after)
  }

  predicate Pays(s: Slot, u: Use) {
    s.Live? && Accept(s.a, u).err.None?
  }

  function Run(s: Slot, uses: seq<Use>): Slot
    decreases |uses|
  {
    if uses == [] then s else Run(Step(s, uses[0]), uses[1..])
  }

  /** Fees accepted along a run, per denomination. */
  function Spent(s: Slot, uses: seq<Use>, d: string): int
    decreases |uses|
  {
    if uses == [] then 0
    else (if Pays(s, uses[0]) then AmountOf(uses[0].fee, d) else 0) + Spent(Step(s, uses[0]), uses[1..], d)
  }

  predicate Fees(uses: seq<Use>) {
    forall u <- uses :: Fee(u.fee)
  }

  // ---------- Runs of a filtered allowance are runs of the innermost one ----------

  function Admitted(filters: seq<seq<Text>>, uses: seq<Use>): (admitted: seq<Use>)
    ensures forall u <- admitted :: u in uses
  {
    if uses == [] then []
    else if Passes(filters, uses[0].msgs) then [uses[0]] + Admitted(filters, uses[1..])
    else Admitted(filters, uses[1..])
  }

  function InnerSlot(s: Slot): Slot {
    if s.Live? then Live(Innermost(s.a)) else s
  }

  lemma {:induction false} GoneStaysGone(s: Slot, uses: seq<Use>, d: string)
    requires !s.Live?
    ensures Run(s, uses) == s && Spent(s, uses, d) == 0
  {
    if uses != [] { GoneStaysGone(s, uses[1..], d); }
  }

  lemma {:induction false} RunRefinesInnermost(a: Allowance, uses: seq<Use>, d: string)
    ensures var admitted := Admitted(Filters(a), uses);
            && InnerSlot(Run(Live(a), uses)) == Run(Live(Innermost(a)), admitted)
            && Spent(Live(a), uses, d) == Spent(Live(Innermost(a)), admitted, d)
    ensures Run(Live(a), uses).Live? ==> Filters(Run(Live(a), uses).a) == Filters(a)
    decreases |uses|
  {
    if uses != [] {
      var u := uses[0];
      FilterRefinesInnermost(a, u);
      var s := Step(Live(a), u);
      if s.Live? {
        RunRefinesInnermost(s.a, uses[1..], d);
      } else {
        GoneStaysGone(s, uses[1..], d);
        GoneStaysGone(s, Admitted(Filters(a), uses[1..]), d);
      }
      if Passes(Filters(a), u.msgs) {
        assert Admitted(Filters(a), uses)[1..] == Admitted(Filters(a), uses[1..]);
      }
    }
  }

  // ---------- Conservation ----------

  function Limit(a: Allowance): Option<CoinList> {
    match a
    case OfBasic(b) => b.spendLimit
    case OfPeriodic(p) => p.basic.spendLimit
    case Filtered(inner, _) => Limit(inner)
  }

  lemma {:induction false} LimitNonNegative(a: Allowance, d: string)
    requires Sound(a) && Limit(a).Some?
    ensures AmountOf(Limit(a).value, d) >= 0
  {
    if a.Filtered? { LimitNonNegative(a.inner, d); } else { FeeNonNegative(Limit(a).value, d); }
  }

  lemma ResetIsSound(p: Periodic, now: Time)
    requires SoundPeriodic(p)
    ensures SoundPeriodic(TryReset(p, now)) && TryReset(p, now).basic == p.basic
  {
  }

  /** One step on a stored allowance: soundness is kept, the limit shrinks by exactly the accepted fee. */
  lemma StepConserves(a: Allowance, u: Use)
    requires Sound(a) && !a.Filtered? && Fee(u.fee)
    ensures var v := Accept(a, u);
            && (v.err.None? && !v.remove ==> Sound(v.after))
            && (v.err.None? ==> (Limit(v.after).Some? <==> Limit(a).Some?))
            && (v.err.None? && Limit(a).None? ==> !v.remove)
            && (v.err.None? && Limit(a).Some? ==>
                  && (forall d :: AmountOf(Limit(v.after).value, d) == AmountOf(Limit(a).value, d) - AmountOf(u.fee, d))
                  && Valid(Limit(v.after).value) && (v.remove <==> Limit(v.after).value == []))
  {
    if a.OfPeriodic? {
      ResetIsSound(a.p, u.now);
      SafeSub(TryReset(a.p, u.now).periodCanSpend, u.fee);
    }
    if Limit(a).Some? { SafeSub(Limit(a).value, u.fee); }
  }

  lemma InnermostUsedUp(a: Allowance, u: Use)
    requires Sound(a) && !a.Filtered? && Limit(a).Some? && Fee(u.fee)
    ensures Step(Live(a), u).UsedUp? <==>
            Pays(Live(a), u) && forall d :: AmountOf(Limit(a).value, d) == AmountOf(u.fee, d)
  {
    StepConserves(a, u);
    var v := Accept(a, u);
    if v.err.None? {
      var left := Limit(v.after).value;
      if left == [] {
        forall d ensures AmountOf(Limit(a).value, d) == AmountOf(u.fee, d) { assert AmountOf(left, d) == 0; }
      } else {
        AmountOfMember(left, 0);
        assert AmountOf(Limit(a).value, left[0].denom) != AmountOf(u.fee, left[0].denom);
      }
    }
  }

  ghost predicate Conserved(limit: CoinList, end: Slot, spent: int, d: string) {
    match end
    case Live(a) =>
      Sound(a) && Limit(a).Some? && AmountOf(limit, d) == AmountOf(Limit(a).value, d) + spent
    case UsedUp => AmountOf(limit, d) == spent
    case Expired => spent <= AmountOf(limit, d)
  }

  lemma {:induction false} InnermostConserves(a: Allowance, uses: seq<Use>, d: string)
    requires Sound(a) && !a.Filtered? && Limit(a).Some? && Fees(uses)
    ensures Conserved(Limit(a).value, Run(Live(a), uses), Spent(Live(a), uses, d), d)
    decreases |uses|
  {
    FeeNonNegative(Limit(a).value, d);
    if uses != [] {
      var u := uses[0];
      StepConserves(a, u);
      var s := Step(Live(a), u);
      if s.Live? {
        InnermostConserves(s.a, uses[1..], d);
      } else {
        GoneStaysGone(s, uses[1..], d);
      }
    }
  }

  lemma {:induction false} SoundInnermost(a: Allowance)
    ensures Sound(a) <==> Sound(Innermost(a))
    ensures Limit(a) == Limit(Innermost(a))
  {
    if a.Filtered? { SoundInnermost(a.inner); }
  }

  /** At any nesting depth, a limited allowance is used up exactly when it accepts a fee equal to all that was left. */
  lemma UsedUpExactly(a: Allowance, u: Use)
    requires Sound(a) && Limit(a).Some? && Fee(u.fee)
    ensures Step(Live(a), u).UsedUp? <==>
            Pays(Live(a), u) && forall d :: AmountOf(Limit(a).value, d) == AmountOf(u.fee, d)
  {
    SoundInnermost(a);
    FilterRefinesInnermost(a, u);
    InnermostUsedUp(Innermost(a), u);
  }

  /**
   Lifetime conservation, at any nesting depth: initial limit = remaining limit + accepted fees in every
   denomination; a limited allowance stays limited, never with an empty limit, and leaves the store
   without an error only when the accepted fees add up to the whole limit.
   */
  lemma Conservation(a: Allowance, uses: seq<Use>, d: string)
    requires Sound(a) && Limit(a).Some? && Fees(uses)
    ensures Conserved(Limit(a).value, Run(Live(a), uses), Spent(Live(a), uses, d), d)
  {
    SoundInnermost(a);
    RunRefinesInnermost(a, uses, d);
    InnermostConserves(Innermost(a), Admitted(Filters(a), uses), d);
    var end := Run(Live(a), uses);
    if end.Live? { SoundInnermost(end.a); }
  }
}
