/** What every run of transactions, grant changes, token invalidations and block ends preserves. */
module AnteRuns {
  import opened Wrappers
  import opened Coins
  import opened Allowance
  import opened KeeperStore
  import opened KeeperOps
  import opened Bank
  import opened Bearer
  import opened Ante
  import opened AnteProperties
  import opened GrantLife

  datatype Event =
    | Deliver(blk: Block, tx: Tx)
    | ChangeGrant(c: Change)
    | InvalidateToken(hash: Text, did: Text, creator: Text)
    | EndOfBlock(now: Time)

  function OrElse(o: Option<Tokens>, ts: Tokens): Tokens {
    if o.Some? then o.value else ts
  }

  /** The accepted outcome of a transaction that is not merely simulated. */
  ghost function Delivered(env: Env, st: State, e: Event): Option<Outcome>
    requires ValidState(st)
  {
    if e.Deliver? && !e.blk.simulate && Handle(env, st, e.blk, e.tx).Ok?
    then Some(Handle(env, st, e.blk, e.tx).value)
    else None
  }

  /** A rejected or simulated transaction leaves no trace: its writes are discarded. */
  ghost function After(env: Env, st: State, e: Event): State
    requires ValidState(st)
  {
    match e
    case Deliver(_, _) => if Delivered(env, st, e).Some? then Delivered(env, st, e).value.st else st
    case ChangeGrant(c) => st.(grants := Changed(st.grants, c))
    case InvalidateToken(h, did, creator) =>
      if env.core.None? then st
      else
        var tokens := Invalidate(env.lib, env.core.value.ignoreBearerAuth, st.tokens, h, did, creator);
        st.(tokens := OrElse(tokens, st.tokens))
    case EndOfBlock(now) =>
      if env.core.None? then st
      else st.(tokens := Sweep(env.lib, env.core.value.ignoreBearerAuth, st.tokens, now))
  }

  lemma AfterValid(env: Env, st: State, e: Event)
    requires ValidState(st)
    ensures ValidState(After(env, st, e))
  {
    hide Indexed, Formed, Handle, HandleFeegrant, Deduct, CheckTxFee, CheckExtension, Changed;
    if Delivered(env, st, e).Some? {
      if e.blk.height == 0 {
        GenesisIsFree(env, st, e.blk, e.tx);
      } else {
        AcceptedIsCharged(env, st, e.blk, e.tx);
        FeegrantKeepsValid(env, st.grants, Delivered(env, st, e).value.ctx, e.tx, UseOf(e.blk, e.tx));
      }
    } else if e.ChangeGrant? {
      ChangeRespects(st.grants, e.c, OnAccount([0], [0]));
    }
  }

  lemma GenesisIsFree(env: Env, st: State, blk: Block, tx: Tx)
    requires Accepted(env, st, blk, tx) && blk.height == 0
    ensures var o := Handle(env, st, blk, tx).value;
            o.charge == None && o.st.grants == st.grants && o.st.balances == st.balances
  {
    hide Indexed, CheckExtension;
  }

  /** Before the first grant the state is valid, whatever the balances and token records. */
  lemma InitialIsValid(balances: Balances, tokens: Tokens)
    ensures ValidState(State(map[], balances, tokens))
  {
  }

  ghost function RunAll(env: Env, st: State, es: seq<Event>): (st': State)
    requires ValidState(st)
    ensures ValidState(st')
    decreases |es|
  {
    if es == [] then st else AfterValid(env, st, es[0]); RunAll(env, After(env, st, es[0]), es[1..])
  }

  ghost function ChargeOf(env: Env, st: State, e: Event): Option<Charge>
    requires ValidState(st)
  {
    var o := Delivered(env, st, e);
    if o.Some? then o.value.charge else None
  }

  function FeeOf(e: Event, d: string): int {
    if e.Deliver? then AmountOf(e.tx.fees, d) else 0
  }

  // ---------- Money ----------

  /** Fees charged to an account along a run. */
  ghost function PaidBy(env: Env, st: State, es: seq<Event>, a: Address, d: string): int
    requires ValidState(st)
    decreases |es|
  {
    if es == [] then 0
    else
      AfterValid(env, st, es[0]);
      var c := ChargeOf(env, st, es[0]);
      (if c.Some? && c.value.account == a then FeeOf(es[0], d) else 0)
        + PaidBy(env, After(env, st, es[0]), es[1..], a, d)
  }

  /** Fees charged to anyone along a run. */
  ghost function Collected(env: Env, st: State, es: seq<Event>, d: string): int
    requires ValidState(st)
    decreases |es|
  {
    if es == [] then 0
    else
      AfterValid(env, st, es[0]);
      (if ChargeOf(env, st, es[0]).Some? then FeeOf(es[0], d) else 0)
        + Collected(env, After(env, st, es[0]), es[1..], d)
  }

  lemma OneFee(env: Env, st: State, e: Event, a: Address, d: string)
    requires ValidState(st)
    ensures var c := ChargeOf(env, st, e);
            BalanceOf(After(env, st, e).balances, a, d) ==
            BalanceOf(st.balances, a, d)
              - (if c.Some? && c.value.account == a then FeeOf(e, d) else 0)
              + (if c.Some? && env.collector == Some(a) then FeeOf(e, d) else 0)
  {
    hide Indexed, Handle, HandleFeegrant, Deduct, CheckTxFee, CheckExtension, BalanceOf;
    if Delivered(env, st, e).Some? {
      if e.blk.height == 0 {
        GenesisIsFree(env, st, e.blk, e.tx);
      } else {
        FeeIsMoved(env, st, e.blk, e.tx);
        var o := Delivered(env, st, e).value;
        assert Balanced(st.balances, o.st.balances, o.charge.value.account, env.collector.value, e.tx.fees, a, d);
      }
    }
  }

  /**
   Over every run each account's balance falls by exactly the fees charged to it, and the collector's
   rises by exactly all fees charged.
   */
  lemma {:induction false} BooksBalance(env: Env, st: State, es: seq<Event>, a: Address, d: string)
    requires ValidState(st)
    ensures BalanceOf(RunAll(env, st, es).balances, a, d) ==
            BalanceOf(st.balances, a, d) - PaidBy(env, st, es, a, d)
              + if env.collector == Some(a) then Collected(env, st, es, d) else 0
    decreases |es|
  {
    hide ValidState, After, ChargeOf, BalanceOf, FeeOf;
    if es != [] {
      AfterValid(env, st, es[0]);
      OneFee(env, st, es[0], a, d);
      BooksBalance(env, After(env, st, es[0]), es[1..], a, d);
    }
  }

  // ---------- Grants ----------

  lemma AcceptedFee(env: Env, blk: Block, tx: Tx, from: Address, to: Address, balances: Balances)
    requires !blk.simulate && CheckTxFee(env, blk, tx).None? && Deduct(env, balances, from, to, tx.fees).Ok?
    ensures Fee(tx.fees)
  {
  }

  /**
   A transaction leaves a grant alone, uncharged, or uses it once, and then charges it exactly if it covers the fee.
   */
  lemma DeliveredStep(env: Env, st: State, e: Event, id: GrantId)
    requires ValidState(st) && Delivered(env, st, e).Some?
    ensures var c := ChargeOf(env, st, e); var s, s' := st.grants, After(env, st, e).grants;
            var charged := if c.Some? then c.value.grant else None;
            || (charged != Some(id) && Holding(s', id) == Holding(s, id))
            || (Fee(e.tx.fees) && Stepped(s, s', charged, id, UseOf(e.blk, e.tx)))
  {
    hide Indexed, Formed, Handle, HandleFeegrant, Deduct, CheckTxFee, CheckExtension, Holding, Fee;
    if e.blk.height == 0 {
      GenesisIsFree(env, st, e.blk, e.tx);
    } else {
      var o := Delivered(env, st, e).value;
      AcceptedIsCharged(env, st, e.blk, e.tx);
      AcceptedFee(env, e.blk, e.tx, o.charge.value.account, env.collector.value, st.balances);
      GrantsStep(env, st.grants, o.ctx, e.tx, UseOf(e.blk, e.tx), id);
    }
  }

  // ---------- Limits ----------

  /** No grant, or a sound one with a limit. */
  predicate Limited(o: Option<Allowance>) {
    o.Some? ==> Sound(o.value) && Limit(o.value).Some?
  }

  /** What a limited grant can still pay. */
  function Worth(o: Option<Allowance>, d: string): int
    requires Limited(o)
  {
    if o.Some? then AmountOf(Limit(o.value).value, d) else 0
  }

  /** Every new grant under `id` is sound and has a limit. */
  predicate GivesLimited(e: Event, id: GrantId) {
    e.ChangeGrant? && e.c.Give? && e.c.id == id ==> Limited(Some(e.c.a))
  }

  /** The limit a successful new grant under `id` brings. */
  ghost function GivenBy(env: Env, st: State, e: Event, id: GrantId, d: string): int
    requires ValidState(st) && GivesLimited(e, id)
  {
    if && e.ChangeGrant? && e.c.Give? && e.c.id == id
       && Holding(st.grants, id).None? && Holding(After(env, st, e).grants, id).Some?
    then Worth(Some(e.c.a), d) else 0
  }

  ghost function ChargedTo(env: Env, st: State, e: Event, id: GrantId, d: string): int
    requires ValidState(st)
  {
    var c := ChargeOf(env, st, e);
    if c.Some? && c.value.grant == Some(id) then FeeOf(e, d) else 0
  }

  /** The budget of a grant over one event: what is charged comes out of it, new grants add to it, nothing else does. */
  ghost predicate Budgeted(env: Env, st: State, e: Event, id: GrantId, d: string)
    requires ValidState(st) && GivesLimited(e, id) && Limited(Holding(st.grants, id))
  {
    var o, o' := Holding(st.grants, id), Holding(After(env, st, e).grants, id);
    && Limited(o')
    && Worth(o', d) >= 0
    && Worth(o', d) + ChargedTo(env, st, e, id, d) <= Worth(o, d) + GivenBy(env, st, e, id, d)
    && (o.Some? && o'.Some? ==> Worth(o', d) + ChargedTo(env, st, e, id, d) == Worth(o, d))
    && (o.None? && o'.Some? ==> e.ChangeGrant? && e.c.Give? && e.c.id == id)
  }

  lemma WorthNonNegative(o: Option<Allowance>, d: string)
    requires Limited(o)
    ensures Worth(o, d) >= 0
  {
    if o.Some? { LimitNonNegative(o.value, d); }
  }

  /** One use, against the limit. */
  lemma UseBudget(o: Option<Allowance>, u: Use, d: string)
    requires Limited(o) && Fee(u.fee)
    ensures var o' := AfterUse(o, u); var paid := if PaysFor(o, u) then AmountOf(u.fee, d) else 0;
            && Limited(o') && Worth(o', d) + paid <= Worth(o, d)
            && (o'.Some? ==> o.Some? && Worth(o', d) + paid == Worth(o, d))
  {
    if o.Some? {
      var uses := [u];
      Conservation(o.value, uses, d);
      hide Accept, AmountOf;
      assert uses[0] == u && uses[1..] == [];
      assert Run(Live(o.value), uses) == Step(Live(o.value), u);
      assert Spent(Live(o.value), uses, d) == if Pays(Live(o.value), u) then AmountOf(u.fee, d) else 0;
    }
  }

  lemma ExpiryKeepsLimit(a: Allowance, t: Time)
    requires !a.Filtered?
    ensures Limit(WithExpiry(a, t)) == Limit(a) && (Sound(a) ==> Sound(WithExpiry(a, t)))
  {
  }

  lemma EventBudget(env: Env, st: State, e: Event, id: GrantId, d: string)
    requires ValidState(st) && GivesLimited(e, id) && Limited(Holding(st.grants, id))
    ensures Budgeted(env, st, e, id, d)
  {
    hide Indexed, Formed, Handle, Holding, Sound, Limit, Changed, AmountOf, Fee;
    var o, o' := Holding(st.grants, id), Holding(After(env, st, e).grants, id);
    if Delivered(env, st, e).Some? {
      DeliveredStep(env, st, e, id);
      if Fee(e.tx.fees) { UseBudget(o, UseOf(e.blk, e.tx), d); }
    } else if e.ChangeGrant? {
      ChangeRespects(st.grants, e.c, id);
      if t: Time :| o.Some? && !o.value.Filtered? && o' == Some(WithExpiry(o.value, t)) {
        ExpiryKeepsLimit(o.value, t);
      }
    }
    WorthNonNegative(o, d);
    WorthNonNegative(o', d);
  }

  // ---------- Limits over runs ----------

  ghost predicate AllGivesLimited(es: seq<Event>, id: GrantId) {
    forall e <- es :: GivesLimited(e, id)
  }

  /** Fees charged under one grant along a run. */
  ghost function DrawnOn(env: Env, st: State, es: seq<Event>, id: GrantId, d: string): int
    requires ValidState(st)
    decreases |es|
  {
    if es == [] then 0
    else
      AfterValid(env, st, es[0]);
      ChargedTo(env, st, es[0], id, d) + DrawnOn(env, After(env, st, es[0]), es[1..], id, d)
  }

  /** Limits of the grants made under one name along a run. */
  ghost function GivenAlong(env: Env, st: State, es: seq<Event>, id: GrantId, d: string): int
    requires ValidState(st) && AllGivesLimited(es, id)
    decreases |es|
  {
    if es == [] then 0
    else
      AfterValid(env, st, es[0]);
      GivenBy(env, st, es[0], id, d) + GivenAlong(env, After(env, st, es[0]), es[1..], id, d)
  }

  /**
   Over every run, what is charged under a granter's grants to one grantee is at most the limit of the grant at the
   start plus the limits of all grants made on the way, in every denomination, whatever is revoked, expired or pruned.
   */
  lemma {:induction false} ChargesWithinLimits(env: Env, st: State, es: seq<Event>, id: GrantId, d: string)
    requires ValidState(st) && Limited(Holding(st.grants, id)) && AllGivesLimited(es, id)
    ensures Limited(Holding(RunAll(env, st, es).grants, id))
    ensures DrawnOn(env, st, es, id, d) + Worth(Holding(RunAll(env, st, es).grants, id), d) <=
            Worth(Holding(st.grants, id), d) + GivenAlong(env, st, es, id, d)
    decreases |es|
  {
    hide ValidState, After, Holding, GivesLimited, Limited, Worth, GivenBy, ChargedTo;
    if es != [] {
      AfterValid(env, st, es[0]);
      EventBudget(env, st, es[0], id, d);
      ChargesWithinLimits(env, After(env, st, es[0]), es[1..], id, d);
    }
  }

  /** From the first block on, what is charged under the grants between two parties is at most what was granted. */
  lemma ChargesWithinGrants(env: Env, balances: Balances, tokens: Tokens, es: seq<Event>, id: GrantId, d: string)
    requires AllGivesLimited(es, id)
    ensures ValidState(State(map[], balances, tokens))
    ensures var st := State(map[], balances, tokens);
            DrawnOn(env, st, es, id, d) <= GivenAlong(env, st, es, id, d)
  {
    InitialIsValid(balances, tokens);
    var st := State(map[], balances, tokens);
    assert Holding(st.grants, id) == None;
    hide ValidState, RunAll, DrawnOn, GivenAlong, Holding;
    ChargesWithinLimits(env, st, es, id, d);
    WorthNonNegative(Holding(RunAll(env, st, es).grants, id), d);
  }

  ghost predicate NotGiven(es: seq<Event>, id: GrantId) {
    forall e <- es :: !(e.ChangeGrant? && e.c.Give? && e.c.id == id)
  }

  /**
   A limited grant is never overdrawn: until it is granted anew, what is charged under it is at most its limit, and as
   long as it is there, its limit is exactly the original one less what was charged.
   */
  lemma {:induction false} GrantNeverOverdrawn(env: Env, st: State, es: seq<Event>, id: GrantId, d: string)
    requires ValidState(st) && Limited(Holding(st.grants, id)) && NotGiven(es, id)
    ensures Limited(Holding(RunAll(env, st, es).grants, id))
    ensures DrawnOn(env, st, es, id, d) <= Worth(Holding(st.grants, id), d)
    ensures var end := Holding(RunAll(env, st, es).grants, id);
            end.Some? ==> Holding(st.grants, id).Some?
                          && Worth(end, d) == Worth(Holding(st.grants, id), d) - DrawnOn(env, st, es, id, d)
    decreases |es|
  {
    hide ValidState, After, Holding, Limited, Worth, ChargedTo;
    if es == [] {
      WorthNonNegative(Holding(st.grants, id), d);
    } else {
      AfterValid(env, st, es[0]);
      EventBudget(env, st, es[0], id, d);
      GrantNeverOverdrawn(env, After(env, st, es[0]), es[1..], id, d);
    }
  }
}
