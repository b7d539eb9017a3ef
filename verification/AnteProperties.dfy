/** Agreement of the two decorators on who acts and who pays, for one transaction. */
module AnteProperties {
  import opened Wrappers
  import opened Coins
  import opened Allowance
  import opened Keys
  import opened KeeperStore
  import opened KeeperOps
  import opened AccountGrants
  import opened Bank
  import opened Bearer
  import opened Ante

  /** Non-empty addresses render as non-empty text. */
  ghost predicate Renders(env: Env) {
    forall a: Address :: a != [] ==> env.text(a) != []
  }

  ghost predicate Accepted(env: Env, st: State, blk: Block, tx: Tx) {
    ValidState(st) && Handle(env, st, blk, tx).Ok?
  }

  // ---------- The effect of a charge on the grants ----------

  /** The grant `id` was used for `u`: it covered the fee, and is stored as that use leaves it. */
  ghost predicate Drawn(s: Store, s': Store, id: GrantId, u: Use) {
    PaysFor(Holding(s, id), u) && Holding(s', id) == AfterUse(Holding(s, id), u)
  }

  lemma UseGrantDraws(s: Store, granter: Address, grantee: Address, u: Use)
    requires Indexed(s, DID, DID_QUEUE)
    ensures var (s', r) := UseGrant(s, granter, grantee, u);
            && Indexed(s', DID, DID_QUEUE)
            && (r.Ok? <==> IsName(granter) && IsName(grantee) && PaysFor(Get(s, ACCOUNT, granter, grantee), u))
            && (r.Ok? ==> && r.value == Charge(granter, Some(OnAccount(granter, grantee)))
                          && Drawn(s, s', r.value.grant.value, u))
  {
    hide Indexed, Get, AfterUse, PaysFor, UseAccount, SameOutside;
    if IsName(granter) && IsName(grantee) {
      UseAccountIsStep(s, granter, grantee, u);
      SameOutsideIndexed(s, UseAccount(s, granter, grantee, u).0, ACCOUNT, ACCOUNT_QUEUE, DID, DID_QUEUE);
    }
  }

  lemma GranterPaysDraws(env: Env, s: Store, tx: Tx, u: Use)
    requires Indexed(s, DID, DID_QUEUE)
    ensures var (s', r) := GranterPays(env, s, tx, u);
            && Indexed(s', DID, DID_QUEUE)
            && (r.Ok? ==>
                  && r.value.account == (if tx.granter.Some? then tx.granter.value else tx.payer)
                  && (r.value.grant.None? <==> r.value.account == tx.payer)
                  && (r.value.grant.None? ==> s' == s)
                  && (r.value.grant.Some? ==> r.value.grant == Some(OnAccount(r.value.account, tx.payer))
                                              && Drawn(s, s', r.value.grant.value, u)))
  {
    hide Indexed, UseGrant, Drawn;
    if tx.granter.Some? { UseGrantDraws(s, tx.granter.value, tx.payer, u); }
  }

  /** A grant is either left alone and not charged, or it is used, and then charged exactly if it covers the fee. */
  ghost predicate Stepped(s: Store, s': Store, charged: Option<GrantId>, id: GrantId, u: Use) {
    || (charged != Some(id) && Holding(s', id) == Holding(s, id))
    || (Holding(s', id) == AfterUse(Holding(s, id), u) && (charged == Some(id) <==> PaysFor(Holding(s, id), u)))
  }

  lemma UseGrantSteps(s: Store, granter: Address, grantee: Address, u: Use, id: GrantId)
    requires UseGrant(s, granter, grantee, u).1.Ok?
    ensures var (s', r) := UseGrant(s, granter, grantee, u); Stepped(s, s', r.value.grant, id, u)
  {
    hide Get, AfterUse, PaysFor, UseAccount, SameOutside;
    UseAccountIsStep(s, granter, grantee, u);
    match id {
      case OnAccount(granter', grantee') =>
        if id != OnAccount(granter, grantee) { UseAccountFrame(s, granter, grantee, u, granter', grantee'); }
      case OnDID(granter', did) =>
        SameOutsideGet(s, UseAccount(s, granter, grantee, u).0, ACCOUNT, ACCOUNT_QUEUE, DID, granter', did);
    }
  }

  lemma GranterPaysSteps(env: Env, s: Store, tx: Tx, u: Use, id: GrantId)
    requires GranterPays(env, s, tx, u).1.Ok?
    ensures var (s', r) := GranterPays(env, s, tx, u); Stepped(s, s', r.value.grant, id, u)
  {
    hide Get, AfterUse, PaysFor, UseGrant;
    if tx.granter.Some? && tx.granter.value != tx.payer { UseGrantSteps(s, tx.granter.value, tx.payer, u, id); }
  }

  // ---------- DID grants ----------

  ghost predicate SomeDIDGrantPays(s: Store, did: Name, u: Use) {
    exists granter: Name :: PaysFor(Get(s, DID, granter, did), u)
  }

  /** The granter that comes first, in the order of the iterator, among those whose grant to the DID covers the fee. */
  ghost predicate FirstToPay(s: Store, did: Name, u: Use, granter: Name)
    requires Indexed(s, DID, DID_QUEUE)
  {
    IndexedIsFormed(s, DID, DID_QUEUE);
    var gs := Granters(s, did);
    exists n :: 0 <= n < |gs| && gs[n] == granter && PaysFor(Get(s, DID, granter, did), u)
             && forall j :: 0 <= j < n ==> !PaysFor(Get(s, DID, gs[j], did), u)
  }

  lemma UseFirstDraws(s: Store, did: Name, u: Use)
    requires Indexed(s, DID, DID_QUEUE)
    ensures var (s', granter) := UseFirst(s, did, u);
            && Indexed(s', DID, DID_QUEUE)
            && (granter.Some? <==> SomeDIDGrantPays(s, did, u))
            && (granter.Some? ==> FirstToPay(s, did, u, granter.value))
  {
    hide Indexed, Get, PaysFor, UseFirst, Granters, TriedUpTo, FirstPaying;
    IndexedIsFormed(s, DID, DID_QUEUE);
    UseFirstAvailable(s, did, u);
    var granter := UseFirst(s, did, u).1;
    if granter.Some? { assert PaysFor(Get(s, DID, granter.value, did), u); }
  }

  lemma UseFirstSteps(s: Store, did: Name, u: Use, id: GrantId)
    requires Indexed(s, DID, DID_QUEUE)
    ensures var (s', granter) := UseFirst(s, did, u);
            Stepped(s, s', if granter.Some? then Some(OnDID(granter.value, did)) else None, id, u)
  {
    hide Indexed, Get, PaysFor, AfterUse, Granters, FirstPaying, UseFirstFrom, SameOutside;
    IndexedIsFormed(s, DID, DID_QUEUE);
    UseFirstAvailable(s, did, u);
    var gs := Granters(s, did);
    var s' := UseFirst(s, did, u).0;
    match id {
      case OnAccount(granter', grantee') =>
        UseFirstOutside(s, did, gs, u);
        SameOutsideGet(s, s', DID, DID_QUEUE, ACCOUNT, granter', grantee');
      case OnDID(granter', did') =>
        assert Get(s', DID, granter', did') == Get(s', DID, granter', did');
    }
  }

  // ---------- handleFeegrant ----------

  predicate DIDApplies(env: Env, ctx: Context) {
    ctx.relay == [] && IsName(ctx.did) && env.feegrants
  }

  ghost predicate PaidByDIDGrant(env: Env, s: Store, ctx: Context, u: Use) {
    DIDApplies(env, ctx) && SomeDIDGrantPays(s, ctx.did, u)
  }

  /** Named by the transaction: its fee granter under a grant to the payer, or the payer itself with no grant. */
  predicate NamedPayer(tx: Tx, charge: Charge) {
    && charge.account == (if tx.granter.Some? then tx.granter.value else tx.payer)
    && (charge.account == tx.payer ==> charge.grant == None)
    && (charge.account != tx.payer ==>
          IsName(charge.account) && IsName(tx.payer) && charge.grant == Some(OnAccount(charge.account, tx.payer)))
  }

  /**
   Who pays, in order of precedence: the relay's granter; the first granter whose grant to the context DID covers
   the fee; the account the transaction names. Whatever grant is charged covered the fee and is stored as used.
   */
  lemma WhoPays(env: Env, s: Store, ctx: Context, tx: Tx, u: Use)
    requires Indexed(s, DID, DID_QUEUE) && HandleFeegrant(env, s, ctx, tx, u).1.Ok?
    ensures var (s', r) := HandleFeegrant(env, s, ctx, tx, u); var charge := r.value;
            && Indexed(s', DID, DID_QUEUE)
            && (ctx.relay != [] ==>
                  && tx.granter == Some(charge.account) && charge.account != tx.payer
                  && env.text(charge.account) == ctx.relay
                  && NamedPayer(tx, charge))
            && (PaidByDIDGrant(env, s, ctx, u) ==>
                  && IsName(charge.account) && charge.grant == Some(OnDID(charge.account, ctx.did))
                  && FirstToPay(s, ctx.did, u, charge.account))
            && (!PaidByDIDGrant(env, s, ctx, u) ==> NamedPayer(tx, charge))
            && (charge.grant.Some? ==> Drawn(s, s', charge.grant.value, u))
  {
    hide Indexed, Get, PaysFor, AfterUse, UseFirst, UseGrant, Drawn, FirstToPay, SomeDIDGrantPays;
    if ctx.relay != [] {
      UseGrantDraws(s, tx.granter.value, tx.payer, u);
    } else if !DIDApplies(env, ctx) {
      GranterPaysDraws(env, s, tx, u);
    } else {
      IndexedIsFormed(s, DID, DID_QUEUE);
      var s1 := UseFirst(s, ctx.did, u).0;
      UseFirstDraws(s, ctx.did, u);
      if SomeDIDGrantPays(s, ctx.did, u) {
        DIDGrantDrawn(s, ctx.did, u);
      } else {
        GranterPaysDraws(env, s1, tx, u);
        var charge := GranterPays(env, s1, tx, u).1.value;
        if charge.grant.Some? { DrawnEarlier(s, s1, ctx.did, charge.grant.value, u, GranterPays(env, s1, tx, u).0); }
      }
    }
  }

  lemma DIDGrantDrawn(s: Store, did: Name, u: Use)
    requires Indexed(s, DID, DID_QUEUE)
    ensures var (s', granter) := UseFirst(s, did, u); granter.Some? ==> Drawn(s, s', OnDID(granter.value, did), u)
  {
    hide Indexed, Get, PaysFor, AfterUse, UseFirst;
    IndexedIsFormed(s, DID, DID_QUEUE);
    var granter := UseFirst(s, did, u).1;
    if granter.Some? { UseFirstSteps(s, did, u, OnDID(granter.value, did)); }
  }

  /** Trying DID grants in vain does not change what an account grant holds. */
  lemma DrawnEarlier(s: Store, s1: Store, did: Name, id: GrantId, u: Use, s': Store)
    requires Indexed(s, DID, DID_QUEUE) && s1 == UseFirst(s, did, u).0 && id.OnAccount? && Drawn(s1, s', id, u)
    ensures Holding(s1, id) == Holding(s, id) && Drawn(s, s', id, u)
  {
    hide Indexed, Get, PaysFor, AfterUse, SameOutside, UseFirstFrom;
    IndexedIsFormed(s, DID, DID_QUEUE);
    UseFirstOutside(s, did, Granters(s, did), u);
    SameOutsideGet(s, s1, DID, DID_QUEUE, ACCOUNT, id.granter, id.grantee);
  }

  lemma UseGrantFormed(s: Store, granter: Address, grantee: Address, u: Use)
    requires Formed(s, ACCOUNT, ACCOUNT_QUEUE)
    ensures Formed(UseGrant(s, granter, grantee, u).0, ACCOUNT, ACCOUNT_QUEUE)
  {
    hide Formed, UseAccount;
    if IsName(granter) && IsName(grantee) { UseAccountFormed(s, granter, grantee, u); }
  }

  /** Whoever pays, the store stays valid. */
  lemma FeegrantKeepsValid(env: Env, s: Store, ctx: Context, tx: Tx, u: Use)
    requires ValidGrants(s) && HandleFeegrant(env, s, ctx, tx, u).1.Ok?
    ensures ValidGrants(HandleFeegrant(env, s, ctx, tx, u).0)
  {
    hide Indexed, Formed, UseFirst, UseGrant, Drawn, FirstToPay, SomeDIDGrantPays;
    WhoPays(env, s, ctx, tx, u);
    if tx.granter.Some? { UseGrantFormed(s, tx.granter.value, tx.payer, u); }
    if DIDApplies(env, ctx) {
      IndexedIsFormed(s, DID, DID_QUEUE);
      var s1 := UseFirst(s, ctx.did, u).0;
      TriedFormed(s, ctx.did, u);
      if tx.granter.Some? { UseGrantFormed(s1, tx.granter.value, tx.payer, u); }
    }
  }

  lemma TriedFormed(s: Store, did: Name, u: Use)
    requires ValidGrants(s)
    ensures Formed(UseFirst(s, did, u).0, ACCOUNT, ACCOUNT_QUEUE)
  {
    IndexedIsFormed(s, DID, DID_QUEUE);
    hide Indexed, Formed, UseFirstFrom, SameOutside;
    UseFirstOutside(s, did, Granters(s, did), u);
    SameOutsideFormed(s, UseFirst(s, did, u).0, DID, DID_QUEUE, ACCOUNT, ACCOUNT_QUEUE);
  }

  /** Every grant takes at most one step, and only the one that is charged pays. */
  lemma GrantsStep(env: Env, s: Store, ctx: Context, tx: Tx, u: Use, id: GrantId)
    requires Indexed(s, DID, DID_QUEUE) && HandleFeegrant(env, s, ctx, tx, u).1.Ok?
    ensures var (s', r) := HandleFeegrant(env, s, ctx, tx, u); Stepped(s, s', r.value.grant, id, u)
  {
    hide Indexed, Get, PaysFor, AfterUse, UseFirst, UseGrant, Holding;
    if ctx.relay != [] {
      UseGrantSteps(s, tx.granter.value, tx.payer, u, id);
    } else if !DIDApplies(env, ctx) {
      GranterPaysSteps(env, s, tx, u, id);
    } else {
      IndexedIsFormed(s, DID, DID_QUEUE);
      UseFirstSteps(s, ctx.did, u, id);
      var (s1, granter) := UseFirst(s, ctx.did, u);
      if granter.None? {
        GranterPaysSteps(env, s1, tx, u, id);
        TwoSteps(env, s, ctx.did, tx, u, id);
      }
    }
  }

  lemma TwoSteps(env: Env, s: Store, did: Name, tx: Tx, u: Use, id: GrantId)
    requires Indexed(s, DID, DID_QUEUE) && UseFirst(s, did, u).1.None?
    requires GranterPays(env, UseFirst(s, did, u).0, tx, u).1.Ok?
    ensures var s1 := UseFirst(s, did, u).0; var (s', r) := GranterPays(env, s1, tx, u);
            Stepped(s, s', r.value.grant, id, u)
  {
    hide Indexed, Get, PaysFor, AfterUse, UseGrant, SameOutside, UseFirstFrom;
    IndexedIsFormed(s, DID, DID_QUEUE);
    var s1 := UseFirst(s, did, u).0;
    GranterPaysSteps(env, s1, tx, u, id);
    UseFirstSteps(s, did, u, id);
    match id {
      case OnAccount(granter, grantee) =>
        UseFirstOutside(s, did, Granters(s, did), u);
        SameOutsideGet(s, s1, DID, DID_QUEUE, ACCOUNT, granter, grantee);
      case OnDID(granter, d) => DIDGrantsStay(env, s1, tx, u, granter, d);
    }
  }

  lemma DIDGrantsStay(env: Env, s: Store, tx: Tx, u: Use, granter: Name, did: Name)
    ensures var (s', r) := GranterPays(env, s, tx, u);
            && Get(s', DID, granter, did) == Get(s, DID, granter, did)
            && (r.Ok? ==> r.value.grant != Some(OnDID(granter, did)))
  {
    hide Get, PaysFor, AfterUse, SameOutside, UseAccount;
    if tx.granter.Some? && IsName(tx.granter.value) && IsName(tx.payer) {
      UseAccountIsStep(s, tx.granter.value, tx.payer, u);
      SameOutsideGet(s, UseAccount(s, tx.granter.value, tx.payer, u).0, ACCOUNT, ACCOUNT_QUEUE, DID, granter, did);
    }
  }

  ghost predicate AccountGrantPays(s: Store, granter: Address, grantee: Address, u: Use) {
    IsName(granter) && IsName(grantee) && PaysFor(Get(s, ACCOUNT, granter, grantee), u)
  }

  ghost predicate NamedCanPay(env: Env, s: Store, tx: Tx, u: Use) {
    tx.granter.Some? ==>
      env.feegrants && (tx.granter.value == tx.payer || AccountGrantPays(s, tx.granter.value, tx.payer, u))
  }

  /** When somebody pays, in terms of the state before. */
  lemma PayerFoundExactly(env: Env, s: Store, ctx: Context, tx: Tx, u: Use)
    requires Indexed(s, DID, DID_QUEUE)
    ensures HandleFeegrant(env, s, ctx, tx, u).1.Ok? <==>
            if ctx.relay != [] then
              && env.feegrants && tx.granter.Some? && env.text(tx.granter.value) == ctx.relay
              && tx.granter.value != tx.payer && AccountGrantPays(s, tx.granter.value, tx.payer, u)
            else (env.feegrants ==> |ctx.did| <= 255) && (PaidByDIDGrant(env, s, ctx, u) || NamedCanPay(env, s, tx, u))
  {
    hide Indexed, Get, PaysFor, AfterUse, UseFirst, UseGrant, Drawn, FirstToPay, SomeDIDGrantPays;
    if tx.granter.Some? { UseGrantDraws(s, tx.granter.value, tx.payer, u); }
    if DIDApplies(env, ctx) {
      IndexedIsFormed(s, DID, DID_QUEUE);
      var s1 := UseFirst(s, ctx.did, u).0;
      UseFirstDraws(s, ctx.did, u);
      if tx.granter.Some? {
        UseGrantDraws(s1, tx.granter.value, tx.payer, u);
        if IsName(tx.granter.value) && IsName(tx.payer) {
          AccountGrantsStay(s, ctx.did, u, tx.granter.value, tx.payer);
        }
      }
    }
  }

  lemma AccountGrantsStay(s: Store, did: Name, u: Use, granter: Name, grantee: Name)
    requires Indexed(s, DID, DID_QUEUE)
    ensures Get(UseFirst(s, did, u).0, ACCOUNT, granter, grantee) == Get(s, ACCOUNT, granter, grantee)
  {
    hide Indexed, Get, SameOutside, UseFirstFrom;
    IndexedIsFormed(s, DID, DID_QUEUE);
    UseFirstOutside(s, did, Granters(s, did), u);
    SameOutsideGet(s, UseFirst(s, did, u).0, DID, DID_QUEUE, ACCOUNT, granter, grantee);
  }

  // ---------- Both decorators ----------

  /** The context of an accepted transaction is the one the extension check produced. */
  lemma AcceptedContext(env: Env, st: State, blk: Block, tx: Tx)
    requires Accepted(env, st, blk, tx)
    ensures var o := Handle(env, st, blk, tx).value;
            CheckExtension(env, st.tokens, NO_CONTEXT, blk, tx) == Ok((o.st.tokens, o.ctx))
  {
    hide Indexed, CheckExtension, HandleFeegrant, CheckTxFee;
  }

  /** An accepted transaction above genesis height is charged as handleFeegrant decides in the context it was given. */
  lemma AcceptedIsCharged(env: Env, st: State, blk: Block, tx: Tx)
    requires Accepted(env, st, blk, tx) && blk.height != 0
    ensures var o := Handle(env, st, blk, tx).value; var u := UseOf(blk, tx);
            && o.charge.Some? && env.collector.Some? && o.charge.value.account in env.accounts
            && HandleFeegrant(env, st.grants, o.ctx, tx, u) == (o.st.grants, Ok(o.charge.value))
            && Deduct(env, st.balances, o.charge.value.account, env.collector.value, tx.fees) == Ok(o.st.balances)
            && CheckTxFee(env, blk, tx).None?
  {
    hide Indexed, CheckExtension, HandleFeegrant, CheckTxFee;
  }

  /**
   In every accepted transaction above genesis height one account loses exactly the fee and the collector gains it.
   */
  lemma FeeIsMoved(env: Env, st: State, blk: Block, tx: Tx)
    requires Accepted(env, st, blk, tx) && blk.height != 0
    ensures var o := Handle(env, st, blk, tx).value;
            && o.charge.Some? && env.collector.Some?
            && Moved(st.balances, o.st.balances, o.charge.value.account, env.collector.value, tx.fees)
  {
    hide Indexed, Handle, HandleFeegrant, CheckExtension, CheckTxFee, Moved, Send, Sorted;
    AcceptedIsCharged(env, st, blk, tx);
    var o := Handle(env, st, blk, tx).value;
    if IsZero(tx.fees) {
      NothingMoved(st.balances, o.charge.value.account, env.collector.value, tx.fees);
    } else {
      SendMoves(st.balances, env.locked, o.charge.value.account, env.collector.value, tx.fees);
    }
  }

  lemma NothingMoved(b: Balances, from: Address, to: Address, fees: CoinList)
    requires IsZero(fees)
    ensures Moved(b, b, from, to, fees)
  {
    forall d: string ensures AmountOf(fees, d) == 0 { ZeroAmount(fees, d); }
  }

  lemma {:induction false} ZeroAmount(fees: CoinList, d: string)
    requires IsZero(fees)
    ensures AmountOf(fees, d) == 0
  {
    if fees != [] { ZeroAmount(fees[1..], d); }
  }

  /**
   A token accepted now, from that relay if it is not empty, naming `did` as the actor and `account` as authorized.
   */
  predicate Names(env: Env, blk: Block, tx: Tx, relay: Text, did: Text, account: Text) {
    |tx.options| == 1 && tx.options[0].JWS? &&
    ValidateExtension(env.lib, tx.options[0].token, blk.now, relay != []) == Ok((did, account))
  }

  lemma ExtensionContext(env: Env, ts: Tokens, blk: Block, tx: Tx)
    requires tx.options != [] && CheckExtension(env, ts, NO_CONTEXT, blk, tx).Ok?
    ensures var ctx := CheckExtension(env, ts, NO_CONTEXT, blk, tx).value.1;
            && ValidateRelay(env, tx) == Ok(ctx.relay) && tx.msgs != []
            && exists account :: Names(env, blk, tx, ctx.relay, ctx.did, account)
                              && (ctx.relay == [] ==> CheckCreators(tx.msgs, account).None?)
  {
    hide ValidateRelay, ValidateExtension, ParseJWS, CheckCreators, Remember;
    var relay := ValidateRelay(env, tx).value;
    var account := ValidateExtension(env.lib, tx.options[0].token, blk.now, relay != []).value.1;
    var ctx := CheckExtension(env, ts, NO_CONTEXT, blk, tx).value.1;
    assert ctx.relay == relay;
    assert Names(env, blk, tx, ctx.relay, ctx.did, account);
    assert ctx.relay == [] ==> CheckCreators(tx.msgs, account).None?;
  }

  /**
   Relay mode: an accepted transaction with a token charges exactly its fee granter, a trusted account other
   than the payer, whose grant to the payer covered the fee; every message was created by the payer.
   */
  lemma RelayAgreement(env: Env, st: State, blk: Block, tx: Tx)
    requires Accepted(env, st, blk, tx) && blk.height != 0 && tx.options != [] && RelayMode(env) && Renders(env)
    ensures var o := Handle(env, st, blk, tx).value; var u := UseOf(blk, tx);
            && tx.granter.Some? && tx.granter.value != tx.payer && IsName(tx.granter.value) && IsName(tx.payer)
            && (env.core.value.allowAnyRelay || env.text(tx.granter.value) in env.core.value.trusted)
            && o.charge == Some(Charge(tx.granter.value, Some(OnAccount(tx.granter.value, tx.payer))))
            && Drawn(st.grants, o.st.grants, OnAccount(tx.granter.value, tx.payer), u)
            && tx.msgs != [] && CreatedBy(tx.msgs, env.text(tx.payer))
            && o.ctx.relay == env.text(tx.granter.value)
            && exists account :: Names(env, blk, tx, o.ctx.relay, o.ctx.did, account)
  {
    hide Indexed, Handle, HandleFeegrant, CheckExtension, Deduct, CheckTxFee, CheckCreators, ValidateExtension, Drawn;
    AcceptedContext(env, st, blk, tx);
    AcceptedIsCharged(env, st, blk, tx);
    ExtensionContext(env, st.tokens, blk, tx);
    CreatorsExact(tx.msgs, env.text(tx.payer));
    WhoPays(env, st.grants, Handle(env, st, blk, tx).value.ctx, tx, UseOf(blk, tx));
  }

  /**
   Outside relay mode: an accepted transaction with a token has every message created by the account the token
   authorizes, and the context DID is the issuer whose signature on that token was checked.
   */
  lemma BearerAgreement(env: Env, st: State, blk: Block, tx: Tx)
    requires Accepted(env, st, blk, tx) && tx.options != [] && !RelayMode(env)
    ensures var o := Handle(env, st, blk, tx).value;
            && |tx.options| == 1 && tx.options[0].JWS? && o.ctx.relay == [] && tx.msgs != []
            && exists t :: Genuine(env.lib, tx.options[0].token, t)
                        && o.ctx.did == t.issuer && CreatedBy(tx.msgs, t.authorizedAccount)
                        && t.providerToken == [] && blk.now < (t.expirationTime + 1) * NANOS
  {
    hide Indexed, Handle, HandleFeegrant, CheckExtension, Deduct, CheckTxFee, CheckCreators, ValidateExtension,
      Genuine, TrimLeft;
    AcceptedContext(env, st, blk, tx);
    ExtensionContext(env, st.tokens, blk, tx);
    var did := Handle(env, st, blk, tx).value.ctx.did;
    var account :| Names(env, blk, tx, [], did, account) && CheckCreators(tx.msgs, account).None?;
    CreatorsExact(tx.msgs, account);
    DirectTokenExact(env.lib, tx.options[0].token, blk.now, did, account);
  }

  /** A transaction without a token never draws on a DID grant. */
  lemma NoTokenNoDIDGrant(env: Env, st: State, blk: Block, tx: Tx)
    requires Accepted(env, st, blk, tx) && blk.height != 0 && tx.options == []
    ensures var o := Handle(env, st, blk, tx).value; o.charge.Some? && NamedPayer(tx, o.charge.value)
  {
    hide Indexed, Handle, HandleFeegrant, Deduct, CheckTxFee;
    AcceptedContext(env, st, blk, tx);
    AcceptedIsCharged(env, st, blk, tx);
    WhoPays(env, st.grants, NO_CONTEXT, tx, UseOf(blk, tx));
  }
}
