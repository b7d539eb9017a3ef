/** Exactly which transactions the two decorators accept, in terms of the transaction, the token and the state. */
module AnteExact {
  import opened Wrappers
  import opened Coins
  import opened Allowance
  import opened Keys
  import opened KeeperStore
  import opened KeeperOps
  import opened AccountGrants
  import opened Bank
  import opened Bearer
  import opened FeePolicy
  import opened Ante
  import opened AnteProperties
  import opened TokenRuns

  // ---------- The token ----------

  /** The claims of a token, its signature, issuer and times; `now` is in nanoseconds, the claims in seconds. */
  predicate TokenFits(lib: Library, jws: Text, now: Time, t: BearerToken) {
    && !([0x7b] <= TrimLeft(jws)) && Genuine(lib, jws, t)
    && (if [0x64, 0x69, 0x64, 0x3a] <= t.issuer then lib.validDID(t.issuer) else lib.provider(t.issuer).Some?)
    && t.issuedTime <= t.expirationTime && now < (t.expirationTime + 1) * 1_000_000_000
  }

  /** Through a relay a provider may vouch for an actor; otherwise the token names the account that may act for it. */
  predicate PartiesFit(lib: Library, t: BearerToken, relay: bool) {
    if !relay then t.providerToken == [] && lib.validAccount(t.authorizedAccount)
    else t.providerToken != [] ==>
           && lib.provider(t.providerToken).Some?
           && var p := lib.provider(t.providerToken).value; p.providerName != [] && p.userID != [] && p.actorDID != []
  }

  /** Who acts: the issuer, or the actor a provider vouches for. */
  function Actor(lib: Library, t: BearerToken): Text {
    if t.providerToken != [] && lib.provider(t.providerToken).Some? then lib.provider(t.providerToken).value.actorDID
    else t.issuer
  }

  lemma TokenExact(lib: Library, jws: Text, now: Time, relay: bool, t: BearerToken)
    requires lib.claims(TrimLeft(jws)) == Some(t)
    ensures ValidateExtension(lib, jws, now, relay).Ok? <==> TokenFits(lib, jws, now, t) && PartiesFit(lib, t, relay)
    ensures ValidateExtension(lib, jws, now, relay).Ok? ==>
              && ValidateExtension(lib, jws, now, relay).value == (Actor(lib, t), t.authorizedAccount)
              && ParseJWS(lib, jws, relay) == Ok(t)
  {
    hide TrimLeft;
  }

  /** The record of the token, where one is kept: a known token is still valid, a new one has not lapsed and fits. */
  predicate RecordFits(env: Env, ts: Tokens, blk: Block, jws: Text, t: BearerToken) {
    env.core.Some? && !blk.simulate ==>
      var h, did, account := env.lib.hash(jws), Actor(env.lib, t), t.authorizedAccount;
      if h in ts then ts[h].valid
      else
        && (t.expirationTime == -62_135_596_800 || blk.now < t.expirationTime * 1_000_000_000)
        && h != [] && 0 < |did| <= 255 && |account| <= 255
        && (if account == [] then env.core.value.ignoreBearerAuth else env.lib.validAccount(account))
  }

  lemma RecordExact(env: Env, ts: Tokens, blk: Block, jws: Text, t: BearerToken)
    requires AllStorable(env, ts)
    ensures Remember(env, ts, blk, jws, Actor(env.lib, t), t).Some? <==> RecordFits(env, ts, blk, jws, t)
  {
    var h := env.lib.hash(jws);
    if h in ts { assert Storable(env.lib, IgnoreAuth(env), h, ts[h]); }
  }

  // ---------- Who acts ----------

  /** Every message names `signer`, which is somebody. */
  predicate AllBy(tx: Tx, signer: Text) {
    tx.msgs != [] && signer != [] && forall m <- tx.msgs :: m.creator == signer
  }

  predicate RelayFits(env: Env, tx: Tx)
    requires RelayMode(env)
  {
    && tx.granter.Some? && tx.granter.value != []
    && (env.core.value.allowAnyRelay || env.text(tx.granter.value) in env.core.value.trusted)
    && AllBy(tx, env.text(tx.payer))
  }

  predicate ExtensionFits(env: Env, ts: Tokens, blk: Block, tx: Tx) {
    tx.options == [] ||
    (|tx.options| == 1 && tx.options[0].JWS? &&
     var jws := tx.options[0].token;
     env.lib.claims(TrimLeft(jws)).Some? &&
     var t := env.lib.claims(TrimLeft(jws)).value;
     && TokenFits(env.lib, jws, blk.now, t) && PartiesFit(env.lib, t, RelayMode(env))
     && RecordFits(env, ts, blk, jws, t)
     && if RelayMode(env) then RelayFits(env, tx) else AllBy(tx, t.authorizedAccount))
  }

  /** The context values an accepted transaction leaves: the actor, and in relay mode the relay. */
  function ContextOf(env: Env, tx: Tx): Context {
    if tx.options == [] || !tx.options[0].JWS? || env.lib.claims(TrimLeft(tx.options[0].token)).None? then NO_CONTEXT
    else Context(Actor(env.lib, env.lib.claims(TrimLeft(tx.options[0].token)).value),
                 if RelayMode(env) && tx.granter.Some? then env.text(tx.granter.value) else [])
  }

  lemma RelayExact(env: Env, tx: Tx)
    requires RelayMode(env) && Renders(env) && tx.msgs != []
    ensures ValidateRelay(env, tx).Ok? <==> RelayFits(env, tx)
    ensures ValidateRelay(env, tx).Ok? ==>
              tx.granter.Some? && ValidateRelay(env, tx).value == env.text(tx.granter.value) != []
  {
    hide CheckCreators;
    CreatorsExact(tx.msgs, env.text(tx.payer));
  }

  /** The extension check accepts exactly the transactions without a token and those with one that fits. */
  lemma ExtensionExact(env: Env, ts: Tokens, blk: Block, tx: Tx)
    requires Renders(env) && AllStorable(env, ts)
    ensures CheckExtension(env, ts, NO_CONTEXT, blk, tx).Ok? <==> ExtensionFits(env, ts, blk, tx)
    ensures CheckExtension(env, ts, NO_CONTEXT, blk, tx).Ok? ==>
              CheckExtension(env, ts, NO_CONTEXT, blk, tx).value.1 == ContextOf(env, tx)
  {
    if |tx.options| == 1 && tx.options[0].JWS? && tx.msgs != [] {
      var jws := tx.options[0].token;
      if env.lib.claims(TrimLeft(jws)).Some? {
        var t := env.lib.claims(TrimLeft(jws)).value;
        TokenExact(env.lib, jws, blk.now, RelayMode(env), t);
        RecordExact(env, ts, blk, jws, t);
        CreatorsExact(tx.msgs, t.authorizedAccount);
        if RelayMode(env) { RelayExact(env, tx); }
        hide TrimLeft, TokenFits, PartiesFit, RecordFits, Remember, CheckCreators, ValidateExtension, ParseJWS, Actor,
          Renders, AllStorable;
        if !RelayMode(env) { assert ValidateRelay(env, tx) == Ok([]); }
      }
    }
  }

  // ---------- What is paid ----------

  /**
   The fee check above genesis height, in figures: some gas; no fee only where the chain allows it; never two coins; and
   in CheckTx at least the validator's price, of which zero counts as 0.001 and "ucredit" costs ten times as much.
   */
  predicate FeeFits(env: Env, blk: Block, tx: Tx) {
    && tx.gas > 0 && |tx.fees| <= 1
    && (tx.fees == [] ==> env.core.Some? && env.core.value.allowZeroFees)
    && (tx.fees != [] && blk.checkTx ==>
          && blk.price(tx.fees[0].denom).Some?
          && var price := blk.price(tx.fees[0].denom).value;
             var signed := if tx.gas < 0x8000_0000_0000_0000 then tx.gas else tx.gas - 0x1_0000_0000_0000_0000;
             tx.fees[0].amount * 1_000_000_000_000_000_000 >=
             (if price == 0 then 1_000_000_000_000_000 else price) * signed
             * (if tx.fees[0].denom == "ucredit" then 10 else 1))
  }

  lemma FeeExact(env: Env, blk: Block, tx: Tx)
    requires blk.height > 0 && !blk.simulate
    ensures CheckTxFee(env, blk, tx).None? <==> FeeFits(env, blk, tx)
  {
    hide CheckFee;
    FeeCheckedExactly(tx.fees, tx.gas, blk.checkTx, AllowZero(env), blk.price);
    if |tx.fees| == 1 { PriceInFigures(tx.fees[0], tx.gas, AllowZero(env), blk.price); }
  }

  /** The account exists and its unlocked balance covers the fee. */
  predicate Solvent(env: Env, st: State, tx: Tx, a: Address) {
    a in env.accounts && (IsZero(tx.fees) || (Valid(tx.fees) && Affords(st.balances, env.locked, a, tx.fees)))
  }

  lemma DeductExact(env: Env, st: State, tx: Tx, from: Address, to: Address)
    ensures Deduct(env, st.balances, from, to, tx.fees).Ok? <==> Solvent(env, st, tx, from)
  {
    hide Send, Affords;
    if Valid(tx.fees) { SendMoves(st.balances, env.locked, from, to, tx.fees); }
  }

  // ---------- Who pays ----------

  /** The use of a grant that a transaction stands for. */
  predicate Describes(u: Use, blk: Block, tx: Tx) {
    && u.now == blk.now && u.fee == tx.fees && |u.msgs| == |tx.msgs|
    && forall i :: 0 <= i < |tx.msgs| ==> u.msgs[i] == tx.msgs[i].url
  }

  /** Whoever is to pay, in order of precedence, has granted the use where a grant is needed and is solvent. */
  ghost predicate PayerFits(env: Env, st: State, ctx: Context, tx: Tx, u: Use)
    requires ValidState(st)
  {
    if ctx.relay != [] then
      && env.feegrants && tx.granter.Some? && env.text(tx.granter.value) == ctx.relay && tx.granter.value != tx.payer
      && AccountGrantPays(st.grants, tx.granter.value, tx.payer, u) && Solvent(env, st, tx, tx.granter.value)
    else if PaidByDIDGrant(env, st.grants, ctx, u) then
      exists granter: Name :: FirstToPay(st.grants, ctx.did, u, granter) && Solvent(env, st, tx, granter)
    else
      && (env.feegrants ==> |ctx.did| <= 255) && NamedCanPay(env, st.grants, tx, u)
      && Solvent(env, st, tx, if tx.granter.Some? then tx.granter.value else tx.payer)
  }

  lemma FirstIsOne(s: Store, did: Name, u: Use, g: Name, h: Name)
    requires Indexed(s, DID, DID_QUEUE) && FirstToPay(s, did, u, g) && FirstToPay(s, did, u, h)
    ensures g == h
  {
    hide Indexed, Get, PaysFor, Granters;
  }

  lemma PayerExact(env: Env, st: State, ctx: Context, blk: Block, tx: Tx)
    requires ValidState(st) && env.collector.Some?
    ensures CheckDeductFee(env, st, ctx, blk, tx).Ok? <==> PayerFits(env, st, ctx, tx, UseOf(blk, tx))
  {
    hide Indexed, HandleFeegrant, Deduct, AccountGrantPays, SomeDIDGrantPays, FirstToPay, Solvent, Formed;
    var u := UseOf(blk, tx);
    PayerFoundExactly(env, st.grants, ctx, tx, u);
    var r := HandleFeegrant(env, st.grants, ctx, tx, u).1;
    if r.Ok? {
      WhoPays(env, st.grants, ctx, tx, u);
      DeductExact(env, st, tx, r.value.account, env.collector.value);
      if ctx.relay == [] && PaidByDIDGrant(env, st.grants, ctx, u) {
        forall granter: Name | FirstToPay(st.grants, ctx.did, u, granter) ensures granter == r.value.account {
          FirstIsOne(st.grants, ctx.did, u, granter, r.value.account);
        }
      }
    }
  }

  /**
   Above genesis height a transaction is accepted exactly when its token fits, its fee fits unless it is simulated, and
   whoever is to pay can.
   */
  lemma AcceptedExactly(env: Env, st: State, blk: Block, tx: Tx, u: Use)
    requires ValidState(st) && Renders(env) && AllStorable(env, st.tokens) && blk.height > 0 && Describes(u, blk, tx)
    ensures Handle(env, st, blk, tx).Ok? <==>
            && ExtensionFits(env, st.tokens, blk, tx) && (blk.simulate || FeeFits(env, blk, tx))
            && env.collector.Some? && PayerFits(env, st, ContextOf(env, tx), tx, u)
    ensures Handle(env, st, blk, tx).Ok? ==> Handle(env, st, blk, tx).value.ctx == ContextOf(env, tx)
  {
    assert u == UseOf(blk, tx) by { assert u.msgs == Urls(tx.msgs); }
    var ext := CheckExtension(env, st.tokens, NO_CONTEXT, blk, tx);
    ExtensionExact(env, st.tokens, blk, tx);
    if !blk.simulate { FeeExact(env, blk, tx); }
    if ext.Ok? && env.collector.Some? {
      PayerExact(env, st.(tokens := ext.value.0), ext.value.1, blk, tx);
      SameSolvent(env, st, ext.value.0, ext.value.1, tx, u);
    }
    hide Indexed, CheckExtension, CheckDeductFee, ExtensionFits, FeeFits, PayerFits, ContextOf, AllStorable, Renders;
  }

  lemma SameSolvent(env: Env, st: State, ts: Tokens, ctx: Context, tx: Tx, u: Use)
    requires ValidState(st)
    ensures PayerFits(env, st.(tokens := ts), ctx, tx, u) <==> PayerFits(env, st, ctx, tx, u)
  {
    hide Indexed, AccountGrantPays, PaidByDIDGrant, FirstToPay;
    assert forall a :: Solvent(env, st.(tokens := ts), tx, a) == Solvent(env, st, tx, a);
  }

  /** At genesis height only the token is looked at, and nobody is charged. */
  lemma AcceptedAtGenesis(env: Env, st: State, blk: Block, tx: Tx)
    requires ValidState(st) && Renders(env) && AllStorable(env, st.tokens) && blk.height == 0
    ensures Handle(env, st, blk, tx).Ok? <==> ExtensionFits(env, st.tokens, blk, tx)
    ensures Handle(env, st, blk, tx).Ok? ==>
              var o := Handle(env, st, blk, tx).value;
              o.charge.None? && o.st == st.(tokens := o.st.tokens) && o.ctx == ContextOf(env, tx)
  {
    ExtensionExact(env, st.tokens, blk, tx);
    hide Indexed, CheckExtension, ExtensionFits, ContextOf, AllStorable, Renders;
  }

  /** In CheckTx every accepted transaction has some gas and pays the validator's price for it. */
  lemma CheckTxPaysThePrice(env: Env, st: State, blk: Block, tx: Tx)
    requires Accepted(env, st, blk, tx) && blk.height > 0 && !blk.simulate
    ensures FeeFits(env, blk, tx)
  {
    hide Indexed, Handle, CheckTxFee, FeeFits;
    AcceptedIsCharged(env, st, blk, tx);
    FeeExact(env, blk, tx);
  }

  /** Outside CheckTx, and in a simulation, the validator's prices make no difference to the outcome. */
  lemma PriceOnlyInCheckTx(env: Env, st: State, blk: Block, tx: Tx, price: string -> Option<int>)
    requires ValidState(st) && (!blk.checkTx || blk.simulate)
    ensures Handle(env, st, blk.(price := price), tx) == Handle(env, st, blk, tx)
  {
    hide Indexed, HandleFeegrant, Deduct, ValidateExtension, ParseJWS, ValidateRelay, CheckCreators, Remember;
    var blk' := blk.(price := price);
    forall ts: Tokens, jws: Text, did: Text, t: BearerToken
      ensures Remember(env, ts, blk', jws, did, t) == Remember(env, ts, blk, jws, did, t)
    {
      SameRecord(env, ts, blk, price, jws, did, t);
    }
    assert CheckExtension(env, st.tokens, NO_CONTEXT, blk', tx) == CheckExtension(env, st.tokens, NO_CONTEXT, blk, tx);
    assert UseOf(blk', tx) == UseOf(blk, tx);
    assert CheckTxFee(env, blk', tx) == CheckTxFee(env, blk, tx);
    hide CheckExtension, CheckTxFee;
  }

  lemma SameRecord(
    env: Env, ts: Tokens, blk: Block, price: string -> Option<int>, jws: Text, did: Text, t: BearerToken)
    ensures Remember(env, ts, blk.(price := price), jws, did, t) == Remember(env, ts, blk, jws, did, t)
  {
  }
}
