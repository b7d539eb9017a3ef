/** The decorators as they run: grants, balances and token records are updated in place by the keepers they call. */
module AnteObjects {
  import opened Wrappers
  import opened Coins
  import opened Allowance
  import opened Keys
  import opened KeeperStore
  import opened KeeperOps
  import opened Keeper
  import opened Bank
  import opened Bearer
  import opened FeePolicy
  import opened Ante

  /** The creator loop of both decorators. */
  method FirstBadCreator(msgs: seq<Msg>, signer: Text) returns (err: Option<AnteError>)
    ensures err == CheckCreators(msgs, signer)
    ensures err.None? <==> CreatedBy(msgs, signer) && (msgs == [] || signer != [])
  {
    assert msgs[0..] == msgs;
    CreatorsExact(msgs, signer);
    for i := 0 to |msgs|
      invariant CheckCreators(msgs, signer) == CheckCreators(msgs[i..], signer)
    {
      assert msgs[i..][0] == msgs[i] && msgs[i..][1..] == msgs[i + 1..];
      if msgs[i].creator == [] { return Some(UnknownSigner); }
      if msgs[i].creator != signer { return Some(SignerMismatch); }
    }
    return None;
  }

  /** validateRelay */
  method FindRelay(env: Env, tx: Tx) returns (r: Result<Text, AnteError>)
    ensures r == ValidateRelay(env, tx)
    ensures r.Ok? && RelayMode(env) ==>
              tx.granter.Some? && tx.granter.value != [] && r.value == env.text(tx.granter.value)
    ensures r.Ok? && RelayMode(env) ==> CreatedBy(tx.msgs, env.text(tx.payer))
  {
    if env.core.None? { return Ok([]); }
    var config := env.core.value;
    if !config.ignoreBearerAuth { return Ok([]); }
    if tx.granter.None? || |tx.granter.value| == 0 { return Err(RelayWithoutGranter); }
    var relay := env.text(tx.granter.value);
    if !config.allowAnyRelay && relay !in config.trusted { return Err(UntrustedRelay); }
    var bad := FirstBadCreator(tx.msgs, env.text(tx.payer));
    if bad.Some? { return Err(bad.value); }
    return Ok(relay);
  }

  class TokenKeeper {
    var tokens: Tokens

    constructor ()
      ensures tokens == map[]
    {
      tokens := map[];
    }

    /** StoreOrUpdateJWSToken */
    method Record(lib: Library, ignoreBearerAuth: bool, jws: Text, did: Text, t: BearerToken, now: Time)
        returns (ok: bool)
      modifies this
      ensures var r := StoreOrUpdate(lib, ignoreBearerAuth, old(tokens), jws, did, t, now);
              if ok then r == Some(tokens) else r == None && tokens == old(tokens)
    {
      var h := lib.hash(jws);
      var record: TokenRecord;
      if h in tokens {
        if !tokens[h].valid { return false; }
        record := tokens[h].(lastUsed := now);
      } else {
        record := TokenRecord(did, t.authorizedAccount, t.issuedTime, t.expirationTime, true, now, now);
        if Lapsed(record, now) { return false; }
      }
      if !Storable(lib, ignoreBearerAuth, h, record) { return false; }
      tokens := tokens[h := record];
      return true;
    }
  }

  class BankKeeper {
    var balances: Balances

    constructor (b: Balances)
      ensures balances == b
    {
      balances := b;
    }

    /** Coins taken one after the other; a failure leaves the ones before it taken. */
    method SubCoins(locked: Locks, a: Address, cs: CoinList) returns (ok: bool)
      modifies this
      ensures var r := Debit(old(balances), locked, a, cs); if ok then r == Some(balances) else r == None
    {
      assert cs[0..] == cs;
      for i := 0 to |cs|
        invariant Debit(old(balances), locked, a, cs) == Debit(balances, locked, a, cs[i..])
      {
        assert cs[i..][0] == cs[i] && cs[i..][1..] == cs[i + 1..];
        var left := BalanceOf(balances, a, cs[i].denom) - cs[i].amount;
        if left < locked(a, cs[i].denom) { return false; }
        balances := balances[(a, cs[i].denom) := left];
      }
      return true;
    }

    method AddCoins(a: Address, cs: CoinList)
      modifies this
      ensures balances == Credit(old(balances), a, cs)
    {
      assert cs[0..] == cs;
      for i := 0 to |cs|
        invariant Credit(old(balances), a, cs) == Credit(balances, a, cs[i..])
      {
        assert cs[i..][0] == cs[i] && cs[i..][1..] == cs[i + 1..];
        balances := balances[(a, cs[i].denom) := BalanceOf(balances, a, cs[i].denom) + cs[i].amount];
      }
    }

    /** SendCoinsFromAccountToModule */
    method SendCoins(locked: Locks, from: Address, to: Address, cs: CoinList) returns (ok: bool)
      requires Sorted(cs)
      modifies this
      ensures ok <==> Affords(old(balances), locked, from, cs)
      ensures ok ==> Send(old(balances), locked, from, to, cs) == Some(balances)
      ensures ok ==> Moved(old(balances), balances, from, to, cs)
    {
      SendMoves(balances, locked, from, to, cs);
      hide Sorted, Affords, Moved, Debit, Credit;
      ok := SubCoins(locked, from, cs);
      if ok { AddCoins(to, cs); }
    }
  }

  /** The wiring of app/ante/ante.go; an error leaves whatever was written before it, which the caller discards. */
  class AnteHandler {
    const env: Env
    const grants: FeegrantKeeper
    const bank: BankKeeper
    const core: TokenKeeper

    constructor (env: Env, grants: FeegrantKeeper, bank: BankKeeper, core: TokenKeeper)
      ensures this.env == env && this.grants == grants && this.bank == bank && this.core == core
    {
      this.env, this.grants, this.bank, this.core := env, grants, bank, core;
    }

    ghost function Snapshot(): State
      reads grants, bank, core
    {
      State(grants.store, bank.balances, core.tokens)
    }

    /** ExtensionOptionsDecorator.AnteHandle */
    method ExtensionOptions(ctx: Context, blk: Block, tx: Tx) returns (r: Result<Context, AnteError>)
      modifies core
      ensures var spec := CheckExtension(env, old(core.tokens), ctx, blk, tx);
              if r.Ok? then spec == Ok((core.tokens, r.value)) else spec == Err(r.error)
    {
      hide CheckCreators, ValidateRelay, ValidateExtension, ParseJWS, StoreOrUpdate;
      if |tx.options| == 0 { return Ok(ctx); }
      if |tx.options| > 1 { return Err(TooManyOptions); }
      if tx.options[0].Unsupported? { return Err(UnsupportedOption); }
      var jws := tx.options[0].token;
      var relay :- FindRelay(env, tx);
      var isRelay := relay != [];
      var names := ValidateExtension(env.lib, jws, blk.now, isRelay);
      if names.Err? { return Err(BadToken(names.error)); }
      var (did, account) := names.value;
      var parsed := ParseJWS(env.lib, jws, isRelay);
      if parsed.Err? { return Err(BadToken(parsed.error)); }
      if env.core.Some? && !blk.simulate {
        var ok := core.Record(env.lib, env.core.value.ignoreBearerAuth, jws, did, parsed.value, blk.now);
        if !ok { return Err(TokenNotActive); }
      }
      if |tx.msgs| == 0 { return Err(NoMessages); }
      if !isRelay {
        var bad := FirstBadCreator(tx.msgs, account);
        if bad.Some? { return Err(bad.value); }
      }
      var ctx' := ctx.(did := did);
      if isRelay { ctx' := ctx'.(relay := relay); }
      return Ok(ctx');
    }

    method UseGrantOf(granter: Address, grantee: Address, u: Use) returns (r: Result<Charge, AnteError>)
      modifies grants
      ensures (grants.store, r) == UseGrant(old(grants.store), granter, grantee, u)
    {
      if !IsName(granter) || !IsName(grantee) { return Err(GrantRefused); }
      var err := grants.UseGrantedFees(granter, grantee, u);
      if err.Some? { return Err(GrantRefused); }
      return Ok(Charge(granter, Some(OnAccount(granter, grantee))));
    }

    /** handleFeegrant */
    method FindPayer(ctx: Context, tx: Tx, u: Use) returns (r: Result<Charge, AnteError>)
      requires Indexed(grants.store, DID, DID_QUEUE)
      modifies grants
      ensures (grants.store, r) == HandleFeegrant(env, old(grants.store), ctx, tx, u)
    {
      hide Indexed, UseGrant, UseFirst;
      if ctx.relay != [] {
        if tx.granter.None? || |tx.granter.value| == 0 { return Err(RelayWithoutGranter); }
        var granter := tx.granter.value;
        if env.text(granter) != ctx.relay { return Err(RelayMismatch); }
        if granter == tx.payer { return Err(RelayPaysItself); }
        if !env.feegrants { return Err(NoFeegrants); }
        r := UseGrantOf(granter, tx.payer, u);
        return;
      }
      if ctx.did != [] && env.feegrants {
        if |ctx.did| > 255 { return Err(Oversize); }
        var used := grants.UseFirstAvailableDIDGrant(ctx.did, u);
        if used.Some? { return Ok(Charge(used.value, Some(OnDID(used.value, ctx.did)))); }
      }
      if tx.granter.Some? {
        var granter := tx.granter.value;
        if !env.feegrants { return Err(NoFeegrants); }
        if granter != tx.payer {
          r := UseGrantOf(granter, tx.payer, u);
          return;
        }
        return Ok(Charge(granter, None));
      }
      return Ok(Charge(tx.payer, None));
    }

    /** deductFees, and the check that the account exists. */
    method DeductFrom(from: Address, to: Address, fees: CoinList) returns (err: Option<AnteError>)
      modifies bank
      ensures var spec := Deduct(env, old(bank.balances), from, to, fees);
              if err.None? then spec == Ok(bank.balances) else spec == Err(err.value)
    {
      if from !in env.accounts { return Some(UnknownAccount); }
      if !IsZero(fees) {
        if !Valid(fees) { return Some(InvalidFees); }
        SendMoves(bank.balances, env.locked, from, to, fees);
        hide Affords, Moved, Send;
        var ok := bank.SendCoins(env.locked, from, to, fees);
        if !ok { return Some(InsufficientFunds); }
      }
      return None;
    }

    /** checkDeductFee */
    method ChargeFee(ctx: Context, blk: Block, tx: Tx) returns (r: Result<Charge, AnteError>)
      requires ValidState(Snapshot())
      modifies grants, bank
      ensures var spec := CheckDeductFee(env, old(Snapshot()), ctx, blk, tx);
              if r.Ok? then spec == Ok((Snapshot(), r.value)) else spec == Err(r.error)
    {
      hide Indexed, HandleFeegrant, Deduct;
      if env.collector.None? { return Err(NoCollector); }
      var charge :- FindPayer(ctx, tx, UseOf(blk, tx));
      var err := DeductFrom(charge.account, env.collector.value, tx.fees);
      if err.Some? { return Err(err.value); }
      return Ok(charge);
    }

    /** CustomDeductFeeDecorator.AnteHandle */
    method DeductFees(ctx: Context, blk: Block, tx: Tx) returns (r: Result<Option<Charge>, AnteError>)
      requires ValidState(Snapshot())
      modifies grants, bank
      ensures var spec := DeductFee(env, old(Snapshot()), ctx, blk, tx);
              if r.Ok? then spec == Ok((Snapshot(), r.value)) else spec == Err(r.error)
    {
      hide Indexed, CheckDeductFee, CheckFee;
      if blk.height == 0 { return Ok(None); }
      if !blk.simulate && blk.height > 0 && tx.gas == 0 { return Err(NoGas); }
      if !blk.simulate {
        var checked := CheckFee(tx.fees, tx.gas, blk.checkTx, AllowZero(env), blk.price);
        if checked.Err? { return Err(FeeRefused(checked.error)); }
      }
      var charge :- ChargeFee(ctx, blk, tx);
      return Ok(Some(charge));
    }

    /** Both decorators on one transaction. */
    method Run(blk: Block, tx: Tx) returns (r: Result<(Context, Option<Charge>), AnteError>)
      requires ValidState(Snapshot())
      modifies grants, bank, core
      ensures var spec := Handle(env, old(Snapshot()), blk, tx);
              if r.Ok? then spec == Ok(Outcome(Snapshot(), r.value.0, r.value.1)) else spec == Err(r.error)
    {
      hide Indexed, CheckExtension, DeductFee;
      var ctx :- ExtensionOptions(NO_CONTEXT, blk, tx);
      var charge :- DeductFees(ctx, blk, tx);
      return Ok((ctx, charge));
    }
  }
}
