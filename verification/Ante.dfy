/**
 The two decorators of app/ante that decide who acts and who pays: ExtensionOptionsDecorator (extension.go)
 and CustomDeductFeeDecorator (fee.go), one after the other.
 */
module Ante {
  import opened Wrappers
  import opened Coins
  import opened Allowance
  import opened Keys
  import opened KeeperStore
  import opened KeeperOps
  import opened AccountGrants
  import opened Bank
  import opened Bearer
  import opened FeePolicy

  /** The chain settings the core keeper holds. */
  datatype Config = Config(ignoreBearerAuth: bool, allowAnyRelay: bool, allowZeroFees: bool, trusted: seq<Text>)

  /** What the decorators are wired to; `text` renders an address, `core` is None without a core keeper. */
  datatype Env = Env(
    lib: Library,
    text: Address -> Text,
    core: Option<Config>,
    feegrants: bool,
    collector: Option<Address>,
    accounts: set<Address>,
    locked: Locks)

  /** No creator, or none to ask for, is the empty text. */
  datatype Msg = Msg(url: Text, creator: Text)

  datatype ExtensionOption = JWS(token: Text) | Unsupported

  /** A missing fee granter (Go's nil) is None. */
  datatype Tx = Tx(
    options: seq<ExtensionOption>,
    msgs: seq<Msg>,
    fees: CoinList,
    gas: Uint64,
    payer: Address,
    granter: Option<Address>)

  datatype Block = Block(height: int, now: Time, checkTx: bool, simulate: bool, price: string -> Option<int>)

  /** The two context values; an absent one is the empty text. */
  datatype Context = Context(did: Text, relay: Text)

  const NO_CONTEXT := Context([], [])

  datatype AnteError =
    | TooManyOptions | UnsupportedOption | BadToken(reason: TokenError) | TokenNotActive | NoMessages
    | UnknownSigner | SignerMismatch | RelayWithoutGranter | UntrustedRelay | RelayMismatch | RelayPaysItself
    | NoFeegrants | GrantRefused | Oversize | NoGas | FeeRefused(why: FeeCheckError) | NoCollector
    | UnknownAccount | InvalidFees | InsufficientFunds

  function Urls(msgs: seq<Msg>): (urls: seq<Text>) {
    seq(|msgs|, i requires 0 <= i < |msgs| => msgs[i].url)
  }

  function UseOf(blk: Block, tx: Tx): Use {
    Use(blk.now, tx.fees, Urls(tx.msgs))
  }

  // ---------- Who acts ----------

  /** The error of the first message not created by `signer`. */
  function CheckCreators(msgs: seq<Msg>, signer: Text): Option<AnteError> {
    if msgs == [] then None
    else if msgs[0].creator == [] then Some(UnknownSigner)
    else if msgs[0].creator != signer then Some(SignerMismatch)
    else CheckCreators(msgs[1..], signer)
  }

  predicate CreatedBy(msgs: seq<Msg>, signer: Text) {
    forall m <- msgs :: m.creator == signer
  }

  lemma {:induction false} CreatorsExact(msgs: seq<Msg>, signer: Text)
    ensures CheckCreators(msgs, signer).None? <==> CreatedBy(msgs, signer) && (msgs == [] || signer != [])
  {
    if msgs != [] {
      CreatorsExact(msgs[1..], signer);
      assert msgs == [msgs[0]] + msgs[1..];
    }
  }

  predicate RelayMode(env: Env) {
    env.core.Some? && env.core.value.ignoreBearerAuth
  }

  /** validateRelay: the relay's address, or the empty text outside relay mode. */
  function ValidateRelay(env: Env, tx: Tx): Result<Text, AnteError> {
    if !RelayMode(env) then Ok([])
    else if tx.granter.None? || tx.granter.value == [] then Err(RelayWithoutGranter)
    else
      var relay := env.text(tx.granter.value);
      if !env.core.value.allowAnyRelay && relay !in env.core.value.trusted then Err(UntrustedRelay)
      else match CheckCreators(tx.msgs, env.text(tx.payer))
           case Some(err) => Err(err)
           case None => Ok(relay)
  }

  /** The record of the token, kept unless there is no core keeper or the transaction is only simulated. */
  function Remember(env: Env, ts: Tokens, blk: Block, jws: Text, did: Text, t: BearerToken): Option<Tokens> {
    if env.core.None? || blk.simulate then Some(ts)
    else StoreOrUpdate(env.lib, env.core.value.ignoreBearerAuth, ts, jws, did, t, blk.now)
  }

  /** ExtensionOptionsDecorator.AnteHandle up to the next decorator. */
  function CheckExtension(env: Env, ts: Tokens, ctx: Context, blk: Block, tx: Tx):
    Result<(Tokens, Context), AnteError>
  {
    if tx.options == [] then Ok((ts, ctx))
    else if |tx.options| > 1 then Err(TooManyOptions)
    else match tx.options[0]
         case Unsupported => Err(UnsupportedOption)
         case JWS(jws) =>
           var relay :- ValidateRelay(env, tx);
           match ValidateExtension(env.lib, jws, blk.now, relay != [])
           case Err(e) => Err(BadToken(e))
           case Ok((did, account)) =>
             match ParseJWS(env.lib, jws, relay != [])
             case Err(e) => Err(BadToken(e))
             case Ok(t) =>
               match Remember(env, ts, blk, jws, did, t)
               case None => Err(TokenNotActive)
               case Some(ts') =>
                 if tx.msgs == [] then Err(NoMessages)
                 else
                   var bad := if relay == [] then CheckCreators(tx.msgs, account) else None;
                   if bad.Some? then Err(bad.value)
                   else Ok((ts', ctx.(did := did, relay := if relay != [] then relay else ctx.relay)))
  }

  // ---------- Who pays ----------

  datatype GrantId = OnAccount(granter: Name, grantee: Name) | OnDID(granter: Name, did: Name)

  function Holding(s: Store, id: GrantId): Option<Allowance> {
    match id
    case OnAccount(granter, grantee) => Get(s, ACCOUNT, granter, grantee)
    case OnDID(granter, did) => Get(s, DID, granter, did)
  }

  /** The account that is charged, and the grant it is charged under. */
  datatype Charge = Charge(account: Address, grant: Option<GrantId>)

  /** UseGrantedFees; an address that is empty or longer than 255 bytes holds no grant. */
  function UseGrant(s: Store, granter: Address, grantee: Address, u: Use): (Store, Result<Charge, AnteError>) {
    if !IsName(granter) || !IsName(grantee) then (s, Err(GrantRefused))
    else
      var (s', err) := UseAccount(s, granter, grantee, u);
      (s', if err.None? then Ok(Charge(granter, Some(OnAccount(granter, grantee)))) else Err(GrantRefused))
  }

  function RelayPays(env: Env, s: Store, relay: Text, tx: Tx, u: Use): (Store, Result<Charge, AnteError>) {
    if tx.granter.None? || tx.granter.value == [] then (s, Err(RelayWithoutGranter))
    else if env.text(tx.granter.value) != relay then (s, Err(RelayMismatch))
    else if tx.granter.value == tx.payer then (s, Err(RelayPaysItself))
    else if !env.feegrants then (s, Err(NoFeegrants))
    else UseGrant(s, tx.granter.value, tx.payer, u)
  }

  function GranterPays(env: Env, s: Store, tx: Tx, u: Use): (Store, Result<Charge, AnteError>) {
    match tx.granter
    case None => (s, Ok(Charge(tx.payer, None)))
    case Some(granter) =>
      if !env.feegrants then (s, Err(NoFeegrants))
      else if granter == tx.payer then (s, Ok(Charge(granter, None)))
      else UseGrant(s, granter, tx.payer, u)
  }

  /** handleFeegrant */
  ghost function HandleFeegrant(env: Env, s: Store, ctx: Context, tx: Tx, u: Use): (Store, Result<Charge, AnteError>)
    requires Indexed(s, DID, DID_QUEUE)
  {
    if ctx.relay != [] then RelayPays(env, s, ctx.relay, tx, u)
    else if ctx.did == [] || !env.feegrants then GranterPays(env, s, tx, u)
    else if |ctx.did| > 255 then (s, Err(Oversize))
    else
      var (s', granter) := UseFirst(s, ctx.did, u);
      if granter.Some? then (s', Ok(Charge(granter.value, Some(OnDID(granter.value, ctx.did)))))
      else GranterPays(env, s', tx, u)
  }

  datatype State = State(grants: Store, balances: Balances, tokens: Tokens)

  /**
   DID grants and their queue are in step; for account grants, which the code lets get out of step, keys have their
   shapes.
   */
  ghost predicate ValidGrants(s: Store) {
    Indexed(s, DID, DID_QUEUE) && Formed(s, ACCOUNT, ACCOUNT_QUEUE)
  }

  ghost predicate ValidState(st: State) {
    ValidGrants(st.grants)
  }

  /** deductFees, from an account that exists to the fee collector. */
  function Deduct(env: Env, balances: Balances, from: Address, to: Address, fees: CoinList):
    Result<Balances, AnteError>
  {
    if from !in env.accounts then Err(UnknownAccount)
    else if IsZero(fees) then Ok(balances)
    else if !Valid(fees) then Err(InvalidFees)
    else match Send(balances, env.locked, from, to, fees)
         case None => Err(InsufficientFunds)
         case Some(b) => Ok(b)
  }

  /** checkDeductFee */
  ghost function CheckDeductFee(env: Env, st: State, ctx: Context, blk: Block, tx: Tx):
    Result<(State, Charge), AnteError>
    requires ValidState(st)
  {
    if env.collector.None? then Err(NoCollector)
    else
      var (grants, r) := HandleFeegrant(env, st.grants, ctx, tx, UseOf(blk, tx));
      var charge :- r;
      var balances :- Deduct(env, st.balances, charge.account, env.collector.value, tx.fees);
      Ok((st.(grants := grants, balances := balances), charge))
  }

  function AllowZero(env: Env): Option<bool> {
    if env.core.None? then None else Some(env.core.value.allowZeroFees)
  }

  /** The fee check, which a simulation skips. */
  function CheckTxFee(env: Env, blk: Block, tx: Tx): Option<AnteError> {
    if blk.simulate then None
    else if blk.height > 0 && tx.gas == 0 then Some(NoGas)
    else match CheckFee(tx.fees, tx.gas, blk.checkTx, AllowZero(env), blk.price)
         case Err(e) => Some(FeeRefused(e))
         case Ok(_) => None
  }

  /** CustomDeductFeeDecorator.AnteHandle up to the next decorator; at genesis nobody is charged. */
  ghost function DeductFee(env: Env, st: State, ctx: Context, blk: Block, tx: Tx):
    Result<(State, Option<Charge>), AnteError>
    requires ValidState(st)
  {
    if blk.height == 0 then Ok((st, None))
    else
      var err := CheckTxFee(env, blk, tx);
      if err.Some? then Err(err.value)
      else
        var r :- CheckDeductFee(env, st, ctx, blk, tx);
        Ok((r.0, Some(r.1)))
  }

  datatype Outcome = Outcome(st: State, ctx: Context, charge: Option<Charge>)

  /** Both decorators, from a context in which neither value is set. */
  ghost function Handle(env: Env, st: State, blk: Block, tx: Tx): Result<Outcome, AnteError>
    requires ValidState(st)
  {
    var ext :- CheckExtension(env, st.tokens, NO_CONTEXT, blk, tx);
    var fee :- DeductFee(env, st.(tokens := ext.0), ext.1, blk, tx);
    Ok(Outcome(fee.0, ext.1, fee.1))
  }
}
