/**
 The life of a bearer token's record: recorded on first use under the hash of its text, revoked by its holder or by the
 end of a block, never revived; the same token in another spelling has a record of its own.
 */
module TokenRuns {
  import opened Wrappers
  import opened Allowance
  import opened KeeperStore
  import opened Bearer
  import opened Ante
  import opened AnteProperties
  import opened AnteRuns
  import Bank

  predicate IgnoreAuth(env: Env) {
    env.core.Some? && env.core.value.ignoreBearerAuth
  }

  /** Every record is one that SetJWSToken accepts. */
  ghost predicate AllStorable(env: Env, ts: Tokens) {
    forall h :: h in ts ==> Storable(env.lib, IgnoreAuth(env), h, ts[h])
  }

  /** The token of an accepted transaction and the claims it carries. */
  ghost predicate Presented(env: Env, blk: Block, tx: Tx, o: Outcome, t: BearerToken) {
    && |tx.options| == 1 && tx.options[0].JWS? && Genuine(env.lib, tx.options[0].token, t)
    && exists account :: Names(env, blk, tx, o.ctx.relay, o.ctx.did, account) && account == t.authorizedAccount
  }

  lemma ExtensionRecords(env: Env, ts: Tokens, blk: Block, tx: Tx) returns (t: BearerToken)
    requires tx.options != [] && CheckExtension(env, ts, NO_CONTEXT, blk, tx).Ok?
    ensures var (ts', ctx) := CheckExtension(env, ts, NO_CONTEXT, blk, tx).value;
            && |tx.options| == 1 && tx.options[0].JWS? && Genuine(env.lib, tx.options[0].token, t)
            && Names(env, blk, tx, ctx.relay, ctx.did, t.authorizedAccount)
            && Remember(env, ts, blk, tx.options[0].token, ctx.did, t) == Some(ts')
  {
    hide ValidateRelay, CheckCreators, Remember, TrimLeft, ValidateValues;
    var relay := ValidateRelay(env, tx).value;
    t := ParseJWS(env.lib, tx.options[0].token, relay != []).value;
    var ctx := CheckExtension(env, ts, NO_CONTEXT, blk, tx).value.1;
    assert ctx.relay == relay;
  }

  /**
   An accepted transaction records its token: on first use, only before the token expires, with the acting DID and the
   account and times of its claims; later, by noting the time and changing nothing else. Other records stay.
   */
  lemma TokenIsRecorded(env: Env, st: State, blk: Block, tx: Tx)
    requires Accepted(env, st, blk, tx) && tx.options != [] && env.core.Some? && !blk.simulate
    ensures var o := Handle(env, st, blk, tx).value; var ts, ts' := st.tokens, o.st.tokens;
            exists t :: Presented(env, blk, tx, o, t) &&
              var h := env.lib.hash(tx.options[0].token);
              && ts'.Keys == ts.Keys + {h} && (forall k <- ts :: k != h ==> ts'[k] == ts[k])
              && ts'[h].valid && ts'[h].lastUsed == blk.now
              && (h in ts ==> ts'[h] == ts[h].(lastUsed := blk.now))
              && (h !in ts ==>
                    && ts'[h].did == o.ctx.did && ts'[h].account == t.authorizedAccount
                    && ts'[h].issuedAt == t.issuedTime && ts'[h].expiresAt == t.expirationTime
                    && ts'[h].firstUsed == blk.now
                    && (t.expirationTime == ZERO_TIME || blk.now < t.expirationTime * NANOS))
  {
    hide Indexed, Handle, CheckExtension, Genuine, Names, Storable;
    AcceptedContext(env, st, blk, tx);
    var t := ExtensionRecords(env, st.tokens, blk, tx);
    assert Presented(env, blk, tx, Handle(env, st, blk, tx).value, t);
  }

  lemma EventStorable(env: Env, st: State, e: Event)
    requires ValidState(st) && AllStorable(env, st.tokens)
    ensures AllStorable(env, After(env, st, e).tokens)
  {
    hide Indexed, Handle, CheckExtension, Genuine, Names;
    if Delivered(env, st, e).Some? {
      AcceptedContext(env, st, e.blk, e.tx);
      if e.tx.options != [] {
        var _ := ExtensionRecords(env, st.tokens, e.blk, e.tx);
      } else {
        NoOptions(env, st.tokens, e.blk, e.tx);
      }
    }
  }

  lemma NoOptions(env: Env, ts: Tokens, blk: Block, tx: Tx)
    requires tx.options == []
    ensures CheckExtension(env, ts, NO_CONTEXT, blk, tx) == Ok((ts, NO_CONTEXT))
  {
  }

  /** Every record reached from records that can be stored again can be stored again. */
  lemma {:induction false} RunStorable(env: Env, st: State, es: seq<Event>)
    requires ValidState(st) && AllStorable(env, st.tokens)
    ensures AllStorable(env, RunAll(env, st, es).tokens)
    decreases |es|
  {
    hide ValidState, After, AllStorable;
    if es != [] {
      AfterValid(env, st, es[0]);
      EventStorable(env, st, es[0]);
      RunStorable(env, After(env, st, es[0]), es[1..]);
    }
  }

  /** After any run, a token is revocable exactly by a request under its DID or from its account. */
  lemma WhoRevokes(env: Env, st: State, es: seq<Event>, h: Text, did: Text, creator: Text)
    requires ValidState(st) && AllStorable(env, st.tokens) && env.core.Some?
    requires h in RunAll(env, st, es).tokens && RunAll(env, st, es).tokens[h].valid
    ensures var st' := RunAll(env, st, es); var r := st'.tokens[h];
            IsRevoked(After(env, st', InvalidateToken(h, did, creator)).tokens, h) <==>
            (did != [] && did == r.did) || creator == r.account
  {
    hide ValidState, RunAll;
    RunStorable(env, st, es);
  }

  /** After any run, the end of a block revokes exactly the tokens whose expiry has come, and keeps every record. */
  lemma EndOfBlockRevokesLapsed(env: Env, st: State, es: seq<Event>, now: Time, h: Text)
    requires ValidState(st) && AllStorable(env, st.tokens) && env.core.Some?
    ensures var ts := RunAll(env, st, es).tokens; var ts' := After(env, RunAll(env, st, es), EndOfBlock(now)).tokens;
            && (h in ts' <==> h in ts)
            && (IsRevoked(ts', h) <==> h in ts && (!ts[h].valid || Lapsed(ts[h], now)))
  {
    hide ValidState, RunAll;
    RunStorable(env, st, es);
  }

  // ---------- Revocation ----------

  /** A transaction that presents a text whose hash is revoked is rejected, unless it is only simulated. */
  lemma RevokedIsRejected(env: Env, st: State, blk: Block, tx: Tx)
    requires ValidState(st) && env.core.Some? && !blk.simulate
    requires tx.options != [] && tx.options[0].JWS? && IsRevoked(st.tokens, env.lib.hash(tx.options[0].token))
    ensures Handle(env, st, blk, tx).Err?
  {
    hide Indexed, DeductFee, ValidateExtension, ParseJWS, ValidateRelay, CheckCreators;
  }

  lemma RevokedStays(env: Env, st: State, e: Event, h: Text)
    requires ValidState(st) && IsRevoked(st.tokens, h)
    ensures IsRevoked(After(env, st, e).tokens, h)
  {
    hide Indexed, Handle, ValidateExtension, ParseJWS, ValidateRelay, CheckCreators, Storable;
    if Delivered(env, st, e).Some? { AcceptedContext(env, st, e.blk, e.tx); }
  }

  /** No run revives a revoked record. */
  lemma {:induction false} RevokedForever(env: Env, st: State, es: seq<Event>, h: Text)
    requires ValidState(st) && IsRevoked(st.tokens, h)
    ensures IsRevoked(RunAll(env, st, es).tokens, h)
    decreases |es|
  {
    hide ValidState, After, IsRevoked;
    if es != [] {
      AfterValid(env, st, es[0]);
      RevokedStays(env, st, es[0], h);
      RevokedForever(env, After(env, st, es[0]), es[1..], h);
    }
  }

  /**
   Once its hash is revoked, a text is rejected after whatever else happens; another spelling of the token has another
   hash.
   */
  lemma RevokedForGood(env: Env, st: State, es: seq<Event>, blk: Block, tx: Tx)
    requires ValidState(st) && env.core.Some? && !blk.simulate
    requires tx.options != [] && tx.options[0].JWS? && IsRevoked(st.tokens, env.lib.hash(tx.options[0].token))
    ensures Handle(env, RunAll(env, st, es), blk, tx).Err?
  {
    hide ValidState, RunAll, Handle, IsRevoked;
    RevokedForever(env, st, es, env.lib.hash(tx.options[0].token));
    RevokedIsRejected(env, RunAll(env, st, es), blk, tx);
  }

  // ---------- Tokens and their spellings ----------

  predicate Presents(tx: Tx, text: Text) {
    tx.options == [JWS(text)]
  }

  /** The same transaction with its token in another spelling. */
  function Respelled(tx: Tx, text: Text): Tx {
    tx.(options := [JWS(text)])
  }

  /**
   The record under the hash of the presented text decides: a known text is accepted exactly when its record is valid
   and all other checks pass, an unknown one exactly when it would be with no records at all.
   */
  lemma RecordDecides(env: Env, ts: Tokens, blk: Block, tx: Tx, text: Text)
    requires Presents(tx, text) && env.core.Some? && !blk.simulate && AllStorable(env, ts)
    ensures var h := env.lib.hash(text);
            CheckExtension(env, ts, NO_CONTEXT, blk, tx).Ok? <==>
            if h in ts then ts[h].valid && CheckExtension(env, ts, NO_CONTEXT, blk.(simulate := true), tx).Ok?
            else CheckExtension(env, map[], NO_CONTEXT, blk, tx).Ok?
    ensures var r, r' := CheckExtension(env, ts, NO_CONTEXT, blk, tx), CheckExtension(env, map[], NO_CONTEXT, blk, tx);
            r.Ok? && r'.Ok? ==> r.value.1 == r'.value.1
  {
    hide ValidateRelay, ValidateExtension, ParseJWS, CheckCreators;
    var h := env.lib.hash(text);
    if h in ts { assert Storable(env.lib, IgnoreAuth(env), h, ts[h]); }
  }

  lemma SpellingIgnored(env: Env, blk: Block, tx: Tx, text: Text, text': Text)
    requires Presents(tx, text) && TrimLeft(text) == TrimLeft(text') && env.core.Some? && !blk.simulate
    requires env.lib.hash(text') != [] && CheckExtension(env, map[], NO_CONTEXT, blk, tx).Ok?
    ensures var r := CheckExtension(env, map[], NO_CONTEXT, blk, tx);
            var r' := CheckExtension(env, map[], NO_CONTEXT, blk, Respelled(tx, text'));
            r'.Ok? && r'.value.1 == r.value.1
  {
    hide TrimLeft, CheckCreators, ValidateValues;
    forall relay
      ensures ParseJWS(env.lib, text', relay) == ParseJWS(env.lib, text, relay)
      ensures ValidateExtension(env.lib, text', blk.now, relay) == ValidateExtension(env.lib, text, blk.now, relay)
    {
    }
    assert ValidateRelay(env, Respelled(tx, text')) == ValidateRelay(env, tx);
    hide ParseJWS, ValidateExtension, ValidateRelay;
  }

  /**
   A transaction that carries the claims of a revoked token, in whatever text, and would be accepted had that text
   never been seen, is rejected exactly when the hash of the text it presents is itself revoked.
   */
  lemma RevokedClaimsExact(env: Env, st: State, es: seq<Event>, blk: Block, tx: Tx, revoked: Text, text: Text)
    requires ValidState(st) && AllStorable(env, st.tokens) && env.core.Some? && !blk.simulate
    requires IsRevoked(st.tokens, env.lib.hash(revoked))
    requires env.lib.claims(TrimLeft(text)) == env.lib.claims(TrimLeft(revoked))
    requires Presents(tx, text) && CheckExtension(env, map[], NO_CONTEXT, blk, tx).Ok?
    ensures var ts := RunAll(env, st, es).tokens;
            && IsRevoked(ts, env.lib.hash(revoked))
            && (CheckExtension(env, ts, NO_CONTEXT, blk, tx).Err? <==> IsRevoked(ts, env.lib.hash(text)))
  {
    var ts := RunAll(env, st, es).tokens;
    hide ValidState, RunAll, CheckExtension, TrimLeft, AllStorable;
    RunStorable(env, st, es);
    RevokedForever(env, st, es, env.lib.hash(revoked));
    RecordDecides(env, ts, blk, tx, text);
    SimulationPasses(env, ts, blk, tx, text);
  }

  /** What passes with no records passes a simulation with any. */
  lemma SimulationPasses(env: Env, ts: Tokens, blk: Block, tx: Tx, text: Text)
    requires Presents(tx, text) && CheckExtension(env, map[], NO_CONTEXT, blk, tx).Ok?
    ensures CheckExtension(env, ts, NO_CONTEXT, blk.(simulate := true), tx).Ok?
  {
    hide ValidateRelay, ValidateExtension, ParseJWS, CheckCreators;
  }

  /**
   Revocation is per spelling: with a blank in front, an unknown text, a revoked token is accepted as if it were new.
   */
  lemma RevocationIsPerSpelling(env: Env, ts: Tokens, blk: Block, tx: Tx, text: Text)
    requires AllStorable(env, ts) && env.core.Some? && !blk.simulate
    requires Presents(tx, text) && CheckExtension(env, map[], NO_CONTEXT, blk, tx).Ok? &&
             IsRevoked(ts, env.lib.hash(text))
    requires env.lib.hash([0x20] + text) != [] && env.lib.hash([0x20] + text) !in ts
    ensures CheckExtension(env, ts, NO_CONTEXT, blk, tx).Err?
    ensures var r := CheckExtension(env, ts, NO_CONTEXT, blk, Respelled(tx, [0x20] + text));
            r.Ok? && r.value.1 == CheckExtension(env, map[], NO_CONTEXT, blk, tx).value.1
  {
    hide CheckExtension, TrimLeft, AllStorable;
    BlanksIgnored([0x20], text);
    RecordDecides(env, ts, blk, tx, text);
    RecordDecides(env, ts, blk, Respelled(tx, [0x20] + text), [0x20] + text);
    SpellingIgnored(env, blk, tx, text, [0x20] + text);
  }

  const TOKEN: Text := [0x74]
  const CLAIMS := BearerToken(DID_SCHEME, [], [1], 0, 10)
  const LIBRARY := Library(_ => Some(CLAIMS), _ => None, _ => true, _ => true, (_, _) => true, (t: Text) => t)
  const SETTING :=
    Env(LIBRARY, (a: Bank.Address) => a, Some(Config(false, false, false, [])), true, None, {}, (_, _) => 0)
  const BLOCK := Block(1, 0, false, false, _ => None)
  const TX := Tx([JWS(TOKEN)], [Msg([], [1])], [], 1, [1], None)
  const RECORDS: Tokens := map[TOKEN := TokenRecord(DID_SCHEME, [1], 0, 10, false, 0, 0)]

  /** An instance, with the identity for the hash. */
  lemma RevokedTokenRespelled()
    ensures CheckExtension(SETTING, RECORDS, NO_CONTEXT, BLOCK, TX).Err?
    ensures CheckExtension(SETTING, RECORDS, NO_CONTEXT, BLOCK, Respelled(TX, [0x20] + TOKEN)).Ok?
  {
    CreatorsExact(TX.msgs, [1]);
    assert CheckExtension(SETTING, map[], NO_CONTEXT, BLOCK, TX).Ok?;
    RevocationIsPerSpelling(SETTING, RECORDS, BLOCK, TX, TOKEN);
  }
}
