/** Bearer tokens: what app/ante/extension_utils.go demands of one, and the record x/core keeps of those used. */
module Bearer {
  import opened Wrappers
  import opened Lex
  import opened Allowance

  datatype BearerToken = BearerToken(
    issuer: Text,
    providerToken: Text,
    authorizedAccount: Text,
    issuedTime: int,
    expirationTime: int)

  datatype ProviderToken = ProviderToken(providerName: Text, userID: Text, actorDID: Text)

  /**
   The libraries underneath: the claims in a compact JWS (None if it does not parse or lacks a required claim), the JSON
   of a provider token, the two syntax checks, signature verification under the key a DID encodes, and SHA-256.
   */
  datatype Library = Library(
    claims: Text -> Option<BearerToken>,
    provider: Text -> Option<ProviderToken>,
    validDID: Text -> bool,
    validAccount: Text -> bool,
    signedBy: (Text, Text) -> bool,
    hash: Text -> Text)

  datatype TokenError =
    | JSONSerialization | Malformed | InvalidIssuer | ProviderNeedsRelay | InvalidAccount
    | IssuedAfterExpiry | BadSignature | TokenExpired | BadProvider

  // ---------- Validation ----------

  const NANOS := 1_000_000_000

  predicate IsSpace(b: byte) {
    b == 0x20 || b == 0x0a || b == 0x09 || b == 0x0d
  }

  function TrimLeft(t: Text): Text {
    if t != [] && IsSpace(t[0]) then TrimLeft(t[1..]) else t
  }

  /** Blanks in front of a token make no difference to its claims and signature. */
  lemma {:induction false} BlanksIgnored(blanks: Text, t: Text)
    requires forall b <- blanks :: IsSpace(b)
    ensures TrimLeft(blanks + t) == TrimLeft(t)
  {
    if blanks == [] {
      assert blanks + t == t;
    } else {
      assert (blanks + t)[1..] == blanks[1..] + t;
      BlanksIgnored(blanks[1..], t);
    }
  }

  /** Blanks, line feeds, tabs and carriage returns in front are dropped, and nothing else. */
  lemma {:induction false} TrimExact(t: Text) returns (k: nat)
    ensures k <= |t| && TrimLeft(t) == t[k..] && (forall i :: 0 <= i < k ==> t[i] in [0x20, 0x0a, 0x09, 0x0d])
    ensures k < |t| ==> t[k] !in [0x20, 0x0a, 0x09, 0x0d]
  {
    k := 0;
    if t != [] && IsSpace(t[0]) {
      var n := TrimExact(t[1..]);
      k := n + 1;
      assert t[1..][n..] == t[k..];
    }
  }

  /** "did:" */
  const DID_SCHEME: Text := [0x64, 0x69, 0x64, 0x3a]

  function ValidateValues(lib: Library, t: BearerToken, relay: bool): Option<TokenError> {
    if DID_SCHEME <= t.issuer && !lib.validDID(t.issuer) then Some(InvalidIssuer)
    else if !(DID_SCHEME <= t.issuer) && lib.provider(t.issuer).None? then Some(InvalidIssuer)
    else if t.providerToken != [] && !relay then Some(ProviderNeedsRelay)
    else if !relay && !lib.validAccount(t.authorizedAccount) then Some(InvalidAccount)
    else if t.expirationTime < t.issuedTime then Some(IssuedAfterExpiry)
    else None
  }

  function ParseJWS(lib: Library, jws: Text, relay: bool): Result<BearerToken, TokenError> {
    var text := TrimLeft(jws);
    if text != [] && text[0] == 0x7b then Err(JSONSerialization)
    else match lib.claims(text)
         case None => Err(Malformed)
         case Some(t) =>
           var err := ValidateValues(lib, t, relay);
           if err.Some? then Err(err.value)
           else if !lib.signedBy(text, t.issuer) then Err(BadSignature)
           else Ok(t)
  }

  predicate ValidProvider(p: ProviderToken) {
    p.providerName != [] && p.userID != [] && p.actorDID != []
  }

  /** validateJWSExtension: the acting DID and the authorized account. */
  function ValidateExtension(lib: Library, jws: Text, now: Time, relay: bool): Result<(Text, Text), TokenError> {
    var t :- ParseJWS(lib, jws, relay);
    var err := ValidateValues(lib, t, relay);
    if err.Some? then Err(err.value)
    else if now / NANOS > t.expirationTime then Err(TokenExpired)
    else if t.providerToken == [] then Ok((t.issuer, t.authorizedAccount))
    else match lib.provider(t.providerToken)
         case None => Err(BadProvider)
         case Some(p) => if ValidProvider(p) then Ok((p.actorDID, t.authorizedAccount)) else Err(BadProvider)
  }

  /** The claims of the token, signed by the issuer they name. */
  predicate Genuine(lib: Library, jws: Text, t: BearerToken) {
    lib.claims(TrimLeft(jws)) == Some(t) && lib.signedBy(TrimLeft(jws), t.issuer)
  }

  /** Without a relay: the DID is the issuer whose signature was checked. */
  lemma DirectTokenExact(lib: Library, jws: Text, now: Time, did: Text, account: Text)
    ensures ValidateExtension(lib, jws, now, false) == Ok((did, account)) <==>
            && !([0x7b] <= TrimLeft(jws))
            && exists t :: Genuine(lib, jws, t) && did == t.issuer && account == t.authorizedAccount
                        && t.providerToken == [] && lib.validAccount(account)
                        && (if DID_SCHEME <= did then lib.validDID(did) else lib.provider(did).Some?)
                        && t.issuedTime <= t.expirationTime && now < (t.expirationTime + 1) * NANOS
  {
    hide TrimLeft;
    if lib.claims(TrimLeft(jws)).Some? {
      var t := lib.claims(TrimLeft(jws)).value;
      assert Genuine(lib, jws, t) <==> lib.signedBy(TrimLeft(jws), t.issuer);
    }
  }

  /** Through a relay: the DID is the provider's actor if the token carries a provider token, else the issuer. */
  lemma RelayTokenExact(lib: Library, jws: Text, now: Time, did: Text, account: Text)
    ensures ValidateExtension(lib, jws, now, true) == Ok((did, account)) <==>
            && !([0x7b] <= TrimLeft(jws))
            && exists t :: Genuine(lib, jws, t) && account == t.authorizedAccount
                        && (if DID_SCHEME <= t.issuer then lib.validDID(t.issuer) else lib.provider(t.issuer).Some?)
                        && t.issuedTime <= t.expirationTime && now < (t.expirationTime + 1) * NANOS
                        && (if t.providerToken == [] then did == t.issuer
                            else lib.provider(t.providerToken).Some? &&
                                 var p := lib.provider(t.providerToken).value; ValidProvider(p) && did == p.actorDID)
  {
    hide TrimLeft;
    if lib.claims(TrimLeft(jws)).Some? {
      var t := lib.claims(TrimLeft(jws)).value;
      assert Genuine(lib, jws, t) <==> lib.signedBy(TrimLeft(jws), t.issuer);
    }
  }

  // ---------- The record of used tokens ----------

  datatype TokenRecord = TokenRecord(
    did: Text,
    account: Text,
    issuedAt: int,
    expiresAt: int,
    valid: bool,
    firstUsed: Time,
    lastUsed: Time)

  /** Records by token hash; the indices by DID and account are not represented. */
  type Tokens = map<Text, TokenRecord>

  /** Seconds of Go's zero time, which stands for no expiry. */
  const ZERO_TIME: int := -62_135_596_800

  /** What SetJWSToken accepts; a DID over 255 bytes makes its index key panic. */
  predicate Storable(lib: Library, ignoreBearerAuth: bool, h: Text, r: TokenRecord) {
    && h != [] && r.did != [] && |r.did| <= 255 && |r.account| <= 255
    && (if r.account != [] then lib.validAccount(r.account) else ignoreBearerAuth)
  }

  predicate Lapsed(r: TokenRecord, now: Time) {
    r.expiresAt != ZERO_TIME && r.expiresAt * NANOS <= now
  }

  /** StoreOrUpdateJWSToken; None is an error. */
  function StoreOrUpdate(
    lib: Library, ignoreBearerAuth: bool, ts: Tokens, jws: Text, did: Text, t: BearerToken, now: Time): Option<Tokens>
  {
    var h := lib.hash(jws);
    var r := if h in ts then ts[h].(lastUsed := now)
             else TokenRecord(did, t.authorizedAccount, t.issuedTime, t.expirationTime, true, now, now);
    if h in ts && !r.valid then None
    else if h !in ts && Lapsed(r, now) then None
    else if !Storable(lib, ignoreBearerAuth, h, r) then None
    else Some(ts[h := r])
  }

  /** UpdateJWSTokenStatus to invalid, as InvalidateJWS asks for it on behalf of a DID or an account. */
  function Invalidate(lib: Library, ignoreBearerAuth: bool, ts: Tokens, h: Text, did: Text, creator: Text):
    Option<Tokens>
  {
    if h !in ts || !ts[h].valid then None
    else if !(did != [] && did == ts[h].did) && creator != ts[h].account then None
    else
      var r := ts[h].(valid := false);
      if Storable(lib, ignoreBearerAuth, h, r) then Some(ts[h := r]) else None
  }

  /** CheckAndUpdateExpiredTokens at the end of a block. */
  function Sweep(lib: Library, ignoreBearerAuth: bool, ts: Tokens, now: Time): Tokens {
    map h | h in ts :: if ts[h].valid && Lapsed(ts[h], now) && Storable(lib, ignoreBearerAuth, h, ts[h])
                       then ts[h].(valid := false) else ts[h]
  }

  predicate IsRevoked(ts: Tokens, h: Text) {
    h in ts && !ts[h].valid
  }
}
