/**
 The state of x/feegrant/keeper: grants under their keys and, beside them, one expiry queue per kind of grant.
 Each operation is given as a function of the store.
 */
module KeeperStore {
  import opened Wrappers
  import opened Lex
  import opened Allowance
  import opened Calendar
  import opened Keys

  /** Queue entries carry an empty value. */
  datatype Value = Grant(granter: Name, grantee: Name, allowance: Allowance) | Mark

  type Store = map<bytes, Value>

  datatype KeeperError = AlreadyExists | PastExpiration | NotFound | UnsupportedType | Refused(reason: FeeError)

  /** The expiry as it enters the queue; a protobuf timestamp holds no instant outside this range. */
  function Expiry(a: Allowance): Option<Instant> {
    var t := ExpiresAt(a);
    if t.Some? && InRange(t.value) then Some(t.value) else None
  }

  function Get(s: Store, ns: byte, granter: Name, grantee: Name): Option<Allowance> {
    var k := Key(ns, granter, grantee);
    if k in s && s[k].Grant? then Some(s[k].allowance) else None
  }

  // ---------- The index ----------

  ghost predicate IsGrantAt(ns: byte, k: bytes, v: Value) {
    v.Grant? && k == Key(ns, v.granter, v.grantee)
  }

  ghost predicate IsEntry(q: byte, k: bytes) {
    exists exp: Instant, granter: Name, grantee: Name :: k == Entry(q, exp, granter, grantee)
  }

  /** Keys under the two prefixes have their shapes. */
  ghost predicate Formed(s: Store, ns: byte, q: byte) {
    && (forall k :: k in s && k != [] && k[0] == ns ==> IsGrantAt(ns, k, s[k]))
    && (forall k :: k in s && k != [] && k[0] == q ==> s[k].Mark? && IsEntry(q, k))
  }

  predicate ExpiresOn(o: Option<Allowance>, exp: Instant) {
    o.Some? && Expiry(o.value) == Some(exp)
  }

  /** A queue entry is present exactly when the grant it points to is present with that expiry. */
  ghost predicate Synced(s: Store, ns: byte, q: byte) {
    forall exp: Instant, granter: Name, grantee: Name ::
      Entry(q, exp, granter, grantee) in s <==> ExpiresOn(Get(s, ns, granter, grantee), exp)
  }

  ghost predicate Indexed(s: Store, ns: byte, q: byte) {
    Formed(s, ns, q) && Synced(s, ns, q)
  }

  // ---------- One grant replaced ----------

  function EntryOf(q: byte, granter: Name, grantee: Name, o: Option<Allowance>): set<bytes> {
    if o.Some? && Expiry(o.value).Some? then {Entry(q, Expiry(o.value).value, granter, grantee)} else {}
  }

  /** The store in which the grant between two parties is `o` and the queue follows. */
  function SetGrant(s: Store, ns: byte, q: byte, granter: Name, grantee: Name, o: Option<Allowance>): Store {
    var s1 := s - ({Key(ns, granter, grantee)} + EntryOf(q, granter, grantee, Get(s, ns, granter, grantee)));
    match o
    case None => s1
    case Some(a) =>
      var s2 := s1[Key(ns, granter, grantee) := Grant(granter, grantee, a)];
      if Expiry(a).Some? then s2[Entry(q, Expiry(a).value, granter, grantee) := Mark] else s2
  }

  /** It changes that grant and no other. */
  lemma SetGrantGet(
    s: Store, ns: byte, q: byte, granter: Name, grantee: Name, o: Option<Allowance>, granter': Name, grantee': Name)
    requires ns != q
    ensures Get(SetGrant(s, ns, q, granter, grantee, o), ns, granter', grantee') ==
            if granter == granter' && grantee == grantee' then o else Get(s, ns, granter', grantee')
  {
    hide Key, Entry;
    KeyInjective(ns, granter, grantee, granter', grantee');
  }

  /** It keeps the other namespaces as they are. */
  lemma SetGrantFrame(s: Store, ns: byte, q: byte, granter: Name, grantee: Name, o: Option<Allowance>, k: bytes)
    requires k == [] || (k[0] != ns && k[0] != q)
    ensures var s' := SetGrant(s, ns, q, granter, grantee, o); (k in s' <==> k in s) && (k in s ==> s'[k] == s[k])
  {
    hide Key, Entry;
  }

  lemma SetGrantSynced(s: Store, ns: byte, q: byte, granter: Name, grantee: Name, o: Option<Allowance>)
    requires ns != q && Synced(s, ns, q)
    ensures Synced(SetGrant(s, ns, q, granter, grantee, o), ns, q)
  {
    hide Key, Entry, Expiry, Get;
    var s' := SetGrant(s, ns, q, granter, grantee, o);
    var prev := Get(s, ns, granter, grantee);
    forall exp: Instant, granter': Name, grantee': Name
      ensures Entry(q, exp, granter', grantee') in s' <==> ExpiresOn(Get(s', ns, granter', grantee'), exp)
    {
      SetGrantGet(s, ns, q, granter, grantee, o, granter', grantee');
      assert Entry(q, exp, granter', grantee') in s <==> ExpiresOn(Get(s, ns, granter', grantee'), exp);
      if prev.Some? && Expiry(prev.value).Some? {
        EntryInjective(q, Expiry(prev.value).value, granter, grantee, exp, granter', grantee');
      }
      if o.Some? && Expiry(o.value).Some? {
        EntryInjective(q, Expiry(o.value).value, granter, grantee, exp, granter', grantee');
      }
    }
  }

  lemma SetGrantFormed(s: Store, ns: byte, q: byte, granter: Name, grantee: Name, o: Option<Allowance>)
    requires ns != q && Formed(s, ns, q)
    ensures Formed(SetGrant(s, ns, q, granter, grantee, o), ns, q)
  {
    hide Key, Entry, Expiry, Get;
    var s' := SetGrant(s, ns, q, granter, grantee, o);
    forall k | k in s' && k != [] && k[0] == q ensures s'[k].Mark? && IsEntry(q, k) {
      if o.Some? && Expiry(o.value).Some? && k == Entry(q, Expiry(o.value).value, granter, grantee) {
        assert IsEntry(q, k);
      }
    }
  }

  /** The queue stays in step whenever a grant is set, replaced or removed this way. */
  lemma SetGrantIndexed(s: Store, ns: byte, q: byte, granter: Name, grantee: Name, o: Option<Allowance>)
    requires ns != q && Indexed(s, ns, q)
    ensures Indexed(SetGrant(s, ns, q, granter, grantee, o), ns, q)
  {
    SetGrantSynced(s, ns, q, granter, grantee, o);
    SetGrantFormed(s, ns, q, granter, grantee, o);
  }

  // ---------- DID grants ----------

  /** GrantAllowance and GrantDIDAllowance */
  function GrantOp(s: Store, ns: byte, q: byte, granter: Name, grantee: Name, a: Allowance, now: Time):
    Result<Store, KeeperError>
  {
    if Get(s, ns, granter, grantee).Some? then Err(AlreadyExists)
    else if Before(ExpiresAt(a), now) then Err(PastExpiration)
    else
      var s1 := if Expiry(a).Some? then s[Entry(q, Expiry(a).value, granter, grantee) := Mark] else s;
      Ok(s1[Key(ns, granter, grantee) := Grant(granter, grantee, a)])
  }

  /** revokeDIDAllowance */
  function RevokeDID(s: Store, granter: Name, did: Name): Result<Store, KeeperError> {
    var o := Get(s, DID, granter, did);
    if o.None? then Err(NotFound)
    else
      var s1 := s - {Key(DID, granter, did)};
      Ok(if Expiry(o.value).Some? then s1 - {Entry(DID_QUEUE, Expiry(o.value).value, granter, did)} else s1)
  }

  /** UpdateDIDAllowance: the queue entry moves only when the expiry changes. */
  function UpdateDID(s: Store, granter: Name, did: Name, a: Allowance): Result<Store, KeeperError> {
    var o := Get(s, DID, granter, did);
    if o.None? then Err(NotFound)
    else
      var was, will := Expiry(o.value), Expiry(a);
      var s1 := if was.Some? && (will.None? || was != will) then s - {Entry(DID_QUEUE, was.value, granter, did)} else s;
      var s2 := if will.Some? && (was.None? || was != will)
                then s1[Entry(DID_QUEUE, will.value, granter, did) := Mark] else s1;
      Ok(s2[Key(DID, granter, did) := Grant(granter, did, a)])
  }

  /** UseGrantedFeesByDID: the store afterwards and the error, if any. */
  function UseDID(s: Store, granter: Name, did: Name, u: Use): (Store, Option<KeeperError>) {
    var o := Get(s, DID, granter, did);
    if o.None? then (s, Some(NotFound))
    else
      var v := Accept(o.value, u);
      if v.remove then (RevokeDID(s, granter, did).value, if v.err.Some? then Some(Refused(v.err.value)) else None)
      else if v.err.Some? then (s, Some(Refused(v.err.value)))
      else (UpdateDID(s, granter, did, v.after).value, None)
  }

  /** ExpireDIDAllowance: a basic allowance ends now, a periodic one with its current period. */
  function ExpireDID(s: Store, granter: Name, did: Name, now: Time): Result<Store, KeeperError> {
    var o := Get(s, DID, granter, did);
    if o.None? then Err(NotFound)
    else match o.value
         case OfBasic(b) => UpdateDID(s, granter, did, OfBasic(b.(expiration := Some(now))))
         case OfPeriodic(p) =>
           UpdateDID(s, granter, did, OfPeriodic(p.(basic := p.basic.(expiration := Some(p.periodReset)))))
         case Filtered(_, _) => Err(UnsupportedType)
  }

  /** A grant is refused exactly if there is one already or, else, if it expires before the time of the block. */
  lemma GrantRefused(s: Store, ns: byte, q: byte, granter: Name, grantee: Name, a: Allowance, now: Time)
    ensures var r := GrantOp(s, ns, q, granter, grantee, a, now); var held := Get(s, ns, granter, grantee).Some?;
            && (r == Err(AlreadyExists) <==> held)
            && (r == Err(PastExpiration) <==> !held && exists t :: ExpiresAt(a) == Some(t) && t < now)
            && (r.Ok? <==> !held && forall t :: ExpiresAt(a) == Some(t) ==> now <= t)
  {
    hide Get, Expiry, Key, Entry;
    if ExpiresAt(a).Some? { assert ExpiresAt(a) == Some(ExpiresAt(a).value); }
  }

  lemma GrantIsSet(s: Store, ns: byte, q: byte, granter: Name, grantee: Name, a: Allowance, now: Time)
    requires ns != q && GrantOp(s, ns, q, granter, grantee, a, now).Ok? && Formed(s, ns, q)
    ensures GrantOp(s, ns, q, granter, grantee, a, now).value == SetGrant(s, ns, q, granter, grantee, Some(a))
  {
    hide Key, Entry, Expiry;
    assert Key(ns, granter, grantee) !in s;
  }

  lemma RevokeIsSet(s: Store, granter: Name, did: Name)
    requires RevokeDID(s, granter, did).Ok?
    ensures RevokeDID(s, granter, did).value == SetGrant(s, DID, DID_QUEUE, granter, did, None)
  {
    hide Key, Entry, Expiry;
  }

  lemma UpdateIsSet(s: Store, granter: Name, did: Name, a: Allowance)
    requires UpdateDID(s, granter, did, a).Ok? && Indexed(s, DID, DID_QUEUE)
    ensures UpdateDID(s, granter, did, a).value == SetGrant(s, DID, DID_QUEUE, granter, did, Some(a))
  {
    hide Key, Entry, Expiry;
    var o := Get(s, DID, granter, did);
    var key, was, will := Key(DID, granter, did), Expiry(o.value), Expiry(a);
    if was.Some? {
      var entry := Entry(DID_QUEUE, was.value, granter, did);
      assert entry in s && s[entry] == Mark by { assert ExpiresOn(o, was.value); }
      hide Indexed, Get;
      if will.Some? {
        EntryInjective(DID_QUEUE, was.value, granter, did, will.value, granter, did);
        var entry' := Entry(DID_QUEUE, will.value, granter, did);
        MoveEntry(s, key, entry, entry', Grant(granter, did, a), was == will);
      }
    }
  }

  lemma MoveEntry(s: Store, key: bytes, entry: bytes, entry': bytes, v: Value, same: bool)
    requires key != entry && key != entry' && (same <==> entry == entry') && entry in s && s[entry] == Mark
    ensures var moved := if same then s else (s - {entry})[entry' := Mark];
            moved[key := v] == (s - ({key} + {entry}))[key := v][entry' := Mark]
  {
  }
}
