/** Grants given, revoked, expired and pruned by messages and at the end of a block, whichever kind they are of. */
module GrantLife {
  import opened Wrappers
  import opened Lex
  import opened Allowance
  import opened Keys
  import opened KeeperStore
  import opened KeeperRuns
  import opened KeeperOps
  import opened AccountGrants
  import opened Ante

  datatype Kind = Accounts | DIDs

  datatype Change =
    | Give(id: GrantId, a: Allowance, at: Time)
    | Revoke(id: GrantId)
    | Expire(granter: Name, did: Name, at: Time)
    | PruneQueue(kind: Kind, now: Instant, limit: int)

  /** The store after a change; one that fails leaves it as it is. */
  ghost function Changed(s: Store, c: Change): Store
    requires ValidGrants(s)
  {
    match c
    case Give(OnAccount(granter, grantee), a, at) =>
      OrSame(s, GrantOp(s, ACCOUNT, ACCOUNT_QUEUE, granter, grantee, a, at))
    case Give(OnDID(granter, did), a, at) => OrSame(s, GrantOp(s, DID, DID_QUEUE, granter, did, a, at))
    case Revoke(OnAccount(granter, grantee)) => OrSame(s, RevokeAccount(s, granter, grantee))
    case Revoke(OnDID(granter, did)) => OrSame(s, RevokeDID(s, granter, did))
    case Expire(granter, did, at) => OrSame(s, ExpireDID(s, granter, did, at))
    case PruneQueue(Accounts, now, limit) =>
      OverdueAreEntries(s, ACCOUNT, ACCOUNT_QUEUE, now); Prune(s, ACCOUNT, ACCOUNT_QUEUE, now, limit)
    case PruneQueue(DIDs, now, limit) => OverdueAreEntries(s, DID, DID_QUEUE, now); Prune(s, DID, DID_QUEUE, now, limit)
  }

  // ---------- One grant set ----------

  lemma SetOutside(s: Store, ns: byte, q: byte, granter: Name, grantee: Name, o: Option<Allowance>)
    ensures SameOutside(s, SetGrant(s, ns, q, granter, grantee, o), ns, q)
  {
    hide SetGrant;
    forall k: bytes | k == [] || (k[0] != ns && k[0] != q)
      ensures var s' := SetGrant(s, ns, q, granter, grantee, o); (k in s' <==> k in s) && (k in s ==> s'[k] == s[k])
    {
      SetGrantFrame(s, ns, q, granter, grantee, o, k);
    }
  }

  /** Setting a DID grant keeps everything valid and touches no other grant. */
  lemma SetDIDGrant(s: Store, granter: Name, did: Name, o: Option<Allowance>, id: GrantId)
    requires ValidGrants(s)
    ensures var s' := SetGrant(s, DID, DID_QUEUE, granter, did, o);
            ValidGrants(s') && Holding(s', id) == if id == OnDID(granter, did) then o else Holding(s, id)
  {
    hide Indexed, Formed, SetGrant, Get, SameOutside;
    var s' := SetGrant(s, DID, DID_QUEUE, granter, did, o);
    SetOutside(s, DID, DID_QUEUE, granter, did, o);
    SetGrantIndexed(s, DID, DID_QUEUE, granter, did, o);
    SameOutsideFormed(s, s', DID, DID_QUEUE, ACCOUNT, ACCOUNT_QUEUE);
    match id {
      case OnAccount(g, e) => SameOutsideGet(s, s', DID, DID_QUEUE, ACCOUNT, g, e);
      case OnDID(g, e) => SetGrantGet(s, DID, DID_QUEUE, granter, did, o, g, e);
    }
  }

  /** So does setting an account grant. */
  lemma SetAccountGrant(s: Store, granter: Name, grantee: Name, o: Option<Allowance>, id: GrantId)
    requires ValidGrants(s)
    ensures var s' := SetGrant(s, ACCOUNT, ACCOUNT_QUEUE, granter, grantee, o);
            ValidGrants(s') && Holding(s', id) == if id == OnAccount(granter, grantee) then o else Holding(s, id)
  {
    hide Indexed, Formed, SetGrant, Get, SameOutside;
    var s' := SetGrant(s, ACCOUNT, ACCOUNT_QUEUE, granter, grantee, o);
    SetOutside(s, ACCOUNT, ACCOUNT_QUEUE, granter, grantee, o);
    SetGrantFormed(s, ACCOUNT, ACCOUNT_QUEUE, granter, grantee, o);
    SameOutsideIndexed(s, s', ACCOUNT, ACCOUNT_QUEUE, DID, DID_QUEUE);
    match id {
      case OnAccount(g, e) => SetGrantGet(s, ACCOUNT, ACCOUNT_QUEUE, granter, grantee, o, g, e);
      case OnDID(g, e) => SameOutsideGet(s, s', ACCOUNT, ACCOUNT_QUEUE, DID, g, e);
    }
  }

  // ---------- Deletions ----------

  /** Nothing is added or altered, and only keys of the two namespaces are deleted. */
  ghost predicate Shrunk(s: Store, s': Store, ns: byte, q: byte) {
    (forall k <- s' :: k in s && s'[k] == s[k]) && SameOutside(s, s', ns, q)
  }

  lemma ShrunkGet(s: Store, s': Store, ns: byte, q: byte, granter: Name, grantee: Name)
    requires Shrunk(s, s', ns, q)
    ensures Get(s', ns, granter, grantee) == None || Get(s', ns, granter, grantee) == Get(s, ns, granter, grantee)
  {
    hide Key, SameOutside;
  }

  lemma ShrunkFormed(s: Store, s': Store, ns: byte, q: byte)
    requires Shrunk(s, s', ns, q) && Formed(s, ns, q)
    ensures Formed(s', ns, q)
  {
    hide SameOutside, IsGrantAt, IsEntry;
  }

  lemma {:induction false} PruneShrinks(s: Store, ns: byte, q: byte, ks: seq<bytes>)
    requires forall k <- ks :: IsEntry(q, k)
    ensures Shrunk(s, PruneKeys(s, ns, q, ks), ns, q)
    decreases |ks|
  {
    hide IsEntry, Key;
    if ks != [] {
      PruneOneShrinks(s, ns, q, ks[0]);
      PruneShrinks(PruneOne(s, ns, q, ks[0]), ns, q, ks[1..]);
    }
  }

  lemma PruneOneShrinks(s: Store, ns: byte, q: byte, k: bytes)
    requires IsEntry(q, k)
    ensures Shrunk(s, PruneOne(s, ns, q, k), ns, q)
  {
    var exp: Instant, granter: Name, grantee: Name :| k == Entry(q, exp, granter, grantee);
    EntryParses(q, exp, granter, grantee);
    assert k[0] == q && Key(ns, granter, grantee)[0] == ns;
    hide Entry, Key, IsEntry;
  }

  lemma RevokeShrinks(s: Store, granter: Name, grantee: Name)
    requires RevokeAccount(s, granter, grantee).Ok?
    ensures Shrunk(s, RevokeAccount(s, granter, grantee).value, ACCOUNT, ACCOUNT_QUEUE)
    ensures Get(RevokeAccount(s, granter, grantee).value, ACCOUNT, granter, grantee) == None
  {
    hide Key, Entry, Expiry;
  }

  // ---------- What a change does to a grant ----------

  /** The grant stays, goes, or keeps everything but its expiry. */
  ghost predicate Kept(o: Option<Allowance>, o': Option<Allowance>) {
    || o' == o
    || o' == None
    || (o.Some? && !o.value.Filtered? && exists t: Time :: o' == Some(WithExpiry(o.value, t)))
  }

  /** A new grant appears only where there was none; every other grant is kept in the sense above. */
  ghost predicate Respects(s: Store, s': Store, c: Change, id: GrantId) {
    ValidGrants(s') &&
    var o, o' := Holding(s, id), Holding(s', id);
    if c.Give? && c.id == id then o' == o || (o == None && o' == Some(c.a)) else Kept(o, o')
  }

  lemma GiveRespects(s: Store, c: Change, id: GrantId)
    requires ValidGrants(s) && c.Give?
    ensures Respects(s, Changed(s, c), c, id)
  {
    hide Indexed, Formed, SetGrant, Get, GrantOp;
    match c.id {
      case OnAccount(granter, grantee) =>
        if GrantOp(s, ACCOUNT, ACCOUNT_QUEUE, granter, grantee, c.a, c.at).Ok? {
          GivenWhereNone(s, ACCOUNT, ACCOUNT_QUEUE, granter, grantee, c.a, c.at);
          SetAccountGrant(s, granter, grantee, Some(c.a), id);
        }
      case OnDID(granter, did) =>
        if GrantOp(s, DID, DID_QUEUE, granter, did, c.a, c.at).Ok? {
          IndexedIsFormed(s, DID, DID_QUEUE);
          GivenWhereNone(s, DID, DID_QUEUE, granter, did, c.a, c.at);
          SetDIDGrant(s, granter, did, Some(c.a), id);
        }
    }
  }

  lemma GivenWhereNone(s: Store, ns: byte, q: byte, granter: Name, grantee: Name, a: Allowance, at: Time)
    requires ns != q && Formed(s, ns, q) && GrantOp(s, ns, q, granter, grantee, a, at).Ok?
    ensures Get(s, ns, granter, grantee) == None
    ensures GrantOp(s, ns, q, granter, grantee, a, at).value == SetGrant(s, ns, q, granter, grantee, Some(a))
  {
    GrantIsSet(s, ns, q, granter, grantee, a, at);
  }

  lemma RevokeRespects(s: Store, c: Change, id: GrantId)
    requires ValidGrants(s) && c.Revoke?
    ensures Respects(s, Changed(s, c), c, id)
  {
    hide Indexed, Formed, SetGrant, Get, RevokeDID, RevokeAccount, Shrunk;
    match c.id {
      case OnAccount(granter, grantee) =>
        if RevokeAccount(s, granter, grantee).Ok? {
          RevokeShrinks(s, granter, grantee);
          ShrinkRespects(s, RevokeAccount(s, granter, grantee).value, c, id);
        }
      case OnDID(granter, did) =>
        if RevokeDID(s, granter, did).Ok? {
          RevokeIsSet(s, granter, did);
          SetDIDGrant(s, granter, did, None, id);
        }
    }
  }

  /** Deletions among the account grants keep every grant in the sense above. */
  lemma ShrinkRespects(s: Store, s': Store, c: Change, id: GrantId)
    requires ValidGrants(s) && Shrunk(s, s', ACCOUNT, ACCOUNT_QUEUE) && !c.Give?
    ensures Respects(s, s', c, id)
  {
    ShrunkFormed(s, s', ACCOUNT, ACCOUNT_QUEUE);
    hide Indexed, Formed, Get, SameOutside;
    SameOutsideIndexed(s, s', ACCOUNT, ACCOUNT_QUEUE, DID, DID_QUEUE);
    match id {
      case OnAccount(granter, grantee) => ShrunkGet(s, s', ACCOUNT, ACCOUNT_QUEUE, granter, grantee);
      case OnDID(granter, did) => SameOutsideGet(s, s', ACCOUNT, ACCOUNT_QUEUE, DID, granter, did);
    }
  }

  lemma ExpireRespects(s: Store, c: Change, id: GrantId)
    requires ValidGrants(s) && c.Expire?
    ensures Respects(s, Changed(s, c), c, id)
  {
    var o := Get(s, DID, c.granter, c.did);
    hide Indexed, Formed, SetGrant, Get, UpdateDID;
    if ExpireDID(s, c.granter, c.did, c.at).Ok? {
      var a := WithExpiry(o.value, EndOf(o.value, c.at));
      UpdateIsSet(s, c.granter, c.did, a);
      SetDIDGrant(s, c.granter, c.did, Some(a), id);
    }
  }

  lemma PruneRespects(s: Store, c: Change, id: GrantId)
    requires ValidGrants(s) && c.PruneQueue?
    ensures Respects(s, Changed(s, c), c, id)
  {
    hide Indexed, Formed, Get, IsEntry, PruneKeys, Shrunk, Overdue;
    if c.kind.Accounts? {
      OverdueAreEntries(s, ACCOUNT, ACCOUNT_QUEUE, c.now);
      PruneShrinks(s, ACCOUNT, ACCOUNT_QUEUE, Walked(s, ACCOUNT_QUEUE, c.now, c.limit));
      ShrinkRespects(s, Changed(s, c), c, id);
    } else {
      IndexedIsFormed(s, DID, DID_QUEUE);
      OverdueAreEntries(s, DID, DID_QUEUE, c.now);
      PruneShrinks(s, DID, DID_QUEUE, Walked(s, DID_QUEUE, c.now, c.limit));
      DIDPruneRespects(s, c, id);
    }
  }

  lemma DIDPruneRespects(s: Store, c: Change, id: GrantId)
    requires ValidGrants(s) && c.PruneQueue? && c.kind.DIDs? && Shrunk(s, Changed(s, c), DID, DID_QUEUE)
    ensures Respects(s, Changed(s, c), c, id)
  {
    hide Indexed, Formed, Get, IsEntry, PruneKeys, SameOutside, Overdue, Prune;
    var s' := Changed(s, c);
    PruneEffect(s, DID, DID_QUEUE, c.now, c.limit);
    SameOutsideFormed(s, s', DID, DID_QUEUE, ACCOUNT, ACCOUNT_QUEUE);
    match id {
      case OnAccount(granter, grantee) => SameOutsideGet(s, s', DID, DID_QUEUE, ACCOUNT, granter, grantee);
      case OnDID(granter, did) => ShrunkGet(s, s', DID, DID_QUEUE, granter, did);
    }
  }

  /** No change invents a grant, raises a limit or touches another grant's terms, and the store stays valid. */
  lemma ChangeRespects(s: Store, c: Change, id: GrantId)
    requires ValidGrants(s)
    ensures Respects(s, Changed(s, c), c, id)
  {
    hide ValidGrants, Changed, Respects;
    match c {
      case Give(_, _, _) => GiveRespects(s, c, id);
      case Revoke(_) => RevokeRespects(s, c, id);
      case Expire(_, _, _) => ExpireRespects(s, c, id);
      case PruneQueue(_, _, _) => PruneRespects(s, c, id);
    }
  }
}
