/** x/feegrant/keeper/keeper.go as it runs: a store updated in place. */
module Keeper {
  import opened Wrappers
  import opened Lex
  import opened Allowance
  import opened Keys
  import opened KeeperStore
  import opened KeeperRuns
  import opened KeeperOps
  import opened AccountGrants

  class FeegrantKeeper {
    var store: Store

    constructor ()
      ensures store == map[] && Indexed(store, DID, DID_QUEUE)
    {
      store := map[];
    }

    method GrantDIDAllowance(granter: Name, did: Name, a: Allowance, now: Time) returns (err: Option<KeeperError>)
      modifies this
      ensures var r := GrantOp(old(store), DID, DID_QUEUE, granter, did, a, now);
              if err.Some? then r == Err(err.value) && store == old(store) else r == Ok(store)
      ensures err.None? && old(Indexed(store, DID, DID_QUEUE)) ==>
                old(Get(store, DID, granter, did)).None? && Indexed(store, DID, DID_QUEUE) &&
                Replaced(old(store), store, DID, granter, did, Some(a))
    {
      if Get(store, DID, granter, did).Some? { return Some(AlreadyExists); }
      if Before(ExpiresAt(a), now) { return Some(PastExpiration); }
      var exp := Expiry(a);
      if exp.Some? {
        store := store[Entry(DID_QUEUE, exp.value, granter, did) := Mark];
      }
      store := store[Key(DID, granter, did) := Grant(granter, did, a)];
      GrantDIDEffect(old(store), granter, did, a, now);
      return None;
    }

    method RevokeDIDAllowance(granter: Name, did: Name) returns (err: Option<KeeperError>)
      modifies this
      ensures var r := RevokeDID(old(store), granter, did);
              if err.Some? then r == Err(err.value) && store == old(store) else r == Ok(store)
      ensures err.None? <==> old(Get(store, DID, granter, did)).Some?
      ensures err.None? && old(Indexed(store, DID, DID_QUEUE)) ==>
                Indexed(store, DID, DID_QUEUE) && Replaced(old(store), store, DID, granter, did, None)
    {
      var o := Get(store, DID, granter, did);
      if o.None? { return Some(NotFound); }
      store := store - {Key(DID, granter, did)};
      var exp := Expiry(o.value);
      if exp.Some? {
        store := store - {Entry(DID_QUEUE, exp.value, granter, did)};
      }
      RevokeDIDEffect(old(store), granter, did);
      return None;
    }

    method UpdateDIDAllowance(granter: Name, did: Name, a: Allowance) returns (err: Option<KeeperError>)
      modifies this
      ensures var r := UpdateDID(old(store), granter, did, a);
              if err.Some? then r == Err(err.value) && store == old(store) else r == Ok(store)
      ensures err.None? <==> old(Get(store, DID, granter, did)).Some?
      ensures err.None? && old(Indexed(store, DID, DID_QUEUE)) ==>
                Indexed(store, DID, DID_QUEUE) && Replaced(old(store), store, DID, granter, did, Some(a))
    {
      var o := Get(store, DID, granter, did);
      if o.None? { return Some(NotFound); }
      var was, will := Expiry(o.value), Expiry(a);
      if was.Some? && (will.None? || was != will) {
        store := store - {Entry(DID_QUEUE, was.value, granter, did)};
      }
      if will.Some? && (was.None? || was != will) {
        store := store[Entry(DID_QUEUE, will.value, granter, did) := Mark];
      }
      store := store[Key(DID, granter, did) := Grant(granter, did, a)];
      UpdateDIDEffect(old(store), granter, did, a);
      return None;
    }

    method UseGrantedFeesByDID(granter: Name, did: Name, u: Use) returns (err: Option<KeeperError>)
      modifies this
      ensures (store, err) == UseDID(old(store), granter, did, u)
      ensures old(Indexed(store, DID, DID_QUEUE)) ==> (err.None? <==> PaysFor(old(Get(store, DID, granter, did)), u))
      ensures old(Indexed(store, DID, DID_QUEUE)) ==>
                Indexed(store, DID, DID_QUEUE) &&
                Replaced(old(store), store, DID, granter, did, AfterUse(old(Get(store, DID, granter, did)), u))
    {
      UseDIDEffect(store, granter, did, u);
      var o := Get(store, DID, granter, did);
      if o.None? { return Some(NotFound); }
      var v := Accept(o.value, u);
      if v.remove {
        var _ := RevokeDIDAllowance(granter, did);
        if v.err.Some? { return Some(Refused(v.err.value)); }
        return None;
      }
      if v.err.Some? { return Some(Refused(v.err.value)); }
      err := UpdateDIDAllowance(granter, did, v.after);
    }

    /** The loop of UseFirstAvailableDIDGrant over the grants the iterator yields. */
    method TryGrants(did: Name, gs: seq<Name>, u: Use) returns (granter: Option<Name>)
      modifies this
      ensures (store, granter) == UseFirstFrom(old(store), did, gs, u)
    {
      hide UseDID;
      assert gs[0..] == gs;
      for i := 0 to |gs|
        invariant UseFirstFrom(old(store), did, gs, u) == UseFirstFrom(store, did, gs[i..], u)
      {
        assert gs[i..][0] == gs[i] && gs[i..][1..] == gs[i + 1..];
        var err := UseGrantedFeesByDID(gs[i], did, u);
        if err.None? { return Some(gs[i]); }
      }
      return None;
    }

    method UseFirstAvailableDIDGrant(did: Name, u: Use) returns (granter: Option<Name>)
      requires Indexed(store, DID, DID_QUEUE)
      modifies this
      ensures (store, granter) == UseFirst(old(store), did, u)
    {
      ScannedAreGrants(store, did);
      var keys := Ascending(Scanned(store, did));
      var gs := GrantersAt(store, keys);
      hide *;
      assert gs == Granters(store, did) by { GrantersAre(store, did); }
      granter := TryGrants(did, gs, u);
      UseFirstIs(old(store), did, u);
    }

    /** The loop of RemoveExpiredDIDAllowances over the entries the iterator yields. */
    method PruneEntries(keys: seq<bytes>, limit: int)
      requires forall k <- keys :: IsEntry(DID_QUEUE, k)
      modifies this
      ensures store == PruneKeys(old(store), DID, DID_QUEUE, keys[..Taken(limit, |keys|)])
    {
      hide Key, IsEntry;
      var count := 0;
      ghost var n := Taken(limit, |keys|);
      assert keys[..n][0..] == keys[..n];
      while count < |keys|
        invariant 0 <= count <= n && (count == n ==> n == |keys|)
        invariant PruneKeys(old(store), DID, DID_QUEUE, keys[..n]) ==
                  PruneKeys(store, DID, DID_QUEUE, keys[..n][count..])
      {
        var key := keys[count];
        assert keys[..n][count..][0] == key && keys[..n][count..][1..] == keys[..n][count + 1..];
        EntryNames(DID_QUEUE, key);
        store := store - {key};
        var names := ParseQueueKey(key).value;
        store := store - {Key(DID, names.0, names.1)};
        count := count + 1;
        if count == limit { return; }
      }
    }

    method RemoveExpiredDIDAllowances(now: Instant, limit: int)
      requires Indexed(store, DID, DID_QUEUE)
      modifies this
      ensures forall k <- Overdue(old(store), DID_QUEUE, now) :: IsEntry(DID_QUEUE, k)
      ensures store == Prune(old(store), DID, DID_QUEUE, now, limit)
    {
      OverdueAreEntries(store, DID, DID_QUEUE, now);
      hide Formed, Synced, IsEntry, Overdue, PruneKeys;
      var keys := Ascending(Overdue(store, DID_QUEUE, now));
      PruneEntries(keys, limit);
    }

    // ---------- Account grants ----------

    /** revokeAllowance */
    method RevokeAllowance(granter: Name, grantee: Name) returns (err: Option<KeeperError>)
      modifies this
      ensures var r := RevokeAccount(old(store), granter, grantee);
              if err.Some? then r == Err(err.value) && store == old(store) else r == Ok(store)
      ensures err.None? <==> old(Get(store, ACCOUNT, granter, grantee)).Some?
      ensures err.None? ==> Replaced(old(store), store, ACCOUNT, granter, grantee, None)
      ensures SameOutside(old(store), store, ACCOUNT, ACCOUNT_QUEUE)
    {
      RevokeAccountEffect(store, granter, grantee);
      var o := Get(store, ACCOUNT, granter, grantee);
      if o.None? { return Some(NotFound); }
      store := store - {Key(ACCOUNT, granter, grantee)};
      var exp := Expiry(o.value);
      if exp.Some? {
        store := store - {Entry(ACCOUNT_QUEUE, exp.value, grantee, granter)};
      }
      return None;
    }

    method UpdateAllowance(granter: Name, grantee: Name, a: Allowance) returns (err: Option<KeeperError>)
      modifies this
      ensures var r := UpdateAccount(old(store), granter, grantee, a);
              if err.Some? then r == Err(err.value) && store == old(store) else r == Ok(store)
      ensures err.None? <==> old(Get(store, ACCOUNT, granter, grantee)).Some?
      ensures err.None? ==> Replaced(old(store), store, ACCOUNT, granter, grantee, Some(a))
      ensures SameOutside(old(store), store, ACCOUNT, ACCOUNT_QUEUE)
    {
      UpdateAccountEffect(store, granter, grantee, a);
      if Get(store, ACCOUNT, granter, grantee).None? { return Some(NotFound); }
      store := store[Key(ACCOUNT, granter, grantee) := Grant(granter, grantee, a)];
      return None;
    }

    method UseGrantedFees(granter: Name, grantee: Name, u: Use) returns (err: Option<KeeperError>)
      modifies this
      ensures (store, err) == UseAccount(old(store), granter, grantee, u)
      ensures err.None? <==> PaysFor(old(Get(store, ACCOUNT, granter, grantee)), u)
      ensures Replaced(old(store), store, ACCOUNT, granter, grantee,
                       AfterUse(old(Get(store, ACCOUNT, granter, grantee)), u))
      ensures SameOutside(old(store), store, ACCOUNT, ACCOUNT_QUEUE)
    {
      UseAccountIsStep(store, granter, grantee, u);
      UseAccountReplaces(store, granter, grantee, u);
      var o := Get(store, ACCOUNT, granter, grantee);
      if o.None? { return Some(NotFound); }
      var v := Accept(o.value, u);
      if v.remove {
        var _ := RevokeAllowance(granter, grantee);
        if v.err.Some? { return Some(Refused(v.err.value)); }
        return None;
      }
      if v.err.Some? { return Some(Refused(v.err.value)); }
      err := UpdateAllowance(granter, grantee, v.after);
    }
  }

  lemma GrantersAre(s: Store, did: Name)
    requires Formed(s, DID, DID_QUEUE)
    ensures (forall k <- Ascending(Scanned(s, did)) :: k in s && s[k].Grant?)
    ensures Granters(s, did) == GrantersAt(s, Ascending(Scanned(s, did)))
  {
    ScannedAreGrants(s, did);
  }

  lemma UseFirstIs(s: Store, did: Name, u: Use)
    requires Formed(s, DID, DID_QUEUE)
    ensures UseFirst(s, did, u) == UseFirstFrom(s, did, Granters(s, did), u)
  {
  }

  // ---------- What the methods promise beyond their stores ----------

  lemma GrantDIDEffect(s: Store, granter: Name, did: Name, a: Allowance, now: Time)
    ensures Indexed(s, DID, DID_QUEUE) && GrantOp(s, DID, DID_QUEUE, granter, did, a, now).Ok? ==>
              var s' := GrantOp(s, DID, DID_QUEUE, granter, did, a, now).value;
              && Get(s, DID, granter, did).None? && Indexed(s', DID, DID_QUEUE)
              && Replaced(s, s', DID, granter, did, Some(a))
  {
    hide SetGrant, Replaced, Key, Entry, Expiry;
    if Indexed(s, DID, DID_QUEUE) && GrantOp(s, DID, DID_QUEUE, granter, did, a, now).Ok? {
      GrantIsSet(s, DID, DID_QUEUE, granter, did, a, now);
      SetDID(s, granter, did, Some(a));
    }
  }

  lemma RevokeDIDEffect(s: Store, granter: Name, did: Name)
    ensures Indexed(s, DID, DID_QUEUE) && RevokeDID(s, granter, did).Ok? ==>
              var s' := RevokeDID(s, granter, did).value;
              Indexed(s', DID, DID_QUEUE) && Replaced(s, s', DID, granter, did, None)
  {
    hide SetGrant, Replaced, Indexed, RevokeDID;
    if Indexed(s, DID, DID_QUEUE) && RevokeDID(s, granter, did).Ok? {
      RevokeIsSet(s, granter, did);
      SetDID(s, granter, did, None);
    }
  }

  lemma UpdateDIDEffect(s: Store, granter: Name, did: Name, a: Allowance)
    ensures Indexed(s, DID, DID_QUEUE) && UpdateDID(s, granter, did, a).Ok? ==>
              var s' := UpdateDID(s, granter, did, a).value;
              Indexed(s', DID, DID_QUEUE) && Replaced(s, s', DID, granter, did, Some(a))
  {
    hide SetGrant, Replaced, Indexed, UpdateDID;
    if Indexed(s, DID, DID_QUEUE) && UpdateDID(s, granter, did, a).Ok? {
      UpdateIsSet(s, granter, did, a);
      SetDID(s, granter, did, Some(a));
    }
  }

  lemma UseDIDEffect(s: Store, granter: Name, did: Name, u: Use)
    ensures Indexed(s, DID, DID_QUEUE) ==>
              var (s', err) := UseDID(s, granter, did, u); var o := Get(s, DID, granter, did);
              && (err.None? <==> PaysFor(o, u)) && Indexed(s', DID, DID_QUEUE)
              && Replaced(s, s', DID, granter, did, AfterUse(o, u))
  {
    hide Indexed, UseDID, AfterUse, PaysFor, Get;
    if Indexed(s, DID, DID_QUEUE) {
      UseDIDIsStep(s, granter, did, u);
      forall g: Name, d: Name | g != granter || d != did
        ensures Get(UseDID(s, granter, did, u).0, DID, g, d) == Get(s, DID, g, d)
      {
        UseDIDFrame(s, granter, did, u, g, d);
      }
    }
  }

  lemma RevokeAccountEffect(s: Store, granter: Name, grantee: Name)
    ensures RevokeAccount(s, granter, grantee).Ok? ==>
              var s' := RevokeAccount(s, granter, grantee).value;
              Replaced(s, s', ACCOUNT, granter, grantee, None) && SameOutside(s, s', ACCOUNT, ACCOUNT_QUEUE)
  {
    hide Key, Entry, Expiry;
    forall g: Name, e: Name
      ensures Key(ACCOUNT, g, e) == Key(ACCOUNT, granter, grantee) <==> g == granter && e == grantee
    {
      KeyInjective(ACCOUNT, g, e, granter, grantee);
    }
  }

  lemma UpdateAccountEffect(s: Store, granter: Name, grantee: Name, a: Allowance)
    ensures UpdateAccount(s, granter, grantee, a).Ok? ==>
              var s' := UpdateAccount(s, granter, grantee, a).value;
              Replaced(s, s', ACCOUNT, granter, grantee, Some(a)) && SameOutside(s, s', ACCOUNT, ACCOUNT_QUEUE)
  {
    hide Key;
    forall g: Name, e: Name
      ensures Key(ACCOUNT, g, e) == Key(ACCOUNT, granter, grantee) <==> g == granter && e == grantee
    {
      KeyInjective(ACCOUNT, g, e, granter, grantee);
    }
  }
}
