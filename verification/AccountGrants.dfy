/** Use of account grants (UseGrantedFees), and how the two kinds of grant stay out of each other's way. */
module AccountGrants {
  import opened Wrappers
  import opened Lex
  import opened Allowance
  import opened Keys
  import opened KeeperStore
  import opened KeeperOps

  /** UpdateAllowance: unlike its DID counterpart it leaves the queue alone. */
  function UpdateAccount(s: Store, granter: Name, grantee: Name, a: Allowance): Result<Store, KeeperError> {
    if Get(s, ACCOUNT, granter, grantee).None? then Err(NotFound)
    else Ok(s[Key(ACCOUNT, granter, grantee) := Grant(granter, grantee, a)])
  }

  /** UseGrantedFees: the store afterwards and the error, if any. */
  function UseAccount(s: Store, granter: Name, grantee: Name, u: Use): (Store, Option<KeeperError>) {
    var o := Get(s, ACCOUNT, granter, grantee);
    if o.None? then (s, Some(NotFound))
    else
      var v := Accept(o.value, u);
      var refused := if v.err.Some? then Some(Refused(v.err.value)) else None;
      if v.remove then (RevokeAccount(s, granter, grantee).value, refused)
      else if v.err.Some? then (s, Some(Refused(v.err.value)))
      else (UpdateAccount(s, granter, grantee, v.after).value, None)
  }

  // ---------- Frames ----------

  /** The stores agree on every key outside the two namespaces. */
  ghost predicate SameOutside(s: Store, s': Store, ns: byte, q: byte) {
    forall k: bytes :: k == [] || (k[0] != ns && k[0] != q) ==> (k in s' <==> k in s) && (k in s ==> s'[k] == s[k])
  }

  lemma SameOutsideGet(s: Store, s': Store, ns: byte, q: byte, other: byte, granter: Name, grantee: Name)
    requires SameOutside(s, s', ns, q) && other != ns && other != q
    ensures Get(s', other, granter, grantee) == Get(s, other, granter, grantee)
  {
    assert Key(other, granter, grantee)[0] == other;
    hide Key;
  }

  lemma SameOutsideFormed(s: Store, s': Store, ns: byte, q: byte, other: byte, otherQueue: byte)
    requires SameOutside(s, s', ns, q) && {other, otherQueue} !! {ns, q} && Formed(s, other, otherQueue)
    ensures Formed(s', other, otherQueue)
  {
    hide IsGrantAt, IsEntry;
  }

  lemma SameOutsideIndexed(s: Store, s': Store, ns: byte, q: byte, other: byte, otherQueue: byte)
    requires SameOutside(s, s', ns, q) && {other, otherQueue} !! {ns, q} && Indexed(s, other, otherQueue)
    ensures Indexed(s', other, otherQueue)
  {
    hide Key, Entry, Get, ExpiresOn;
    forall exp: Instant, granter: Name, grantee: Name
      ensures Entry(otherQueue, exp, granter, grantee) in s' <==> ExpiresOn(Get(s', other, granter, grantee), exp)
    {
      SameOutsideGet(s, s', ns, q, other, granter, grantee);
      assert Entry(otherQueue, exp, granter, grantee)[0] == otherQueue;
      assert Entry(otherQueue, exp, granter, grantee) in s <==> ExpiresOn(Get(s, other, granter, grantee), exp);
    }
  }

  // ---------- UseGrantedFees ----------

  /** UseGrantedFees is one step of the allowance under its key; no other grant of either kind changes. */
  lemma UseAccountIsStep(s: Store, granter: Name, grantee: Name, u: Use)
    ensures var (s', err) := UseAccount(s, granter, grantee, u); var o := Get(s, ACCOUNT, granter, grantee);
            && (err.None? <==> PaysFor(o, u))
            && Get(s', ACCOUNT, granter, grantee) == AfterUse(o, u)
            && SameOutside(s, s', ACCOUNT, ACCOUNT_QUEUE)
  {
    hide Key, Entry, Expiry, Accept;
  }

  lemma UseAccountFrame(s: Store, granter: Name, grantee: Name, u: Use, granter': Name, grantee': Name)
    requires granter != granter' || grantee != grantee'
    ensures Get(UseAccount(s, granter, grantee, u).0, ACCOUNT, granter', grantee') ==
            Get(s, ACCOUNT, granter', grantee')
  {
    hide Key, Entry, Expiry, Accept;
    KeyInjective(ACCOUNT, granter, grantee, granter', grantee');
  }

  /** The same in one statement. */
  lemma UseAccountReplaces(s: Store, granter: Name, grantee: Name, u: Use)
    ensures Replaced(s, UseAccount(s, granter, grantee, u).0, ACCOUNT, granter, grantee,
                     AfterUse(Get(s, ACCOUNT, granter, grantee), u))
  {
    hide Get, AfterUse, UseAccount;
    UseAccountIsStep(s, granter, grantee, u);
    forall g: Name, e: Name | g != granter || e != grantee
      ensures Get(UseAccount(s, granter, grantee, u).0, ACCOUNT, g, e) == Get(s, ACCOUNT, g, e)
    {
      UseAccountFrame(s, granter, grantee, u, g, e);
    }
  }

  lemma UseAccountFormed(s: Store, granter: Name, grantee: Name, u: Use)
    requires Formed(s, ACCOUNT, ACCOUNT_QUEUE)
    ensures Formed(UseAccount(s, granter, grantee, u).0, ACCOUNT, ACCOUNT_QUEUE)
  {
    hide Key, Entry, Expiry, Accept, IsEntry;
  }

  // ---------- DID grants leave account grants alone ----------

  lemma UseDIDOutside(s: Store, granter: Name, did: Name, u: Use)
    requires Indexed(s, DID, DID_QUEUE)
    ensures SameOutside(s, UseDID(s, granter, did, u).0, DID, DID_QUEUE)
  {
    hide Indexed, UseDID, SetGrant, AfterUse, Get;
    UseDIDIsStep(s, granter, did, u);
    var o := AfterUse(Get(s, DID, granter, did), u);
    forall k: bytes | k == [] || (k[0] != DID && k[0] != DID_QUEUE) ensures
      var s' := UseDID(s, granter, did, u).0; (k in s' <==> k in s) && (k in s ==> s'[k] == s[k])
    {
      SetGrantFrame(s, DID, DID_QUEUE, granter, did, o, k);
    }
  }

  lemma {:induction false} UseFirstOutside(s: Store, did: Name, gs: seq<Name>, u: Use)
    requires Indexed(s, DID, DID_QUEUE)
    ensures SameOutside(s, UseFirstFrom(s, did, gs, u).0, DID, DID_QUEUE)
    decreases |gs|
  {
    hide Indexed, UseDID;
    if gs != [] {
      UseDIDOutside(s, gs[0], did, u);
      UseDIDIsStep(s, gs[0], did, u);
      UseFirstOutside(UseDID(s, gs[0], did, u).0, did, gs[1..], u);
    }
  }
}
