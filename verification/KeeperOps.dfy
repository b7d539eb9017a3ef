/** The keeper's operations on grants: effects, the invariant of every run, and the account-grant revocation. */
module KeeperOps {
  import opened Wrappers
  import opened Lex
  import opened Coins
  import opened Allowance
  import opened Keys
  import opened KeeperStore
  import opened KeeperRuns

  // ---------- Effects on single DID grants ----------

  /** What is stored for a grant after one use of it. */
  function AfterUse(o: Option<Allowance>, u: Use): Option<Allowance> {
    if o.None? then None
    else match Step(Live(o.value), u)
         case Live(a) => Some(a)
         case _ => None
  }

  predicate PaysFor(o: Option<Allowance>, u: Use) {
    o.Some? && Pays(Live(o.value), u)
  }

  /** One grant of a namespace is now `o`, and every other is what it was. */
  ghost predicate Replaced(s: Store, s': Store, ns: byte, granter: Name, grantee: Name, o: Option<Allowance>) {
    forall g: Name, e: Name :: Get(s', ns, g, e) == if g == granter && e == grantee then o else Get(s, ns, g, e)
  }

  lemma SetReplaces(s: Store, ns: byte, q: byte, granter: Name, grantee: Name, o: Option<Allowance>)
    requires ns != q
    ensures Replaced(s, SetGrant(s, ns, q, granter, grantee, o), ns, granter, grantee, o)
  {
    hide SetGrant, Get;
    forall g: Name, e: Name
      ensures Get(SetGrant(s, ns, q, granter, grantee, o), ns, g, e) ==
              if g == granter && e == grantee then o else Get(s, ns, g, e)
    {
      SetGrantGet(s, ns, q, granter, grantee, o, g, e);
    }
  }

  /** A DID grant set with its queue entry: the index is kept and no other grant is touched. */
  lemma SetDID(s: Store, granter: Name, did: Name, o: Option<Allowance>)
    requires Indexed(s, DID, DID_QUEUE)
    ensures var s' := SetGrant(s, DID, DID_QUEUE, granter, did, o);
            Indexed(s', DID, DID_QUEUE) && Replaced(s, s', DID, granter, did, o)
  {
    SetReplaces(s, DID, DID_QUEUE, granter, did, o);
    SetGrantIndexed(s, DID, DID_QUEUE, granter, did, o);
  }

  /** UseGrantedFeesByDID is one step of the allowance, saved under its key with the queue following. */
  lemma UseDIDIsStep(s: Store, granter: Name, did: Name, u: Use)
    requires Indexed(s, DID, DID_QUEUE)
    ensures var (s', err) := UseDID(s, granter, did, u); var o := Get(s, DID, granter, did);
            && (err.None? <==> PaysFor(o, u))
            && (if o.None? then s' == s
                else s' == s || s' == SetGrant(s, DID, DID_QUEUE, granter, did, AfterUse(o, u)))
            && Indexed(s', DID, DID_QUEUE)
            && Get(s', DID, granter, did) == AfterUse(o, u)
  {
    hide Key, Entry, Expiry, Indexed, Accept, Get, SetGrant;
    var o := Get(s, DID, granter, did);
    if o.Some? {
      var v := Accept(o.value, u);
      if v.remove {
        RevokeIsSet(s, granter, did);
      } else if v.err.None? {
        UpdateIsSet(s, granter, did, v.after);
      }
      SetGrantIndexed(s, DID, DID_QUEUE, granter, did, AfterUse(o, u));
      SetGrantGet(s, DID, DID_QUEUE, granter, did, AfterUse(o, u), granter, did);
    }
  }

  /** It touches no other grant. */
  lemma UseDIDFrame(s: Store, granter: Name, did: Name, u: Use, granter': Name, did': Name)
    requires Indexed(s, DID, DID_QUEUE) && (granter != granter' || did != did')
    ensures Get(UseDID(s, granter, did, u).0, DID, granter', did') == Get(s, DID, granter', did')
  {
    hide Indexed, UseDID, SetGrant, Get;
    UseDIDIsStep(s, granter, did, u);
    SetGrantGet(s, DID, DID_QUEUE, granter, did, AfterUse(Get(s, DID, granter, did), u), granter', did');
  }

  /** The expiry instant ExpireDIDAllowance sets. */
  function EndOf(a: Allowance, now: Time): Time
    requires !a.Filtered?
  {
    match a
    case OfBasic(_) => now
    case OfPeriodic(p) => p.periodReset
  }

  function WithExpiry(a: Allowance, t: Time): Allowance
    requires !a.Filtered?
  {
    match a
    case OfBasic(b) => OfBasic(b.(expiration := Some(t)))
    case OfPeriodic(p) => OfPeriodic(p.(basic := p.basic.(expiration := Some(t))))
  }

  /** Expiring a grant replaces its expiry and moves its queue entry along. */
  lemma ExpireIsSet(s: Store, granter: Name, did: Name, now: Time)
    requires Indexed(s, DID, DID_QUEUE) && ExpireDID(s, granter, did, now).Ok?
    ensures var a := Get(s, DID, granter, did).value; var s' := ExpireDID(s, granter, did, now).value;
            && !a.Filtered? && Indexed(s', DID, DID_QUEUE)
            && Get(s', DID, granter, did) == Some(WithExpiry(a, EndOf(a, now)))
  {
    var o := Get(s, DID, granter, did);
    var a := WithExpiry(o.value, EndOf(o.value, now));
    hide Key, Entry, Expiry, Indexed, Get, SetGrant;
    UpdateIsSet(s, granter, did, a);
    SetGrantIndexed(s, DID, DID_QUEUE, granter, did, Some(a));
    SetGrantGet(s, DID, DID_QUEUE, granter, did, Some(a), granter, did);
  }

  /**
   ExpireDIDAllowance in full: a basic allowance ends now, a periodic one when its period does, and all else about it
   stays; a filtered one cannot be expired, nor can one that is not there.
   */
  lemma ExpireExact(s: Store, granter: Name, did: Name, now: Time)
    requires Indexed(s, DID, DID_QUEUE)
    ensures var o, r := Get(s, DID, granter, did), ExpireDID(s, granter, did, now);
            if o.None? then r == Err(NotFound)
            else if o.value.Filtered? then r == Err(UnsupportedType)
            else r.Ok?
    ensures var o, r := Get(s, DID, granter, did), ExpireDID(s, granter, did, now);
            o.Some? && o.value.OfBasic? ==>
              r.Ok? && Get(r.value, DID, granter, did) == Some(OfBasic(Basic(o.value.b.spendLimit, Some(now))))
    ensures var o, r := Get(s, DID, granter, did), ExpireDID(s, granter, did, now);
            o.Some? && o.value.OfPeriodic? ==>
              var p := o.value.p;
              r.Ok? && Get(r.value, DID, granter, did) ==
              Some(OfPeriodic(p.(basic := Basic(p.basic.spendLimit, Some(p.periodReset)))))
  {
    if ExpireDID(s, granter, did, now).Ok? { ExpireIsSet(s, granter, did, now); }
    hide Indexed, Get, UpdateDID;
    var o := Get(s, DID, granter, did);
    if o.Some? { UpdateFound(s, granter, did); }
  }

  lemma UpdateFound(s: Store, granter: Name, did: Name)
    ensures forall b :: UpdateDID(s, granter, did, b).Ok? <==> Get(s, DID, granter, did).Some?
  {
    hide Get;
  }

  function Undated(a: Allowance): Allowance
    requires !a.Filtered?
  {
    match a
    case OfBasic(b) => OfBasic(b.(expiration := None))
    case OfPeriodic(p) => OfPeriodic(p.(basic := p.basic.(expiration := None)))
  }

  /** An expiry, given or replaced, ends payments after that instant and changes nothing before. */
  lemma ExpiryEnds(a: Allowance, t: Time, u: Use)
    requires !a.Filtered?
    ensures Pays(Live(WithExpiry(a, t)), u) <==> u.now <= t && Pays(Live(Undated(a)), u)
    ensures Pays(Live(a), u) <==> !Before(ExpiresAt(a), u.now) && Pays(Live(Undated(a)), u)
  {
  }

  /** A use that costs nothing; it asks only whether the grant is still there to be used. */
  function FreeUse(now: Time): Use {
    Use(now, [], [])
  }

  lemma FreeUsePays(a: Allowance, now: Time)
    requires Sound(a) && !a.Filtered?
    ensures Pays(Live(Undated(a)), FreeUse(now))
  {
    if a.OfPeriodic? {
      ResetIsSound(a.p, now);
      NothingMissing(TryReset(a.p, now).periodCanSpend);
    }
    if Limit(a).Some? { NothingMissing(Limit(a).value); }
  }

  lemma NothingMissing(cs: CoinList)
    requires Valid(cs)
    ensures !IsAnyNegative(Minus(cs, []))
  {
    SafeSub(cs, []);
    forall d ensures AmountOf(cs, d) >= 0 { FeeNonNegative(cs, d); }
  }

  /** Setting an expiry takes something away and gives nothing exactly when there was none or it is not later. */
  lemma ExpiryOnlyShortens(a: Allowance, t: Time)
    requires Sound(a) && !a.Filtered?
    ensures (forall u :: Pays(Live(WithExpiry(a, t)), u) ==> Pays(Live(a), u)) <==>
            ExpiresAt(a).None? || t <= ExpiresAt(a).value
  {
    FreeUsePays(a, t);
    ExpiryEnds(a, t, FreeUse(t));
    hide Sound, Accept;
    forall u | Pays(Live(WithExpiry(a, t)), u) && (ExpiresAt(a).None? || t <= ExpiresAt(a).value)
      ensures Pays(Live(a), u)
    {
      ExpiryEnds(a, t, u);
    }
  }

  /**
   ExpireDIDAllowance never makes a grant pay where it did not exactly when the grant has no expiry or the new one, now
   or the end of the period, is not later.
   */
  lemma ExpireOnlyShortens(s: Store, granter: Name, did: Name, now: Time)
    requires Indexed(s, DID, DID_QUEUE) && ExpireDID(s, granter, did, now).Ok? && Sound(Get(s, DID, granter, did).value)
    ensures var o := Get(s, DID, granter, did); var s' := ExpireDID(s, granter, did, now).value;
            && !o.value.Filtered?
            && ((forall u :: PaysFor(Get(s', DID, granter, did), u) ==> PaysFor(o, u)) <==>
                ExpiresAt(o.value).None? || EndOf(o.value, now) <= ExpiresAt(o.value).value)
  {
    var a := Get(s, DID, granter, did).value;
    hide Indexed, Sound, Accept, ExpireDID, Get;
    ExpireIsSet(s, granter, did, now);
    ExpiryOnlyShortens(a, EndOf(a, now));
    assert forall u :: PaysFor(Some(WithExpiry(a, EndOf(a, now))), u) <==> Pays(Live(WithExpiry(a, EndOf(a, now))), u);
    assert forall u :: PaysFor(Some(a), u) <==> Pays(Live(a), u);
    hide PaysFor, Pays;
  }

  /**
   What ExpireDIDAllowance does to every use: before it the old expiry decides, after it the new one, and nothing else.
   */
  lemma ExpireEffect(s: Store, granter: Name, did: Name, now: Time, u: Use)
    requires Indexed(s, DID, DID_QUEUE) && ExpireDID(s, granter, did, now).Ok?
    ensures var a := Get(s, DID, granter, did).value; var s' := ExpireDID(s, granter, did, now).value;
            && !a.Filtered? && Indexed(s', DID, DID_QUEUE)
            && (UseDID(s, granter, did, u).1.None? <==>
                !Before(ExpiresAt(a), u.now) && Pays(Live(Undated(a)), u))
            && (UseDID(s', granter, did, u).1.None? <==>
                u.now <= EndOf(a, now) && Pays(Live(Undated(a)), u))
  {
    var s', a := ExpireDID(s, granter, did, now).value, Get(s, DID, granter, did).value;
    hide Indexed, Accept, ExpireDID, Get, UseDID;
    ExpireIsSet(s, granter, did, now);
    ExpiryEnds(a, EndOf(a, now), u);
    UseDIDIsStep(s, granter, did, u);
    UseDIDIsStep(s', granter, did, u);
  }

  /**
   So a grant that had expired is revived: every use between the two expiries that its limits cover is accepted again.
   */
  lemma ExpireRevives(s: Store, granter: Name, did: Name, now: Time, u: Use)
    requires Indexed(s, DID, DID_QUEUE) && ExpireDID(s, granter, did, now).Ok?
    requires var a := Get(s, DID, granter, did).value;
             && !a.Filtered? && ExpiresAt(a).Some? && ExpiresAt(a).value < u.now <= EndOf(a, now)
             && Pays(Live(Undated(a)), u)
    ensures var s' := ExpireDID(s, granter, did, now).value;
            && UseDID(s, granter, did, u).1.Some?
            && Indexed(s', DID, DID_QUEUE) && UseDID(s', granter, did, u).1.None?
  {
    hide Indexed, Accept, ExpireDID, Get, UseDID;
    ExpireEffect(s, granter, did, now, u);
  }

  // ---------- The first usable grant of a DID ----------

  /** Keys under the scan prefix of a DID. */
  function Scanned(s: Store, did: Name): set<bytes> {
    set k | k in s && ScanPrefix(DID, did).value <= k
  }

  function GrantersAt(s: Store, ks: seq<bytes>): (gs: seq<Name>)
    requires forall k <- ks :: k in s && s[k].Grant?
    ensures |gs| == |ks| && forall i :: 0 <= i < |ks| ==> gs[i] == s[ks[i]].granter
  {
    if ks == [] then [] else [s[ks[0]].granter] + GrantersAt(s, ks[1..])
  }

  lemma ScannedAreGrants(s: Store, did: Name)
    requires Formed(s, DID, DID_QUEUE)
    ensures forall k <- Scanned(s, did) :: s[k].Grant? && k == Key(DID, s[k].granter, did)
  {
    forall k <- Scanned(s, did) ensures s[k].Grant? && k == Key(DID, s[k].granter, did) {
      assert ScanPrefix(DID, did).value[0] == DID && k[0] == DID;
      assert IsGrantAt(DID, k, s[k]);
      GrantKeyIs(DID, s[k].granter, s[k].grantee);
      ScanIsExact(DID, s[k].granter, s[k].grantee, did);
    }
  }

  /** The granters of a DID in the order in which the iterator meets them. */
  ghost function Granters(s: Store, did: Name): seq<Name>
    requires Formed(s, DID, DID_QUEUE)
  {
    ScannedAreGrants(s, did);
    GrantersAt(s, Ascending(Scanned(s, did)))
  }

  /** The scan meets every granter of the DID, and each once. */
  lemma GrantersExact(s: Store, did: Name)
    requires Formed(s, DID, DID_QUEUE)
    ensures forall g: Name :: g in Granters(s, did) <==> Get(s, DID, g, did).Some?
    ensures forall i, j :: 0 <= i < j < |Granters(s, did)| ==> Granters(s, did)[i] != Granters(s, did)[j]
  {
    ScannedAreGrants(s, did);
    var ks, gs := Ascending(Scanned(s, did)), Granters(s, did);
    hide Key, Less;
    forall g: Name ensures g in gs <==> Get(s, DID, g, did).Some? { GranterMet(s, did, g); }
    forall i, j | 0 <= i < j < |gs| ensures gs[i] != gs[j] {
      AscendingSorted(Scanned(s, did), i, j);
      LessAsymmetric(ks[i], ks[j]);
      assert ks[i] in Scanned(s, did) && ks[j] in Scanned(s, did);
    }
  }

  lemma KeyIsScanned(s: Store, g: Name, did: Name)
    requires Key(DID, g, did) in s
    ensures Key(DID, g, did) in Scanned(s, did)
  {
    GrantKeyIs(DID, g, did);
    ScanIsExact(DID, g, did, did);
  }

  lemma GranterMet(s: Store, did: Name, g: Name)
    requires Formed(s, DID, DID_QUEUE)
    ensures g in Granters(s, did) <==> Get(s, DID, g, did).Some?
  {
    ScannedAreGrants(s, did);
    hide Key, Formed, Ascending, Scanned;
    var ks := Ascending(Scanned(s, did));
    if g in Granters(s, did) {
      var i :| 0 <= i < |ks| && Granters(s, did)[i] == g;
      assert ks[i] in Scanned(s, did);
    }
    if Get(s, DID, g, did).Some? {
      var k := Key(DID, g, did);
      KeyIsScanned(s, g, did);
      var i :| 0 <= i < |ks| && ks[i] == k;
      KeyInjective(DID, g, did, s[k].granter, did);
      assert Granters(s, did)[i] == g;
    }
  }

  /** The loop of UseFirstAvailableDIDGrant: try the grants in turn until one pays. */
  function UseFirstFrom(s: Store, did: Name, gs: seq<Name>, u: Use): (Store, Option<Name>)
    decreases |gs|
  {
    if gs == [] then (s, None)
    else
      var (s', err) := UseDID(s, gs[0], did, u);
      if err.None? then (s', Some(gs[0])) else UseFirstFrom(s', did, gs[1..], u)
  }

  /** The position of the first grant that pays, or the number of granters. */
  function FirstPaying(s: Store, did: Name, gs: seq<Name>, u: Use): nat {
    if gs == [] then 0
    else if PaysFor(Get(s, DID, gs[0], did), u) then 0
    else 1 + FirstPaying(s, did, gs[1..], u)
  }

  ghost predicate DistinctNames(gs: seq<Name>) {
    forall i, j :: 0 <= i < j < |gs| ==> gs[i] != gs[j]
  }

  ghost predicate TriedUpTo(s: Store, s': Store, did: Name, gs: seq<Name>, n: nat, u: Use) {
    forall granter: Name, d: Name ::
      Get(s', DID, granter, d) ==
      var o := Get(s, DID, granter, d);
      if d == did && (exists j :: 0 <= j < n && j < |gs| && gs[j] == granter) then AfterUse(o, u) else o
  }

  lemma {:induction false} UseFirstEffect(s: Store, did: Name, gs: seq<Name>, u: Use)
    requires Indexed(s, DID, DID_QUEUE) && DistinctNames(gs)
    ensures var (s', g) := UseFirstFrom(s, did, gs, u); var n := FirstPaying(s, did, gs, u);
            && n <= |gs| && g == (if n < |gs| then Some(gs[n]) else None)
            && (n < |gs| ==> PaysFor(Get(s, DID, gs[n], did), u))
            && (forall j :: 0 <= j < n ==> !PaysFor(Get(s, DID, gs[j], did), u))
            && Indexed(s', DID, DID_QUEUE)
            && TriedUpTo(s, s', did, gs, n + 1, u)
    decreases |gs|
  {
    hide Indexed, UseDID, AfterUse, PaysFor, Get, TriedUpTo;
    if gs == [] {
      NothingTried(s, did, u);
    } else {
      var s1 := UseDID(s, gs[0], did, u).0;
      UseDIDIsStep(s, gs[0], did, u);
      forall granter: Name, d: Name
        ensures Get(s1, DID, granter, d) ==
                if d == did && granter == gs[0] then AfterUse(Get(s, DID, granter, d), u) else Get(s, DID, granter, d)
      {
        if d != did || granter != gs[0] { UseDIDFrame(s, gs[0], did, u, granter, d); }
      }
      if PaysFor(Get(s, DID, gs[0], did), u) {
        FirstTried(s, s1, did, gs, u);
      } else {
        SamePaying(s, s1, did, gs[1..], u);
        UseFirstEffect(s1, did, gs[1..], u);
        var n := FirstPaying(s1, did, gs[1..], u);
        forall j | 0 <= j < n + 1 ensures !PaysFor(Get(s, DID, gs[j], did), u) {
          if j > 0 { assert gs[1..][j - 1] == gs[j]; assert Get(s1, DID, gs[j], did) == Get(s, DID, gs[j], did); }
        }
        ShiftTried(s, s1, UseFirstFrom(s, did, gs, u).0, did, gs, n, u);
      }
    }
  }

  lemma NothingTried(s: Store, did: Name, u: Use)
    ensures TriedUpTo(s, s, did, [], 1, u)
  {
  }

  lemma FirstTried(s: Store, s1: Store, did: Name, gs: seq<Name>, u: Use)
    requires gs != []
    requires forall granter: Name, d: Name ::
               Get(s1, DID, granter, d) ==
               if d == did && granter == gs[0] then AfterUse(Get(s, DID, granter, d), u) else Get(s, DID, granter, d)
    ensures TriedUpTo(s, s1, did, gs, 1, u)
  {
    hide Get, AfterUse;
  }

  lemma {:induction false} SamePaying(s: Store, s1: Store, did: Name, gs: seq<Name>, u: Use)
    requires forall g <- gs :: Get(s1, DID, g, did) == Get(s, DID, g, did)
    ensures FirstPaying(s1, did, gs, u) == FirstPaying(s, did, gs, u)
  {
    hide Get, PaysFor;
    if gs != [] { SamePaying(s, s1, did, gs[1..], u); }
  }

  lemma ShiftTried(s: Store, s1: Store, s2: Store, did: Name, gs: seq<Name>, n: nat, u: Use)
    requires gs != [] && DistinctNames(gs) && TriedUpTo(s1, s2, did, gs[1..], n + 1, u)
    requires forall granter: Name, d: Name ::
               Get(s1, DID, granter, d) ==
               if d == did && granter == gs[0] then AfterUse(Get(s, DID, granter, d), u) else Get(s, DID, granter, d)
    ensures TriedUpTo(s, s2, did, gs, n + 2, u)
  {
    hide Get, AfterUse;
    forall granter: Name, d: Name
      ensures Get(s2, DID, granter, d) ==
              var o := Get(s, DID, granter, d);
              if d == did && (exists j :: 0 <= j < n + 2 && j < |gs| && gs[j] == granter) then AfterUse(o, u) else o
    {
      if d == did {
        if j :| 0 <= j < n + 2 && j < |gs| && gs[j] == granter {
          if j > 0 { assert gs[1..][j - 1] == granter; }
        }
        if j :| 0 <= j < n + 1 && j < |gs[1..]| && gs[1..][j] == granter { assert gs[j + 1] == granter; }
      }
    }
  }

  /** UseFirstAvailableDIDGrant */
  ghost function UseFirst(s: Store, did: Name, u: Use): (Store, Option<Name>)
    requires Formed(s, DID, DID_QUEUE)
  {
    UseFirstFrom(s, did, Granters(s, did), u)
  }

  /**
   The granter returned has a grant for the DID that pays, and none that the iterator meets before it does;
   if no granter is returned, no grant for the DID pays. Grants to other DIDs stay; grants tried in vain
   stay too, unless they had expired, in which case they are gone.
   */
  lemma UseFirstAvailable(s: Store, did: Name, u: Use)
    requires Indexed(s, DID, DID_QUEUE)
    ensures var (s', g) := UseFirst(s, did, u); var gs := Granters(s, did); var n := FirstPaying(s, did, gs, u);
            && Indexed(s', DID, DID_QUEUE)
            && (g.Some? ==> n < |gs| && g.value == gs[n] && PaysFor(Get(s, DID, g.value, did), u))
            && (g.Some? ==> forall j :: 0 <= j < n ==> !PaysFor(Get(s, DID, gs[j], did), u))
            && (g.None? ==> forall x: Name :: !PaysFor(Get(s, DID, x, did), u))
            && TriedUpTo(s, s', did, gs, n + 1, u)
  {
    hide UseFirstFrom, FirstPaying, Granters, Get, TriedUpTo;
    GrantersExact(s, did);
    var gs := Granters(s, did);
    UseFirstEffect(s, did, gs, u);
    if UseFirst(s, did, u).1.None? {
      forall x: Name ensures !PaysFor(Get(s, DID, x, did), u) {
        if x in gs { var j :| 0 <= j < |gs| && gs[j] == x; }
      }
    }
  }

  // ---------- Every run of the DID side keeps the index ----------

  datatype Op =
    | GrantD(granter: Name, did: Name, a: Allowance, at: Time)
    | RevokeD(granter: Name, did: Name)
    | UseD(granter: Name, did: Name, u: Use)
    | UseFirstD(did: Name, u: Use)
    | ExpireD(granter: Name, did: Name, at: Time)
    | PruneD(now: Instant, limit: int)

  function OrSame(s: Store, r: Result<Store, KeeperError>): Store {
    if r.Ok? then r.value else s
  }

  ghost function Apply(s: Store, op: Op): (s': Store)
    requires Indexed(s, DID, DID_QUEUE)
  {
    match op
    case GrantD(granter, did, a, at) => OrSame(s, GrantOp(s, DID, DID_QUEUE, granter, did, a, at))
    case RevokeD(granter, did) => OrSame(s, RevokeDID(s, granter, did))
    case UseD(granter, did, u) => UseDID(s, granter, did, u).0
    case UseFirstD(did, u) => UseFirst(s, did, u).0
    case ExpireD(granter, did, at) => OrSame(s, ExpireDID(s, granter, did, at))
    case PruneD(now, limit) => PruneEffect(s, DID, DID_QUEUE, now, limit); Prune(s, DID, DID_QUEUE, now, limit)
  }

  lemma ApplyIndexed(s: Store, op: Op)
    requires Indexed(s, DID, DID_QUEUE)
    ensures Indexed(Apply(s, op), DID, DID_QUEUE)
  {
    hide Indexed, Get, SetGrant, UseDID, UseFirst, Prune, GrantOp, RevokeDID, ExpireDID;
    match op {
      case GrantD(granter, did, a, at) =>
        if GrantOp(s, DID, DID_QUEUE, granter, did, a, at).Ok? {
          IndexedIsFormed(s, DID, DID_QUEUE);
          GrantIsSet(s, DID, DID_QUEUE, granter, did, a, at);
          SetGrantIndexed(s, DID, DID_QUEUE, granter, did, Some(a));
        }
      case RevokeD(granter, did) =>
        if RevokeDID(s, granter, did).Ok? {
          RevokeIsSet(s, granter, did);
          SetGrantIndexed(s, DID, DID_QUEUE, granter, did, None);
        }
      case UseD(granter, did, u) => UseDIDIsStep(s, granter, did, u);
      case UseFirstD(did, u) => UseFirstAvailable(s, did, u);
      case ExpireD(granter, did, at) =>
        if ExpireDID(s, granter, did, at).Ok? { ExpireIsSet(s, granter, did, at); }
      case PruneD(now, limit) => PruneEffect(s, DID, DID_QUEUE, now, limit);
    }
  }

  lemma IndexedIsFormed(s: Store, ns: byte, q: byte)
    requires Indexed(s, ns, q)
    ensures Formed(s, ns, q)
  {
  }

  ghost function RunOps(s: Store, ops: seq<Op>): (s': Store)
    requires Indexed(s, DID, DID_QUEUE)
    ensures Indexed(s', DID, DID_QUEUE)
    decreases |ops|
  {
    if ops == [] then s else ApplyIndexed(s, ops[0]); RunOps(Apply(s, ops[0]), ops[1..])
  }

  /** In every store reached from the empty one, a DID grant is queued for pruning exactly under its own expiry. */
  lemma EveryRunIsSynced(ops: seq<Op>, exp: Instant, granter: Name, did: Name)
    ensures Indexed(map[], DID, DID_QUEUE)
    ensures var s := RunOps(map[], ops);
            Entry(DID_QUEUE, exp, granter, did) in s <==> ExpiresOn(Get(s, DID, granter, did), exp)
  {
    hide Key, Entry, Apply;
    var s := RunOps(map[], ops);
    assert Synced(s, DID, DID_QUEUE);
  }

  // ---------- Account grants: revocation and the queue ----------

  /** revokeAllowance: the queue key is built with granter and grantee in each other's place. */
  function RevokeAccount(s: Store, granter: Name, grantee: Name): Result<Store, KeeperError> {
    var o := Get(s, ACCOUNT, granter, grantee);
    if o.None? then Err(NotFound)
    else
      var s1 := s - {Key(ACCOUNT, granter, grantee)};
      Ok(if Expiry(o.value).Some? then s1 - {Entry(ACCOUNT_QUEUE, Expiry(o.value).value, grantee, granter)} else s1)
  }

  /** A revocation keeps the account queue in step exactly when the grant has no expiry or is to oneself. */
  lemma RevokeAccountKeepsIndex(s: Store, granter: Name, grantee: Name)
    requires Indexed(s, ACCOUNT, ACCOUNT_QUEUE) && RevokeAccount(s, granter, grantee).Ok?
    ensures Indexed(RevokeAccount(s, granter, grantee).value, ACCOUNT, ACCOUNT_QUEUE) <==>
            Expiry(Get(s, ACCOUNT, granter, grantee).value).None? || granter == grantee
  {
    hide Key, Entry, Expiry;
    var s' := RevokeAccount(s, granter, grantee).value;
    var o := Get(s, ACCOUNT, granter, grantee);
    if Expiry(o.value).None? || granter == grantee {
      assert s' == SetGrant(s, ACCOUNT, ACCOUNT_QUEUE, granter, grantee, None);
      SetGrantIndexed(s, ACCOUNT, ACCOUNT_QUEUE, granter, grantee, None);
    } else {
      StaleEntry(s, granter, grantee);
      assert !ExpiresOn(Get(s', ACCOUNT, granter, grantee), Expiry(o.value).value);
    }
  }

  lemma StaleEntry(s: Store, granter: Name, grantee: Name)
    requires Indexed(s, ACCOUNT, ACCOUNT_QUEUE) && RevokeAccount(s, granter, grantee).Ok?
    requires Expiry(Get(s, ACCOUNT, granter, grantee).value).Some? && granter != grantee
    ensures Entry(ACCOUNT_QUEUE, Expiry(Get(s, ACCOUNT, granter, grantee).value).value, granter, grantee) in
            RevokeAccount(s, granter, grantee).value
  {
    hide Key, Entry, Expiry;
    var exp := Expiry(Get(s, ACCOUNT, granter, grantee).value).value;
    assert ExpiresOn(Get(s, ACCOUNT, granter, grantee), exp);
    EntryInjective(ACCOUNT_QUEUE, exp, granter, grantee, exp, grantee, granter);
  }

  /** Every expiring account grant is queued under its expiry. */
  ghost predicate AllQueued(s: Store) {
    forall exp: Instant, granter: Name, grantee: Name ::
      ExpiresOn(Get(s, ACCOUNT, granter, grantee), exp) ==> Entry(ACCOUNT_QUEUE, exp, granter, grantee) in s
  }

  /**
   The exchanged key also deletes the entry of the grant in the other direction if that expires at the same instant, and
   then that grant is no longer queued; otherwise every remaining grant still is.
   */
  lemma RevokeAccountUnqueues(s: Store, granter: Name, grantee: Name)
    requires Indexed(s, ACCOUNT, ACCOUNT_QUEUE) && RevokeAccount(s, granter, grantee).Ok? && granter != grantee
    ensures var exp := Expiry(Get(s, ACCOUNT, granter, grantee).value);
            AllQueued(RevokeAccount(s, granter, grantee).value) <==>
            exp.None? || !ExpiresOn(Get(s, ACCOUNT, grantee, granter), exp.value)
  {
    hide Key, Entry, Expiry;
    var s', exp := RevokeAccount(s, granter, grantee).value, Expiry(Get(s, ACCOUNT, granter, grantee).value);
    KeyInjective(ACCOUNT, granter, grantee, grantee, granter);
    if exp.Some? && ExpiresOn(Get(s, ACCOUNT, grantee, granter), exp.value) {
      assert ExpiresOn(Get(s', ACCOUNT, grantee, granter), exp.value);
      assert Entry(ACCOUNT_QUEUE, exp.value, grantee, granter) !in s';
    } else {
      forall x: Instant, g: Name, e: Name | ExpiresOn(Get(s', ACCOUNT, g, e), x)
        ensures Entry(ACCOUNT_QUEUE, x, g, e) in s'
      {
        assert ExpiresOn(Get(s, ACCOUNT, g, e), x);
        if exp.Some? { EntryInjective(ACCOUNT_QUEUE, x, g, e, exp.value, grantee, granter); }
      }
    }
  }

  function Regranted(s: Store, granter: Name, grantee: Name, b: Allowance, at: Time): Result<Store, KeeperError> {
    var s1 :- RevokeAccount(s, granter, grantee);
    GrantOp(s1, ACCOUNT, ACCOUNT_QUEUE, granter, grantee, b, at)
  }

  /**
   What the stale entry does: after a grant with an expiry is revoked, a new grant between the same parties, whatever
   its own expiry, is deleted by a pruning after the old one exactly if an entry for the two is walked, so by any with
   an ample limit.
   */
  lemma StaleEntryPrunesNewGrant(
    s: Store, granter: Name, grantee: Name, b: Allowance, at: Time, now: Instant, limit: int)
    requires Indexed(s, ACCOUNT, ACCOUNT_QUEUE) && granter != grantee && Regranted(s, granter, grantee, b, at).Ok?
    requires ExpiredBefore(Get(s, ACCOUNT, granter, grantee), now)
    ensures var s' := Regranted(s, granter, grantee, b, at).value;
            && Get(s', ACCOUNT, granter, grantee) == Some(b)
            && (forall k <- Overdue(s', ACCOUNT_QUEUE, now) :: IsEntry(ACCOUNT_QUEUE, k))
            && (Get(Prune(s', ACCOUNT, ACCOUNT_QUEUE, now, limit), ACCOUNT, granter, grantee) == None <==>
                Names(Walked(s', ACCOUNT_QUEUE, now, limit), ACCOUNT_QUEUE, granter, grantee))
            && (Ample(s', ACCOUNT_QUEUE, now, limit) ==>
                Get(Prune(s', ACCOUNT, ACCOUNT_QUEUE, now, limit), ACCOUNT, granter, grantee) == None)
  {
    hide *;
    StaleEntryKept(s, granter, grantee, b, at, now);
    RegrantedFormed(s, granter, grantee, b, at);
    var s' := Regranted(s, granter, grantee, b, at).value;
    var exp: Instant :| exp < now && Entry(ACCOUNT_QUEUE, exp, granter, grantee) in s';
    QueuedIsPruned(s', exp, granter, grantee, now, limit);
  }

  lemma StaleEntryKept(s: Store, granter: Name, grantee: Name, b: Allowance, at: Time, now: Instant)
    requires Indexed(s, ACCOUNT, ACCOUNT_QUEUE) && granter != grantee && Regranted(s, granter, grantee, b, at).Ok?
    requires ExpiredBefore(Get(s, ACCOUNT, granter, grantee), now)
    ensures Formed(s, ACCOUNT, ACCOUNT_QUEUE)
    ensures var s' := Regranted(s, granter, grantee, b, at).value;
            && Get(s', ACCOUNT, granter, grantee) == Some(b)
            && exists exp: Instant :: exp < now && Entry(ACCOUNT_QUEUE, exp, granter, grantee) in s'
  {
    var exp := Expiry(Get(s, ACCOUNT, granter, grantee).value).value;
    StaleEntry(s, granter, grantee);
    hide Entry, Expiry, Key, RevokeAccount, GrantOp, Get, Indexed;
    var s1 := RevokeAccount(s, granter, grantee).value;
    IndexedIsFormed(s, ACCOUNT, ACCOUNT_QUEUE);
    GrantKeeps(s1, granter, grantee, b, at, Entry(ACCOUNT_QUEUE, exp, granter, grantee));
  }

  lemma GrantKeeps(s: Store, granter: Name, grantee: Name, b: Allowance, at: Time, k: bytes)
    requires GrantOp(s, ACCOUNT, ACCOUNT_QUEUE, granter, grantee, b, at).Ok? && k in s
    ensures var s' := GrantOp(s, ACCOUNT, ACCOUNT_QUEUE, granter, grantee, b, at).value;
            k in s' && Get(s', ACCOUNT, granter, grantee) == Some(b)
  {
    hide Entry, Expiry, Key;
  }

  lemma QueuedIsOverdue(s: Store, q: byte, exp: Instant, granter: Name, grantee: Name, now: Instant)
    requires Entry(q, exp, granter, grantee) in s && exp < now
    ensures Entry(q, exp, granter, grantee) in Overdue(s, q, now)
  {
    PruneRangeIsExpired(q, now, exp, granter, grantee);
  }

  /**
   Pruning the account grants deletes exactly those that a walked entry names; with an ample limit, whatever an entry
   expired before now points to.
   */
  lemma QueuedIsPruned(s: Store, exp: Instant, granter: Name, grantee: Name, now: Instant, limit: int)
    requires Formed(s, ACCOUNT, ACCOUNT_QUEUE) && Entry(ACCOUNT_QUEUE, exp, granter, grantee) in s && exp < now
    ensures forall k <- Overdue(s, ACCOUNT_QUEUE, now) :: IsEntry(ACCOUNT_QUEUE, k)
    ensures Get(Prune(s, ACCOUNT, ACCOUNT_QUEUE, now, limit), ACCOUNT, granter, grantee) ==
            if Names(Walked(s, ACCOUNT_QUEUE, now, limit), ACCOUNT_QUEUE, granter, grantee) then None
            else Get(s, ACCOUNT, granter, grantee)
    ensures Ample(s, ACCOUNT_QUEUE, now, limit) ==>
            Names(Walked(s, ACCOUNT_QUEUE, now, limit), ACCOUNT_QUEUE, granter, grantee)
  {
    OverdueAreEntries(s, ACCOUNT, ACCOUNT_QUEUE, now);
    QueuedIsOverdue(s, ACCOUNT_QUEUE, exp, granter, grantee, now);
    hide Key, Entry, Formed, IsEntry, Overdue, PruneKeys, Walked, Get;
    PruneKeysGet(s, ACCOUNT, ACCOUNT_QUEUE, Walked(s, ACCOUNT_QUEUE, now, limit), granter, grantee);
    if Ample(s, ACCOUNT_QUEUE, now, limit) { AmpleWalksAll(s, ACCOUNT_QUEUE, now, limit); }
  }

  lemma RevokedFormed(s: Store, granter: Name, grantee: Name)
    requires Formed(s, ACCOUNT, ACCOUNT_QUEUE) && RevokeAccount(s, granter, grantee).Ok?
    ensures Formed(RevokeAccount(s, granter, grantee).value, ACCOUNT, ACCOUNT_QUEUE)
  {
    hide Key, Entry, Expiry, IsEntry, IsGrantAt, Get;
  }

  lemma RegrantedFormed(s: Store, granter: Name, grantee: Name, b: Allowance, at: Time)
    requires Formed(s, ACCOUNT, ACCOUNT_QUEUE) && Regranted(s, granter, grantee, b, at).Ok?
    ensures Formed(Regranted(s, granter, grantee, b, at).value, ACCOUNT, ACCOUNT_QUEUE)
  {
    RevokedFormed(s, granter, grantee);
    var s1 := RevokeAccount(s, granter, grantee).value;
    hide Formed, SetGrant, RevokeAccount, GrantOp;
    GrantIsSet(s1, ACCOUNT, ACCOUNT_QUEUE, granter, grantee, b, at);
    SetGrantFormed(s1, ACCOUNT, ACCOUNT_QUEUE, granter, grantee, Some(b));
  }
}
