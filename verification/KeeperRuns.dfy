/** Iteration over the store, pruning, and what every run of the keeper keeps. */
module KeeperRuns {
  import opened Wrappers
  import opened Lex
  import opened Allowance
  import opened Keys
  import opened KeeperStore

  // ---------- Ascending iteration ----------

  predicate IsLeast(k: bytes, ks: set<bytes>) {
    k in ks && forall x <- ks :: x == k || Less(k, x)
  }

  lemma {:induction false} LeastExists(ks: set<bytes>)
    requires ks != {}
    ensures exists k: bytes :: IsLeast(k, ks)
    decreases |ks|
  {
    var k: bytes :| k in ks;
    if ks == {k} {
      assert IsLeast(k, ks);
    } else {
      var rest := ks - {k};
      LeastExists(rest);
      var m: bytes :| IsLeast(m, rest);
      LessTotal(k, m);
      var least := if Less(k, m) then k else m;
      forall x <- ks ensures x == least || Less(least, x) {
        if least == k && x in rest && x != m { LessTransitive(k, m, x); }
      }
      assert IsLeast(least, ks);
    }
  }

  lemma LeastUnique(ks: set<bytes>)
    ensures forall k: bytes, m: bytes :: IsLeast(k, ks) && IsLeast(m, ks) ==> k == m
  {
    forall k: bytes, m: bytes | IsLeast(k, ks) && IsLeast(m, ks) ensures k == m {
      if k != m { LessAsymmetric(k, m); }
    }
  }

  function Least(ks: set<bytes>): (k: bytes)
    requires ks != {}
    ensures IsLeast(k, ks)
  {
    LeastExists(ks);
    LeastUnique(ks);
    var k: bytes :| IsLeast(k, ks);
    k
  }

  /** The keys in the order in which a store iterator yields them. */
  function Ascending(ks: set<bytes>): (r: seq<bytes>)
    ensures |r| == |ks| && forall k :: k in r <==> k in ks
    decreases |ks|
  {
    if ks == {} then [] else [Least(ks)] + Ascending(ks - {Least(ks)})
  }

  lemma {:induction false} AscendingSorted(ks: set<bytes>, i: nat, j: nat)
    requires i < j < |Ascending(ks)|
    ensures Less(Ascending(ks)[i], Ascending(ks)[j])
    decreases |ks|
  {
    hide Less;
    var rest := Ascending(ks - {Least(ks)});
    if i == 0 {
      assert rest[j - 1] in ks - {Least(ks)};
    } else {
      AscendingSorted(ks - {Least(ks)}, i - 1, j - 1);
    }
  }

  // ---------- Pruning ----------

  /** The queue entries the pruning iterator walks. */
  function Overdue(s: Store, q: byte, now: Instant): set<bytes> {
    set k | k in s && InPruneRange(q, now, k)
  }

  /** Deletes a queue entry and the grant it names; the parser panics on a key that is not an entry. */
  function PruneOne(s: Store, ns: byte, q: byte, k: bytes): Store
    requires IsEntry(q, k)
  {
    EntryNames(q, k);
    var (granter, grantee) := ParseQueueKey(k).value;
    (s - {k}) - {Key(ns, granter, grantee)}
  }

  lemma EntryNames(q: byte, k: bytes)
    requires IsEntry(q, k)
    ensures ParseQueueKey(k).Some? && IsName(ParseQueueKey(k).value.0) && IsName(ParseQueueKey(k).value.1)
  {
    var exp: Instant, granter: Name, grantee: Name :| k == Entry(q, exp, granter, grantee);
    EntryParses(q, exp, granter, grantee);
  }

  function PruneKeys(s: Store, ns: byte, q: byte, ks: seq<bytes>): Store
    requires forall k <- ks :: IsEntry(q, k)
  {
    if ks == [] then s else PruneKeys(PruneOne(s, ns, q, ks[0]), ns, q, ks[1..])
  }

  /** The iterations done before the loop stops at `limit`; zero or less never stops it. */
  function Taken(limit: int, n: nat): nat {
    if 0 < limit < n then limit else n
  }

  /** The entries a pruning deals with: the overdue ones in key order, as many as the limit admits. */
  function Walked(s: Store, q: byte, now: Instant, limit: int): (ks: seq<bytes>)
    ensures forall k <- ks :: k in Overdue(s, q, now)
  {
    var ks := Ascending(Overdue(s, q, now));
    ks[..Taken(limit, |ks|)]
  }

  /** RemoveExpiredAllowances and RemoveExpiredDIDAllowances */
  ghost function Prune(s: Store, ns: byte, q: byte, now: Instant, limit: int): Store
    requires forall k <- Overdue(s, q, now) :: IsEntry(q, k)
  {
    PruneKeys(s, ns, q, Walked(s, q, now, limit))
  }

  /** A limit that admits every overdue entry. */
  predicate Ample(s: Store, q: byte, now: Instant, limit: int) {
    limit <= 0 || |Overdue(s, q, now)| <= limit
  }

  /** A positive limit takes that many of the overdue entries, the least keys first; any other takes them all. */
  lemma WalkedExact(s: Store, q: byte, now: Instant, limit: int)
    ensures var ks, all := Walked(s, q, now, limit), Ascending(Overdue(s, q, now));
            && ks <= all && |all| == |Overdue(s, q, now)|
            && (1 <= limit <= |all| ==> |ks| == limit)
            && (limit < 1 || |all| < limit ==> ks == all)
  {
    hide Overdue;
  }

  lemma AmpleWalksAll(s: Store, q: byte, now: Instant, limit: int)
    requires Ample(s, q, now, limit)
    ensures Walked(s, q, now, limit) == Ascending(Overdue(s, q, now))
  {
    hide Overdue;
  }

  lemma OverdueAreEntries(s: Store, ns: byte, q: byte, now: Instant)
    requires Formed(s, ns, q)
    ensures forall k <- Overdue(s, q, now) :: k != [] && k[0] == q && IsEntry(q, k)
  {
    forall k <- Overdue(s, q, now) ensures k != [] && k[0] == q && IsEntry(q, k) {
      PruneRangePrefix(q, now, k);
    }
  }

  lemma PruneRangePrefix(q: byte, now: Instant, k: bytes)
    requires InPruneRange(q, now, k)
    ensures k != [] && k[0] == q
  {
    assert ByExpTime(q, now)[0] == q;
  }

  /** On an indexed store, one iteration removes one grant together with its entry. */
  lemma PruneOneIsSet(s: Store, ns: byte, q: byte, exp: Instant, granter: Name, grantee: Name)
    requires ns != q && Indexed(s, ns, q) && Entry(q, exp, granter, grantee) in s
    ensures IsEntry(q, Entry(q, exp, granter, grantee))
    ensures PruneOne(s, ns, q, Entry(q, exp, granter, grantee)) == SetGrant(s, ns, q, granter, grantee, None)
  {
    hide Key, Entry, Expiry, Formed;
    EntryParses(q, exp, granter, grantee);
    assert ExpiresOn(Get(s, ns, granter, grantee), exp);
  }

  ghost predicate Names(ks: seq<bytes>, q: byte, granter: Name, grantee: Name) {
    exists exp: Instant :: Entry(q, exp, granter, grantee) in ks
  }

  ghost predicate Distinct(ks: seq<bytes>) {
    forall i, j :: 0 <= i < j < |ks| ==> ks[i] != ks[j]
  }

  lemma {:induction false} PruneKeysEffect(s: Store, ns: byte, q: byte, ks: seq<bytes>)
    requires ns != q && Indexed(s, ns, q) && Distinct(ks)
    requires forall k <- ks :: k in s && k != [] && k[0] == q && IsEntry(q, k)
    ensures Indexed(PruneKeys(s, ns, q, ks), ns, q)
    ensures forall granter: Name, grantee: Name ::
              Get(PruneKeys(s, ns, q, ks), ns, granter, grantee) ==
              if Names(ks, q, granter, grantee) then None else Get(s, ns, granter, grantee)
    decreases |ks|
  {
    hide Key, Entry, Get, Indexed, IsEntry;
    if ks != [] {
      var k := ks[0];
      assert IsEntry(q, k);
      var exp, granter, grantee := EntryParts(q, k);
      PruneOneIsSet(s, ns, q, exp, granter, grantee);
      var s' := SetGrant(s, ns, q, granter, grantee, None);
      SetGrantIndexed(s, ns, q, granter, grantee, None);
      forall x <- ks[1..] ensures x in s' && x != k { StillThere(s, ns, q, granter, grantee, exp, x); }
      PruneKeysEffect(s', ns, q, ks[1..]);
      forall g: Name, e: Name
        ensures Get(PruneKeys(s, ns, q, ks), ns, g, e) == if Names(ks, q, g, e) then None else Get(s, ns, g, e)
      {
        SetGrantGet(s, ns, q, granter, grantee, None, g, e);
        NamesFirst(ks, q, exp, granter, grantee, g, e);
      }
    }
  }

  /** In any store, in step or not, walking entries deletes exactly the grants they name. */
  lemma {:induction false} PruneKeysGet(s: Store, ns: byte, q: byte, ks: seq<bytes>, granter: Name, grantee: Name)
    requires ns != q && forall k <- ks :: IsEntry(q, k)
    ensures Get(PruneKeys(s, ns, q, ks), ns, granter, grantee) ==
            if Names(ks, q, granter, grantee) then None else Get(s, ns, granter, grantee)
    decreases |ks|
  {
    if ks != [] {
      var exp, g, e := EntryParts(q, ks[0]);
      EntryParses(q, exp, g, e);
      KeyInjective(ns, granter, grantee, g, e);
      assert Key(ns, granter, grantee)[0] == ns && ks[0][0] == q;
      hide Key, Entry, IsEntry;
      NamesFirst(ks, q, exp, g, e, granter, grantee);
      PruneKeysGet(PruneOne(s, ns, q, ks[0]), ns, q, ks[1..], granter, grantee);
    }
  }

  lemma EntryParts(q: byte, k: bytes) returns (exp: Instant, granter: Name, grantee: Name)
    requires IsEntry(q, k)
    ensures k == Entry(q, exp, granter, grantee)
  {
    exp, granter, grantee :| k == Entry(q, exp, granter, grantee);
  }

  lemma StillThere(s: Store, ns: byte, q: byte, granter: Name, grantee: Name, exp: Instant, x: bytes)
    requires ns != q && Indexed(s, ns, q) && Entry(q, exp, granter, grantee) in s
    requires x in s && x != [] && x[0] == q && x != Entry(q, exp, granter, grantee)
    ensures x in SetGrant(s, ns, q, granter, grantee, None)
  {
    hide Key, Entry, Expiry, Formed;
    assert ExpiresOn(Get(s, ns, granter, grantee), exp);
  }

  lemma NamesFirst(ks: seq<bytes>, q: byte, exp: Instant, granter: Name, grantee: Name, g: Name, e: Name)
    requires ks != [] && ks[0] == Entry(q, exp, granter, grantee)
    ensures Names(ks, q, g, e) <==> (g == granter && e == grantee) || Names(ks[1..], q, g, e)
  {
    hide Entry;
    if Names(ks, q, g, e) {
      var x: Instant :| Entry(q, x, g, e) in ks;
      if Entry(q, x, g, e) == ks[0] { EntryInjective(q, exp, granter, grantee, x, g, e); }
    }
  }

  predicate ExpiredBefore(o: Option<Allowance>, now: Instant) {
    o.Some? && Expiry(o.value).Some? && Expiry(o.value).value < now
  }

  /** An entry is walked exactly when its grant is there and expired before now. */
  lemma OverdueExactly(s: Store, ns: byte, q: byte, now: Instant, exp: Instant, granter: Name, grantee: Name)
    requires Indexed(s, ns, q)
    ensures Entry(q, exp, granter, grantee) in Overdue(s, q, now) <==>
            ExpiresOn(Get(s, ns, granter, grantee), exp) && exp < now
  {
    PruneRangeIsExpired(q, now, exp, granter, grantee);
  }

  lemma AscendingDistinct(ks: set<bytes>, n: nat)
    requires n <= |Ascending(ks)|
    ensures Distinct(Ascending(ks)[..n])
  {
    var r := Ascending(ks)[..n];
    forall i, j | 0 <= i < j < |r| ensures r[i] != r[j] {
      AscendingSorted(ks, i, j);
      LessAsymmetric(Ascending(ks)[i], Ascending(ks)[j]);
    }
  }

  lemma PruneEffect(s: Store, ns: byte, q: byte, now: Instant, limit: int)
    requires ns != q && Indexed(s, ns, q)
    ensures forall k <- Overdue(s, q, now) :: IsEntry(q, k)
    ensures Indexed(Prune(s, ns, q, now, limit), ns, q)
    ensures forall granter: Name, grantee: Name ::
              Get(Prune(s, ns, q, now, limit), ns, granter, grantee) ==
              if Names(Walked(s, q, now, limit), q, granter, grantee) then None else Get(s, ns, granter, grantee)
  {
    hide Key, Entry, Get, InPruneRange;
    OverdueAreEntries(s, ns, q, now);
    var ks := Ascending(Overdue(s, q, now));
    AscendingDistinct(Overdue(s, q, now), Taken(limit, |ks|));
    PruneKeysEffect(s, ns, q, Walked(s, q, now, limit));
  }

  /**
   Pruning keeps the index and removes exactly the grants named by the entries it walks, all of them expired before
   now; a limit that is not positive, or not below the number of overdue entries, removes every expired grant.
   */
  lemma PruneExact(s: Store, ns: byte, q: byte, now: Instant, limit: int, granter: Name, grantee: Name)
    requires ns != q && Indexed(s, ns, q)
    ensures forall k <- Overdue(s, q, now) :: IsEntry(q, k)
    ensures Indexed(Prune(s, ns, q, now, limit), ns, q)
    ensures var o := Get(s, ns, granter, grantee); var o' := Get(Prune(s, ns, q, now, limit), ns, granter, grantee);
            var walked := Names(Walked(s, q, now, limit), q, granter, grantee);
            && o' == (if walked then None else o)
            && (walked ==> ExpiredBefore(o, now))
            && (Ample(s, q, now, limit) ==> (walked <==> ExpiredBefore(o, now)))
  {
    hide Key, Entry, Get, Expiry, InPruneRange, Prune, Indexed, Overdue, Walked;
    PruneEffect(s, ns, q, now, limit);
    var ks := Walked(s, q, now, limit);
    var o := Get(s, ns, granter, grantee);
    if Ample(s, q, now, limit) && ExpiredBefore(o, now) {
      OverdueExactly(s, ns, q, now, Expiry(o.value).value, granter, grantee);
      AmpleWalksAll(s, q, now, limit);
      assert Names(ks, q, granter, grantee);
    }
    if Names(ks, q, granter, grantee) {
      var exp: Instant :| Entry(q, exp, granter, grantee) in ks;
      OverdueExactly(s, ns, q, now, exp, granter, grantee);
    }
  }

  /** A limited pruning takes the earliest expiries: a grant it removes does not expire after one it leaves overdue. */
  lemma PruneEarliestFirst(
    s: Store, ns: byte, q: byte, now: Instant, limit: int, granter: Name, grantee: Name, granter': Name, grantee': Name)
    requires ns != q && Indexed(s, ns, q)
    requires forall k <- Overdue(s, q, now) :: IsEntry(q, k)
    requires var s' := Prune(s, ns, q, now, limit);
             && Get(s, ns, granter, grantee).Some? && Get(s', ns, granter, grantee).None?
             && ExpiredBefore(Get(s', ns, granter', grantee'), now)
    ensures var o, o' := Get(s, ns, granter, grantee), Get(s, ns, granter', grantee');
            && ExpiredBefore(o, now) && ExpiredBefore(o', now)
            && Expiry(o.value).value <= Expiry(o'.value).value
  {
    hide Key, Entry, Get, Expiry, InPruneRange, Prune, Indexed;
    PruneEffect(s, ns, q, now, limit);
    PruneExact(s, ns, q, now, limit, granter, grantee);
    PruneExact(s, ns, q, now, limit, granter', grantee');
    var ks := Ascending(Overdue(s, q, now));
    var n := Taken(limit, |ks|);
    assert Walked(s, q, now, limit) == ks[..n];
    var exp, exp' :=
      Expiry(Get(s, ns, granter, grantee).value).value, Expiry(Get(s, ns, granter', grantee').value).value;
    OverdueExactly(s, ns, q, now, exp', granter', grantee');
    assert Names(ks[..n], q, granter, grantee) && !Names(ks[..n], q, granter', grantee');
    var x: Instant :| Entry(q, x, granter, grantee) in ks[..n];
    assert Entry(q, x, granter, grantee) in ks;
    OverdueExactly(s, ns, q, now, x, granter, grantee);
    EarlierInQueue(Overdue(s, q, now), n, q, exp, granter, grantee, exp', granter', grantee');
  }

  lemma EarlierInQueue(
    ks: set<bytes>, n: nat, q: byte,
    exp: Instant, granter: Name, grantee: Name, exp': Instant, granter': Name, grantee': Name)
    requires n <= |Ascending(ks)| && Entry(q, exp, granter, grantee) in Ascending(ks)[..n]
    requires Entry(q, exp', granter', grantee') in ks && Entry(q, exp', granter', grantee') !in Ascending(ks)[..n]
    ensures exp <= exp'
  {
    hide Less;
    var r := Ascending(ks);
    var i :| 0 <= i < n && r[i] == Entry(q, exp, granter, grantee);
    var j :| 0 <= j < |r| && r[j] == Entry(q, exp', granter', grantee');
    assert j >= n;
    AscendingSorted(ks, i, j);
    if exp' < exp {
      QueueOrder(q, exp', Body(granter', grantee'), exp, Body(granter, grantee));
      LessAsymmetric(r[i], r[j]);
    }
  }

  /** What pruning removes could not have paid any more: from now on Accept refuses it for every use. */
  lemma PrunedCouldNotPay(s: Store, ns: byte, q: byte, now: Instant, limit: int, granter: Name, grantee: Name, u: Use)
    requires ns != q && Indexed(s, ns, q) && u.now >= now
    requires forall k <- Overdue(s, q, now) :: IsEntry(q, k)
    requires Get(s, ns, granter, grantee).Some? && Get(Prune(s, ns, q, now, limit), ns, granter, grantee).None?
    ensures Accept(Get(s, ns, granter, grantee).value, u).err.Some?
  {
    PruneExact(s, ns, q, now, limit, granter, grantee);
    var a := Get(s, ns, granter, grantee).value;
    FilterRefinesInnermost(a, u);
    RemovedWithError(a, u);
  }
}
