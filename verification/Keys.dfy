/** The store keys of x/feegrant/key.go: builders, parsers, prefix scans and the expiry queues. */
module Keys {
  import opened Wrappers
  import opened Lex
  import opened Calendar

  /** FeeAllowanceKeyPrefix, FeeAllowanceQueueKeyPrefix, DIDFeeAllowanceKeyPrefix, DIDFeeAllowanceQueueKeyPrefix */
  const ACCOUNT: byte := 0
  const ACCOUNT_QUEUE: byte := 1
  const DID: byte := 2
  const DID_QUEUE: byte := 3

  // ---------- Builders ----------

  /** address.MustLengthPrefix: None is its panic; an empty string gets no length byte. */
  function LengthPrefix(bz: bytes): Option<bytes> {
    if |bz| == 0 then Some([]) else if |bz| > 255 then None else Some([|bz|] + bz)
  }

  /** FeeAllowancePrefixByGrantee and FeeAllowancePrefixByDID */
  function ScanPrefix(ns: byte, grantee: bytes): Option<bytes> {
    match LengthPrefix(grantee)
    case None => None
    case Some(p) => Some([ns] + p)
  }

  /** FeeAllowanceKey and FeeAllowanceByDIDKey */
  function GrantKey(ns: byte, granter: bytes, grantee: bytes): Option<bytes> {
    match (ScanPrefix(ns, grantee), LengthPrefix(granter))
    case (Some(p), Some(q)) => Some(p + q)
    case _ => None
  }

  /** AllowanceByExpTimeKey and DIDAllowanceByExpTimeKey */
  function ByExpTime(ns: byte, exp: int): (key: bytes)
    requires InRange(exp)
    ensures |key| == 1 + TIME_LENGTH
  {
    [ns] + FormatTime(exp)
  }

  /** FeeAllowancePrefixQueue and DIDFeeAllowancePrefixQueue */
  function QueueKey(ns: byte, exp: int, key: bytes): bytes
    requires InRange(exp)
  {
    ByExpTime(ns, exp) + key
  }

  // ---------- Parsers ----------

  /** sdk.ParseLengthPrefixedBytes: the slice and the position after it; None is its panic on a short key. */
  function Slice(key: bytes, start: nat, n: nat): Option<(bytes, nat)> {
    if start + n > |key| then None else Some((key[start..start + n], start + n))
  }

  /** A length byte and as many bytes after it. */
  function Prefixed(key: bytes, start: nat): Option<(bytes, nat)> {
    match Slice(key, start, 1)
    case None => None
    case Some((len, next)) => Slice(key, next, len[0])
  }

  /** Grantee (or DID) and granter from position `start` on. */
  function ParseFrom(key: bytes, start: nat): Option<(bytes, bytes)> {
    match Prefixed(key, start)
    case None => None
    case Some((grantee, next)) =>
      match Prefixed(key, next)
      case None => None
      case Some((granter, _)) => Some((granter, grantee))
  }

  /** ParseAddressesFromFeeAllowanceKey and ParseGranterDIDFromFeeAllowanceKey */
  function ParseKey(key: bytes): Option<(bytes, bytes)> {
    ParseFrom(key, 1)
  }

  /** ParseAddressesFromFeeAllowanceQueueKey and ParseGranterDIDFromDIDAllowanceQueueKey */
  function ParseQueueKey(key: bytes): Option<(bytes, bytes)> {
    ParseFrom(key, 1 + TIME_LENGTH)
  }

  // ---------- Parsers undo builders ----------

  predicate Short(bz: bytes) {
    |bz| <= 255
  }

  predicate IsName(bz: bytes) {
    1 <= |bz| <= 255
  }

  /** What follows the namespace byte of a grant key. */
  function Body(granter: bytes, grantee: bytes): bytes
    requires Short(granter) && Short(grantee)
  {
    LengthPrefix(grantee).value + LengthPrefix(granter).value
  }

  lemma GrantKeyIs(ns: byte, granter: bytes, grantee: bytes)
    ensures GrantKey(ns, granter, grantee).Some? <==> Short(granter) && Short(grantee)
    ensures Short(granter) && Short(grantee) ==> GrantKey(ns, granter, grantee) == Some([ns] + Body(granter, grantee))
  {
    if Short(granter) && Short(grantee) {
      assert [ns] + LengthPrefix(grantee).value + LengthPrefix(granter).value ==
             [ns] + (LengthPrefix(grantee).value + LengthPrefix(granter).value);
    }
  }

  lemma PrefixedAt(before: bytes, name: bytes, after: bytes)
    requires IsName(name)
    ensures Prefixed(before + LengthPrefix(name).value + after, |before|) == Some((name, |before| + 1 + |name|))
  {
    var key := before + LengthPrefix(name).value + after;
    assert key[|before|..|before| + 1] == [|name|];
    assert key[|before| + 1..|before| + 1 + |name|] == name;
  }

  /** Parsing after any head gives the two names back exactly when neither is empty. */
  lemma ParseUndoesBody(head: bytes, granter: bytes, grantee: bytes)
    requires Short(granter) && Short(grantee)
    ensures ParseFrom(head + Body(granter, grantee), |head|) == Some((granter, grantee)) <==>
            granter != [] && grantee != []
    ensures granter == [] || grantee == [] ==> ParseFrom(head + Body(granter, grantee), |head|) == None
  {
    var key := head + Body(granter, grantee);
    var p, q := LengthPrefix(grantee).value, LengthPrefix(granter).value;
    if grantee != [] {
      PrefixedAt(head, grantee, q);
      assert key == head + p + q;
      if granter != [] {
        PrefixedAt(head + p, granter, []);
        assert key == (head + p) + q + [];
      }
    } else if granter != [] {
      PrefixedAt(head, granter, []);
      assert key == head + q + [];
    }
  }

  /** Each parser undoes its builder on grant keys exactly when granter and grantee are not empty. */
  lemma ParseUndoesKey(ns: byte, granter: bytes, grantee: bytes)
    requires Short(granter) && Short(grantee)
    ensures ParseKey(GrantKey(ns, granter, grantee).value) == Some((granter, grantee)) <==>
            granter != [] && grantee != []
  {
    GrantKeyIs(ns, granter, grantee);
    ParseUndoesBody([ns], granter, grantee);
  }

  /** Likewise on queue keys, which carry the grant key without its first byte. */
  lemma ParseUndoesQueueKey(ns: byte, queue: byte, exp: int, granter: bytes, grantee: bytes)
    requires InRange(exp) && Short(granter) && Short(grantee)
    ensures ParseQueueKey(QueueKey(queue, exp, GrantKey(ns, granter, grantee).value[1..])) ==
            Some((granter, grantee)) <==>
            granter != [] && grantee != []
  {
    GrantKeyIs(ns, granter, grantee);
    assert ([ns] + Body(granter, grantee))[1..] == Body(granter, grantee);
    ParseUndoesBody(ByExpTime(queue, exp), granter, grantee);
  }

  // ---------- Injectivity, namespaces, scans ----------

  /** A grant key determines namespace, granter and grantee. */
  lemma GrantKeyInjective(ns: byte, granter: bytes, grantee: bytes, ns': byte, granter': bytes, grantee': bytes)
    requires IsName(granter) && IsName(grantee) && IsName(granter') && IsName(grantee')
    ensures GrantKey(ns, granter, grantee) == GrantKey(ns', granter', grantee') <==>
            ns == ns' && granter == granter' && grantee == grantee'
  {
    GrantKeyIs(ns, granter, grantee);
    GrantKeyIs(ns', granter', grantee');
    ParseUndoesKey(ns, granter, grantee);
    ParseUndoesKey(ns', granter', grantee');
    assert GrantKey(ns, granter, grantee).value[0] == ns && GrantKey(ns', granter', grantee').value[0] == ns';
  }

  /** A queue key determines queue, expiry and the key it points to. */
  lemma QueueKeyInjective(ns: byte, exp: int, key: bytes, ns': byte, exp': int, key': bytes)
    requires InRange(exp) && InRange(exp')
    ensures QueueKey(ns, exp, key) == QueueKey(ns', exp', key') <==> ns == ns' && exp == exp' && key == key'
  {
    var x, y := QueueKey(ns, exp, key), QueueKey(ns', exp', key');
    if x == y {
      assert x[0] == ns && y[0] == ns';
      assert x[1..1 + TIME_LENGTH] == FormatTime(exp) && y[1..1 + TIME_LENGTH] == FormatTime(exp');
      assert x[1 + TIME_LENGTH..] == key && y[1 + TIME_LENGTH..] == key';
      FormatTimeExact(exp, exp');
    }
  }

  /** A grant key lies under the scan prefix of a grantee exactly when it is a grant to that grantee. */
  lemma ScanIsExact(ns: byte, granter: bytes, grantee: bytes, target: bytes)
    requires IsName(granter) && IsName(grantee) && IsName(target)
    ensures ScanPrefix(ns, target).value <= GrantKey(ns, granter, grantee).value <==> grantee == target
  {
    GrantKeyIs(ns, granter, grantee);
    var prefix, key := ScanPrefix(ns, target).value, GrantKey(ns, granter, grantee).value;
    if prefix <= key {
      assert prefix[1] == key[1] && |target| == |grantee|;
      assert prefix[2..] == key[2..2 + |target|];
      assert prefix[2..] == target && key[2..2 + |grantee|] == grantee;
    }
  }

  // ---------- The expiry queue ----------

  /** Queue keys are ordered by expiry, whatever they point to. */
  lemma QueueOrder(ns: byte, exp: int, key: bytes, exp': int, key': bytes)
    requires InRange(exp) && InRange(exp') && exp < exp'
    ensures Less(QueueKey(ns, exp, key), QueueKey(ns, exp', key'))
  {
    FormatTimeOrder(exp, exp');
    LessAfter([ns], FormatTime(exp), FormatTime(exp'));
    LessField(ByExpTime(ns, exp), ByExpTime(ns, exp'), key, key');
  }

  /** storetypes.InclusiveEndBytes */
  function InclusiveEnd(bz: bytes): bytes {
    bz + [0]
  }

  /** The range the pruning iterators walk: from the queue prefix up to the end bound, exclusive. */
  predicate InPruneRange(ns: byte, now: int, key: bytes)
    requires InRange(now)
  {
    !Less(key, [ns]) && Less(key, InclusiveEnd(ByExpTime(ns, now)))
  }

  /**
   The walk meets exactly the entries that expired strictly before now: an entry expiring at this very
   instant sorts behind the bound, because the key it points to starts with a length byte above zero.
   */
  lemma PruneRangeIsExpired(ns: byte, now: int, exp: int, granter: bytes, grantee: bytes)
    requires InRange(now) && InRange(exp) && IsName(granter) && IsName(grantee)
    ensures InPruneRange(ns, now, QueueKey(ns, exp, Body(granter, grantee))) <==> exp < now
  {
    var body := Body(granter, grantee);
    var key, end := QueueKey(ns, exp, body), InclusiveEnd(ByExpTime(ns, now));
    assert !Less(key, [ns]) by {
      assert key[0] == ns && key[1..] != [];
      assert [ns][1..] == [];
    }
    assert body[0] == |grantee| > 0;
    if exp < now {
      QueueOrder(ns, exp, body, now, [0]);
    } else if exp > now {
      QueueOrder(ns, now, [0], exp, body);
      LessAsymmetric(end, key);
    } else {
      LessAfter(ByExpTime(ns, now), body, [0]);
      assert [0][1..] == [];
    }
  }

  /** Keys of different namespaces differ in their first byte. */
  lemma NamespacesDisjoint(ns: byte, queue: byte, granter: bytes, grantee: bytes, exp: int, key: bytes)
    requires Short(granter) && Short(grantee) && InRange(exp) && ns != queue
    ensures GrantKey(ns, granter, grantee).value != QueueKey(queue, exp, key)
  {
    GrantKeyIs(ns, granter, grantee);
    assert GrantKey(ns, granter, grantee).value[0] == ns && QueueKey(queue, exp, key)[0] == queue;
  }

  // ---------- Keys of well-formed names and times ----------

  type Name = b: bytes | IsName(b) witness [0]
  type Instant = t: int | InRange(t) witness 0

  function Key(ns: byte, granter: Name, grantee: Name): (key: bytes)
    ensures |key| > 0 && key[0] == ns
  {
    [ns] + Body(granter, grantee)
  }

  /** The queue entry of a grant. */
  function Entry(queue: byte, exp: Instant, granter: Name, grantee: Name): (key: bytes)
    ensures |key| > 0 && key[0] == queue
  {
    QueueKey(queue, exp, Body(granter, grantee))
  }

  /** The four kinds of key, byte by byte: grantee first, each name behind its length, the time before in a queue. */
  lemma KeyLayout(exp: Instant, granter: Name, grantee: Name)
    ensures var names := [|grantee|] + grantee + ([|granter|] + granter);
            && Key(ACCOUNT, granter, grantee) == [0x00] + names
            && Entry(ACCOUNT_QUEUE, exp, granter, grantee) == [0x01] + FormatTime(exp) + names
            && Key(DID, granter, grantee) == [0x02] + names
            && Entry(DID_QUEUE, exp, granter, grantee) == [0x03] + FormatTime(exp) + names
  {
    hide FormatTime;
  }

  lemma KeyInjective(ns: byte, granter: Name, grantee: Name, granter': Name, grantee': Name)
    ensures Key(ns, granter, grantee) == Key(ns, granter', grantee') <==> granter == granter' && grantee == grantee'
  {
    GrantKeyIs(ns, granter, grantee);
    GrantKeyIs(ns, granter', grantee');
    GrantKeyInjective(ns, granter, grantee, ns, granter', grantee');
  }

  lemma EntryInjective(
    q: byte, exp: Instant, granter: Name, grantee: Name, exp': Instant, granter': Name, grantee': Name)
    ensures Entry(q, exp, granter, grantee) == Entry(q, exp', granter', grantee') <==>
            exp == exp' && granter == granter' && grantee == grantee'
  {
    QueueKeyInjective(q, exp, Body(granter, grantee), q, exp', Body(granter', grantee'));
    KeyInjective(q, granter, grantee, granter', grantee');
    assert Key(q, granter, grantee)[1..] == Body(granter, grantee);
    assert Key(q, granter', grantee')[1..] == Body(granter', grantee');
  }

  lemma EntryParses(q: byte, exp: Instant, granter: Name, grantee: Name)
    ensures ParseQueueKey(Entry(q, exp, granter, grantee)) == Some((granter, grantee))
  {
    ParseUndoesBody(ByExpTime(q, exp), granter, grantee);
  }
}
