/** BasicAllowance, PeriodicAllowance, AllowedMsgAllowance, Grant and DIDGrant on the wire. */
module GrantMessages {
  import opened Wrappers
  import opened Lex
  import opened Coins
  import opened Allowance
  import opened Wire
  import Varint
  import opened Decoder
  import opened Messages

  /** AllowedMsgAllowance before its Any is unpacked. */
  datatype FilterMsg = FilterMsg(allowance: Option<AnyMsg>, allowedMessages: seq<Text>)

  /** Grant and DIDGrant: the two share one layout, field 2 being the grantee address or the grantee DID. */
  datatype GrantMsg = GrantMsg(granter: Text, grantee: Text, allowance: Option<AnyMsg>)

  // ---------- What Unmarshal does with each field ----------

  function BasicPut(cs: Codecs, m: Basic, num: int, bs: bytes): Option<Basic> {
    if num == 1 then
      match cs.coin.merge(cs.coin.empty, bs)
      case None => None
      case Some(c) => Some(m.(spendLimit := Some(LimitOrEmpty(m) + [c])))
    else
      match cs.time.merge(if m.expiration.Some? then m.expiration.value else cs.time.empty, bs)
      case None => None
      case Some(t) => Some(m.(expiration := Some(t)))
  }

  function BasicSchema(cs: Codecs): Schema<Basic> {
    Schema({1, 2}, (m, num, bs) => BasicPut(cs, m, num, bs))
  }

  const NEW_BASIC := Basic(None, None)

  function PeriodicPut(cs: Codecs, m: Periodic, num: int, bs: bytes): Option<Periodic> {
    match num
    case 1 => (match Unmarshal(BasicSchema(cs), bs, m.basic)
               case Err(_) => None
               case Ok(b) => Some(m.(basic := b)))
    case 2 => (match cs.duration.merge(m.period, bs)
               case None => None
               case Some(t) => Some(m.(period := t)))
    case 3 => (match cs.coin.merge(cs.coin.empty, bs)
               case None => None
               case Some(c) => Some(m.(periodSpendLimit := m.periodSpendLimit + [c])))
    case 4 => (match cs.coin.merge(cs.coin.empty, bs)
               case None => None
               case Some(c) => Some(m.(periodCanSpend := m.periodCanSpend + [c])))
    case _ => (match cs.time.merge(m.periodReset, bs)
               case None => None
               case Some(t) => Some(m.(periodReset := t)))
  }

  function PeriodicSchema(cs: Codecs): Schema<Periodic> {
    Schema({1, 2, 3, 4, 5}, (m, num, bs) => PeriodicPut(cs, m, num, bs))
  }

  function NewPeriodic(cs: Codecs): Periodic {
    Periodic(NEW_BASIC, cs.duration.empty, [], [], cs.time.empty)
  }

  function MergeAny(cs: Codecs, current: Option<AnyMsg>, bs: bytes): Option<AnyMsg> {
    cs.any.merge(if current.Some? then current.value else cs.any.empty, bs)
  }

  function FilterPut(cs: Codecs, m: FilterMsg, num: int, bs: bytes): Option<FilterMsg> {
    if num == 1 then
      match MergeAny(cs, m.allowance, bs)
      case None => None
      case Some(a) => Some(m.(allowance := Some(a)))
    else Some(m.(allowedMessages := m.allowedMessages + [bs]))
  }

  function FilterSchema(cs: Codecs): Schema<FilterMsg> {
    Schema({1, 2}, (m, num, bs) => FilterPut(cs, m, num, bs))
  }

  const NEW_FILTER := FilterMsg(None, [])

  function GrantPut(cs: Codecs, m: GrantMsg, num: int, bs: bytes): Option<GrantMsg> {
    match num
    case 1 => Some(m.(granter := bs))
    case 2 => Some(m.(grantee := bs))
    case _ => (match MergeAny(cs, m.allowance, bs)
               case None => None
               case Some(a) => Some(m.(allowance := Some(a))))
  }

  function GrantSchema(cs: Codecs): Schema<GrantMsg> {
    Schema({1, 2, 3}, (m, num, bs) => GrantPut(cs, m, num, bs))
  }

  const NEW_GRANT := GrantMsg([], [], None)

  // ---------- The fields Marshal writes, in order ----------

  function CoinFields(cs: Codecs, num: int, coins: CoinList): (fs: seq<Field>)
    ensures forall f <- fs :: f.num == num
  {
    if coins == [] then [] else [Field(num, cs.coin.enc(coins[0]))] + CoinFields(cs, num, coins[1..])
  }

  function ExpirationFields(cs: Codecs, b: Basic): (fs: seq<Field>)
    ensures forall f <- fs :: f.num == 2
  {
    if b.expiration.Some? then [Field(2, cs.time.enc(b.expiration.value))] else []
  }

  function BasicFields(cs: Codecs, b: Basic): (fs: seq<Field>)
    ensures forall f <- fs :: f.num in {1, 2}
  {
    CoinFields(cs, 1, LimitOrEmpty(b)) + ExpirationFields(cs, b)
  }

  function BasicBytes(cs: Codecs, b: Basic): bytes {
    Bytes(BasicFields(cs, b))
  }

  function PeriodicBudgetFields(cs: Codecs, p: Periodic): (fs: seq<Field>)
    ensures forall f <- fs :: f.num in {3, 4, 5}
  {
    CoinFields(cs, 3, p.periodSpendLimit)
    + (CoinFields(cs, 4, p.periodCanSpend) + [Field(5, cs.time.enc(p.periodReset))])
  }

  function PeriodicFields(cs: Codecs, p: Periodic): (fs: seq<Field>)
    ensures forall f <- fs :: f.num in {1, 2, 3, 4, 5}
  {
    [Field(1, BasicBytes(cs, p.basic))] + ([Field(2, cs.duration.enc(p.period))] + PeriodicBudgetFields(cs, p))
  }

  function AnyFields(cs: Codecs, num: int, a: Option<AnyMsg>): (fs: seq<Field>)
    ensures forall f <- fs :: f.num == num
  {
    if a.Some? then [Field(num, cs.any.enc(a.value))] else []
  }

  function RepeatedText(num: int, ts: seq<Text>): (fs: seq<Field>)
    ensures forall f <- fs :: f.num == num
  {
    if ts == [] then [] else [Field(num, ts[0])] + RepeatedText(num, ts[1..])
  }

  function FilterFields(cs: Codecs, m: FilterMsg): (fs: seq<Field>)
    ensures forall f <- fs :: f.num in {1, 2}
  {
    AnyFields(cs, 1, m.allowance) + RepeatedText(2, m.allowedMessages)
  }

  /** A proto3 string field is written only when it is not empty. */
  function TextFields(num: int, t: Text): (fs: seq<Field>)
    ensures forall f <- fs :: f.num == num
  {
    if t == [] then [] else [Field(num, t)]
  }

  function GrantFields(cs: Codecs, m: GrantMsg): (fs: seq<Field>)
    ensures forall f <- fs :: f.num in {1, 2, 3}
  {
    TextFields(1, m.granter) + TextFields(2, m.grantee) + AnyFields(cs, 3, m.allowance)
  }

  // ---------- What the sub-codecs can write ----------

  predicate CoinsOk(cs: Codecs, coins: CoinList) {
    forall c <- coins :: cs.coin.ok(c)
  }

  predicate BasicOk(cs: Codecs, b: Basic) {
    CoinsOk(cs, LimitOrEmpty(b)) && (b.expiration.Some? ==> cs.time.ok(b.expiration.value))
  }

  predicate PeriodicOk(cs: Codecs, p: Periodic) {
    && BasicOk(cs, p.basic) && cs.duration.ok(p.period) && cs.time.ok(p.periodReset)
    && CoinsOk(cs, p.periodSpendLimit) && CoinsOk(cs, p.periodCanSpend)
  }

  predicate AnyOk(cs: Codecs, a: Option<AnyMsg>) {
    a.Some? ==> cs.any.ok(a.value)
  }

  // ---------- Round trips ----------

  lemma {:induction false} BasicCoinsPut(cs: Codecs, coins: CoinList, m: Basic)
    requires Lawful(cs) && CoinsOk(cs, coins)
    ensures PutFields(BasicSchema(cs), CoinFields(cs, 1, coins), m) ==
            Some(if coins == [] then m else m.(spendLimit := Some(LimitOrEmpty(m) + coins)))
    decreases |coins|
  {
    if coins != [] {
      var m' := m.(spendLimit := Some(LimitOrEmpty(m) + [coins[0]]));
      assert CoinFields(cs, 1, coins)[1..] == CoinFields(cs, 1, coins[1..]);
      BasicCoinsPut(cs, coins[1..], m');
      assert LimitOrEmpty(m') + coins[1..] == LimitOrEmpty(m) + coins;
      assert coins[1..] == [] ==> coins == [coins[0]];
    }
  }

  /** An empty list of coins is not written, so it comes back as a missing one. */
  function Reloaded(b: Basic): Basic {
    if b.spendLimit == Some([]) then b.(spendLimit := None) else b
  }

  /**
   Unmarshal undoes Marshal for every BasicAllowance, except that an empty spend limit comes back as a
   missing one: as unlimited. It is the identity exactly on allowances without an empty limit.
   */
  lemma BasicRoundTrip(cs: Codecs, b: Basic)
    requires Lawful(cs) && BasicOk(cs, b) && |BasicBytes(cs, b)| < Varint.TWO_63
    ensures Unmarshal(BasicSchema(cs), BasicBytes(cs, b), NEW_BASIC) ==
            Ok(Reloaded(b))
    ensures Unmarshal(BasicSchema(cs), BasicBytes(cs, b), NEW_BASIC) == Ok(b) <==> b.spendLimit != Some([])
  {
    var s, limit := BasicSchema(cs), LimitOrEmpty(b);
    FieldsDecode(s, BasicFields(cs, b), NEW_BASIC);
    PutFieldsAppend(s, CoinFields(cs, 1, limit), ExpirationFields(cs, b), NEW_BASIC);
    BasicCoinsPut(cs, limit, NEW_BASIC);
    assert [] + limit == limit;
    if b.expiration.Some? {
      assert ExpirationFields(cs, b)[1..] == [];
    }
  }

  lemma {:induction false} PeriodicCoinsPut(cs: Codecs, num: int, coins: CoinList, m: Periodic)
    requires Lawful(cs) && CoinsOk(cs, coins) && num in {3, 4}
    ensures PutFields(PeriodicSchema(cs), CoinFields(cs, num, coins), m) ==
            Some(if num == 3 then m.(periodSpendLimit := m.periodSpendLimit + coins)
                 else m.(periodCanSpend := m.periodCanSpend + coins))
    decreases |coins|
  {
    if coins == [] {
      assert m.periodSpendLimit + coins == m.periodSpendLimit && m.periodCanSpend + coins == m.periodCanSpend;
    } else {
      var c := coins[0];
      var m' := if num == 3 then m.(periodSpendLimit := m.periodSpendLimit + [c])
                else m.(periodCanSpend := m.periodCanSpend + [c]);
      assert CoinFields(cs, num, coins)[1..] == CoinFields(cs, num, coins[1..]);
      PeriodicCoinsPut(cs, num, coins[1..], m');
      assert m.periodSpendLimit + coins == m.periodSpendLimit + [c] + coins[1..];
      assert m.periodCanSpend + coins == m.periodCanSpend + [c] + coins[1..];
    }
  }

  lemma PeriodicBudgetPut(cs: Codecs, p: Periodic, m: Periodic)
    requires Lawful(cs) && PeriodicOk(cs, p) && m.periodSpendLimit == [] == m.periodCanSpend
    requires m.periodReset == cs.time.empty
    ensures PutFields(PeriodicSchema(cs), PeriodicBudgetFields(cs, p), m) ==
            Some(m.(periodSpendLimit := p.periodSpendLimit, periodCanSpend := p.periodCanSpend,
                    periodReset := p.periodReset))
  {
    var s := PeriodicSchema(cs);
    var f3, f4 := CoinFields(cs, 3, p.periodSpendLimit), CoinFields(cs, 4, p.periodCanSpend);
    var f5 := Field(5, cs.time.enc(p.periodReset));
    var m3 := m.(periodSpendLimit := p.periodSpendLimit);
    var m4 := m3.(periodCanSpend := p.periodCanSpend);
    assert m.periodSpendLimit + p.periodSpendLimit == p.periodSpendLimit;
    assert m3.periodCanSpend + p.periodCanSpend == p.periodCanSpend;
    PeriodicCoinsPut(cs, 3, p.periodSpendLimit, m);
    PeriodicCoinsPut(cs, 4, p.periodCanSpend, m3);
    PutFieldsAppend(s, f3, f4 + [f5], m);
    PutFieldsAppend(s, f4, [f5], m3);
    PutFieldsFirst(s, f5, [], m4);
    assert [f5] + [] == [f5];
  }

  lemma PeriodicFieldsPut(cs: Codecs, p: Periodic)
    requires Lawful(cs) && PeriodicOk(cs, p) && |BasicBytes(cs, p.basic)| < Varint.TWO_63
    ensures PutFields(PeriodicSchema(cs), PeriodicFields(cs, p), NewPeriodic(cs)) ==
            Some(p.(basic := Reloaded(p.basic)))
  {
    var s, m := PeriodicSchema(cs), NewPeriodic(cs);
    var f1, f2, rest :=
      Field(1, BasicBytes(cs, p.basic)), Field(2, cs.duration.enc(p.period)), PeriodicBudgetFields(cs, p);
    BasicRoundTrip(cs, p.basic);
    PeriodicBudgetPut(cs, p, m.(basic := Reloaded(p.basic), period := p.period));
    hide PutFields, CoinFields, PeriodicBudgetFields, Unmarshal, BasicBytes;
    PutFieldsFirst(s, f1, [f2] + rest, m);
    PutFieldsFirst(s, f2, rest, m.(basic := Reloaded(p.basic)));
  }

  /** Likewise for a PeriodicAllowance, whose basic part is a nested message. */
  lemma PeriodicRoundTrip(cs: Codecs, p: Periodic)
    requires Lawful(cs) && PeriodicOk(cs, p) && |Bytes(PeriodicFields(cs, p))| < Varint.TWO_63
    ensures Unmarshal(PeriodicSchema(cs), Bytes(PeriodicFields(cs, p)), NewPeriodic(cs)) ==
            Ok(p.(basic := Reloaded(p.basic)))
    ensures Unmarshal(PeriodicSchema(cs), Bytes(PeriodicFields(cs, p)), NewPeriodic(cs)) == Ok(p) <==>
            p.basic.spendLimit != Some([])
  {
    var fs := PeriodicFields(cs, p);
    assert fs[0] == Field(1, BasicBytes(cs, p.basic)) && fs[0] in fs;
    PayloadsShorter(fs);
    FieldsDecode(PeriodicSchema(cs), fs, NewPeriodic(cs));
    PeriodicFieldsPut(cs, p);
  }

  lemma {:induction false} TextsPut(cs: Codecs, ts: seq<Text>, m: FilterMsg)
    ensures PutFields(FilterSchema(cs), RepeatedText(2, ts), m) == Some(m.(allowedMessages := m.allowedMessages + ts))
    decreases |ts|
  {
    if ts == [] {
      assert m.allowedMessages + ts == m.allowedMessages;
    } else {
      assert RepeatedText(2, ts)[1..] == RepeatedText(2, ts[1..]);
      TextsPut(cs, ts[1..], m.(allowedMessages := m.allowedMessages + [ts[0]]));
      assert m.allowedMessages + ts == m.allowedMessages + [ts[0]] + ts[1..];
    }
  }

  lemma FilterRoundTrip(cs: Codecs, m: FilterMsg)
    requires Lawful(cs) && AnyOk(cs, m.allowance) && |Bytes(FilterFields(cs, m))| < Varint.TWO_63
    ensures Unmarshal(FilterSchema(cs), Bytes(FilterFields(cs, m)), NEW_FILTER) == Ok(m)
  {
    var s := FilterSchema(cs);
    var fs := AnyFields(cs, 1, m.allowance);
    FieldsDecode(s, FilterFields(cs, m), NEW_FILTER);
    PutFieldsAppend(s, fs, RepeatedText(2, m.allowedMessages), NEW_FILTER);
    var m1 := NEW_FILTER.(allowance := m.allowance);
    if m.allowance.Some? { assert fs[1..] == []; }
    assert PutFields(s, fs, NEW_FILTER) == Some(m1);
    TextsPut(cs, m.allowedMessages, m1);
    assert [] + m.allowedMessages == m.allowedMessages;
  }

  lemma GrantFieldsPut(cs: Codecs, g: GrantMsg)
    requires Lawful(cs) && AnyOk(cs, g.allowance)
    ensures PutFields(GrantSchema(cs), GrantFields(cs, g), NEW_GRANT) == Some(g)
  {
    var s := GrantSchema(cs);
    var f1, f2, f3 := TextFields(1, g.granter), TextFields(2, g.grantee), AnyFields(cs, 3, g.allowance);
    assert |f1| == 1 ==> f1[1..] == [];
    assert |f2| == 1 ==> f2[1..] == [];
    assert |f3| == 1 ==> f3[1..] == [];
    var m1 := NEW_GRANT.(granter := g.granter);
    var m2 := m1.(grantee := g.grantee);
    assert PutFields(s, f1, NEW_GRANT) == Some(m1);
    assert PutFields(s, f2, m1) == Some(m2);
    PutFieldsAppend(s, f1, f2, NEW_GRANT);
    PutFieldsAppend(s, f1 + f2, f3, NEW_GRANT);
  }

  /** Unmarshal undoes Marshal for every Grant and DIDGrant. */
  lemma GrantRoundTrip(cs: Codecs, g: GrantMsg)
    requires Lawful(cs) && AnyOk(cs, g.allowance) && |Bytes(GrantFields(cs, g))| < Varint.TWO_63
    ensures Unmarshal(GrantSchema(cs), Bytes(GrantFields(cs, g)), NEW_GRANT) == Ok(g)
  {
    FieldsDecode(GrantSchema(cs), GrantFields(cs, g), NEW_GRANT);
    GrantFieldsPut(cs, g);
  }

  /** ... even with unknown fields, nested groups included, put anywhere between its fields. */
  lemma GrantRoundTripAmongUnknown(cs: Codecs, g: GrantMsg, rs: seq<Record>)
    requires Lawful(cs) && AnyOk(cs, g.allowance) && |Bytes(GrantFields(cs, g))| < Varint.TWO_63
    requires (forall r <- rs :: Accepts(GrantSchema(cs), r)) && |SerialAll(rs)| < Varint.TWO_63
    requires KnownOnly(GrantSchema(cs), rs) == ToRecords(GrantFields(cs, g))
    ensures Unmarshal(GrantSchema(cs), SerialAll(rs), NEW_GRANT) == Ok(g)
  {
    hide Accepts;
    FieldsDecodeAmongUnknown(GrantSchema(cs), GrantFields(cs, g), rs, NEW_GRANT);
    GrantRoundTrip(cs, g);
  }
}
