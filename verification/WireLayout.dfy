/** The bytes of the fee grant messages, tag by tag, and what each tag does when it is read. */
module WireLayout {
  import opened Wrappers
  import opened Lex
  import opened Varint
  import opened Coins
  import opened Allowance
  import opened Wire
  import opened Decoder
  import opened Messages
  import opened GrantMessages

  /** A tag, the length of the payload and the payload. */
  function Delimited(tag: byte, payload: bytes): bytes {
    [tag] + Encode(|payload|) + payload
  }

  function Repeated(tag: byte, payloads: seq<bytes>): bytes {
    if payloads == [] then [] else Delimited(tag, payloads[0]) + Repeated(tag, payloads[1..])
  }

  /** A text is written only when it is not empty. */
  function TextAt(tag: byte, t: Text): bytes {
    if t == [] then [] else Delimited(tag, t)
  }

  function OptionalAt(tag: byte, payload: Option<bytes>): bytes {
    if payload.None? then [] else Delimited(tag, payload.value)
  }

  function EncodedAny(cs: Codecs, a: Option<AnyMsg>): Option<bytes> {
    if a.Some? then Some(cs.any.enc(a.value)) else None
  }

  function EncodedTime(cs: Codecs, t: Option<Time>): Option<bytes> {
    if t.Some? then Some(cs.time.enc(t.value)) else None
  }

  function EncodedCoins(cs: Codecs, coins: CoinList): seq<bytes> {
    if coins == [] then [] else [cs.coin.enc(coins[0])] + EncodedCoins(cs, coins[1..])
  }

  // ---------- Writing ----------

  lemma OneField(num: int, payload: bytes)
    requires 1 <= num <= 15
    ensures Bytes([Field(num, payload)]) == Delimited(num * 8 + 2, payload)
  {
    var fs := [Field(num, payload)];
    assert fs[1..] == [];
  }

  lemma {:induction false} CoinsLayout(cs: Codecs, num: int, coins: CoinList)
    requires 1 <= num <= 15
    ensures Bytes(CoinFields(cs, num, coins)) == Repeated(num * 8 + 2, EncodedCoins(cs, coins))
  {
    if coins != [] {
      CoinsLayout(cs, num, coins[1..]);
      assert CoinFields(cs, num, coins)[1..] == CoinFields(cs, num, coins[1..]);
      assert EncodedCoins(cs, coins)[1..] == EncodedCoins(cs, coins[1..]);
    }
  }

  lemma {:induction false} TextsLayout(num: int, ts: seq<Text>)
    requires 1 <= num <= 15
    ensures Bytes(RepeatedText(num, ts)) == Repeated(num * 8 + 2, ts)
  {
    if ts != [] {
      TextsLayout(num, ts[1..]);
      assert RepeatedText(num, ts)[1..] == RepeatedText(num, ts[1..]);
    }
  }

  /** Basic allowance: the coins of the limit under 0x0a, the expiry under 0x12. */
  lemma BasicLayout(cs: Codecs, b: Basic)
    ensures BasicBytes(cs, b) ==
            Repeated(0x0a, EncodedCoins(cs, LimitOrEmpty(b))) + OptionalAt(0x12, EncodedTime(cs, b.expiration))
  {
    CoinsLayout(cs, 1, LimitOrEmpty(b));
    BytesAppend(CoinFields(cs, 1, LimitOrEmpty(b)), ExpirationFields(cs, b));
    if b.expiration.Some? { OneField(2, cs.time.enc(b.expiration.value)); }
  }

  /** Periodic allowance: basic part 0x0a, period 0x12, period limit 0x1a, what is left 0x22, next reset 0x2a. */
  lemma PeriodicLayout(cs: Codecs, p: Periodic)
    ensures Bytes(PeriodicFields(cs, p)) ==
            Delimited(0x0a, BasicBytes(cs, p.basic)) + (Delimited(0x12, cs.duration.enc(p.period))
            + (Repeated(0x1a, EncodedCoins(cs, p.periodSpendLimit))
            + (Repeated(0x22, EncodedCoins(cs, p.periodCanSpend)) + Delimited(0x2a, cs.time.enc(p.periodReset)))))
  {
    var f1, f2 := [Field(1, BasicBytes(cs, p.basic))], [Field(2, cs.duration.enc(p.period))];
    var f3, f4 := CoinFields(cs, 3, p.periodSpendLimit), CoinFields(cs, 4, p.periodCanSpend);
    var f5 := [Field(5, cs.time.enc(p.periodReset))];
    OneField(1, BasicBytes(cs, p.basic));
    OneField(2, cs.duration.enc(p.period));
    OneField(5, cs.time.enc(p.periodReset));
    CoinsLayout(cs, 3, p.periodSpendLimit);
    CoinsLayout(cs, 4, p.periodCanSpend);
    hide Bytes, Delimited, Repeated, CoinFields, EncodedCoins, BasicBytes;
    BytesAppend(f4, f5);
    BytesAppend(f3, f4 + f5);
    BytesAppend(f2, f3 + (f4 + f5));
    BytesAppend(f1, f2 + (f3 + (f4 + f5)));
  }

  /** Message filter: the inner allowance under 0x0a, the allowed messages under 0x12. */
  lemma FilterLayout(cs: Codecs, m: FilterMsg)
    ensures Bytes(FilterFields(cs, m)) ==
            OptionalAt(0x0a, EncodedAny(cs, m.allowance)) + Repeated(0x12, m.allowedMessages)
  {
    BytesAppend(AnyFields(cs, 1, m.allowance), RepeatedText(2, m.allowedMessages));
    if m.allowance.Some? { OneField(1, cs.any.enc(m.allowance.value)); }
    TextsLayout(2, m.allowedMessages);
  }

  /** Grant and DIDGrant: the granter under 0x0a, the grantee or its DID under 0x12, the allowance under 0x1a. */
  lemma GrantLayout(cs: Codecs, g: GrantMsg)
    ensures Bytes(GrantFields(cs, g)) ==
            TextAt(0x0a, g.granter) + TextAt(0x12, g.grantee) + OptionalAt(0x1a, EncodedAny(cs, g.allowance))
  {
    var f1, f2, f3 := TextFields(1, g.granter), TextFields(2, g.grantee), AnyFields(cs, 3, g.allowance);
    BytesAppend(f1 + f2, f3);
    BytesAppend(f1, f2);
    if g.granter != [] { OneField(1, g.granter); }
    if g.grantee != [] { OneField(2, g.grantee); }
    if g.allowance.Some? { OneField(3, cs.any.enc(g.allowance.value)); }
  }

  // ---------- Reading ----------

  /** A known field that is not length-delimited is an error; an unknown one has no effect. */
  lemma OneRecord<M>(s: Schema<M>, r: Record, m: M)
    requires WellFormed(r) && FieldNum(r.tag) > 0 && |Serial(r)| < TWO_63
    ensures FieldNum(r.tag) !in s.known ==> Unmarshal(s, Serial(r), m) == Ok(m)
    ensures FieldNum(r.tag) in s.known && !r.LenRecord? ==> Unmarshal(s, Serial(r), m) == Err(WrongWireType)
    ensures FieldNum(r.tag) in s.known && r.LenRecord? ==>
              Unmarshal(s, Serial(r), m) == Outcome(s.put(m, FieldNum(r.tag), r.payload))
  {
    var d := Serial(r);
    assert At(d, 0, Serial(r)) by { assert d[0..|d|] == d; }
    TagReads(d, 0, r);
    hide WellFormed, Serial, FieldNum, Read;
    if FieldNum(r.tag) in s.known && !r.LenRecord? {
      WrongType(s, r, m);
    } else {
      assert Accepts(s, r);
      var rs := [r];
      assert rs[1..] == [] && SerialAll(rs) == d by { assert SerialAll([]) == []; assert d + [] == d; }
      assert d[0..] == d;
      UnmarshalReads(s, d, 0, rs, m);
    }
  }

  lemma WrongType<M>(s: Schema<M>, r: Record, m: M)
    requires WellFormed(r) && FieldNum(r.tag) > 0 && FieldNum(r.tag) in s.known && !r.LenRecord?
    ensures Unmarshal(s, Serial(r), m) == Err(WrongWireType)
  {
    var d := Serial(r);
    assert At(d, 0, Serial(r)) by { assert d[0..|d|] == d; }
    TagReads(d, 0, r);
    hide WellFormed, Serial, Read;
  }

  /** The field number is the low 32 bits of the tag without its type, as a signed number. */
  lemma FieldNumber(tag: bytes)
    ensures var low := Word(tag) / 8 % 0x1_0000_0000;
            FieldNum(tag) == if low < 0x8000_0000 then low else low - 0x1_0000_0000
  {
  }

  /** A length that takes the position past 2^63 - 1 is invalid, one past the end of the data is an unexpected end. */
  lemma LengthErrors(d: bytes, i: nat)
    requires Read(d, i).Ok?
    ensures var (n, j) := Read(d, i).value;
            ReadPayload(d, i) == if j + n >= 0x8000_0000_0000_0000 then Err(InvalidLength)
                                 else if j + n > |d| then Err(UnexpectedEOF)
                                 else Ok((d[j..j + n], j + n))
  {
    hide Read;
  }

  lemma ReadsDelimited<M>(s: Schema<M>, num: int, payload: bytes, m: M)
    requires 1 <= num <= 15 && num in s.known && |Delimited(num * 8 + 2, payload)| < TWO_63
    ensures Unmarshal(s, Delimited(num * 8 + 2, payload), m) == Outcome(s.put(m, num, payload))
  {
    var fs := [Field(num, payload)];
    OneField(num, payload);
    FieldsDecode(s, fs, m);
    assert fs[1..] == [];
  }

  /** Reading a Grant or DIDGrant, tag by tag, on top of any message. */
  lemma GrantReads(cs: Codecs, m: GrantMsg, payload: bytes)
    requires |payload| < TWO_63 - 16
    ensures Unmarshal(GrantSchema(cs), Delimited(0x0a, payload), m) == Ok(m.(granter := payload))
    ensures Unmarshal(GrantSchema(cs), Delimited(0x12, payload), m) == Ok(m.(grantee := payload))
    ensures Unmarshal(GrantSchema(cs), Delimited(0x1a, payload), m) ==
            match cs.any.merge(if m.allowance.Some? then m.allowance.value else cs.any.empty, payload)
            case None => Err(BadSubMessage)
            case Some(a) => Ok(m.(allowance := Some(a)))
  {
    DelimitedFits(payload);
    hide Delimited, Unmarshal;
    ReadsDelimited(GrantSchema(cs), 1, payload, m);
    ReadsDelimited(GrantSchema(cs), 2, payload, m);
    ReadsDelimited(GrantSchema(cs), 3, payload, m);
  }

  lemma DelimitedFits(payload: bytes)
    requires |payload| < TWO_63 - 16
    ensures forall tag: byte :: |Delimited(tag, payload)| < TWO_63
  {
    EncodeIsVarint(|payload|);
  }

  /** Reading a message filter. */
  lemma FilterReads(cs: Codecs, m: FilterMsg, payload: bytes)
    requires |payload| < TWO_63 - 16
    ensures Unmarshal(FilterSchema(cs), Delimited(0x0a, payload), m) ==
            match cs.any.merge(if m.allowance.Some? then m.allowance.value else cs.any.empty, payload)
            case None => Err(BadSubMessage)
            case Some(a) => Ok(m.(allowance := Some(a)))
    ensures Unmarshal(FilterSchema(cs), Delimited(0x12, payload), m) ==
            Ok(m.(allowedMessages := m.allowedMessages + [payload]))
  {
    DelimitedFits(payload);
    hide Delimited, Unmarshal;
    ReadsDelimited(FilterSchema(cs), 1, payload, m);
    ReadsDelimited(FilterSchema(cs), 2, payload, m);
  }

  /** Reading a basic allowance. */
  lemma BasicReads(cs: Codecs, m: Basic, payload: bytes)
    requires |payload| < TWO_63 - 16
    ensures Unmarshal(BasicSchema(cs), Delimited(0x0a, payload), m) ==
            match cs.coin.merge(cs.coin.empty, payload)
            case None => Err(BadSubMessage)
            case Some(c) => Ok(m.(spendLimit := Some(LimitOrEmpty(m) + [c])))
    ensures Unmarshal(BasicSchema(cs), Delimited(0x12, payload), m) ==
            match cs.time.merge(if m.expiration.Some? then m.expiration.value else cs.time.empty, payload)
            case None => Err(BadSubMessage)
            case Some(t) => Ok(m.(expiration := Some(t)))
  {
    DelimitedFits(payload);
    hide Delimited, Unmarshal;
    ReadsDelimited(BasicSchema(cs), 1, payload, m);
    ReadsDelimited(BasicSchema(cs), 2, payload, m);
  }


  /** Reading a periodic allowance: its basic part, its period and its next reset. */
  lemma PeriodicReads(cs: Codecs, m: Periodic, payload: bytes)
    requires |payload| < TWO_63 - 16
    ensures Unmarshal(PeriodicSchema(cs), Delimited(0x0a, payload), m) ==
            match Unmarshal(BasicSchema(cs), payload, m.basic)
            case Err(_) => Err(BadSubMessage)
            case Ok(b) => Ok(m.(basic := b))
    ensures Unmarshal(PeriodicSchema(cs), Delimited(0x12, payload), m) ==
            match cs.duration.merge(m.period, payload)
            case None => Err(BadSubMessage)
            case Some(t) => Ok(m.(period := t))
    ensures Unmarshal(PeriodicSchema(cs), Delimited(0x2a, payload), m) ==
            match cs.time.merge(m.periodReset, payload)
            case None => Err(BadSubMessage)
            case Some(t) => Ok(m.(periodReset := t))
  {
    DelimitedFits(payload);
    hide Delimited, Unmarshal;
    ReadsDelimited(PeriodicSchema(cs), 1, payload, m);
    ReadsDelimited(PeriodicSchema(cs), 2, payload, m);
    ReadsDelimited(PeriodicSchema(cs), 5, payload, m);
  }

  /** Reading a periodic allowance: the coins of the period limit and of what is left of it. */
  lemma PeriodicReadsCoins(cs: Codecs, m: Periodic, payload: bytes)
    requires |payload| < TWO_63 - 16
    ensures Unmarshal(PeriodicSchema(cs), Delimited(0x1a, payload), m) ==
            match cs.coin.merge(cs.coin.empty, payload)
            case None => Err(BadSubMessage)
            case Some(c) => Ok(m.(periodSpendLimit := m.periodSpendLimit + [c]))
    ensures Unmarshal(PeriodicSchema(cs), Delimited(0x22, payload), m) ==
            match cs.coin.merge(cs.coin.empty, payload)
            case None => Err(BadSubMessage)
            case Some(c) => Ok(m.(periodCanSpend := m.periodCanSpend + [c]))
  {
    DelimitedFits(payload);
    hide Delimited, Unmarshal;
    ReadsDelimited(PeriodicSchema(cs), 3, payload, m);
    ReadsDelimited(PeriodicSchema(cs), 4, payload, m);
  }

  /** The field numbers each message knows; by OneRecord a record with any other number has no effect. */
  lemma KnownFields(cs: Codecs, num: int)
    ensures num in BasicSchema(cs).known <==> 1 <= num <= 2
    ensures num in PeriodicSchema(cs).known <==> 1 <= num <= 5
    ensures num in FilterSchema(cs).known <==> 1 <= num <= 2
    ensures num in GrantSchema(cs).known <==> 1 <= num <= 3
  {
  }
}
