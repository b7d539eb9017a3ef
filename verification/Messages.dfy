/**
 Messages as lists of length-delimited fields: the sub-codecs they use, their bytes and size, and what decoding makes
 of them.
 */
module Messages {
  import opened Wrappers
  import opened Lex
  import opened Coins
  import opened Allowance
  import Varint
  import opened Wire
  import opened Decoder

  // ---------- Library sub-codecs ----------

  /**
   A codec from another library (Coin, Any, Timestamp, Duration): `ok` tells which values it can write,
   `merge` decodes on top of a value.
   */
  datatype SubCodec<!T> = SubCodec(empty: T, ok: T -> bool, enc: T -> bytes, merge: (T, bytes) -> Option<T>)

  ghost predicate RoundTrips<T(!new)>(c: SubCodec<T>) {
    forall x :: c.ok(x) ==> c.merge(c.empty, c.enc(x)) == Some(x)
  }

  /** google.protobuf.Any */
  datatype AnyMsg = AnyMsg(typeUrl: Text, value: bytes)

  datatype Codecs = Codecs(
    coin: SubCodec<Coin>, time: SubCodec<Time>, duration: SubCodec<int>, any: SubCodec<AnyMsg>)

  ghost predicate Lawful(cs: Codecs) {
    RoundTrips(cs.coin) && RoundTrips(cs.time) && RoundTrips(cs.duration) && RoundTrips(cs.any)
  }

  // ---------- Fields ----------

  /** A length-delimited field; the field numbers used here fit a one-byte tag. */
  datatype Field = Field(num: int, payload: bytes)

  predicate Numbered(f: Field) {
    1 <= f.num <= 15
  }

  function FieldBytes(f: Field): bytes
    requires Numbered(f)
  {
    [f.num * 8 + 2] + Varint.Encode(|f.payload|) + f.payload
  }

  function Bytes(fs: seq<Field>): bytes
    requires forall f <- fs :: Numbered(f)
  {
    if fs == [] then [] else FieldBytes(fs[0]) + Bytes(fs[1..])
  }

  /** 1 + l + sovFeegrant(l), summed as the Size methods do. */
  function Size(fs: seq<Field>): nat {
    if fs == [] then 0 else 1 + |fs[0].payload| + Varint.Size(|fs[0].payload|) + Size(fs[1..])
  }

  /** Size predicts the number of bytes. */
  lemma {:induction false} SizeIsLength(fs: seq<Field>)
    requires forall f <- fs :: Numbered(f)
    ensures Size(fs) == |Bytes(fs)|
  {
    if fs != [] {
      SizeIsLength(fs[1..]);
      Varint.SizeIsLength(|fs[0].payload|);
    }
  }

  lemma {:induction false} BytesAppend(xs: seq<Field>, ys: seq<Field>)
    requires forall f <- xs + ys :: Numbered(f)
    ensures (forall f <- xs :: Numbered(f)) && (forall f <- ys :: Numbered(f))
    ensures Bytes(xs + ys) == Bytes(xs) + Bytes(ys)
  {
    assert forall f <- xs :: f in xs + ys;
    assert forall f <- ys :: f in xs + ys;
    if xs == [] {
      assert xs + ys == ys;
    } else {
      assert (xs + ys)[1..] == xs[1..] + ys;
      BytesAppend(xs[1..], ys);
    }
  }

  // ---------- Decoding a list of fields ----------

  function PutFields<M>(s: Schema<M>, fs: seq<Field>, m: M): Option<M> {
    if fs == [] then Some(m)
    else match s.put(m, fs[0].num, fs[0].payload)
         case None => None
         case Some(m') => PutFields(s, fs[1..], m')
  }

  lemma PutFieldsFirst<M>(s: Schema<M>, f: Field, fs: seq<Field>, m: M)
    ensures PutFields(s, [f] + fs, m) ==
            match s.put(m, f.num, f.payload) case None => None case Some(m') => PutFields(s, fs, m')
  {
    assert ([f] + fs)[1..] == fs;
  }

  lemma {:induction false} PutFieldsAppend<M>(s: Schema<M>, xs: seq<Field>, ys: seq<Field>, m: M)
    ensures PutFields(s, xs + ys, m) ==
            match PutFields(s, xs, m) case None => None case Some(m') => PutFields(s, ys, m')
    decreases |xs|
  {
    if xs == [] {
      assert xs + ys == ys;
    } else {
      assert (xs + ys)[1..] == xs[1..] + ys;
      match s.put(m, xs[0].num, xs[0].payload) {
        case None =>
        case Some(m') => PutFieldsAppend(s, xs[1..], ys, m');
      }
    }
  }

  function ToRecord(f: Field): Record
    requires Numbered(f)
  {
    LenRecord([f.num * 8 + 2], Varint.Encode(|f.payload|), f.payload)
  }

  function ToRecords(fs: seq<Field>): (rs: seq<Record>)
    requires forall f <- fs :: Numbered(f)
    ensures |rs| == |fs|
  {
    if fs == [] then [] else [ToRecord(fs[0])] + ToRecords(fs[1..])
  }

  lemma FieldIsRecord<M>(s: Schema<M>, f: Field)
    requires Numbered(f) && f.num in s.known && |f.payload| < Varint.TWO_63
    ensures Accepts(s, ToRecord(f)) && FieldNum(ToRecord(f).tag) == f.num && Serial(ToRecord(f)) == FieldBytes(f)
  {
    TagByte(f.num);
    hide IsTag, FieldNum, Varint.IsVarint;
    Varint.EncodeIsVarint(|f.payload|);
  }

  lemma TagByte(num: int)
    requires 1 <= num <= 15
    ensures IsTag([num * 8 + 2], 2) && FieldNum([num * 8 + 2]) == num
  {
    var tag: bytes := [num * 8 + 2];
    assert tag[1..] == [];
    assert Varint.Value(tag) == tag[0];
  }

  lemma {:induction false} FieldsAreRecords<M>(s: Schema<M>, fs: seq<Field>, m: M)
    requires forall f <- fs :: Numbered(f) && f.num in s.known && |f.payload| < Varint.TWO_63
    ensures (forall r <- ToRecords(fs) :: Accepts(s, r) && FieldNum(r.tag) in s.known)
    ensures SerialAll(ToRecords(fs)) == Bytes(fs) && PutAll(s, ToRecords(fs), m) == PutFields(s, fs, m)
    decreases |fs|
  {
    hide Accepts, FieldNum, Serial;
    if fs != [] {
      var f := fs[0];
      FieldIsRecord(s, f);
      assert ToRecords(fs)[1..] == ToRecords(fs[1..]);
      match s.put(m, f.num, f.payload) {
        case None => FieldsAreRecords(s, fs[1..], m);
        case Some(m') => FieldsAreRecords(s, fs[1..], m');
      }
    }
  }

  /** Decoding marshalled fields stores them in order. */
  lemma FieldsDecode<M>(s: Schema<M>, fs: seq<Field>, m: M)
    requires (forall f <- fs :: Numbered(f) && f.num in s.known) && |Bytes(fs)| < Varint.TWO_63
    ensures Unmarshal(s, Bytes(fs), m) == Outcome(PutFields(s, fs, m))
  {
    PayloadsShorter(fs);
    FieldsAreRecords(s, fs, m);
    assert Bytes(fs)[0..] == Bytes(fs);
    UnmarshalReads(s, Bytes(fs), 0, ToRecords(fs), m);
  }

  lemma {:induction false} PayloadsShorter(fs: seq<Field>)
    requires forall f <- fs :: Numbered(f)
    ensures forall f <- fs :: |f.payload| < |Bytes(fs)|
  {
    if fs != [] {
      PayloadsShorter(fs[1..]);
      forall f <- fs ensures |f.payload| < |Bytes(fs)| {
        if f != fs[0] { assert f in fs[1..]; }
      }
    }
  }

  /** ... and unknown records anywhere between them change nothing. */
  lemma FieldsDecodeAmongUnknown<M>(s: Schema<M>, fs: seq<Field>, rs: seq<Record>, m: M)
    requires (forall f <- fs :: Numbered(f) && f.num in s.known) && |Bytes(fs)| < Varint.TWO_63
    requires (forall r <- rs :: Accepts(s, r)) && |SerialAll(rs)| < Varint.TWO_63
    requires KnownOnly(s, rs) == ToRecords(fs)
    ensures Unmarshal(s, SerialAll(rs), m) == Unmarshal(s, Bytes(fs), m)
  {
    PayloadsShorter(fs);
    FieldsAreRecords(s, fs, m);
    UnknownFieldsIgnored(s, rs, m);
  }
}
