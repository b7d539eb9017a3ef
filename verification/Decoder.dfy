/**
 The Unmarshal loop of feegrant.pb.go. The five generated copies differ only in which field numbers
 they know (all of them length-delimited) and in what they do with a payload: a `Schema`.
 */
module Decoder {
  import opened Wrappers
  import opened Lex
  import opened Varint
  import opened Wire

  /** `put(m, num, payload)` stores a payload; None is an error from a sub-message. */
  datatype Schema<!M> = Schema(known: set<int>, put: (M, int, bytes) -> Option<M>)

  /** int32(wire >> 3) */
  function Int32(x: nat): int {
    var low := x % 0x1_0000_0000;
    if low >= 0x8000_0000 then low - 0x1_0000_0000 else low
  }

  function FieldNum(tag: bytes): int {
    Int32(Word(tag) / 8)
  }

  // ---------- The loop ----------

  /** Length prefix and payload of a known field: the payload and the position after it. */
  function ReadPayload(d: bytes, i: nat): (r: Result<(bytes, nat), WireError>)
    ensures r.Ok? ==> i < r.value.1 <= |d|
  {
    var (n, j) :- Read(d, i);
    if n >= TWO_63 || j + n >= TWO_63 then Err(InvalidLength)
    else if j + n > |d| then Err(UnexpectedEOF)
    else Ok((d[j..j + n], j + n))
  }

  function SkipAt(d: bytes, i: nat): (r: Result<nat, WireError>)
    requires i <= |d|
    ensures r.Ok? ==> i < r.value <= |d|
  {
    var n :- SkipFrom(d[i..], 0, 0);
    if i + n >= TWO_63 then Err(InvalidLength) else if i + n > |d| then Err(UnexpectedEOF) else Ok(i + n)
  }

  /** One iteration: the position after the field at `i` and the message with that field stored. */
  function ReadField<M>(s: Schema<M>, d: bytes, i: nat, m: M): (r: Result<(nat, M), WireError>)
    requires i < |d|
    ensures r.Ok? ==> i < r.value.0 <= |d|
  {
    var (wire, j) :- Read(d, i);
    var num := Int32(wire / 8);
    if wire % 8 == 4 then Err(EndGroupForNonGroup)
    else if num <= 0 then Err(IllegalTag)
    else if num in s.known then
      if wire % 8 != 2 then Err(WrongWireType)
      else
        var (payload, k) :- ReadPayload(d, j);
        match s.put(m, num, payload)
        case None => Err(BadSubMessage)
        case Some(m') => Ok((k, m'))
    else
      var k :- SkipAt(d, i);
      Ok((k, m))
  }

  function UnmarshalFrom<M>(s: Schema<M>, d: bytes, i: nat, m: M): Result<M, WireError>
    requires i <= |d|
    decreases |d| - i
  {
    if i == |d| then Ok(m)
    else
      var (j, m') :- ReadField(s, d, i, m);
      UnmarshalFrom(s, d, j, m')
  }

  /** (m *T) Unmarshal(dAtA), run on a message already holding `m`. */
  function Unmarshal<M>(s: Schema<M>, d: bytes, m: M): Result<M, WireError> {
    UnmarshalFrom(s, d, 0, m)
  }

  /** The loop body as the generated code runs it. */
  method ReadFieldLoop<M>(s: Schema<M>, d: bytes, i: nat, m: M) returns (r: Result<(nat, M), WireError>)
    requires i < |d| < TWO_63
    ensures r == ReadField(s, d, i, m)
  {
    var tag := ReadLoop(d, i);
    if tag.Err? { return Err(tag.error); }
    var (wire, j) := tag.value;
    var num := Int32(wire / 8);
    if wire % 8 == 4 { return Err(EndGroupForNonGroup); }
    if num <= 0 { return Err(IllegalTag); }
    if num in s.known {
      if wire % 8 != 2 { return Err(WrongWireType); }
      var length := ReadLoop(d, j);
      if length.Err? { return Err(length.error); }
      var (n, k) := length.value;
      if n >= TWO_63 { return Err(InvalidLength); }
      if k + n >= TWO_63 { return Err(InvalidLength); }
      if k + n > |d| { return Err(UnexpectedEOF); }
      var stored := s.put(m, num, d[k..k + n]);
      if stored.None? { return Err(BadSubMessage); }
      return Ok((k + n, stored.value));
    }
    var skipped := Skip(d[i..]);
    if skipped.Err? { return Err(skipped.error); }
    if i + skipped.value >= TWO_63 { return Err(InvalidLength); }
    if i + skipped.value > |d| { return Err(UnexpectedEOF); }
    return Ok((i + skipped.value, m));
  }

  /** Unmarshal as the generated code runs it. */
  method UnmarshalLoop<M>(s: Schema<M>, d: bytes, init: M) returns (r: Result<M, WireError>)
    requires |d| < TWO_63
    ensures r == Unmarshal(s, d, init)
  {
    var m, i := init, 0;
    while i < |d|
      invariant 0 <= i <= |d|
      invariant Unmarshal(s, d, init) == UnmarshalFrom(s, d, i, m)
    {
      var step := ReadFieldLoop(s, d, i, m);
      if step.Err? { return Err(step.error); }
      i, m := step.value.0, step.value.1;
    }
    return Ok(m);
  }

  // ---------- The loop accepts exactly the sequences of records ----------

  predicate Accepts<M>(s: Schema<M>, r: Record) {
    && WellFormed(r)
    && FieldNum(r.tag) > 0
    && (FieldNum(r.tag) in s.known ==> r.LenRecord?)
  }

  function Put<M>(s: Schema<M>, r: Record, m: M): Option<M>
    requires Accepts(s, r)
  {
    if FieldNum(r.tag) in s.known then s.put(m, FieldNum(r.tag), r.payload) else Some(m)
  }

  /** The message after storing the known fields of `rs` in order; unknown ones have no effect. */
  function PutAll<M>(s: Schema<M>, rs: seq<Record>, m: M): Option<M>
    requires forall r <- rs :: Accepts(s, r)
  {
    if rs == [] then Some(m)
    else match Put(s, rs[0], m)
         case None => None
         case Some(m') => PutAll(s, rs[1..], m')
  }

  function Outcome<T>(o: Option<T>): Result<T, WireError> {
    match o
    case None => Err(BadSubMessage)
    case Some(x) => Ok(x)
  }

  lemma TagReads(d: bytes, i: nat, r: Record)
    requires WellFormed(r) && At(d, i, Serial(r))
    ensures Read(d, i) == Ok((Word(r.tag), i + |r.tag|)) && Word(r.tag) % 8 != 4
    ensures r.LenRecord? <==> Word(r.tag) % 8 == 2
    ensures |Serial(r)| > 0
  {
    var rest := Serial(r)[|r.tag|..];
    assert Serial(r) == r.tag + rest;
    AtParts(d, i, r.tag, rest);
    ReadsAt(d, i, r.tag);
  }

  lemma PayloadReads(d: bytes, i: nat, r: Record)
    requires |d| < TWO_63 && WellFormed(r) && r.LenRecord? && At(d, i, Serial(r))
    ensures ReadPayload(d, i + |r.tag|) == Ok((r.payload, i + |Serial(r)|))
  {
    hide IsVarint, Read, Word;
    assert Serial(r) == r.tag + (r.len + r.payload);
    AtParts(d, i, r.tag, r.len + r.payload);
    AtParts(d, i + |r.tag|, r.len, r.payload);
    ReadsAt(d, i + |r.tag|, r.len);
  }

  lemma SkipReads(d: bytes, i: nat, r: Record)
    requires |d| < TWO_63 && WellFormed(r) && At(d, i, Serial(r))
    ensures SkipAt(d, i) == Ok(i + |Serial(r)|)
  {
    hide IsVarint, WellFormed, Serial, SkipFrom;
    assert d[i..][0..|Serial(r)|] == d[i..i + |Serial(r)|];
    SkipsRecord(d[i..], 0, r, 0);
  }

  lemma FieldReads<M>(s: Schema<M>, d: bytes, i: nat, r: Record, m: M)
    requires |d| < TWO_63 && Accepts(s, r) && At(d, i, Serial(r)) && i < |d|
    ensures ReadField(s, d, i, m) ==
            match Put(s, r, m) case None => Err(BadSubMessage) case Some(m') => Ok((i + |Serial(r)|, m'))
  {
    hide Read, ReadPayload, SkipAt, Word;
    TagReads(d, i, r);
    if r.LenRecord? { PayloadReads(d, i, r); }
    SkipReads(d, i, r);
  }

  lemma {:induction false} UnmarshalReads<M>(s: Schema<M>, d: bytes, i: nat, rs: seq<Record>, m: M)
    requires |d| < TWO_63 && i <= |d| && d[i..] == SerialAll(rs)
    requires forall r <- rs :: Accepts(s, r)
    ensures UnmarshalFrom(s, d, i, m) == Outcome(PutAll(s, rs, m))
    decreases rs
  {
    hide ReadField, Put, Accepts, Serial;
    if rs != [] {
      var r := rs[0];
      var j := i + |Serial(r)|;
      assert At(d, i, Serial(r)) by { assert d[i..j] == d[i..][..|Serial(r)|]; }
      assert |Serial(r)| > 0 by { AcceptedIsWellFormed(s, r); TagReads(d, i, r); }
      FieldReads(s, d, i, r, m);
      if Put(s, r, m).Some? {
        assert d[j..] == d[i..][|Serial(r)|..];
        UnmarshalReads(s, d, j, rs[1..], Put(s, r, m).value);
      }
    }
  }

  lemma AcceptedIsWellFormed<M>(s: Schema<M>, r: Record)
    requires Accepts(s, r)
    ensures WellFormed(r)
  {
  }

  /** What a successful iteration has read. */
  lemma FieldRead<M>(s: Schema<M>, d: bytes, i: nat, m: M) returns (r: Record)
    requires |d| < TWO_63 && i < |d| && ReadField(s, d, i, m).Ok?
    ensures Accepts(s, r) && Serial(r) == d[i..ReadField(s, d, i, m).value.0]
    ensures Put(s, r, m) == Some(ReadField(s, d, i, m).value.1)
  {
    var (wire, j) := Read(d, i).value;
    FoundVarint(d, i);
    if Int32(wire / 8) in s.known {
      r := PayloadRead(d, i);
    } else {
      r := SkipRead(d, i);
      TagReads(d, i, r);
    }
  }

  lemma PayloadParts(d: bytes, j: nat)
    requires ReadPayload(d, j).Ok?
    ensures Read(d, j).Ok?
    ensures var (n, k) := Read(d, j).value; var (payload, e) := ReadPayload(d, j).value;
            e == k + n <= |d| && payload == d[k..e] && IsVarint(d[j..k]) && Word(d[j..k]) == n
  {
    FoundVarint(d, j);
  }

  lemma PayloadRead(d: bytes, i: nat) returns (r: Record)
    requires Read(d, i).Ok? && Read(d, i).value.0 % 8 == 2
    requires ReadPayload(d, Read(d, i).value.1).Ok?
    ensures WellFormed(r) && r.LenRecord? && Word(r.tag) == Read(d, i).value.0
    ensures ReadPayload(d, Read(d, i).value.1) == Ok((r.payload, i + |Serial(r)|))
    ensures At(d, i, Serial(r))
  {
    hide Read, ReadPayload, IsVarint, Word;
    var j := Read(d, i).value.1;
    FoundVarint(d, i);
    PayloadParts(d, j);
    var k := Read(d, j).value.1;
    var (payload, e) := ReadPayload(d, j).value;
    r := LenRecord(d[i..j], d[j..k], payload);
    assert d[i..e] == d[i..j] + d[j..k] + d[k..e];
  }

  lemma SkipRead(d: bytes, i: nat) returns (r: Record)
    requires i <= |d| && SkipAt(d, i).Ok?
    ensures WellFormed(r) && SkipAt(d, i) == Ok(i + |Serial(r)|) && At(d, i, Serial(r))
  {
    r := RecordSkipped(d[i..], 0);
    var n := SkipFrom(d[i..], 0, 0).value;
    assert d[i..][0..n] == d[i..i + n];
  }

  lemma {:induction false} UnmarshalRead<M>(s: Schema<M>, d: bytes, i: nat, m: M) returns (rs: seq<Record>)
    requires |d| < TWO_63 && i <= |d| && UnmarshalFrom(s, d, i, m).Ok?
    ensures (forall r <- rs :: Accepts(s, r)) && SerialAll(rs) == d[i..]
    ensures PutAll(s, rs, m) == Some(UnmarshalFrom(s, d, i, m).value)
    decreases |d| - i
  {
    hide ReadField, Put, Accepts, Serial;
    if i == |d| {
      rs := [];
    } else {
      var (j, m') := ReadField(s, d, i, m).value;
      var r := FieldRead(s, d, i, m);
      var rest := UnmarshalRead(s, d, j, m');
      rs := [r] + rest;
      assert rs[1..] == rest;
      assert d[i..] == d[i..j] + d[j..];
    }
  }

  /**
   Unmarshal succeeds with result `x` exactly when the data is a sequence of well-formed records
   (known ones length-delimited, nested groups balanced) whose known fields, stored in order, give `x`.
   */
  lemma UnmarshalExact<M>(s: Schema<M>, d: bytes, m: M, x: M)
    requires |d| < TWO_63
    ensures Unmarshal(s, d, m) == Ok(x) <==>
            exists rs :: (forall r <- rs :: Accepts(s, r)) && SerialAll(rs) == d && PutAll(s, rs, m) == Some(x)
  {
    assert d[0..] == d;
    if Unmarshal(s, d, m) == Ok(x) {
      var rs := UnmarshalRead(s, d, 0, m);
    }
    if rs :| (forall r <- rs :: Accepts(s, r)) && SerialAll(rs) == d && PutAll(s, rs, m) == Some(x) {
      UnmarshalReads(s, d, 0, rs, m);
    }
  }

  // ---------- Unknown fields ----------

  /** The records whose numbers the schema knows, in order. */
  function KnownOnly<M>(s: Schema<M>, rs: seq<Record>): (known: seq<Record>)
    ensures forall r <- known :: r in rs
  {
    if rs == [] then []
    else if FieldNum(rs[0].tag) in s.known then [rs[0]] + KnownOnly(s, rs[1..])
    else KnownOnly(s, rs[1..])
  }

  lemma {:induction false} PutAllKnownOnly<M>(s: Schema<M>, rs: seq<Record>, m: M)
    requires forall r <- rs :: Accepts(s, r)
    ensures PutAll(s, rs, m) == PutAll(s, KnownOnly(s, rs), m)
  {
    hide Accepts;
    if rs != [] {
      var m' := Put(s, rs[0], m);
      if m'.Some? { PutAllKnownOnly(s, rs[1..], m'.value); }
      if FieldNum(rs[0].tag) in s.known {
        assert KnownOnly(s, rs)[1..] == KnownOnly(s, rs[1..]);
      }
    }
  }

  lemma {:induction false} KnownOnlyShorter<M>(s: Schema<M>, rs: seq<Record>)
    ensures |SerialAll(KnownOnly(s, rs))| <= |SerialAll(rs)|
  {
    if rs != [] {
      KnownOnlyShorter(s, rs[1..]);
      if FieldNum(rs[0].tag) in s.known {
        assert KnownOnly(s, rs)[1..] == KnownOnly(s, rs[1..]);
      }
    }
  }

  /** Unknown fields, nested groups included, change nothing wherever they stand between the fields. */
  lemma UnknownFieldsIgnored<M>(s: Schema<M>, rs: seq<Record>, m: M)
    requires (forall r <- rs :: Accepts(s, r)) && |SerialAll(rs)| < TWO_63
    ensures Unmarshal(s, SerialAll(rs), m) == Unmarshal(s, SerialAll(KnownOnly(s, rs)), m)
  {
    hide Accepts;
    var known := KnownOnly(s, rs);
    KnownOnlyShorter(s, rs);
    assert SerialAll(rs)[0..] == SerialAll(rs) && SerialAll(known)[0..] == SerialAll(known);
    UnmarshalReads(s, SerialAll(rs), 0, rs, m);
    UnmarshalReads(s, SerialAll(known), 0, known, m);
    PutAllKnownOnly(s, rs, m);
  }
}
