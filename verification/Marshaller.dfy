/** MarshalToSizedBuffer: every message is written from the end of the buffer towards its start. */
module Marshaller {
  import opened Wrappers
  import opened Lex
  import opened Allowance
  import Varint
  import opened Messages
  import opened GrantMessages
  import opened WireLayout

  lemma BytesFirst(f: Field, fs: seq<Field>)
    requires forall x <- [f] + fs :: Numbered(x)
    ensures Numbered(f) && (forall x <- fs :: Numbered(x)) && Bytes([f] + fs) == FieldBytes(f) + Bytes(fs)
  {
    assert ([f] + fs)[0] == f && ([f] + fs)[1..] == fs;
    assert forall x <- fs :: x in [f] + fs;
  }

  /** Length and tag of a payload that already stands at `i`. */
  method PutHeader(buf: array<byte>, i: nat, num: int, n: nat) returns (j: nat)
    requires 1 <= num <= 15 && 1 + |Varint.Encode(n)| <= i <= buf.Length
    modifies buf
    ensures j == i - 1 - |Varint.Encode(n)|
    ensures buf[j..i] == [num * 8 + 2] + Varint.Encode(n)
    ensures forall k :: 0 <= k < buf.Length && !(j <= k < i) ==> buf[k] == old(buf[k])
  {
    Varint.SizeIsLength(n);
    j := Varint.Write(buf, i, n);
    j := j - 1;
    buf[j] := num * 8 + 2;
  }

  method PutField(buf: array<byte>, i: nat, f: Field) returns (j: nat)
    requires Numbered(f) && |FieldBytes(f)| <= i <= buf.Length
    modifies buf
    ensures j == i - |FieldBytes(f)| && buf[j..i] == FieldBytes(f)
    ensures forall k :: 0 <= k < buf.Length && !(j <= k < i) ==> buf[k] == old(buf[k])
  {
    var start := i - |f.payload|;
    forall k | start <= k < i {
      buf[k] := f.payload[k - start];
    }
    assert buf[start..i] == f.payload;
    j := PutHeader(buf, start, f.num, |f.payload|);
    assert buf[j..i] == buf[j..start] + buf[start..i];
  }

  /** Writes `f` in front of the fields `fs` that already fill `buf[i..hi]`. */
  method Prepend(buf: array<byte>, i: nat, hi: nat, f: Field, ghost fs: seq<Field>) returns (j: nat)
    requires i <= hi <= buf.Length && (forall x <- [f] + fs :: Numbered(x))
    requires (forall x <- fs :: Numbered(x)) && buf[i..hi] == Bytes(fs) && |Bytes([f] + fs)| <= hi
    modifies buf
    ensures j == hi - |Bytes([f] + fs)| && buf[j..hi] == Bytes([f] + fs)
    ensures forall k :: 0 <= k < buf.Length && !(j <= k < hi) ==> buf[k] == old(buf[k])
  {
    BytesFirst(f, fs);
    j := PutField(buf, i, f);
    assert buf[i..hi] == old(buf[i..hi]);
    assert buf[j..hi] == buf[j..i] + buf[i..hi];
  }

  /** The loop over a repeated field, from its last element to its first. */
  method PrependAll(buf: array<byte>, i: nat, hi: nat, gs: seq<Field>, ghost fs: seq<Field>) returns (j: nat)
    requires i <= hi <= buf.Length && (forall x <- gs + fs :: Numbered(x)) && (forall x <- fs :: Numbered(x))
    requires buf[i..hi] == Bytes(fs) && |Bytes(gs + fs)| <= hi
    modifies buf
    ensures j == hi - |Bytes(gs + fs)| && buf[j..hi] == Bytes(gs + fs)
    ensures forall k :: hi <= k < buf.Length ==> buf[k] == old(buf[k])
  {
    j := i;
    var n := |gs|;
    assert gs[n..] + fs == fs;
    hide Bytes;
    while n > 0
      invariant 0 <= n <= |gs| && (forall x <- gs[n..] + fs :: Numbered(x))
      invariant j == hi - |Bytes(gs[n..] + fs)| && buf[j..hi] == Bytes(gs[n..] + fs)
      invariant forall k :: hi <= k < buf.Length ==> buf[k] == old(buf[k])
    {
      n := n - 1;
      Fits(gs, n, fs);
      assert gs[n..] + fs == [gs[n]] + (gs[n + 1..] + fs);
      j := Prepend(buf, j, hi, gs[n], gs[n + 1..] + fs);
    }
    assert gs[0..] == gs;
  }

  /** A suffix of the fields needs no more room than all of them. */
  lemma Fits(gs: seq<Field>, n: nat, fs: seq<Field>)
    requires n <= |gs| && (forall x <- gs + fs :: Numbered(x))
    ensures (forall x <- gs[n..] + fs :: Numbered(x)) && |Bytes(gs[n..] + fs)| <= |Bytes(gs + fs)|
  {
    assert gs + fs == gs[..n] + (gs[n..] + fs);
    BytesAppend(gs[..n], gs[n..] + fs);
  }

  lemma FitsAfter(gs: seq<Field>, fs: seq<Field>)
    requires forall x <- gs + fs :: Numbered(x)
    ensures (forall x <- fs :: Numbered(x)) && |Bytes(fs)| <= |Bytes(gs + fs)|
  {
    Fits(gs, |gs|, fs);
    assert gs[|gs|..] + fs == fs;
  }

  /** (m *BasicAllowance) MarshalToSizedBuffer(dAtA[:hi]); None is an error from a sub-codec. */
  method MarshalBasic(cs: Codecs, b: Basic, buf: array<byte>, hi: nat) returns (r: Option<nat>)
    requires |BasicBytes(cs, b)| <= hi <= buf.Length
    modifies buf
    ensures r.Some? <==> BasicOk(cs, b)
    ensures r.Some? ==> r.value == hi - |BasicBytes(cs, b)| && buf[r.value..hi] == BasicBytes(cs, b)
    ensures forall k :: hi <= k < buf.Length ==> buf[k] == old(buf[k])
  {
    var i := hi;
    FitsAfter(CoinFields(cs, 1, LimitOrEmpty(b)), ExpirationFields(cs, b));
    if b.expiration.Some? {
      if !cs.time.ok(b.expiration.value) { return None; }
      var f := Field(2, cs.time.enc(b.expiration.value));
      assert [f] + [] == [f];
      i := Prepend(buf, i, hi, f, []);
    }
    if !CoinsOk(cs, LimitOrEmpty(b)) { return None; }
    i := PrependAll(buf, i, hi, CoinFields(cs, 1, LimitOrEmpty(b)), ExpirationFields(cs, b));
    return Some(i);
  }

  predicate BudgetOk(cs: Codecs, p: Periodic) {
    cs.time.ok(p.periodReset) && CoinsOk(cs, p.periodCanSpend) && CoinsOk(cs, p.periodSpendLimit)
  }

  /** Fields 5, 4 and 3 of a PeriodicAllowance. */
  method MarshalBudget(cs: Codecs, p: Periodic, buf: array<byte>, hi: nat) returns (r: Option<nat>)
    requires |Bytes(PeriodicBudgetFields(cs, p))| <= hi <= buf.Length
    modifies buf
    ensures r.Some? <==> BudgetOk(cs, p)
    ensures r.Some? ==> var bs := Bytes(PeriodicBudgetFields(cs, p)); r.value == hi - |bs| && buf[r.value..hi] == bs
    ensures forall k :: hi <= k < buf.Length ==> buf[k] == old(buf[k])
  {
    var f5 := Field(5, cs.time.enc(p.periodReset));
    var c3, c4 := CoinFields(cs, 3, p.periodSpendLimit), CoinFields(cs, 4, p.periodCanSpend);
    FitsAfter(c3, c4 + [f5]);
    FitsAfter(c4, [f5]);
    hide Bytes, CoinFields;
    if !cs.time.ok(p.periodReset) { return None; }
    var i := WriteLast(buf, hi, f5);
    if !CoinsOk(cs, p.periodCanSpend) { return None; }
    i := PrependAll(buf, i, hi, c4, [f5]);
    if !CoinsOk(cs, p.periodSpendLimit) { return None; }
    i := PrependAll(buf, i, hi, c3, c4 + [f5]);
    return Some(i);
  }

  /** The basic part as field 1, written in place and then given its header. */
  method PutBasic(cs: Codecs, b: Basic, buf: array<byte>, i: nat) returns (r: Option<nat>)
    requires |FieldBytes(Field(1, BasicBytes(cs, b)))| <= i <= buf.Length
    modifies buf
    ensures r.Some? <==> BasicOk(cs, b)
    ensures r.Some? ==> var bs := FieldBytes(Field(1, BasicBytes(cs, b))); r.value == i - |bs| && buf[r.value..i] == bs
    ensures forall k :: i <= k < buf.Length ==> buf[k] == old(buf[k])
  {
    hide BasicBytes, BasicOk, Varint.Encode;
    var k := MarshalBasic(cs, b, buf, i);
    if k.None? { return None; }
    var h := PutHeader(buf, k.value, 1, i - k.value);
    assert buf[h..i] == buf[h..k.value] + buf[k.value..i];
    return Some(h);
  }

  lemma Join(s: bytes, h: nat, i: nat, hi: nat, x: bytes, y: bytes)
    requires h <= i <= hi <= |s| && s[h..i] == x && s[i..hi] == y
    ensures s[h..hi] == x + y
  {
  }

  /** Fields 5 to 2 of a PeriodicAllowance. */
  method MarshalPeriodicTail(cs: Codecs, p: Periodic, buf: array<byte>, hi: nat) returns (r: Option<nat>)
    requires |Bytes([Field(2, cs.duration.enc(p.period))] + PeriodicBudgetFields(cs, p))| <= hi <= buf.Length
    modifies buf
    ensures r.Some? <==> BudgetOk(cs, p) && cs.duration.ok(p.period)
    ensures r.Some? ==> var bs := Bytes([Field(2, cs.duration.enc(p.period))] + PeriodicBudgetFields(cs, p));
                        r.value == hi - |bs| && buf[r.value..hi] == bs
    ensures forall k :: hi <= k < buf.Length ==> buf[k] == old(buf[k])
  {
    var f2 := Field(2, cs.duration.enc(p.period));
    FitsAfter([f2], PeriodicBudgetFields(cs, p));
    hide Bytes, PeriodicBudgetFields, BudgetOk;
    var i := MarshalBudget(cs, p, buf, hi);
    if i.None? { return None; }
    if !cs.duration.ok(p.period) { return None; }
    var j := Prepend(buf, i.value, hi, f2, PeriodicBudgetFields(cs, p));
    return Some(j);
  }

  /** (m *PeriodicAllowance) MarshalToSizedBuffer(dAtA[:hi]) */
  method MarshalPeriodic(cs: Codecs, p: Periodic, buf: array<byte>, hi: nat) returns (r: Option<nat>)
    requires |Bytes(PeriodicFields(cs, p))| <= hi <= buf.Length
    modifies buf
    ensures r.Some? <==> PeriodicOk(cs, p)
    ensures r.Some? ==> var bs := Bytes(PeriodicFields(cs, p)); r.value == hi - |bs| && buf[r.value..hi] == bs
    ensures forall k :: hi <= k < buf.Length ==> buf[k] == old(buf[k])
  {
    BytesFirst(Field(1, BasicBytes(cs, p.basic)), [Field(2, cs.duration.enc(p.period))] + PeriodicBudgetFields(cs, p));
    hide Bytes, BasicBytes, FieldBytes, PeriodicBudgetFields, BasicOk, CoinsOk;
    var i := MarshalPeriodicTail(cs, p, buf, hi);
    if i.None? { return None; }
    ghost var tail := buf[i.value..hi];
    r := PutBasic(cs, p.basic, buf, i.value);
    if r.Some? { Join(buf[..], r.value, i.value, hi, buf[r.value..i.value], tail); }
  }

  /** The last field of a message, at the end of the buffer. */
  method WriteLast(buf: array<byte>, hi: nat, f: Field) returns (i: nat)
    requires Numbered(f) && |Bytes([f])| <= hi <= buf.Length
    modifies buf
    ensures i == hi - |Bytes([f])| && buf[i..hi] == Bytes([f])
    ensures forall k :: hi <= k < buf.Length ==> buf[k] == old(buf[k])
  {
    assert [f] + [] == [f];
    i := Prepend(buf, hi, hi, f, []);
  }

  /** (m *AllowedMsgAllowance) MarshalToSizedBuffer(dAtA[:hi]) */
  method MarshalFilter(cs: Codecs, m: FilterMsg, buf: array<byte>, hi: nat) returns (r: Option<nat>)
    requires |Bytes(FilterFields(cs, m))| <= hi <= buf.Length
    modifies buf
    ensures r.Some? <==> AnyOk(cs, m.allowance)
    ensures r.Some? ==> var bs := Bytes(FilterFields(cs, m)); r.value == hi - |bs| && buf[r.value..hi] == bs
    ensures forall k :: hi <= k < buf.Length ==> buf[k] == old(buf[k])
  {
    var texts := RepeatedText(2, m.allowedMessages);
    FitsAfter(AnyFields(cs, 1, m.allowance), texts);
    assert texts + [] == texts;
    var i := PrependAll(buf, hi, hi, texts, []);
    if m.allowance.Some? {
      if !cs.any.ok(m.allowance.value) { return None; }
      i := Prepend(buf, i, hi, Field(1, cs.any.enc(m.allowance.value)), texts);
    } else {
      assert FilterFields(cs, m) == texts;
    }
    return Some(i);
  }

  /** (m *Grant) and (m *DIDGrant) MarshalToSizedBuffer(dAtA[:hi]) */
  method MarshalGrant(cs: Codecs, g: GrantMsg, buf: array<byte>, hi: nat) returns (r: Option<nat>)
    requires |Bytes(GrantFields(cs, g))| <= hi <= buf.Length
    modifies buf
    ensures r.Some? <==> AnyOk(cs, g.allowance)
    ensures r.Some? ==> var bs := Bytes(GrantFields(cs, g)); r.value == hi - |bs| && buf[r.value..hi] == bs
    ensures forall k :: hi <= k < buf.Length ==> buf[k] == old(buf[k])
  {
    ghost var f1, f2, f3 := TextFields(1, g.granter), TextFields(2, g.grantee), AnyFields(cs, 3, g.allowance);
    assert f1 + f2 + f3 == f1 + (f2 + f3);
    FitsAfter(f1, f2 + f3);
    FitsAfter(f2, f3);
    hide Bytes;
    var i := hi;
    if g.allowance.Some? {
      if !cs.any.ok(g.allowance.value) { return None; }
      i := WriteLast(buf, hi, Field(3, cs.any.enc(g.allowance.value)));
    }
    if g.grantee != [] {
      i := Prepend(buf, i, hi, Field(2, g.grantee), f3);
    } else {
      assert f2 + f3 == f3;
    }
    if g.granter != [] {
      i := Prepend(buf, i, hi, Field(1, g.granter), f2 + f3);
    } else {
      assert f1 + (f2 + f3) == f2 + f3;
    }
    return Some(i);
  }

  /** (m *Grant) Marshal: a buffer of Size() bytes is filled exactly, with granter, grantee and allowance in order. */
  method Marshal(cs: Codecs, g: GrantMsg) returns (r: Option<bytes>)
    ensures r.Some? <==> AnyOk(cs, g.allowance)
    ensures r.Some? ==> r.value == Bytes(GrantFields(cs, g))
    ensures r.Some? ==> r.value == TextAt(0x0a, g.granter) + TextAt(0x12, g.grantee)
                                   + OptionalAt(0x1a, EncodedAny(cs, g.allowance))
  {
    GrantLayout(cs, g);
    SizeIsLength(GrantFields(cs, g));
    var size := Size(GrantFields(cs, g));
    var buf := new byte[size];
    var i := MarshalGrant(cs, g, buf, size);
    if i.None? { return None; }
    assert i.value == 0 && buf[0..size] == buf[0..];
    return Some(buf[0..]);
  }
}
