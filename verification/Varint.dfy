/** Base-128 varints: encodeVarintFeegrant, sovFeegrant and the decoding loops of feegrant.pb.go. */
module Varint {
  import opened Wrappers
  import opened Lex

  const TWO_63: nat := 0x8000_0000_0000_0000
  const TWO_64: nat := 0x1_0000_0000_0000_0000
  const MAX_VARINT: nat := 10

  datatype WireError =
    | IntOverflow
    | UnexpectedEOF
    | InvalidLength
    | EndGroupForNonGroup
    | IllegalTag
    | WrongWireType
    | UnexpectedEndOfGroup
    | IllegalWireType
    | BadSubMessage

  // ---------- Encoding ----------

  function Encode(v: nat): (bs: bytes)
    ensures |bs| > 0
  {
    if v < 128 then [v] else [v % 128 + 128] + Encode(v / 128)
  }

  /** math/bits.Len64 */
  function BitLen(x: nat): nat {
    if x == 0 then 0 else 1 + BitLen(x / 2)
  }

  /** sovFeegrant; `x|1` sets the lowest bit. */
  function Size(x: nat): nat {
    (BitLen(if x % 2 == 0 then x + 1 else x) + 6) / 7
  }

  lemma BitLenShift2(x: nat)
    requires x >= 4
    ensures BitLen(x) == 2 + BitLen(x / 4)
  {
    assert x / 2 / 2 == x / 4;
  }

  lemma BitLenShift1(x: nat)
    requires x >= 1
    ensures BitLen(x) == 1 + BitLen(x / 2)
  {
  }

  lemma BitLenShift7(x: nat)
    requires x >= 128
    ensures BitLen(x) == 7 + BitLen(x / 128)
  {
    hide BitLen;
    BitLenShift2(x);
    BitLenShift2(x / 4);
    BitLenShift2(x / 16);
    BitLenShift1(x / 64);
    assert x / 64 / 2 == x / 128;
  }

  function Pow2(n: nat): nat {
    if n == 0 then 1 else 2 * Pow2(n - 1)
  }

  lemma {:induction false} BitLenBound(x: nat, n: nat)
    requires x < Pow2(n)
    ensures BitLen(x) <= n
  {
    if n > 0 { BitLenBound(x / 2, n - 1); }
  }

  lemma BitLenSmall(x: nat)
    requires 0 < x < 128
    ensures 1 <= BitLen(x) <= 7
  {
    assert Pow2(3) == 8;
    assert Pow2(5) == 32;
    BitLenBound(x, 7);
  }

  /** The bit-length formula predicts the number of bytes written. */
  lemma {:induction false} SizeIsLength(v: nat)
    ensures |Encode(v)| == Size(v)
  {
    var odd := if v % 2 == 0 then v + 1 else v;
    if v < 128 {
      BitLenSmall(odd);
    } else {
      SizeIsLength(v / 128);
      BitLenShift7(odd);
      var q := v / 128;
      assert odd / 128 == q;
      var oddq := if q % 2 == 0 then q + 1 else q;
      SetLowBit(q);
    }
  }

  lemma SetLowBit(q: nat)
    requires q > 0
    ensures BitLen(if q % 2 == 0 then q + 1 else q) == BitLen(q)
  {
    assert (q + 1 - q % 2) / 2 == q / 2;
  }

  /** encodeVarintFeegrant: moves `offset` back by the size and fills forward from there. */
  method Write(buf: array<byte>, offset: nat, v: nat) returns (base: nat)
    requires Size(v) <= offset <= buf.Length
    modifies buf
    ensures base == offset - Size(v)
    ensures buf[base..offset] == Encode(v)
    ensures forall k :: 0 <= k < buf.Length && !(base <= k < offset) ==> buf[k] == old(buf[k])
  {
    SizeIsLength(v);
    base := offset - Size(v);
    var at, rest := base, v;
    ghost var done: bytes := [];
    while rest >= 128
      invariant done + Encode(rest) == Encode(v)
      invariant at == base + |done| && buf[base..at] == done
      invariant forall k :: 0 <= k < buf.Length && !(base <= k < at) ==> buf[k] == old(buf[k])
    {
      Extend(done, rest, v);
      done := done + [rest % 128 + 128];
      buf[at] := rest % 128 + 128;
      rest := rest / 128;
      at := at + 1;
    }
    assert |done + Encode(rest)| == offset - base;
    buf[at] := rest;
  }

  lemma Extend(done: bytes, rest: nat, v: nat)
    requires rest >= 128 && done + Encode(rest) == Encode(v)
    ensures |done| + 1 < |Encode(v)|
    ensures (done + [rest % 128 + 128]) + Encode(rest / 128) == Encode(v)
  {
    assert |Encode(v)| == |done| + 1 + |Encode(rest / 128)|;
  }

  // ---------- Decoding ----------

  /** Little-endian value of a group of bytes, high bits of the bytes ignored; not yet reduced to 64 bits. */
  function Value(bs: bytes): nat {
    if bs == [] then 0 else bs[0] % 128 + 128 * Value(bs[1..])
  }

  /** The value as a uint64. */
  function Word(bs: bytes): (w: nat)
    ensures w < TWO_64
  {
    Value(bs) % TWO_64
  }

  /** At most ten bytes, only the last without the continuation bit; need not be minimal. */
  predicate IsVarint(bs: bytes) {
    && 1 <= |bs| <= MAX_VARINT
    && bs[|bs| - 1] < 128
    && forall k :: 0 <= k < |bs| - 1 ==> bs[k] >= 128
  }

  /** Position just after the varint that starts at `i`, with `room` bytes still allowed. */
  function End(d: bytes, i: nat, room: nat): (r: Result<nat, WireError>)
    ensures r.Ok? ==> i < r.value <= |d|
    decreases |d| - i
  {
    if room == 0 then Err(IntOverflow)
    else if i >= |d| then Err(UnexpectedEOF)
    else if d[i] < 128 then Ok(i + 1)
    else End(d, i + 1, room - 1)
  }

  lemma EndUnfold(d: bytes, i: nat, room: nat)
    ensures End(d, i, room) ==
            if room == 0 then Err(IntOverflow)
            else if i >= |d| then Err(UnexpectedEOF)
            else if d[i] < 128 then Ok(i + 1)
            else End(d, i + 1, room - 1)
  {
  }

  /** The uint64 at position `i` and the position after it. */
  function Read(d: bytes, i: nat): (r: Result<(nat, nat), WireError>)
    ensures r.Ok? ==> r.value.0 < TWO_64 && i < r.value.1 <= |d|
  {
    var j :- End(d, i, MAX_VARINT);
    Ok((Word(d[i..j]), j))
  }

  lemma {:induction false} EndFinds(d: bytes, i: nat, j: nat, room: nat)
    requires i < j <= |d| && j - i <= room
    requires d[j - 1] < 128 && forall k :: i <= k < j - 1 ==> d[k] >= 128
    ensures End(d, i, room) == Ok(j)
    decreases |d| - i
  {
    if i + 1 < j { EndFinds(d, i + 1, j, room - 1); }
  }

  lemma {:induction false} EndFound(d: bytes, i: nat, room: nat)
    requires End(d, i, room).Ok?
    ensures var j := End(d, i, room).value;
            j - i <= room && d[j - 1] < 128 && forall k :: i <= k < j - 1 ==> d[k] >= 128
    decreases room
  {
    if d[i] >= 128 { EndFound(d, i + 1, room - 1); }
  }

  /** Reading at `i` succeeds exactly on a varint, whatever surrounds it. */
  lemma ReadExact(d: bytes, i: nat, j: nat)
    requires i <= j <= |d|
    ensures IsVarint(d[i..j]) <==> End(d, i, MAX_VARINT) == Ok(j)
  {
    var bs := d[i..j];
    if IsVarint(bs) {
      assert forall k :: i <= k < j - 1 ==> d[k] == bs[k - i];
      EndFinds(d, i, j, MAX_VARINT);
    }
    if End(d, i, MAX_VARINT) == Ok(j) {
      EndFound(d, i, MAX_VARINT);
    }
  }

  lemma {:induction false} EncodeShape(v: nat)
    ensures var bs := Encode(v); bs[|bs| - 1] < 128 && forall k :: 0 <= k < |bs| - 1 ==> bs[k] >= 128
    ensures Value(Encode(v)) == v
  {
    if v >= 128 {
      EncodeShape(v / 128);
      assert Encode(v)[1..] == Encode(v / 128);
    }
  }

  lemma {:induction false} EncodeLength(v: nat, n: nat)
    requires v < Pow128(n) && n > 0
    ensures |Encode(v)| <= n
  {
    if v >= 128 {
      assert n > 1 by { assert Pow128(1) == 128; }
      EncodeLength(v / 128, n - 1);
    }
  }

  function Pow128(n: nat): (p: nat)
    ensures p > 0
  {
    if n == 0 then 1 else 128 * Pow128(n - 1)
  }

  lemma Pow128At9And10()
    ensures Pow128(9) == TWO_63 && Pow128(10) == 128 * TWO_63
  {
    assert Pow128(4) == 128 * 128 * 128 * 128;
    assert Pow128(8) == 128 * 128 * 128 * 128 * Pow128(4);
  }

  /** Every uint64 is encoded as a varint with that value. */
  lemma EncodeIsVarint(v: nat)
    requires v < TWO_64
    ensures IsVarint(Encode(v)) && Value(Encode(v)) == v
  {
    EncodeShape(v);
    Pow128At9And10();
    EncodeLength(v, MAX_VARINT);
  }

  /** Decoding undoes encoding for every uint64, wherever the bytes stand. */
  lemma RoundTrip(v: nat, before: bytes, after: bytes)
    requires v < TWO_64
    ensures Read(before + Encode(v) + after, |before|) == Ok((v, |before| + |Encode(v)|))
  {
    var d := before + Encode(v) + after;
    EncodeIsVarint(v);
    assert Word(Encode(v)) == v;
    hide Encode, Value, Word, IsVarint, End;
    assert d[|before|..|before| + |Encode(v)|] == Encode(v);
    ReadExact(d, |before|, |before| + |Encode(v)|);
  }

  lemma {:induction false} ValueAppend(bs: bytes, b: byte)
    ensures Value(bs + [b]) == Value(bs) + (b % 128) * Pow128(|bs|)
  {
    if bs == [] {
      assert (bs + [b])[1..] == [];
    } else {
      ValueAppend(bs[1..], b);
      assert (bs + [b])[1..] == bs[1..] + [b];
      var p := Pow128(|bs| - 1);
      assert 128 * ((b % 128) * p) == (b % 128) * (128 * p);
    }
  }

  lemma {:induction false} ValueBound(bs: bytes)
    ensures Value(bs) < Pow128(|bs|)
  {
    if bs != [] { ValueBound(bs[1..]); }
  }

  /** uint64(b&0x7F) << shift, bits above 63 dropped; `scale` is 2^shift. */
  function Shifted(b: byte, scale: nat): nat {
    (b % 128) * scale % TWO_64
  }

  /** One step of the loop: the shifted bits never carry into the ones already there. */
  lemma Accumulate(bs: bytes, b: byte, acc: nat)
    requires |bs| < MAX_VARINT && acc == Value(bs)
    ensures acc + Shifted(b, Pow128(|bs|)) == Word(bs + [b])
    ensures |bs| < MAX_VARINT - 1 ==> Word(bs + [b]) == Value(bs + [b])
  {
    ValueAppend(bs, b);
    Pow128At9And10();
    hide Value, Pow128;
    if |bs| < MAX_VARINT - 1 {
      ValueFits(bs + [b]);
      LowGroup(acc, (b % 128) * Pow128(|bs|));
    } else {
      ValueBound(bs);
      TopGroup(acc, b % 128);
    }
  }

  /** Nine groups fit 63 bits. */
  lemma ValueFits(bs: bytes)
    requires |bs| < MAX_VARINT
    ensures Value(bs) < TWO_63
  {
    ValueBound(bs);
    Pow128At9And10();
    hide Value, Pow128;
    Pow128Monotone(|bs|, MAX_VARINT - 1);
  }

  lemma LowGroup(acc: nat, t: nat)
    requires acc + t < TWO_64
    ensures acc + t % TWO_64 == (acc + t) % TWO_64 == acc + t
  {
  }

  lemma TopGroup(acc: nat, x: nat)
    requires acc < TWO_63
    ensures acc + x * TWO_63 % TWO_64 == (acc + x * TWO_63) % TWO_64
  {
    var q, r := x / 2, x % 2;
    assert x * TWO_63 == q * TWO_64 + r * TWO_63;
    Low64(q, r * TWO_63);
    Low64(q, acc + r * TWO_63);
  }

  lemma Low64(q: nat, b: nat)
    requires b < TWO_64
    ensures (q * TWO_64 + b) % TWO_64 == b
  {
  }

  lemma {:induction false} Pow128Monotone(m: nat, n: nat)
    requires m <= n
    ensures Pow128(m) <= Pow128(n)
  {
    if m < n { Pow128Monotone(m, n - 1); }
  }

  lemma Sevenths(shift: nat, n: nat)
    requires shift == 7 * n
    ensures shift / 7 == n
  {
  }

  lemma Snoc(d: bytes, i: nat, j: nat)
    requires i <= j < |d|
    ensures d[i..j + 1] == d[i..j] + [d[j]]
  {
  }

  /** The shift-and-or loop that every Unmarshal and skipFeegrant repeat. */
  method ReadLoop(d: bytes, start: nat) returns (r: Result<(nat, nat), WireError>)
    ensures r == Read(d, start)
  {
    var i, shift, wire := start, 0, 0;
    ghost var group: bytes := [];
    assert Value(group) == Word(group) == 0;
    hide Word, Value, Shifted, Pow128, End;
    while true
      invariant |group| <= MAX_VARINT && shift == 7 * |group| && i == start + |group|
      invariant i <= |d| ==> group == d[start..i]
      invariant group != [] ==> i <= |d|
      invariant wire == Word(group)
      invariant |group| < MAX_VARINT ==> wire == Value(group)
      invariant End(d, start, MAX_VARINT) == End(d, i, MAX_VARINT - |group|)
      decreases MAX_VARINT - |group|
    {
      EndUnfold(d, i, MAX_VARINT - |group|);
      if shift >= 64 { return Err(IntOverflow); }
      if i >= |d| { return Err(UnexpectedEOF); }
      var b := d[i];
      Accumulate(group, b, wire);
      Snoc(d, start, i);
      Sevenths(shift, |group|);
      group := group + [b];
      wire := wire + Shifted(b, Pow128(shift / 7));
      i := i + 1;
      if b < 128 { return Ok((wire, i)); }
      shift := shift + 7;
    }
  }
}
