/**
 The protobuf wire format as read by feegrant.pb.go: a grammar of records and the group-aware skip of unknown fields.
 */
module Wire {
  import opened Wrappers
  import opened Lex
  import opened Varint

  // ---------- The grammar ----------

  /** One field on the wire; tags, lengths and varints are kept as the bytes that carry them. */
  datatype Record =
    | VarintRecord(tag: bytes, value: bytes)
    | Fixed64Record(tag: bytes, payload: bytes)
    | LenRecord(tag: bytes, len: bytes, payload: bytes)
    | GroupRecord(tag: bytes, body: seq<Record>, end: bytes)
    | Fixed32Record(tag: bytes, payload: bytes)

  predicate IsTag(bs: bytes, kind: nat) {
    IsVarint(bs) && Word(bs) % 8 == kind
  }

  predicate WellFormed(r: Record) {
    match r
    case VarintRecord(tag, value) => IsTag(tag, 0) && IsVarint(value)
    case Fixed64Record(tag, payload) => IsTag(tag, 1) && |payload| == 8
    case LenRecord(tag, len, payload) => IsTag(tag, 2) && IsVarint(len) && Word(len) == |payload|
    case GroupRecord(tag, body, end) => IsTag(tag, 3) && IsTag(end, 4) && forall x <- body :: WellFormed(x)
    case Fixed32Record(tag, payload) => IsTag(tag, 5) && |payload| == 4
  }

  function Serial(r: Record): bytes
    decreases r
  {
    match r
    case VarintRecord(tag, value) => tag + value
    case Fixed64Record(tag, payload) => tag + payload
    case LenRecord(tag, len, payload) => tag + len + payload
    case GroupRecord(tag, body, end) => tag + SerialAll(body) + end
    case Fixed32Record(tag, payload) => tag + payload
  }

  function SerialAll(rs: seq<Record>): bytes
    decreases rs
  {
    if rs == [] then [] else Serial(rs[0]) + SerialAll(rs[1..])
  }

  // ---------- skipFeegrant ----------

  function Advance(i: nat, n: nat, depth: nat): (r: Result<(nat, nat), WireError>) {
    if i + n >= TWO_63 then Err(InvalidLength) else Ok((i + n, depth))
  }

  /** One iteration: the position and the group depth after the element at `i`. */
  function SkipOne(d: bytes, i: nat, depth: nat): (r: Result<(nat, nat), WireError>)
    ensures r.Ok? ==> r.value.0 > i
  {
    var (wire, j) :- Read(d, i);
    match wire % 8
    case 0 => var k :- End(d, j, MAX_VARINT); Ok((k, depth))
    case 1 => Advance(j, 8, depth)
    case 2 =>
      var (n, k) :- Read(d, j);
      if n >= TWO_63 then Err(InvalidLength) else Advance(k, n, depth)
    case 3 => Ok((j, depth + 1))
    case 4 => if depth == 0 then Err(UnexpectedEndOfGroup) else Ok((j, depth - 1))
    case 5 => Advance(j, 4, depth)
    case _ => Err(IllegalWireType)
  }

  /** The position after the field whose scan stands at `i` inside `depth` open groups. */
  function SkipFrom(d: bytes, i: nat, depth: nat): (r: Result<nat, WireError>)
    ensures r.Ok? ==> r.value > i
    decreases |d| - i
  {
    if i >= |d| then Err(UnexpectedEOF)
    else
      var (j, depth') :- SkipOne(d, i, depth);
      if depth' == 0 then Ok(j) else SkipFrom(d, j, depth')
  }

  /** The body of the scan as feegrant.pb.go runs it; a Go slice is shorter than 2^63 bytes. */
  method SkipStep(d: bytes, i: nat, depth: nat) returns (r: Result<(nat, nat), WireError>)
    requires |d| < TWO_63
    ensures r == SkipOne(d, i, depth)
  {
    var tag := ReadLoop(d, i);
    if tag.Err? { return Err(tag.error); }
    var (wire, next) := tag.value;
    var depth' := depth;
    match wire % 8 {
      case 0 =>
        var value := ReadLoop(d, next);
        if value.Err? { return Err(value.error); }
        next := value.value.1;
      case 1 =>
        next := next + 8;
      case 2 =>
        var length := ReadLoop(d, next);
        if length.Err? { return Err(length.error); }
        if length.value.0 >= TWO_63 { return Err(InvalidLength); }
        next := length.value.1 + length.value.0;
      case 3 =>
        depth' := depth + 1;
      case 4 =>
        if depth == 0 { return Err(UnexpectedEndOfGroup); }
        depth' := depth - 1;
      case 5 =>
        next := next + 4;
      case _ =>
        return Err(IllegalWireType);
    }
    if next >= TWO_63 { return Err(InvalidLength); }
    return Ok((next, depth'));
  }

  /** skipFeegrant */
  method Skip(d: bytes) returns (r: Result<nat, WireError>)
    requires |d| < TWO_63
    ensures r == SkipFrom(d, 0, 0)
  {
    var i, depth := 0, 0;
    while i < |d|
      invariant SkipFrom(d, 0, 0) == SkipFrom(d, i, depth)
      decreases |d| - i
    {
      var step := SkipStep(d, i, depth);
      if step.Err? { return Err(step.error); }
      i, depth := step.value.0, step.value.1;
      if depth == 0 { return Ok(i); }
    }
    return Err(UnexpectedEOF);
  }

  // ---------- Skip accepts exactly the grammar ----------

  /** `bs` stands in `d` at position `i`. */
  predicate At(d: bytes, i: nat, bs: bytes) {
    i + |bs| <= |d| && d[i..i + |bs|] == bs
  }

  lemma AtParts(d: bytes, i: nat, x: bytes, y: bytes)
    requires At(d, i, x + y)
    ensures At(d, i, x) && At(d, i + |x|, y)
  {
    var xy := d[i..i + |x + y|];
    assert d[i..i + |x|] == xy[..|x|];
    assert d[i + |x|..i + |x| + |y|] == xy[|x|..];
  }

  lemma ReadsAt(d: bytes, i: nat, bs: bytes)
    requires At(d, i, bs) && IsVarint(bs)
    ensures End(d, i, MAX_VARINT) == Ok(i + |bs|)
    ensures Read(d, i) == Ok((Word(bs), i + |bs|))
  {
    ReadExact(d, i, i + |bs|);
  }

  lemma SkipsVarint(d: bytes, i: nat, tag: bytes, value: bytes, depth: nat)
    requires IsTag(tag, 0) && IsVarint(value) && At(d, i, tag + value)
    ensures SkipOne(d, i, depth) == Ok((i + |tag| + |value|, depth))
  {
    AtParts(d, i, tag, value);
    hide Read, End, IsVarint, Word, At;
    ReadsAt(d, i, tag);
    ReadsAt(d, i + |tag|, value);
  }

  lemma SkipsFixed(d: bytes, i: nat, tag: bytes, payload: bytes, depth: nat)
    requires |d| < TWO_63 && At(d, i, tag + payload)
    requires (IsTag(tag, 1) && |payload| == 8) || (IsTag(tag, 5) && |payload| == 4)
    ensures SkipOne(d, i, depth) == Ok((i + |tag| + |payload|, depth))
  {
    AtParts(d, i, tag, payload);
    hide Read, End, IsVarint, Word;
    ReadsAt(d, i, tag);
  }

  lemma SkipsDelimited(d: bytes, i: nat, tag: bytes, len: bytes, payload: bytes, depth: nat)
    requires |d| < TWO_63 && IsTag(tag, 2) && IsVarint(len) && Word(len) == |payload| && At(d, i, tag + len + payload)
    ensures SkipOne(d, i, depth) == Ok((i + |tag| + |len| + |payload|, depth))
  {
    AtParts(d, i, tag + len, payload);
    AtParts(d, i, tag, len);
    hide Read, End, IsVarint, Word;
    ReadsAt(d, i, tag);
    ReadsAt(d, i + |tag|, len);
  }

  /** A record without groups is one step of the scan. */
  lemma SkipsFlat(d: bytes, i: nat, r: Record, depth: nat)
    requires |d| < TWO_63 && WellFormed(r) && !r.GroupRecord? && At(d, i, Serial(r))
    ensures SkipOne(d, i, depth) == Ok((i + |Serial(r)|, depth))
  {
    hide SkipOne, IsVarint, IsTag, Word, At;
    if r.VarintRecord? {
      SkipsVarint(d, i, r.tag, r.value, depth);
    } else if r.LenRecord? {
      SkipsDelimited(d, i, r.tag, r.len, r.payload, depth);
    } else {
      SkipsFixed(d, i, r.tag, r.payload, depth);
    }
  }

  lemma SkipsStart(d: bytes, i: nat, tag: bytes, depth: nat)
    requires At(d, i, tag) && IsTag(tag, 3)
    ensures SkipOne(d, i, depth) == Ok((i + |tag|, depth + 1))
  {
    ReadsAt(d, i, tag);
  }

  lemma SkipsEnd(d: bytes, i: nat, tag: bytes, depth: nat)
    requires At(d, i, tag) && IsTag(tag, 4)
    ensures SkipOne(d, i, depth + 1) == Ok((i + |tag|, depth))
  {
    ReadsAt(d, i, tag);
  }

  lemma GroupAt(d: bytes, i: nat, r: Record)
    requires WellFormed(r) && r.GroupRecord? && At(d, i, Serial(r))
    ensures var inner := SerialAll(r.body);
            && At(d, i, r.tag) && At(d, i + |r.tag|, inner) && At(d, i + |r.tag| + |inner|, r.end)
            && IsTag(r.tag, 3) && IsTag(r.end, 4) && (forall x <- r.body :: WellFormed(x))
            && |Serial(r)| == |r.tag| + |inner| + |r.end|
  {
    hide At, IsTag, SerialAll;
    var inner := SerialAll(r.body);
    assert Serial(r) == r.tag + (inner + r.end);
    AtParts(d, i, r.tag, inner + r.end);
    AtParts(d, i + |r.tag|, inner, r.end);
  }

  lemma SkipUnfold(d: bytes, i: nat, depth: nat)
    requires SkipOne(d, i, depth).Ok?
    ensures var (j, depth') := SkipOne(d, i, depth).value;
            SkipFrom(d, i, depth) == if depth' == 0 then Ok(j) else SkipFrom(d, j, depth')
  {
  }

  lemma {:induction false} SkipsRecord(d: bytes, i: nat, r: Record, depth: nat)
    requires |d| < TWO_63 && WellFormed(r) && At(d, i, Serial(r))
    ensures var j := i + |Serial(r)|;
            SkipFrom(d, i, depth) == if depth == 0 then Ok(j) else SkipFrom(d, j, depth)
    decreases r
  {
    hide *;
    if r.GroupRecord? {
      GroupAt(d, i, r);
      var j := i + |r.tag|;
      var e := j + |SerialAll(r.body)|;
      SkipsBody(d, j, r.body, depth + 1);
      SkipsStart(d, i, r.tag, depth);
      SkipUnfold(d, i, depth);
      SkipsEnd(d, e, r.end, depth);
      SkipUnfold(d, e, depth + 1);
    } else {
      SkipsFlat(d, i, r, depth);
      SkipUnfold(d, i, depth);
    }
  }

  lemma {:induction false} SkipsBody(d: bytes, i: nat, rs: seq<Record>, depth: nat)
    requires |d| < TWO_63 && (forall r <- rs :: WellFormed(r)) && At(d, i, SerialAll(rs)) && depth > 0
    ensures SkipFrom(d, i, depth) == SkipFrom(d, i + |SerialAll(rs)|, depth)
    decreases rs
  {
    hide SkipOne, SkipFrom, WellFormed, Serial;
    if rs != [] {
      AtParts(d, i, Serial(rs[0]), SerialAll(rs[1..]));
      SkipsRecord(d, i, rs[0], depth);
      SkipsBody(d, i + |Serial(rs[0])|, rs[1..], depth);
    }
  }

  lemma FoundVarint(d: bytes, i: nat)
    requires Read(d, i).Ok?
    ensures IsVarint(d[i..Read(d, i).value.1]) && Word(d[i..Read(d, i).value.1]) == Read(d, i).value.0
  {
    ReadExact(d, i, Read(d, i).value.1);
  }

  /** A step of the scan that neither opens nor closes a group passes over one record. */
  lemma FlatSkipped(d: bytes, i: nat, depth: nat) returns (r: Record)
    requires Read(d, i).Ok? && Read(d, i).value.0 % 8 in {0, 1, 2, 5}
    requires SkipOne(d, i, depth).Ok? && SkipOne(d, i, depth).value.0 <= |d|
    ensures SkipOne(d, i, depth).value.1 == depth
    ensures WellFormed(r) && Serial(r) == d[i..SkipOne(d, i, depth).value.0]
  {
    hide End, IsVarint, Word;
    var (wire, j) := Read(d, i).value;
    var k := SkipOne(d, i, depth).value.0;
    FoundVarint(d, i);
    if wire % 8 == 0 {
      FoundVarint(d, j);
      r := VarintRecord(d[i..j], d[j..k]);
    } else if wire % 8 == 1 {
      r := Fixed64Record(d[i..j], d[j..k]);
    } else if wire % 8 == 2 {
      FoundVarint(d, j);
      var p := Read(d, j).value.1;
      assert j < p <= k;
      r := LenRecord(d[i..j], d[j..p], d[p..k]);
    } else {
      r := Fixed32Record(d[i..j], d[j..k]);
    }
  }

  /** A step of the scan that opens or closes a group passes over one tag. */
  lemma BracketSkipped(d: bytes, i: nat, depth: nat)
    requires SkipOne(d, i, depth).Ok?
    ensures Read(d, i).Ok?
    ensures var (wire, j) := Read(d, i).value;
            && wire % 8 in {0, 1, 2, 3, 4, 5} && IsTag(d[i..j], wire % 8)
            && (wire % 8 == 3 ==> SkipOne(d, i, depth) == Ok((j, depth + 1)))
            && (wire % 8 == 4 ==> depth > 0 && SkipOne(d, i, depth) == Ok((j, depth - 1)))
  {
    FoundVarint(d, i);
  }

  lemma Group(d: bytes, i: nat, j: nat, e: nat, k: nat, inner: seq<Record>) returns (r: Record)
    requires i <= j <= e <= k <= |d|
    requires IsTag(d[i..j], 3) && (forall x <- inner :: WellFormed(x)) && d[j..e] == SerialAll(inner) &&
             IsTag(d[e..k], 4)
    ensures WellFormed(r) && Serial(r) == d[i..k]
  {
    r := GroupRecord(d[i..j], inner, d[e..k]);
    assert WellFormed(r);
    hide IsTag, WellFormed;
    assert d[i..k] == d[i..j] + d[j..e] + d[e..k];
  }

  /** What the scan passes over until it leaves the innermost open group. */
  lemma {:induction false} BodySkipped(d: bytes, i: nat, depth: nat) returns (body: seq<Record>, e: nat, k: nat)
    requires SkipFrom(d, i, depth + 1).Ok? && SkipFrom(d, i, depth + 1).value <= |d|
    ensures i <= e < k <= SkipFrom(d, i, depth + 1).value
    ensures (forall r <- body :: WellFormed(r)) && d[i..e] == SerialAll(body) && IsTag(d[e..k], 4)
    ensures SkipFrom(d, i, depth + 1) == if depth == 0 then Ok(k) else SkipFrom(d, k, depth)
    decreases |d| - i
  {
    hide SkipOne, Read, IsTag, WellFormed;
    BracketSkipped(d, i, depth + 1);
    var (wire, j) := Read(d, i).value;
    if wire % 8 == 4 {
      body, e, k := [], i, j;
    } else {
      var first: Record, next: nat;
      if wire % 8 == 3 {
        var inner, e', k' := BodySkipped(d, j, depth + 1);
        first := Group(d, i, j, e', k', inner);
        next := k';
      } else {
        first := FlatSkipped(d, i, depth + 1);
        next := SkipOne(d, i, depth + 1).value.0;
      }
      var more: seq<Record>;
      more, e, k := BodySkipped(d, next, depth);
      body := [first] + more;
      assert body[1..] == more;
      assert d[i..e] == d[i..next] + d[next..e];
    }
  }

  lemma RecordSkipped(d: bytes, i: nat) returns (r: Record)
    requires SkipFrom(d, i, 0).Ok? && SkipFrom(d, i, 0).value <= |d|
    ensures WellFormed(r) && Serial(r) == d[i..SkipFrom(d, i, 0).value]
  {
    hide SkipOne, Read, IsTag, WellFormed;
    BracketSkipped(d, i, 0);
    var (wire, j) := Read(d, i).value;
    if wire % 8 == 3 {
      var inner, e, k := BodySkipped(d, j, 0);
      r := Group(d, i, j, e, k, inner);
    } else {
      r := FlatSkipped(d, i, 0);
    }
  }

  /** skipFeegrant returns `n` within the data exactly when the first `n` bytes are one well-formed field. */
  lemma SkipExact(d: bytes, n: nat)
    requires |d| < TWO_63 && n <= |d|
    ensures SkipFrom(d, 0, 0) == Ok(n) <==> exists r :: WellFormed(r) && Serial(r) == d[..n]
  {
    if SkipFrom(d, 0, 0) == Ok(n) {
      var r := RecordSkipped(d, 0);
      assert d[0..n] == d[..n];
    }
    if r :| WellFormed(r) && Serial(r) == d[..n] {
      SkipsRecord(d, 0, r, 0);
    }
  }
}
