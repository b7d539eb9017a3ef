/** Grants as bytes in the store: packing into Any, and runs of load, Accept and save. */
module GrantStore {
  import opened Wrappers
  import opened Lex
  import opened Coins
  import opened Allowance
  import Varint
  import opened Decoder
  import opened Messages
  import opened GrantMessages
  import opened WireLayout

  // ---------- Any ----------

  function Url(a: Allowance): Text {
    match a
    case OfBasic(_) => Ascii("/vera.feegrant.v1beta1.BasicAllowance")
    case OfPeriodic(_) => Ascii("/vera.feegrant.v1beta1.PeriodicAllowance")
    case Filtered(_, _) => Ascii("/vera.feegrant.v1beta1.AllowedMsgAllowance")
  }

  /** The bytes of an allowance; a filtered one holds the Any of its inner one. */
  function AllowanceBytes(cs: Codecs, a: Allowance): bytes {
    match a
    case OfBasic(b) => BasicBytes(cs, b)
    case OfPeriodic(p) => Bytes(PeriodicFields(cs, p))
    case Filtered(inner, allowed) =>
      Bytes(FilterFields(cs, FilterMsg(Some(AnyMsg(Url(inner), AllowanceBytes(cs, inner))), allowed)))
  }

  /** types.NewAnyWithValue */
  function Pack(cs: Codecs, a: Allowance): AnyMsg {
    AnyMsg(Url(a), AllowanceBytes(cs, a))
  }

  /** Every part can be written by its sub-codec, and the bytes fit a Go slice. */
  predicate Writable(cs: Codecs, a: Allowance) {
    && |AllowanceBytes(cs, a)| < Varint.TWO_63
    && match a
       case OfBasic(b) => BasicOk(cs, b)
       case OfPeriodic(p) => PeriodicOk(cs, p)
       case Filtered(inner, _) => Writable(cs, inner) && cs.any.ok(Pack(cs, inner))
  }

  /** Unmarshal by type URL followed by UnpackInterfaces gives `a`. */
  predicate Unpacks(cs: Codecs, any: AnyMsg, a: Allowance)
    decreases a
  {
    && any.typeUrl == Url(a)
    && match a
       case OfBasic(b) => Unmarshal(BasicSchema(cs), any.value, NEW_BASIC) == Ok(b)
       case OfPeriodic(p) => Unmarshal(PeriodicSchema(cs), any.value, NewPeriodic(cs)) == Ok(p)
       case Filtered(inner, allowed) =>
         match Unmarshal(FilterSchema(cs), any.value, NEW_FILTER)
         case Err(_) => false
         case Ok(m) => m.allowedMessages == allowed && m.allowance.Some? && Unpacks(cs, m.allowance.value, inner)
  }

  /** The type URL and the bytes determine the allowance. */
  lemma {:induction false} UnpacksUnique(cs: Codecs, any: AnyMsg, a: Allowance, b: Allowance)
    requires Unpacks(cs, any, a) && Unpacks(cs, any, b)
    ensures a == b
    decreases a
  {
    assert |Url(a)| == if a.OfBasic? then 37 else if a.OfPeriodic? then 40 else 42;
    assert |Url(b)| == if b.OfBasic? then 37 else if b.OfPeriodic? then 40 else 42;
    if a.Filtered? {
      var m := Unmarshal(FilterSchema(cs), any.value, NEW_FILTER).value;
      UnpacksUnique(cs, m.allowance.value, a.inner, b.inner);
    }
  }

  /** Unpacking undoes packing at any nesting depth, given that the stored limit is not an empty list. */
  lemma {:induction false} PackRoundTrip(cs: Codecs, a: Allowance)
    requires Lawful(cs) && Writable(cs, a) && Sound(a)
    ensures Unpacks(cs, Pack(cs, a), a)
  {
    match a {
      case OfBasic(b) => BasicRoundTrip(cs, b);
      case OfPeriodic(p) => PeriodicRoundTrip(cs, p);
      case Filtered(inner, allowed) =>
        PackRoundTrip(cs, inner);
        FilterRoundTrip(cs, FilterMsg(Some(Pack(cs, inner)), allowed));
    }
  }

  // ---------- Stored grants ----------

  /** NewGrant and Marshal */
  function Save(cs: Codecs, granter: Text, grantee: Text, a: Allowance): bytes {
    Bytes(GrantFields(cs, GrantMsg(granter, grantee, Some(Pack(cs, a)))))
  }

  predicate CanSave(cs: Codecs, granter: Text, grantee: Text, a: Allowance) {
    Writable(cs, a) && cs.any.ok(Pack(cs, a)) && |Save(cs, granter, grantee, a)| < Varint.TWO_63
  }

  /** Unmarshal and UnpackInterfaces of the stored bytes give this grant. */
  predicate Loads(cs: Codecs, bz: bytes, granter: Text, grantee: Text, a: Allowance) {
    match Unmarshal(GrantSchema(cs), bz, NEW_GRANT)
    case Err(_) => false
    case Ok(g) => g.granter == granter && g.grantee == grantee && g.allowance.Some? && Unpacks(cs, g.allowance.value, a)
  }

  /** The Any of an allowance: its type URL and its fields behind their tags; a filter holds that of its inner one. */
  lemma PackLayout(cs: Codecs, a: Allowance)
    ensures Pack(cs, a).typeUrl == if a.OfBasic? then Ascii("/vera.feegrant.v1beta1.BasicAllowance")
                                   else if a.OfPeriodic? then Ascii("/vera.feegrant.v1beta1.PeriodicAllowance")
                                   else Ascii("/vera.feegrant.v1beta1.AllowedMsgAllowance")
    ensures a.OfBasic? ==>
              Pack(cs, a).value == Repeated(0x0a, EncodedCoins(cs, LimitOrEmpty(a.b)))
                                   + OptionalAt(0x12, EncodedTime(cs, a.b.expiration))
    ensures a.OfPeriodic? ==> Pack(cs, a).value == Bytes(PeriodicFields(cs, a.p))
    ensures a.Filtered? ==>
              Pack(cs, a).value == Delimited(0x0a, cs.any.enc(Pack(cs, a.inner))) + Repeated(0x12, a.allowed)
  {
    hide Bytes, Ascii, Delimited, Repeated, EncodedCoins;
    if a.OfBasic? { BasicLayout(cs, a.b); }
    if a.Filtered? { FilterLayout(cs, FilterMsg(Some(Pack(cs, a.inner)), a.allowed)); }
  }

  /** What is stored under a grant's key: granter, grantee and the Any of the allowance, in this order. */
  lemma SaveLayout(cs: Codecs, granter: Text, grantee: Text, a: Allowance)
    ensures Save(cs, granter, grantee, a) ==
            TextAt(0x0a, granter) + TextAt(0x12, grantee) + Delimited(0x1a, cs.any.enc(Pack(cs, a)))
  {
    hide Bytes, Pack, Delimited, TextAt;
    GrantLayout(cs, GrantMsg(granter, grantee, Some(Pack(cs, a))));
  }

  /** Bytes load to a grant exactly when they decode to a message whose Any unpacks to it. */
  lemma LoadsExact(cs: Codecs, bz: bytes, granter: Text, grantee: Text, a: Allowance)
    ensures Loads(cs, bz, granter, grantee, a) <==>
            exists any :: Unmarshal(GrantSchema(cs), bz, NEW_GRANT) == Ok(GrantMsg(granter, grantee, Some(any)))
                       && Unpacks(cs, any, a)
  {
    hide Unpacks, Unmarshal;
    var r := Unmarshal(GrantSchema(cs), bz, NEW_GRANT);
    if r.Ok? && r.value.allowance.Some? {
      assert r.value == GrantMsg(r.value.granter, r.value.grantee, Some(r.value.allowance.value));
    }
  }

  /** What is saved is what is loaded, and nothing else. */
  lemma SaveLoad(cs: Codecs, granter: Text, grantee: Text, a: Allowance, b: Allowance)
    requires Lawful(cs) && CanSave(cs, granter, grantee, a) && Sound(a)
    ensures Loads(cs, Save(cs, granter, grantee, a), granter, grantee, b) <==> b == a
  {
    hide Writable, Unpacks, Sound, Unmarshal, Bytes, GrantFields;
    GrantRoundTrip(cs, GrantMsg(granter, grantee, Some(Pack(cs, a))));
    PackRoundTrip(cs, a);
    if Unpacks(cs, Pack(cs, a), b) { UnpacksUnique(cs, Pack(cs, a), a, b); }
  }

  // ---------- Runs over bytes ----------

  /** One use of the grant stored under a key: load, Accept, then save, delete or leave. */
  ghost predicate ByteStep(cs: Codecs, granter: Text, grantee: Text, s: Option<bytes>, u: Use, s': Option<bytes>) {
    match s
    case None => s' == None
    case Some(bz) =>
      exists a :: Loads(cs, bz, granter, grantee, a) &&
                  s' == var v := Accept(a, u);
                        if v.remove then None
                        else if v.err.Some? then s
                        else Some(Save(cs, granter, grantee, v.after))
  }

  ghost predicate ByteRun(cs: Codecs, granter: Text, grantee: Text, trace: seq<Option<bytes>>, uses: seq<Use>) {
    && |trace| == |uses| + 1
    && forall i :: 0 <= i < |uses| ==> ByteStep(cs, granter, grantee, trace[i], uses[i], trace[i + 1])
  }

  /** Every allowance a run stores can be written. */
  predicate CanSaveAlong(cs: Codecs, granter: Text, grantee: Text, s: Slot, uses: seq<Use>)
    decreases |uses|
  {
    && (s.Live? ==> CanSave(cs, granter, grantee, s.a))
    && (uses != [] ==> CanSaveAlong(cs, granter, grantee, Step(s, uses[0]), uses[1..]))
  }

  function SlotBytes(cs: Codecs, granter: Text, grantee: Text, s: Slot): Option<bytes> {
    if s.Live? then Some(Save(cs, granter, grantee, s.a)) else None
  }

  lemma SoundStep(a: Allowance, u: Use)
    requires Sound(a) && Fee(u.fee) && Step(Live(a), u).Live?
    ensures Sound(Step(Live(a), u).a)
  {
    FilterRefinesInnermost(a, u);
    SoundInnermost(a);
    StepConserves(Innermost(a), u);
    SoundInnermost(Step(Live(a), u).a);
  }

  /** A run over stored bytes goes exactly through the encodings of the run over values. */
  lemma {:induction false} ByteRunRefines(
    cs: Codecs, granter: Text, grantee: Text, s: Slot, trace: seq<Option<bytes>>, uses: seq<Use>)
    requires Lawful(cs) && ByteRun(cs, granter, grantee, trace, uses) && Fees(uses)
    requires trace[0] == SlotBytes(cs, granter, grantee, s) && (s.Live? ==> Sound(s.a))
    requires CanSaveAlong(cs, granter, grantee, s, uses)
    ensures trace[|uses|] == SlotBytes(cs, granter, grantee, Run(s, uses))
    decreases |uses|
  {
    hide CanSave, Loads, Save, Accept, Fee;
    if uses != [] {
      var u, s' := uses[0], Step(s, uses[0]);
      assert ByteStep(cs, granter, grantee, trace[0], u, trace[1]);
      FirstByteStep(cs, granter, grantee, s, u, trace[1]);
      if s'.Live? { SoundStep(s.a, u); }
      var rest := trace[1..];
      forall i | 0 <= i < |uses| - 1 ensures ByteStep(cs, granter, grantee, rest[i], uses[1..][i], rest[i + 1]) {
        assert ByteStep(cs, granter, grantee, trace[i + 1], uses[i + 1], trace[i + 2]);
      }
      ByteRunRefines(cs, granter, grantee, s', rest, uses[1..]);
    }
  }

  lemma FirstByteStep(cs: Codecs, granter: Text, grantee: Text, s: Slot, u: Use, next: Option<bytes>)
    requires Lawful(cs) && ByteStep(cs, granter, grantee, SlotBytes(cs, granter, grantee, s), u, next)
    requires s.Live? ==> Sound(s.a) && CanSave(cs, granter, grantee, s.a)
    ensures next == SlotBytes(cs, granter, grantee, Step(s, u))
  {
    hide CanSave, Loads, Save, Accept;
    if s.Live? {
      var bz := Save(cs, granter, grantee, s.a);
      var a :| Loads(cs, bz, granter, grantee, a) &&
               next == var v := Accept(a, u);
                       if v.remove then None
                       else if v.err.Some? then Some(bz)
                       else Some(Save(cs, granter, grantee, v.after));
      SaveLoad(cs, granter, grantee, s.a, a);
    }
  }

  /**
   Lifetime conservation across save and load: whatever uses are tried, the bytes in the store always load to
   a limited allowance with a non-empty limit, and the initial limit is that limit plus all accepted fees;
   once the bytes are gone, the accepted fees are at most the initial limit.
   */
  lemma StoredLimitIsConserved(
    cs: Codecs, granter: Text, grantee: Text, a: Allowance, trace: seq<Option<bytes>>, uses: seq<Use>, d: string)
    requires Lawful(cs) && ByteRun(cs, granter, grantee, trace, uses) && Fees(uses)
    requires Sound(a) && Limit(a).Some? && trace[0] == Some(Save(cs, granter, grantee, a))
    requires CanSaveAlong(cs, granter, grantee, Live(a), uses)
    ensures var spent := Spent(Live(a), uses, d);
            match trace[|uses|]
            case Some(bz) =>
              forall b :: Loads(cs, bz, granter, grantee, b) ==>
                && Limit(b).Some? && Limit(b).value != []
                && AmountOf(Limit(a).value, d) == AmountOf(Limit(b).value, d) + spent
            case None => spent <= AmountOf(Limit(a).value, d)
    ensures trace[|uses|].Some? ==> exists b :: Loads(cs, trace[|uses|].value, granter, grantee, b)
  {
    hide Loads, Save, CanSave, CanSaveAlong, ByteRun, Sound, Limit, Run, Spent, Fee, Lawful;
    ByteRunRefines(cs, granter, grantee, Live(a), trace, uses);
    Conservation(a, uses, d);
    var end := Run(Live(a), uses);
    if end.Live? {
      SoundLimit(end.a);
      CanSaveEnd(cs, granter, grantee, Live(a), uses);
      var bz := Save(cs, granter, grantee, end.a);
      forall b ensures Loads(cs, bz, granter, grantee, b) <==> b == end.a { SaveLoad(cs, granter, grantee, end.a, b); }
    }
  }

  lemma {:induction false} SoundLimit(a: Allowance)
    requires Sound(a) && Limit(a).Some?
    ensures Limit(a).value != []
  {
    if a.Filtered? { SoundLimit(a.inner); }
  }

  lemma {:induction false} CanSaveEnd(cs: Codecs, granter: Text, grantee: Text, s: Slot, uses: seq<Use>)
    requires CanSaveAlong(cs, granter, grantee, s, uses)
    ensures Run(s, uses).Live? ==> CanSave(cs, granter, grantee, Run(s, uses).a)
    decreases |uses|
  {
    if uses != [] { CanSaveEnd(cs, granter, grantee, Step(s, uses[0]), uses[1..]); }
  }
}
