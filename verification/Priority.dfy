/** Mempool ranking of app/lanes/priority_lane.go: a group digit and a gas price as comparable text. */
module Priority {
  import opened Wrappers
  import opened Lex
  import opened Coins
  import opened Decimal
  import opened Arithmetic
  import FeePolicy

  // ---------- Groups ----------

  /** A single digit, written in front of the price. */
  type Group = g: nat | g <= 3

  /** The class of one message, by the module its type URL belongs to. */
  function Class(msgType: string): Group {
    if "/vera.acp." <= msgType then 3
    else if "/vera.tier." <= msgType then 2
    else if "/vera.orbis." <= msgType then 1
    else if "/vera.bulletin." <= msgType then 1
    else 0
  }

  /** The least class among the messages of a transaction; none at all rank lowest. */
  predicate IsGroup(msgs: seq<string>, g: Group) {
    if msgs == [] then g == 0
    else (forall m <- msgs :: g <= Class(m)) && exists m <- msgs :: g == Class(m)
  }

  /** getPriorityGroup: starts at the top, lowers, and leaves early at the bottom. */
  method PriorityGroup(msgs: seq<string>) returns (group: Group)
    ensures IsGroup(msgs, group)
  {
    if |msgs| == 0 {
      return 0;
    }
    group := 3;
    ghost var lowest := 0;
    for i := 0 to |msgs|
      invariant 1 <= group <= 3
      invariant forall k :: 0 <= k < i ==> group <= Class(msgs[k])
      invariant 0 <= lowest < |msgs| && (group < 3 ==> group == Class(msgs[lowest]))
    {
      var msgType := msgs[i];
      if "/vera.acp." <= msgType {
      } else if "/vera.tier." <= msgType {
        if group > 2 { group, lowest := 2, i; }
      } else if "/vera.orbis." <= msgType {
        if group > 1 { group, lowest := 1, i; }
      } else if "/vera.bulletin." <= msgType {
        if group > 1 { group, lowest := 1, i; }
      } else {
        assert Class(msgs[i]) == 0;
        return 0;
      }
    }
    assert group == Class(msgs[lowest]);
  }

  /** The group depends only on which messages there are, not on their order or number. */
  lemma GroupIgnoresOrder(xs: seq<string>, ys: seq<string>, g: Group, h: Group)
    requires IsGroup(xs, g) && IsGroup(ys, h) && (forall m :: m in xs <==> m in ys)
    ensures g == h
  {
    if xs != [] { assert xs[0] in ys; }
  }

  /** Appending messages never raises the group of a non-empty list. */
  lemma AppendNeverRaises(xs: seq<string>, ys: seq<string>, g: Group, h: Group)
    requires xs != [] && IsGroup(xs, g) && IsGroup(xs + ys, h)
    ensures h <= g
  {
    var m :| m in xs && g == Class(m);
    assert m in xs + ys;
  }

  /** There are messages, and each begins with one of the prefixes. */
  predicate AllFrom(msgs: seq<string>, prefixes: seq<string>) {
    msgs != [] && forall m <- msgs :: exists p <- prefixes :: p <= m
  }

  /** Which transactions reach a group, by the modules of their messages. */
  lemma GroupByModules(msgs: seq<string>, g: Group)
    requires IsGroup(msgs, g)
    ensures g == 3 <==> AllFrom(msgs, ["/vera.acp."])
    ensures g >= 2 <==> AllFrom(msgs, ["/vera.acp.", "/vera.tier."])
    ensures g >= 1 <==> AllFrom(msgs, ["/vera.acp.", "/vera.tier.", "/vera.orbis.", "/vera.bulletin."])
  {
    forall m <- msgs
      ensures Class(m) == 3 <==> exists p <- ["/vera.acp."] :: p <= m
      ensures Class(m) >= 2 <==> exists p <- ["/vera.acp.", "/vera.tier."] :: p <= m
      ensures Class(m) >= 1 <==> exists p <- ["/vera.acp.", "/vera.tier.", "/vera.orbis.", "/vera.bulletin."] :: p <= m
    {
      ClassByModule(m);
    }
    hide Class;
  }

  lemma ClassByModule(m: string)
    ensures Class(m) == 3 <==> exists p <- ["/vera.acp."] :: p <= m
    ensures Class(m) >= 2 <==> exists p <- ["/vera.acp.", "/vera.tier."] :: p <= m
    ensures Class(m) >= 1 <==> exists p <- ["/vera.acp.", "/vera.tier.", "/vera.orbis.", "/vera.bulletin."] :: p <= m
  {
    var ps := ["/vera.acp.", "/vera.tier.", "/vera.orbis.", "/vera.bulletin."];
    assert ps[0] in ps && ps[1] in ps && ps[2] in ps && ps[3] in ps;
    assert "/vera.acp." in ["/vera.acp."];
    assert "/vera.acp." in ["/vera.acp.", "/vera.tier."] && "/vera.tier." in ["/vera.acp.", "/vera.tier."];
  }

  // ---------- Gas prices as text ----------

  const DOT := 46
  const ZERO := 48
  const MINUS := 45
  const WIDTH := 32

  /** Decimal digits without leading zeros. */
  function NatText(n: nat): (t: seq<int>)
    ensures |t| > 0
  {
    if n < 10 then [ZERO + n] else NatText(n / 10) + [ZERO + n % 10]
  }

  function Zeros(n: nat): (z: seq<int>)
    ensures |z| == n
  {
    if n == 0 then [] else [ZERO] + Zeros(n - 1)
  }

  /** LegacyDec.String: at least one digit before the point and 18 after it. */
  function DecText(x: int): seq<int> {
    var digits := NatText(if x < 0 then -x else x);
    var text := if |digits| <= 18 then [ZERO, DOT] + Zeros(18 - |digits|) + digits
                else digits[..|digits| - 18] + [DOT] + digits[|digits| - 18..];
    if x < 0 then [MINUS] + text else text
  }

  /** strings.ReplaceAll(s, ".", "") */
  function WithoutDots(s: seq<int>): seq<int> {
    if s == [] then [] else if s[0] == DOT then WithoutDots(s[1..]) else [s[0]] + WithoutDots(s[1..])
  }

  /** formatGasPrice: at most 32 characters, padded with zeros on the left. */
  function FormatGasPrice(x: int): seq<int> {
    var text := WithoutDots(DecText(x));
    var cut := if |text| > WIDTH then text[..WIDTH] else text;
    Zeros(WIDTH - |cut|) + cut
  }

  predicate NoDots(s: seq<int>) {
    forall i :: 0 <= i < |s| ==> s[i] != DOT
  }

  lemma {:induction false} NatTextNoDots(n: nat)
    ensures NoDots(NatText(n))
  {
    if n >= 10 { NatTextNoDots(n / 10); }
  }

  lemma {:induction false} ZerosNoDots(n: nat)
    ensures NoDots(Zeros(n))
  {
    if n > 0 { ZerosNoDots(n - 1); }
  }

  lemma {:induction false} WithoutDotsJoin(a: seq<int>, b: seq<int>)
    ensures WithoutDots(a + b) == WithoutDots(a) + WithoutDots(b)
  {
    if a == [] {
      assert a + b == b;
    } else {
      WithoutDotsJoin(a[1..], b);
      assert (a + b)[0] == a[0] && (a + b)[1..] == a[1..] + b;
      assert [a[0]] + (WithoutDots(a[1..]) + WithoutDots(b)) == [a[0]] + WithoutDots(a[1..]) + WithoutDots(b);
    }
  }

  lemma {:induction false} WithoutDotsSame(s: seq<int>)
    requires NoDots(s)
    ensures WithoutDots(s) == s
  {
    if s != [] { WithoutDotsSame(s[1..]); }
  }

  /** Padding the digits with zeros gives the fixed-width form. */
  lemma {:induction false} PaddedText(n: nat, width: nat)
    requires n < Pow10(width) && width > 0
    ensures |NatText(n)| <= width && Digits(n, width) == Zeros(width - |NatText(n)|) + NatText(n)
  {
    if n < 10 {
      ZeroDigits(width - 1);
    } else {
      assert width > 1 by { assert Pow10(1) == 10; }
      PaddedText(n / 10, width - 1);
    }
  }

  lemma {:induction false} ZeroDigits(width: nat)
    ensures Digits(0, width) == Zeros(width)
  {
    if width > 0 {
      ZeroDigits(width - 1);
      ZerosEnd(width - 1);
    }
  }

  lemma {:induction false} ZerosEnd(n: nat)
    ensures Zeros(n) + [ZERO] == Zeros(n + 1)
  {
    if n > 0 { ZerosEnd(n - 1); }
  }

  lemma {:induction false} ZerosJoin(m: nat, n: nat)
    ensures Zeros(m) + Zeros(n) == Zeros(m + n)
  {
    if m > 0 { ZerosJoin(m - 1, n); }
  }

  lemma DropPoint(a: seq<int>, b: seq<int>)
    requires NoDots(a) && NoDots(b)
    ensures WithoutDots(a + [DOT] + b) == a + b
  {
    WithoutDotsJoin(a + [DOT], b);
    WithoutDotsJoin(a, [DOT]);
    WithoutDotsSame(a);
    WithoutDotsSame(b);
    assert [DOT][1..] == [];
    assert WithoutDots([DOT]) == [];
  }

  lemma DropLeadingPoint(d: seq<int>, n: nat)
    requires NoDots(d)
    ensures WithoutDots([ZERO, DOT] + Zeros(n) + d) == Zeros(n + 1) + d
  {
    ZerosNoDots(n);
    var z := Zeros(n);
    assert [ZERO] + z == Zeros(n + 1);
    hide WithoutDots, Zeros;
    DropPoint([ZERO], z + d);
    assert [ZERO] + [DOT] + (z + d) == [ZERO, DOT] + z + d;
    assert [ZERO] + (z + d) == ([ZERO] + z) + d;
  }

  /** Removing the point leaves the digits, padded to 19 when the price is below one. */
  lemma TextDigits(x: nat)
    ensures var d := NatText(x); WithoutDots(DecText(x)) == Zeros(if |d| <= 18 then 19 - |d| else 0) + d
  {
    var d := NatText(x);
    NatTextNoDots(x);
    NoZeros();
    hide WithoutDots, NatText, Zeros;
    if |d| <= 18 {
      DropLeadingPoint(d, 18 - |d|);
    } else {
      var a, b := d[..|d| - 18], d[|d| - 18..];
      DropPoint(a, b);
      assert a + b == d;
      assert [] + d == d;
    }
  }

  lemma NoZeros()
    ensures Zeros(0) == []
  {
  }

  lemma ShortFormat(x: nat)
    requires x < Pow10(WIDTH)
    ensures FormatGasPrice(x) == Digits(x, WIDTH)
  {
    hide Pow10, NatText, Digits, WithoutDots, DecText, Zeros;
    var d := NatText(x);
    TextDigits(x);
    PaddedText(x, WIDTH);
    if |d| <= 18 {
      ZerosJoin(WIDTH - 19, 19 - |d|);
      assert Zeros(13) + (Zeros(19 - |d|) + d) == Zeros(13) + Zeros(19 - |d|) + d;
    } else {
      NoZeros();
    }
  }

  lemma {:induction false} LongText(x: nat, width: nat)
    requires width > 0 && Pow10(width - 1) <= x
    ensures |NatText(x)| >= width
  {
    if width > 1 { LongText(x / 10, width - 1); }
  }

  /** A price of more than 32 digits is written without its last digit. */
  lemma FormatCutsOff(x: nat)
    requires x >= Pow10(WIDTH)
    ensures FormatGasPrice(x) == FormatGasPrice(x / 10)
  {
    hide Pow10, NatText, WithoutDots, DecText, Zeros;
    var d := NatText(x / 10);
    LongerByOne(x);
    NoZeros();
    TextDigits(x);
    TextDigits(x / 10);
    assert (d + [ZERO + x % 10])[..WIDTH] == d[..WIDTH];
  }

  lemma LongerByOne(x: nat)
    requires x >= Pow10(WIDTH)
    ensures NatText(x) == NatText(x / 10) + [ZERO + x % 10] && |NatText(x / 10)| >= WIDTH
  {
    AtLeastTen(x);
    assert x / 10 >= Pow10(WIDTH - 1);
    hide Pow10;
    LongText(x / 10, WIDTH);
  }

  /** The number that the 32 leading digits make; the price itself if it has no more. */
  function Lead(x: nat): (n: nat)
    ensures n < Pow10(WIDTH) && n <= x
  {
    if x < Pow10(WIDTH) then x else Lead(x / 10)
  }

  /** The text of a price is its 32 leading digits. */
  lemma {:induction false} FormatIsDigits(x: nat)
    ensures FormatGasPrice(x) == Digits(Lead(x), WIDTH)
  {
    hide Pow10, FormatGasPrice, Digits;
    if x < Pow10(WIDTH) {
      ShortFormat(x);
    } else {
      FormatCutsOff(x);
      AtLeastTen(x);
      FormatIsDigits(x / 10);
    }
  }

  lemma AtLeastTen(x: nat)
    requires x >= Pow10(WIDTH)
    ensures x >= 10
  {
  }

  // ---------- Negative prices ----------

  lemma MinusStays(text: seq<int>)
    ensures WithoutDots([MINUS] + text) == [MINUS] + WithoutDots(text)
  {
    assert ([MINUS] + text)[1..] == text;
  }

  lemma SignedText(x: int)
    requires x < 0
    ensures DecText(x) == [MINUS] + DecText(-x)
  {
    hide NatText, Zeros;
  }

  /** The text of a negative price has a minus sign where others have a digit. */
  lemma NegativeText(x: int) returns (k: nat, rest: seq<int>)
    requires x < 0
    ensures k < WIDTH && FormatGasPrice(x) == Zeros(k) + [MINUS] + rest
  {
    hide DecText, WithoutDots, Zeros;
    var digits := DecText(-x);
    SignedText(x);
    MinusStays(digits);
    var text := [MINUS] + WithoutDots(digits);
    var cut := if |text| > WIDTH then text[..WIDTH] else text;
    k, rest := WIDTH - |cut|, cut[1..];
    assert cut == [MINUS] + rest;
    assert Zeros(k) + ([MINUS] + rest) == Zeros(k) + [MINUS] + rest;
  }

  lemma {:induction false} BelowDigits(k: nat, rest: seq<int>, t: seq<int>)
    requires k < |t| && forall i :: 0 <= i < |t| ==> t[i] >= ZERO
    ensures Less(Zeros(k) + [MINUS] + rest, t)
    decreases k
  {
    var s := Zeros(k) + [MINUS] + rest;
    if k > 0 {
      BelowDigits(k - 1, rest, t[1..]);
      assert s[0] == ZERO && s[1..] == Zeros(k - 1) + [MINUS] + rest;
    }
  }

  lemma {:induction false} DigitsAreDigits(n: nat, width: nat)
    ensures forall i :: 0 <= i < width ==> Digits(n, width)[i] >= ZERO
  {
    if width > 0 { DigitsAreDigits(n / 10, width - 1); }
  }

  /** A negative price is written below every other. */
  lemma NegativeIsBelow(x: int, y: nat)
    requires x < 0
    ensures Less(FormatGasPrice(x), FormatGasPrice(y))
  {
    hide FormatGasPrice, Less, Zeros, Lead, Digits;
    var k, rest := NegativeText(x);
    FormatIsDigits(y);
    DigitsAreDigits(Lead(y), WIDTH);
    BelowDigits(k, rest, Digits(Lead(y), WIDTH));
  }

  // ---------- Priorities ----------

  /** GetTxPriority: group, colon, price. */
  function PriorityText(group: Group, price: int): seq<int> {
    [ZERO + group, 58] + FormatGasPrice(price)
  }

  /** Compare */
  function Compare(a: seq<int>, b: seq<int>): int {
    if Less(b, a) then 1 else if Less(a, b) then -1 else 0
  }

  function Sign(x: int): int {
    if x > 0 then 1 else if x < 0 then -1 else 0
  }

  lemma CompareDigits(x: nat, y: nat, width: nat)
    requires x < Pow10(width) && y < Pow10(width)
    ensures Compare(Digits(x, width), Digits(y, width)) == Sign(x - y)
  {
    if x < y {
      DigitsLess(x, y, width);
      LessAsymmetric(Digits(x, width), Digits(y, width));
    } else if y < x {
      DigitsLess(y, x, width);
    } else {
      LessIrreflexive(Digits(x, width));
    }
  }

  lemma ComparePrefixed(p: seq<int>, x: seq<int>, y: seq<int>)
    ensures Compare(p + x, p + y) == Compare(x, y)
  {
    hide Less;
    LessAfter(p, x, y);
    LessAfter(p, y, x);
  }

  lemma GroupsDecide(g: Group, x: int, h: Group, y: int)
    requires g != h
    ensures Compare(PriorityText(g, x), PriorityText(h, y)) == Sign(g - h)
  {
    hide FormatGasPrice;
  }

  /**
   At whatever prices: transactions of acp messages only rank above all others, those of acp and tier messages only
   above all that have another message, and those of the four modules above the rest.
   */
  lemma ModulesRank(xs: seq<string>, g: Group, x: int, ys: seq<string>, h: Group, y: int)
    requires IsGroup(xs, g) && IsGroup(ys, h)
    ensures AllFrom(xs, ["/vera.acp."]) && !AllFrom(ys, ["/vera.acp."]) ==>
              Compare(PriorityText(g, x), PriorityText(h, y)) == 1
    ensures AllFrom(xs, ["/vera.acp.", "/vera.tier."]) && !AllFrom(ys, ["/vera.acp.", "/vera.tier."]) ==>
              Compare(PriorityText(g, x), PriorityText(h, y)) == 1
    ensures var modules := ["/vera.acp.", "/vera.tier.", "/vera.orbis.", "/vera.bulletin."];
            AllFrom(xs, modules) && !AllFrom(ys, modules) ==> Compare(PriorityText(g, x), PriorityText(h, y)) == 1
  {
    hide IsGroup, AllFrom, Compare, PriorityText;
    GroupByModules(xs, g);
    GroupByModules(ys, h);
    if g != h { GroupsDecide(g, x, h, y); }
  }

  /** Every priority is a digit, a colon and 32 characters. */
  lemma PriorityShape(g: Group, x: int)
    ensures var t := PriorityText(g, x); |t| == 34 && t[0] == 48 + g && t[1] == 58
  {
    hide DecText, WithoutDots;
  }

  lemma PricesDecide(g: Group, x: nat, y: nat)
    ensures Compare(PriorityText(g, x), PriorityText(g, y)) == Sign(Lead(x) - Lead(y))
  {
    hide Pow10, Lead, Less, Digits, FormatGasPrice, Compare;
    FormatIsDigits(x);
    FormatIsDigits(y);
    CompareDigits(Lead(x), Lead(y), WIDTH);
    ComparePrefixed([ZERO + g, 58], FormatGasPrice(x), FormatGasPrice(y));
  }

  /** Comparing the texts compares the groups first and the leading 32 digits of the scaled prices next. */
  lemma PriorityOrder(g: Group, x: nat, h: Group, y: nat)
    ensures Compare(PriorityText(g, x), PriorityText(h, y)) == if g != h then Sign(g - h) else Sign(Lead(x) - Lead(y))
  {
    hide *;
    if g != h { GroupsDecide(g, x, h, y); } else { PricesDecide(g, x, y); }
  }

  lemma NegativeRanksBelow(g: Group, x: int, y: nat)
    requires x < 0
    ensures Compare(PriorityText(g, x), PriorityText(g, y)) == -1
  {
    hide FormatGasPrice, Less;
    NegativeIsBelow(x, y);
    LessAsymmetric(FormatGasPrice(x), FormatGasPrice(y));
    ComparePrefixed([ZERO + g, 58], FormatGasPrice(x), FormatGasPrice(y));
  }

  /** Such a pair: 10^32 ranks below 9 * 10^31. */
  lemma OrderInverts(g: Group)
    ensures Compare(PriorityText(g, Pow10(WIDTH)), PriorityText(g, 9 * Pow10(WIDTH - 1))) == -1
  {
    var t := Pow10(WIDTH - 1);
    assert Pow10(WIDTH) == 10 * t;
    assert Lead(10 * t) == t by { assert 10 * t / 10 == t; }
    assert 9 * t < Pow10(WIDTH) && Lead(9 * t) == 9 * t;
    hide Compare, PriorityText, Pow10, Lead;
    PriorityOrder(g, 10 * t, g, 9 * t);
  }

  /** Below 10^32 this is the order of the prices. */
  lemma PriceOrder(g: Group, x: nat, y: nat)
    requires x < Pow10(WIDTH) && y < Pow10(WIDTH)
    ensures Compare(PriorityText(g, x), PriorityText(g, y)) == Sign(x - y)
  {
    hide Compare, PriorityText, Pow10;
    PriorityOrder(g, x, g, y);
  }

  ghost predicate OrderedBelow(g: Group, bound: nat) {
    forall x: nat, y: nat :: x < bound && y < bound ==> Compare(PriorityText(g, x), PriorityText(g, y)) == Sign(x - y)
  }

  /** 10^32 is the bound: all prices below N are ordered by their texts exactly if N is not above it. */
  lemma OrderExact(g: Group, bound: nat)
    ensures OrderedBelow(g, bound) <==> bound <= Pow10(WIDTH)
  {
    hide Compare, PriorityText;
    if bound <= Pow10(WIDTH) {
      forall x: nat, y: nat | x < bound && y < bound
        ensures Compare(PriorityText(g, x), PriorityText(g, y)) == Sign(x - y)
      {
        PriceOrder(g, x, y);
      }
    } else {
      OrderInverts(g);
      var x, y := Pow10(WIDTH), 9 * Pow10(WIDTH - 1);
      assert y < x < bound;
      assert Sign(x - y) == 1;
      assert Compare(PriorityText(g, x), PriorityText(g, y)) == -1;
    }
  }

  /** "0:00000000000000000000000000000000" */
  const MIN_VALUE: seq<int> := [ZERO, 58] + Zeros(WIDTH)

  /** A priority ranks below MinValue exactly if it is of the lowest group with a negative price. */
  lemma MinValueIsLeast(g: Group, x: int)
    ensures Compare(PriorityText(g, x), MIN_VALUE) >= 0 <==> g > 0 || x >= 0
  {
    MinValueIsZero();
    LeadOfZero();
    hide Compare, PriorityText, Lead;
    if g > 0 {
      GroupsDecide(g, x, 0, 0);
    } else if x >= 0 {
      PriorityOrder(g, x, 0, 0);
    } else {
      NegativeRanksBelow(g, x, 0);
    }
  }

  lemma LeadOfZero()
    ensures Lead(0) == 0
  {
  }

  lemma MinValueIsZero()
    ensures MIN_VALUE == PriorityText(0, 0)
  {
    ZeroDigits(WIDTH);
    LeadOfZero();
    FormatIsDigits(0);
  }

  // ---------- Gas prices ----------

  /** getGasPrice of a fee transaction; None stands for a transaction that carries no fee. */
  function GasPrice(feeTx: Option<(CoinList, FeePolicy.Uint64)>): int {
    match feeTx
    case None => 0
    case Some((fee, gas)) =>
      if gas == 0 || fee == [] then 0
      else Quo(FromInt(AmountOf(fee, FeePolicy.MICRO_OPEN)), FromInt(FeePolicy.Int64(gas)))
  }

  /** If one fee per gas is at least another, so is its quotient. */
  lemma QuotientOrder(f: nat, g: nat, f': nat, g': nat, scale: nat)
    requires g > 0 && g' > 0 && f * g' >= f' * g
    ensures f * scale / g >= f' * scale / g'
  {
    var n := f' * scale / g';
    assert n * g' <= f' * scale;
    Chain(f, g, f', g', scale, n);
    QuotientAtLeast(f * scale, n, g);
  }

  lemma Chain(f: nat, g: nat, f': nat, g': nat, scale: nat, n: nat)
    requires g > 0 && g' > 0 && f * g' >= f' * g && n * g' <= f' * scale
    ensures n * g <= f * scale
  {
    assert (n * g) * g' == (n * g') * g <= (f' * scale) * g == (f' * g) * scale;
    assert (f' * g) * scale <= (f * g') * scale == (f * scale) * g';
    CancelAtMost(n * g, f * scale, g');
  }

  /**
   Fair ranking: within a group, for all gas limits below 2^63, a transaction that pays at least as much per unit of
   gas has at least the price, in spite of truncation and rounding, and never ranks below as long as the price fits 32
   digits; beyond, exactly if its leading digits are not less.
   */
  lemma HigherPayerNeverRanksBelow(group: Group, fee: CoinList, gas: nat, fee': CoinList, gas': nat)
    requires Fee(fee) && Fee(fee') && 1 <= gas < FeePolicy.TWO_63 && 1 <= gas' < FeePolicy.TWO_63
    requires AmountOf(fee, FeePolicy.MICRO_OPEN) * gas' >= AmountOf(fee', FeePolicy.MICRO_OPEN) * gas
    ensures var x, y := GasPrice(Some((fee, gas))), GasPrice(Some((fee', gas')));
            && x >= y >= 0
            && (x < Pow10(WIDTH) ==> Compare(PriorityText(group, x), PriorityText(group, y)) >= 0)
            && (Compare(PriorityText(group, x), PriorityText(group, y)) >= 0 <==> Lead(x) >= Lead(y))
  {
    hide Compare, PriorityText, GasPrice, Fee, AmountOf, Pow10;
    var x, y := GasPrice(Some((fee, gas))), GasPrice(Some((fee', gas')));
    GasPriceOrder(fee, gas, fee', gas');
    PriorityOrder(group, x, group, y);
  }

  /**
   From 2^63 gas on the cast makes the price zero or negative: such a transaction never ranks above another of its
   group. The check of the SDK that runs earlier refuses such gas limits, so this is about the function alone.
   */
  lemma HugeGasRanksLast(group: Group, fee: CoinList, gas: FeePolicy.Uint64, y: nat)
    requires Fee(fee) && gas >= FeePolicy.TWO_63
    ensures var x := GasPrice(Some((fee, gas))); x <= 0 && Compare(PriorityText(group, x), PriorityText(group, y)) <= 0
  {
    hide Compare, PriorityText, Lead, GasPrice, Fee;
    var x := GasPrice(Some((fee, gas)));
    PriceNotPositive(fee, gas);
    LeadOfZero();
    if x < 0 { NegativeRanksBelow(group, x, y); } else { PriorityOrder(group, x, group, y); }
  }

  lemma PriceNotPositive(fee: CoinList, gas: FeePolicy.Uint64)
    requires Fee(fee) && gas >= FeePolicy.TWO_63
    ensures GasPrice(Some((fee, gas))) <= 0
  {
    FeeNonNegative(fee, FeePolicy.MICRO_OPEN);
    var n, d := FromInt(AmountOf(fee, FeePolicy.MICRO_OPEN)) * ONE * ONE, FromInt(FeePolicy.Int64(gas));
    assert n >= 0 && d < 0;
    hide AmountOf;
    QuotientBounds(n, -d);
    assert TruncDiv(n, d) <= 0;
  }

  lemma NonNegativeQuotient(amount: nat, gas: nat)
    requires gas > 0
    ensures Chop(amount * ONE * ONE / gas) >= 0
  {
    ChopMonotone(0, amount * ONE * ONE / gas);
  }

  lemma NoFeeNoPrice(fee: CoinList, gas: nat)
    requires fee == [] && gas > 0
    ensures AmountOf(fee, FeePolicy.MICRO_OPEN) == 0 && Chop(0 * ONE * ONE / gas) == 0
  {
    hide Chop;
    ChopExact(0);
    QuotientIs(0, gas, 0, 0);
  }

  lemma GasPriceIs(fee: CoinList, gas: nat)
    requires Fee(fee) && 1 <= gas < FeePolicy.TWO_63
    ensures AmountOf(fee, FeePolicy.MICRO_OPEN) >= 0
    ensures GasPrice(Some((fee, gas))) == Chop(AmountOf(fee, FeePolicy.MICRO_OPEN) * ONE * ONE / gas) >= 0
  {
    var amount := AmountOf(fee, FeePolicy.MICRO_OPEN);
    FeeNonNegative(fee, FeePolicy.MICRO_OPEN);
    hide Chop, TruncDiv, Fee, AmountOf;
    WholeQuotient(amount, gas);
    NonNegativeQuotient(amount, gas);
    if fee == [] { NoFeeNoPrice(fee, gas); }
  }

  /**
   The price in figures: the "uopen" part of the fee per unit of gas, to 18 places; nothing without a fee or gas, and
   nothing for a transaction that carries no fee.
   */
  lemma GasPriceInFigures(fee: CoinList, gas: nat)
    requires Fee(fee) && gas < 0x8000_0000_0000_0000
    ensures GasPrice(None) == 0
    ensures var x, amount := GasPrice(Some((fee, gas))), AmountOf(fee, "uopen");
            if gas == 0 || fee == [] then x == 0
            else
              var exact := amount * 1_000_000_000_000_000_000 * 1_000_000_000_000_000_000;
              -500_000_000_000_000_001 * gas <= x * 1_000_000_000_000_000_000 * gas - exact
              <= 500_000_000_000_000_000 * gas
  {
    if gas > 0 && fee != [] {
      var amount := AmountOf(fee, FeePolicy.MICRO_OPEN);
      GasPriceIs(fee, gas);
      hide Chop, GasPrice, Fee, AmountOf;
      var t := amount * ONE * ONE / gas;
      QuotientBounds(amount * ONE * ONE, gas);
      ChopNearest(t);
      RoundedFraction(t, Chop(t), amount, gas);
    }
  }

  lemma GasPriceOrder(fee: CoinList, gas: nat, fee': CoinList, gas': nat)
    requires Fee(fee) && Fee(fee') && 1 <= gas < FeePolicy.TWO_63 && 1 <= gas' < FeePolicy.TWO_63
    requires AmountOf(fee, FeePolicy.MICRO_OPEN) * gas' >= AmountOf(fee', FeePolicy.MICRO_OPEN) * gas
    ensures GasPrice(Some((fee, gas))) >= GasPrice(Some((fee', gas'))) >= 0
  {
    GasPriceIs(fee, gas);
    GasPriceIs(fee', gas');
    var f, f' := AmountOf(fee, FeePolicy.MICRO_OPEN), AmountOf(fee', FeePolicy.MICRO_OPEN);
    QuotientOrder(f, gas, f', gas', ONE * ONE);
    assert f * (ONE * ONE) == f * ONE * ONE && f' * (ONE * ONE) == f' * ONE * ONE;
    ChopMonotone(f' * ONE * ONE / gas', f * ONE * ONE / gas);
  }
}
