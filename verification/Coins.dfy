/** sdk.Coins: lists of coins sorted by denomination, and the subtraction the allowances use. */
module Coins {
  import Lex

  datatype Coin = Coin(denom: string, amount: int)

  type CoinList = seq<Coin>

  function Codes(s: string): seq<int> {
    seq(|s|, i requires 0 <= i < |s| => s[i] as int)
  }

  predicate DenomLess(a: string, b: string) {
    Lex.Less(Codes(a), Codes(b))
  }

  lemma DenomOrder(a: string, b: string)
    ensures DenomLess(a, b) || a == b || DenomLess(b, a)
    ensures DenomLess(a, b) ==> a != b && !DenomLess(b, a)
  {
    Lex.LessTotal(Codes(a), Codes(b));
    if Codes(a) == Codes(b) {
      assert forall i :: 0 <= i < |a| ==> a[i] as int == Codes(a)[i] && b[i] as int == Codes(b)[i];
      assert a == b;
    }
    if DenomLess(a, b) { Lex.LessAsymmetric(Codes(a), Codes(b)); }
  }

  lemma DenomTransitive(a: string, b: string, c: string)
    requires DenomLess(a, b) && DenomLess(b, c)
    ensures DenomLess(a, c)
  {
    Lex.LessTransitive(Codes(a), Codes(b), Codes(c));
  }

  // ---------- Lists ----------

  /** Strictly ascending denominations. */
  predicate Sorted(cs: CoinList) {
    forall i, j :: 0 <= i < j < |cs| ==> DenomLess(cs[i].denom, cs[j].denom)
  }

  predicate AllPositive(cs: CoinList) {
    forall c <- cs :: c.amount > 0
  }

  /** Coins.IsValid */
  predicate Valid(cs: CoinList) {
    Sorted(cs) && AllPositive(cs)
  }

  /** What the SDK accepts as an operand of a subtraction without panicking: sorted, not negative. */
  predicate Fee(cs: CoinList) {
    Sorted(cs) && forall c <- cs :: c.amount >= 0
  }

  function AmountOf(cs: CoinList, denom: string): int {
    if cs == [] then 0
    else (if cs[0].denom == denom then cs[0].amount else 0) + AmountOf(cs[1..], denom)
  }

  predicate IsZero(cs: CoinList) {
    forall c <- cs :: c.amount == 0
  }

  predicate IsAnyNegative(cs: CoinList) {
    exists c <- cs :: c.amount < 0
  }

  ghost predicate Covers(a: CoinList, b: CoinList) {
    forall d :: AmountOf(b, d) <= AmountOf(a, d)
  }

  lemma {:induction false} AmountOfAbsent(cs: CoinList, denom: string)
    requires forall c <- cs :: c.denom != denom
    ensures AmountOf(cs, denom) == 0
  {
    if cs != [] { AmountOfAbsent(cs[1..], denom); }
  }

  lemma {:induction false} AmountOfMember(cs: CoinList, i: nat)
    requires Sorted(cs) && i < |cs|
    ensures AmountOf(cs, cs[i].denom) == cs[i].amount
  {
    if i == 0 {
      forall c <- cs[1..] ensures c.denom != cs[0].denom {
        var j :| 0 <= j < |cs[1..]| && cs[1..][j] == c;
        DenomOrder(cs[0].denom, cs[j + 1].denom);
      }
      AmountOfAbsent(cs[1..], cs[0].denom);
    } else {
      DenomOrder(cs[0].denom, cs[i].denom);
      AmountOfMember(cs[1..], i - 1);
    }
  }

  lemma AmountOfSign(cs: CoinList, denom: string)
    requires Sorted(cs)
    ensures AmountOf(cs, denom) == 0 || Coin(denom, AmountOf(cs, denom)) in cs
  {
    if i :| 0 <= i < |cs| && cs[i].denom == denom {
      AmountOfMember(cs, i);
    } else {
      AmountOfAbsent(cs, denom);
    }
  }

  // ---------- Subtraction ----------

  function Keep(denom: string, amount: int, rest: CoinList): CoinList {
    if amount == 0 then rest else [Coin(denom, amount)] + rest
  }

  /** The first result of Coins.SafeSub: per denomination, sorted, zero differences dropped. */
  function Minus(a: CoinList, b: CoinList): CoinList
    decreases |a| + |b|
  {
    if a == [] && b == [] then []
    else if b == [] || (a != [] && DenomLess(a[0].denom, b[0].denom)) then
      Keep(a[0].denom, a[0].amount, Minus(a[1..], b))
    else if a == [] || a[0].denom != b[0].denom then
      Keep(b[0].denom, -b[0].amount, Minus(a, b[1..]))
    else
      Keep(a[0].denom, a[0].amount - b[0].amount, Minus(a[1..], b[1..]))
  }

  lemma KeepAmount(denom: string, amount: int, rest: CoinList, d: string)
    ensures AmountOf(Keep(denom, amount, rest), d) == (if denom == d then amount else 0) + AmountOf(rest, d)
  {
    assert Keep(denom, amount, rest) == rest || Keep(denom, amount, rest)[1..] == rest;
  }

  lemma {:induction false} MinusAmount(a: CoinList, b: CoinList, d: string)
    ensures AmountOf(Minus(a, b), d) == AmountOf(a, d) - AmountOf(b, d)
    decreases |a| + |b|
  {
    if a == [] && b == [] {
    } else if b == [] || (a != [] && DenomLess(a[0].denom, b[0].denom)) {
      MinusAmount(a[1..], b, d);
      KeepAmount(a[0].denom, a[0].amount, Minus(a[1..], b), d);
    } else if a == [] || a[0].denom != b[0].denom {
      MinusAmount(a, b[1..], d);
      KeepAmount(b[0].denom, -b[0].amount, Minus(a, b[1..]), d);
    } else {
      MinusAmount(a[1..], b[1..], d);
      KeepAmount(a[0].denom, a[0].amount - b[0].amount, Minus(a[1..], b[1..]), d);
    }
  }

  /** Every denomination of `cs` comes strictly after `denom`. */
  predicate After(denom: string, cs: CoinList) {
    forall c <- cs :: DenomLess(denom, c.denom)
  }

  lemma TailAfter(cs: CoinList)
    requires Sorted(cs) && cs != []
    ensures After(cs[0].denom, cs[1..]) && Sorted(cs[1..])
  {
  }

  lemma HeadBefore(denom: string, cs: CoinList)
    requires Sorted(cs) && (cs == [] || DenomLess(denom, cs[0].denom))
    ensures After(denom, cs)
  {
    forall c <- cs ensures DenomLess(denom, c.denom) {
      var j :| 0 <= j < |cs| && cs[j] == c;
      if j > 0 { DenomTransitive(denom, cs[0].denom, c.denom); }
    }
  }

  lemma KeepSorted(denom: string, amount: int, rest: CoinList)
    requires Sorted(rest) && After(denom, rest)
    ensures Sorted(Keep(denom, amount, rest))
  {
    var cs := Keep(denom, amount, rest);
    if amount != 0 {
      forall i, j | 0 <= i < j < |cs| ensures DenomLess(cs[i].denom, cs[j].denom) {
        assert cs[j] == rest[j - 1];
        if i > 0 { assert cs[i] == rest[i - 1]; }
      }
    }
  }

  lemma {:induction false} MinusAfter(a: CoinList, b: CoinList, denom: string)
    requires After(denom, a) && After(denom, b)
    ensures After(denom, Minus(a, b))
    decreases |a| + |b|
  {
    if a == [] && b == [] {
    } else if b == [] || (a != [] && DenomLess(a[0].denom, b[0].denom)) {
      MinusAfter(a[1..], b, denom);
    } else if a == [] || a[0].denom != b[0].denom {
      MinusAfter(a, b[1..], denom);
    } else {
      MinusAfter(a[1..], b[1..], denom);
    }
  }

  lemma {:induction false} MinusSorted(a: CoinList, b: CoinList)
    requires Sorted(a) && Sorted(b)
    ensures Sorted(Minus(a, b))
    decreases |a| + |b|
  {
    if a == [] && b == [] {
    } else if b == [] || (a != [] && DenomLess(a[0].denom, b[0].denom)) {
      TailAfter(a);
      HeadBefore(a[0].denom, b);
      MinusSorted(a[1..], b);
      MinusAfter(a[1..], b, a[0].denom);
      KeepSorted(a[0].denom, a[0].amount, Minus(a[1..], b));
    } else if a == [] || a[0].denom != b[0].denom {
      TailAfter(b);
      if a != [] { DenomOrder(a[0].denom, b[0].denom); }
      HeadBefore(b[0].denom, a);
      MinusSorted(a, b[1..]);
      MinusAfter(a, b[1..], b[0].denom);
      KeepSorted(b[0].denom, -b[0].amount, Minus(a, b[1..]));
    } else {
      TailAfter(a);
      TailAfter(b);
      MinusSorted(a[1..], b[1..]);
      MinusAfter(a[1..], b[1..], a[0].denom);
      KeepSorted(a[0].denom, a[0].amount - b[0].amount, Minus(a[1..], b[1..]));
    }
  }

  lemma {:induction false} MinusNonZero(a: CoinList, b: CoinList)
    ensures forall c <- Minus(a, b) :: c.amount != 0
    decreases |a| + |b|
  {
    if a == [] && b == [] {
    } else if b == [] || (a != [] && DenomLess(a[0].denom, b[0].denom)) {
      MinusNonZero(a[1..], b);
    } else if a == [] || a[0].denom != b[0].denom {
      MinusNonZero(a, b[1..]);
    } else {
      MinusNonZero(a[1..], b[1..]);
    }
  }

  /**
   Coins.SafeSub on sorted operands: the flag tells whether `a` covers `b`; if it does, the difference is a
   valid list holding the difference per denomination, and it is zero exactly when it is empty.
   */
  lemma SafeSub(a: CoinList, b: CoinList)
    requires Sorted(a) && Sorted(b)
    ensures !IsAnyNegative(Minus(a, b)) <==> Covers(a, b)
    ensures Covers(a, b) ==> Valid(Minus(a, b))
    ensures IsZero(Minus(a, b)) <==> Minus(a, b) == []
    ensures forall d :: AmountOf(Minus(a, b), d) == AmountOf(a, d) - AmountOf(b, d)
  {
    var diff := Minus(a, b);
    MinusSorted(a, b);
    MinusNonZero(a, b);
    forall d ensures AmountOf(diff, d) == AmountOf(a, d) - AmountOf(b, d) { MinusAmount(a, b, d); }
    if IsAnyNegative(diff) {
      var i :| 0 <= i < |diff| && diff[i].amount < 0;
      AmountOfMember(diff, i);
    }
    forall d ensures AmountOf(diff, d) < 0 ==> IsAnyNegative(diff) { AmountOfSign(diff, d); }
    if diff != [] { assert diff[0] in diff; }
  }

  lemma FeeNonNegative(cs: CoinList, d: string)
    requires Fee(cs)
    ensures AmountOf(cs, d) >= 0
  {
    AmountOfSign(cs, d);
  }
}
