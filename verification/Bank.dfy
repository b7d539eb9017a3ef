/** Balances and the transfer that collects a fee: the coins leave one account and enter another, coin by coin. */
module Bank {
  import opened Wrappers
  import opened Lex
  import opened Coins

  type Address = bytes

  /** An absent entry is a zero balance. */
  type Balances = map<(Address, string), int>

  function BalanceOf(b: Balances, a: Address, d: string): int {
    if (a, d) in b then b[(a, d)] else 0
  }

  /** What an account may not spend (vesting). */
  type Locks = (Address, string) -> nat

  function Debit(b: Balances, locked: Locks, a: Address, cs: CoinList): Option<Balances>
    decreases |cs|
  {
    if cs == [] then Some(b)
    else
      var left := BalanceOf(b, a, cs[0].denom) - cs[0].amount;
      if left < locked(a, cs[0].denom) then None
      else Debit(b[(a, cs[0].denom) := left], locked, a, cs[1..])
  }

  function Credit(b: Balances, a: Address, cs: CoinList): Balances
    decreases |cs|
  {
    if cs == [] then b
    else Credit(b[(a, cs[0].denom) := BalanceOf(b, a, cs[0].denom) + cs[0].amount], a, cs[1..])
  }

  /** SendCoins */
  function Send(b: Balances, locked: Locks, from: Address, to: Address, cs: CoinList): Option<Balances> {
    var debited := Debit(b, locked, from, cs);
    if debited.None? then None else Some(Credit(debited.value, to, cs))
  }

  lemma {:induction false} DebitEffect(b: Balances, locked: Locks, a: Address, cs: CoinList, x: Address, d: string)
    requires Debit(b, locked, a, cs).Some?
    ensures BalanceOf(Debit(b, locked, a, cs).value, x, d) == BalanceOf(b, x, d) - if x == a then AmountOf(cs, d) else 0
    decreases |cs|
  {
    if cs != [] {
      DebitEffect(b[(a, cs[0].denom) := BalanceOf(b, a, cs[0].denom) - cs[0].amount], locked, a, cs[1..], x, d);
    }
  }

  lemma {:induction false} CreditEffect(b: Balances, a: Address, cs: CoinList, x: Address, d: string)
    ensures BalanceOf(Credit(b, a, cs), x, d) == BalanceOf(b, x, d) + if x == a then AmountOf(cs, d) else 0
    decreases |cs|
  {
    if cs != [] {
      CreditEffect(b[(a, cs[0].denom) := BalanceOf(b, a, cs[0].denom) + cs[0].amount], a, cs[1..], x, d);
    }
  }

  predicate Affords(b: Balances, locked: Locks, a: Address, cs: CoinList) {
    forall c <- cs :: c.amount <= BalanceOf(b, a, c.denom) - locked(a, c.denom)
  }

  lemma {:induction false} DebitExact(b: Balances, locked: Locks, a: Address, cs: CoinList)
    requires Sorted(cs)
    ensures Debit(b, locked, a, cs).Some? <==> Affords(b, locked, a, cs)
    decreases |cs|
  {
    hide BalanceOf, Sorted;
    if cs != [] {
      TailAfter(cs);
      OthersUntouched(b, a, cs);
      var b' := b[(a, cs[0].denom) := BalanceOf(b, a, cs[0].denom) - cs[0].amount];
      DebitExact(b', locked, a, cs[1..]);
      assert cs == [cs[0]] + cs[1..];
    }
  }

  lemma OthersUntouched(b: Balances, a: Address, cs: CoinList)
    requires Sorted(cs) && cs != []
    ensures var b' := b[(a, cs[0].denom) := BalanceOf(b, a, cs[0].denom) - cs[0].amount];
            forall c <- cs[1..] :: BalanceOf(b', a, c.denom) == BalanceOf(b, a, c.denom)
  {
    forall c <- cs[1..] ensures c.denom != cs[0].denom {
      var j :| 0 <= j < |cs[1..]| && cs[1..][j] == c;
      DenomOrder(cs[0].denom, cs[j + 1].denom);
    }
  }

  /**
   A transfer goes through exactly when the sender's unlocked balance covers every coin; then the sender
   has lost exactly the coins, the receiver has gained them, and no other balance has changed.
   */
  lemma SendMoves(b: Balances, locked: Locks, from: Address, to: Address, cs: CoinList)
    requires Sorted(cs)
    ensures Send(b, locked, from, to, cs).Some? <==> Affords(b, locked, from, cs)
    ensures Send(b, locked, from, to, cs).Some? ==> Moved(b, Send(b, locked, from, to, cs).value, from, to, cs)
  {
    DebitExact(b, locked, from, cs);
    if Send(b, locked, from, to, cs).Some? {
      forall x: Address, d: string ensures Balanced(b, Send(b, locked, from, to, cs).value, from, to, cs, x, d) {
        DebitEffect(b, locked, from, cs, x, d);
        CreditEffect(Debit(b, locked, from, cs).value, to, cs, x, d);
      }
    }
  }

  /** An account without an entry in some denomination of the fee cannot pay it. */
  lemma NoEntryNoFunds(b: Balances, locked: Locks, from: Address, to: Address, cs: CoinList, i: nat)
    requires Valid(cs) && i < |cs| && (from, cs[i].denom) !in b
    ensures Send(b, locked, from, to, cs) == None
  {
    SendMoves(b, locked, from, to, cs);
    assert cs[i] in cs;
  }

  predicate Balanced(b: Balances, b': Balances, from: Address, to: Address, cs: CoinList, x: Address, d: string) {
    BalanceOf(b', x, d) ==
    BalanceOf(b, x, d) - (if x == from then AmountOf(cs, d) else 0) + (if x == to then AmountOf(cs, d) else 0)
  }

  ghost predicate Moved(b: Balances, b': Balances, from: Address, to: Address, cs: CoinList) {
    forall x: Address, d: string :: Balanced(b, b', from, to, cs, x, d)
  }
}
