/** The pair's liquidity-share ledger: holders, their balances, and the sum of
    all balances, which the pair keeps equal to `totalSupply`. */
module Shares {

  /** An account address; `Zero` is the null address. */
  type Address = nat

  const Zero: Address := 0

  /** An address that can send a transaction: never the null address. */
  type Account = a: Address | a != 0 witness 1

  /** Shares minted on the first deposit to the null address, where nobody can
      ever burn them. */
  const MinimumLiquidity: nat := 1000

  /** A ledger lookup; an address never credited holds nothing. */
  function BalanceOf(ledger: map<Address, nat>, a: Address): nat
  {
    if a in ledger then ledger[a] else 0
  }

  /** The sum of all balances in a ledger. */
  ghost function Sum(ledger: map<Address, nat>): nat
    decreases |ledger|
  {
    if ledger == map[] then 0
    else
      var a :| a in ledger;
      assert (ledger - {a}).Keys == ledger.Keys - {a};
      ledger[a] + Sum(ledger - {a})
  }

  /** Any one balance can be taken out of the sum first. */
  lemma {:induction false} SumRemove(ledger: map<Address, nat>, a: Address)
    requires a in ledger
    ensures Sum(ledger) == ledger[a] + Sum(ledger - {a})
    decreases |ledger|
  {
    var b :| b in ledger && Sum(ledger) == ledger[b] + Sum(ledger - {b});
    if b != a {
      assert (ledger - {b}).Keys == ledger.Keys - {b};
      assert (ledger - {a}).Keys == ledger.Keys - {a};
      SumRemove(ledger - {b}, a);
      SumRemove(ledger - {a}, b);
      assert ledger - {b} - {a} == ledger - {a} - {b};
    }
  }

  /** Setting one balance changes the sum by the difference, and no other balance. */
  lemma SumSet(ledger: map<Address, nat>, a: Address, v: nat)
    ensures Sum(ledger[a := v]) + BalanceOf(ledger, a) == Sum(ledger) + v
  {
    var updated := ledger[a := v];
    SumRemove(updated, a);
    if a in ledger {
      SumRemove(ledger, a);
      assert updated - {a} == ledger - {a};
    } else {
      assert updated - {a} == ledger;
    }
  }

  /** No single balance exceeds the sum of all of them. */
  lemma BalanceAtMostSum(ledger: map<Address, nat>, a: Address)
    ensures BalanceOf(ledger, a) <= Sum(ledger)
  {
    if a in ledger {
      SumRemove(ledger, a);
    }
  }

  /** Two distinct balances together do not exceed the sum. */
  lemma TwoBalancesAtMostSum(ledger: map<Address, nat>, a: Address, b: Address)
    requires a != b
    ensures BalanceOf(ledger, a) + BalanceOf(ledger, b) <= Sum(ledger)
  {
    SumSet(ledger, a, 0);
    BalanceAtMostSum(ledger[a := 0], b);
  }

  /** Issues `amount` new shares to `a`: only `a`'s balance grows, and the sum
      grows by exactly `amount`. */
  function Issue(ledger: map<Address, nat>, a: Address, amount: nat): (r: map<Address, nat>)
    ensures Sum(r) == Sum(ledger) + amount
    ensures BalanceOf(r, a) == BalanceOf(ledger, a) + amount
    ensures forall b :: b != a ==> BalanceOf(r, b) == BalanceOf(ledger, b)
  {
    SumSet(ledger, a, BalanceOf(ledger, a) + amount);
    ledger[a := BalanceOf(ledger, a) + amount]
  }

  /** Burns `amount` of `a`'s shares: only `a`'s balance shrinks, and the sum
      shrinks by exactly `amount`. */
  function Redeem(ledger: map<Address, nat>, a: Address, amount: nat): (r: map<Address, nat>)
    requires amount <= BalanceOf(ledger, a)
    ensures Sum(r) + amount == Sum(ledger)
    ensures BalanceOf(r, a) + amount == BalanceOf(ledger, a)
    ensures forall b :: b != a ==> BalanceOf(r, b) == BalanceOf(ledger, b)
  {
    SumSet(ledger, a, BalanceOf(ledger, a) - amount);
    ledger[a := BalanceOf(ledger, a) - amount]
  }
}
