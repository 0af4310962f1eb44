/** How many transactions the accounts of a pool have together. */
module PoolSums {
  import opened Transactions
  import opened PoolState

  function Size(m: Accounts, a: Address): (k: nat) {
    |Of(m, a)|
  }

  /** The transactions of all accounts below `n`. */
  ghost function Total(m: Accounts, n: nat): (k: nat)
    decreases n
  {
    if n == 0 then 0 else Total(m, n - 1) + Size(m, n - 1)
  }

  /** The transactions of the accounts below `n` that are in `s`. */
  ghost function SumIn(m: Accounts, s: set<Address>, n: nat): (k: nat)
    decreases n
  {
    if n == 0 then 0 else SumIn(m, s, n - 1) + if n - 1 in s then Size(m, n - 1) else 0
  }

  lemma {:induction false} SumSame(m: Accounts, m': Accounts, s: set<Address>, n: nat)
    requires forall a: Address :: a in s ==> Size(m', a) == Size(m, a)
    ensures SumIn(m', s, n) == SumIn(m, s, n)
    decreases n
  {
    if n > 0 { SumSame(m, m', s, n - 1); }
  }

  lemma {:induction false} SumWith(m: Accounts, s: set<Address>, a: Address, n: nat)
    requires a !in s
    ensures SumIn(m, s + {a}, n) == SumIn(m, s, n) + if a < n then Size(m, a) else 0
    decreases n
  {
    if n > 0 { SumWith(m, s, a, n - 1); }
  }

  lemma {:induction false} SumChange(m: Accounts, m': Accounts, s: set<Address>, a: Address, n: nat)
    requires forall b: Address :: b != a ==> Size(m', b) == Size(m, b)
    ensures SumIn(m', s, n) == SumIn(m, s, n) + if a in s && a < n then Size(m', a) - Size(m, a) else 0
    decreases n
  {
    if n > 0 { SumChange(m, m', s, a, n - 1); }
  }

  lemma {:induction false} TotalChange(m: Accounts, m': Accounts, a: Address, n: nat)
    requires forall b: Address :: b != a ==> Size(m', b) == Size(m, b)
    ensures Total(m', n) == Total(m, n) + if a < n then Size(m', a) - Size(m, a) else 0
    decreases n
  {
    if n > 0 { TotalChange(m, m', a, n - 1); }
  }

  lemma {:induction false} SumAtMost(m: Accounts, s: set<Address>, n: nat)
    ensures SumIn(m, s, n) <= Total(m, n)
    ensures m.Keys <= s ==> SumIn(m, s, n) == Total(m, n)
    decreases n
  {
    if n > 0 { SumAtMost(m, s, n - 1); }
  }

  lemma {:induction false} SumOfNone(m: Accounts, s: set<Address>, n: nat)
    requires s == {}
    ensures SumIn(m, s, n) == 0
    decreases n
  {
    if n > 0 { SumOfNone(m, s, n - 1); }
  }
}
