/** Transactions, as far as pools look at them, and lists of them by nonce. */
module Transactions {
  type Hash = nat
  type Address = nat

  /** `cost` is what the transaction may cost its sender in all: its value and its gas at its price. */
  datatype Tx = Tx(hash: Hash, from: Address, nonce: nat, price: nat, gas: nat, cost: int)

  type Items = map<nat, Tx>

  /** Every transaction is filed under its own nonce. */
  ghost predicate ByNonce(m: Items) {
    forall n: nat :: n in m ==> m[n].nonce == n
  }

  function From(m: Items, t: nat): (r: Items) {
    map n: nat | n in m && n >= t :: m[n]
  }

  function Below(m: Items, t: nat): (r: Items) {
    map n: nat | n in m && n < t :: m[n]
  }

  function Kept(m: Items, drop: Tx -> bool): (r: Items) {
    map n: nat | n in m && !drop(m[n]) :: m[n]
  }

  function Dropped(m: Items, drop: Tx -> bool): (r: Items) {
    map n: nat | n in m && drop(m[n]) :: m[n]
  }

  /** `m` holds the nonces from `lo` up to, but not including, `hi`, and no others. */
  ghost predicate Spans(m: Items, lo: nat, hi: nat) {
    forall n: nat :: n in m <==> lo <= n < hi
  }

  lemma {:induction false} SpansSize(m: Items, lo: nat, hi: nat)
    requires lo <= hi && Spans(m, lo, hi)
    ensures |m| == hi - lo
    decreases hi
  {
    if lo < hi {
      var r := m - {hi - 1};
      assert r.Keys == m.Keys - {hi - 1};
      SpansSize(r, lo, hi - 1);
    } else {
      assert m.Keys == {};
    }
  }

  // Replacing transactions

  /** The price that a replacement has to exceed. */
  function Threshold(price: nat, bump: nat): (t: nat) {
    price * (100 + bump) / 100
  }

  lemma ThresholdIsHigher(price: nat, bump: nat)
    ensures Threshold(price, bump) >= price
  {
    assert price * (100 + bump) == 100 * price + price * bump;
  }

  /** Whether a transaction may be added: nothing is in its place, or something cheaper enough. */
  predicate Accepts(m: Items, tx: Tx, bump: nat) {
    tx.nonce in m ==> Threshold(m[tx.nonce].price, bump) < tx.price
  }

  /** A transaction is accepted in place of another exactly if it pays more by the bump, in percent of
      the other's price. */
  lemma AcceptsExactly(m: Items, tx: Tx, bump: nat)
    ensures Accepts(m, tx, bump) <==> tx.nonce !in m || m[tx.nonce].price * (100 + bump) < 100 * tx.price
  {
  }

  // What a filter does to a list that has to stay without gaps

  predicate Unpayable(tx: Tx, costLimit: int, gasLimit: nat) {
    tx.cost > costLimit || tx.gas > gasLimit
  }

  function AboveLimits(costLimit: int, gasLimit: nat): (drop: Tx -> bool) {
    (tx: Tx) => Unpayable(tx, costLimit, gasLimit)
  }

  /** The transactions below every one that is filtered out. */
  ghost function StrictKept(m: Items, drop: Tx -> bool): (r: Items) {
    map n: nat | n in m && (forall k: nat :: k in m && drop(m[k]) ==> n < k) :: m[n]
  }

  /** The transactions above one that is filtered out, but not filtered out themselves. */
  ghost function Invalidated(m: Items, drop: Tx -> bool): (r: Items) {
    map n: nat | n in m && !drop(m[n]) && (exists k: nat :: k in m && drop(m[k]) && k < n) :: m[n]
  }

  /** The list goes on without gaps up to the first transaction that is filtered out. */
  lemma StrictKeptSpans(m: Items, drop: Tx -> bool, lo: nat, hi: nat) returns (mid: nat)
    requires lo <= hi && Spans(m, lo, hi)
    ensures lo <= mid <= hi && Spans(StrictKept(m, drop), lo, mid)
    ensures mid < hi ==> drop(m[mid])
    ensures forall n: nat :: lo <= n < mid ==> !drop(m[n])
  {
    mid := lo;
    while mid < hi && !drop(m[mid])
      invariant lo <= mid <= hi && forall n: nat :: lo <= n < mid ==> !drop(m[n])
    {
      mid := mid + 1;
    }
    var r := StrictKept(m, drop);
    forall n: nat
      ensures n in r <==> lo <= n < mid
    {
      if lo <= n < mid {
        forall k: nat | k in m && drop(m[k])
          ensures n < k
        {
        }
      }
    }
  }

  /** The nonces from `lo` on that are below `cut`. */
  lemma BelowSpans(m: Items, lo: nat, hi: nat, cut: nat)
    requires lo <= hi && Spans(m, lo, hi)
    ensures Spans(Below(m, cut), lo, if cut < lo then lo else if cut < hi then cut else hi)
  {
  }
}
