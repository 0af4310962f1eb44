/** Lists that maps from numbers stand for: their values in the order of their keys. */
module Listings {
  /** The values of `m` under the keys from `lo` up to, but not including, `hi`. */
  ghost function Listing<T>(m: map<nat, T>, lo: nat, hi: nat): (s: seq<T>)
    decreases hi - lo
  {
    if lo >= hi then [] else Cell(m, lo) + Listing(m, lo + 1, hi)
  }

  ghost function Cell<T>(m: map<nat, T>, k: nat): (s: seq<T>) {
    if k in m then [m[k]] else []
  }

  lemma {:induction false} ListingAppend<T>(m: map<nat, T>, lo: nat, hi: nat, x: T)
    requires lo <= hi && hi !in m
    ensures Listing(m[hi := x], lo, hi + 1) == Listing(m, lo, hi) + [x]
    decreases hi - lo
  {
    if lo < hi { ListingAppend(m, lo + 1, hi, x); }
  }

  lemma {:induction false} ListingSame<T>(m: map<nat, T>, m': map<nat, T>, lo: nat, hi: nat)
    requires forall k :: lo <= k < hi ==> (k in m <==> k in m') && (k in m ==> m[k] == m'[k])
    ensures Listing(m, lo, hi) == Listing(m', lo, hi)
    decreases hi - lo
  {
    if lo < hi { ListingSame(m, m', lo + 1, hi); }
  }

  /** Skipping indices that are not in use changes nothing. */
  lemma {:induction false} ListingSkip<T>(m: map<nat, T>, lo: nat, mid: nat, hi: nat)
    requires lo <= mid <= hi && forall k :: lo <= k < mid ==> k !in m
    ensures Listing(m, lo, hi) == Listing(m, mid, hi)
    decreases mid - lo
  {
    if lo < mid { ListingSkip(m, lo + 1, mid, hi); }
  }

  lemma RemoveSize<T>(m: map<nat, T>, k: nat)
    requires k in m
    ensures |m - {k}| == |m| - 1
  {
    assert (m - {k}).Keys == m.Keys - {k};
  }

  lemma {:induction false} ListingSize<T>(m: map<nat, T>, lo: nat, hi: nat)
    requires forall k :: k in m ==> lo <= k < hi
    ensures |Listing(m, lo, hi)| == |m|
    decreases hi - lo
  {
    if lo >= hi {
      assert m == map[];
    } else if lo in m {
      ListingSame(m, m - {lo}, lo + 1, hi);
      ListingSize(m - {lo}, lo + 1, hi);
      RemoveSize(m, lo);
    } else {
      ListingSize(m, lo + 1, hi);
    }
  }

  lemma {:induction false} ListingHas<T>(m: map<nat, T>, lo: nat, hi: nat, x: T)
    requires forall k :: k in m ==> lo <= k
    ensures x in Listing(m, lo, hi) <==> exists k :: k in m && k < hi && m[k] == x
    decreases hi - lo
  {
    if lo < hi {
      var rest := m - {lo};
      ListingSame(m, rest, lo + 1, hi);
      ListingHas(rest, lo + 1, hi, x);
    }
  }

  lemma {:induction false} ListingConcat<T>(m: map<nat, T>, lo: nat, mid: nat, hi: nat)
    requires lo <= mid <= hi
    ensures Listing(m, lo, hi) == Listing(m, lo, mid) + Listing(m, mid, hi)
    decreases mid - lo
  {
    if lo < mid { ListingConcat(m, lo + 1, mid, hi); }
  }

  /** The listing goes on with the next key in use. */
  lemma ListingNext<T>(m: map<nat, T>, lo: nat, mid: nat, n: nat)
    requires lo <= mid <= n && n in m && forall k :: mid <= k < n ==> k !in m
    ensures Listing(m, lo, n + 1) == Listing(m, lo, mid) + [m[n]]
  {
    ListingConcat(m, lo, mid, n + 1);
    ListingSkip(m, mid, n, n + 1);
    assert Listing(m, n + 1, n + 1) == [];
  }

  lemma ListingAround<T>(m: map<nat, T>, lo: nat, hi: nat, n: nat)
    requires lo <= n < hi
    ensures Listing(m, lo, hi) == Listing(m, lo, n) + (Cell(m, n) + Listing(m, n + 1, hi))
  {
    ListingConcat(m, lo, n, hi);
  }

  lemma ListingInserted<T>(m: map<nat, T>, lo: nat, hi: nat, n: nat, x: T) returns (a: seq<T>, b: seq<T>)
    requires lo <= n < hi && n !in m
    ensures Listing(m, lo, hi) == a + b && Listing(m[n := x], lo, hi) == a + ([x] + b)
  {
    var m' := m[n := x];
    ListingSame(m, m', lo, n);
    ListingSame(m, m', n + 1, hi);
    ListingAround(m, lo, hi, n);
    ListingAround(m', lo, hi, n);
    a, b := Listing(m, lo, n), Listing(m, n + 1, hi);
    assert [] + b == b;
  }

  lemma ListingInsert<T>(m: map<nat, T>, lo: nat, hi: nat, n: nat, x: T)
    requires lo <= n < hi && n !in m
    ensures multiset(Listing(m[n := x], lo, hi)) == multiset(Listing(m, lo, hi)) + multiset{x}
  {
    var a, b := ListingInserted(m, lo, hi, n, x);
    Middle(a, x, b);
  }

  lemma Middle<T>(a: seq<T>, x: T, b: seq<T>)
    ensures multiset(a + ([x] + b)) == multiset(a + b) + multiset{x}
  {
  }
}
