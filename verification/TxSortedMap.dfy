/** The nonce-sorted transaction map: a map, a heap of its nonces and a cache of its sorted contents,
    against the plain map it stands for. */
module TxSortedMap {
  import opened Listings
  import opened Wrappers
  import opened Transactions
  import Heap
  import Sorting

  const NONCE: nat -> int := n => n

  /** The heap holds exactly the nonces of the map. */
  ghost predicate Indexes(index: seq<nat>, m: Items) {
    Heap.IsHeap(index, NONCE) && multiset(index) == multiset(m.Keys)
  }

  lemma IndexKeys(index: seq<nat>, m: Items)
    requires multiset(index) == multiset(m.Keys)
    ensures |index| == |m| && forall n: nat :: n in index <==> n in m
  {
    assert |multiset(index)| == |multiset(m.Keys)|;
    forall n: nat
      ensures n in index <==> n in m
    {
      assert n in index <==> n in multiset(index);
      assert n in m.Keys <==> n in multiset(m.Keys);
    }
  }

  /** Takes out the least nonce of the heap. */
  method PopLeast(index: seq<nat>, m: Items) returns (index': seq<nat>, n: nat)
    requires Indexes(index, m) && index != []
    ensures n == index[0] && n in m && forall k: nat :: k in m ==> n <= k
    ensures Indexes(index', m - {n}) && |index'| == |index| - 1
  {
    IndexKeys(index, m);
    index', n := Heap.Pop(index, NONCE);
    RemoveKey(index, index', m, n);
    assert |multiset(index)| == |multiset(index')| + 1;
  }

  lemma RemoveKey(index: seq<nat>, index': seq<nat>, m: Items, n: nat)
    requires multiset(index) == multiset(m.Keys) && multiset(index) == multiset(index') + multiset{n} && n in m
    ensures multiset(index') == multiset((m - {n}).Keys)
  {
    assert (m - {n}).Keys == m.Keys - {n};
    assert multiset(index') == multiset(index) - multiset{n};
    assert multiset(m.Keys - {n}) == multiset(m.Keys) - multiset{n};
  }

  /** The heap for the map with one more transaction. */
  method PutIndex(index: seq<nat>, m: Items, tx: Tx) returns (index': seq<nat>)
    requires Indexes(index, m)
    ensures Indexes(index', m[tx.nonce := tx])
  {
    index' := index;
    if tx.nonce !in m {
      index' := Heap.Push(index, NONCE, tx.nonce);
      assert m[tx.nonce := tx].Keys == m.Keys + {tx.nonce};
    } else {
      assert m[tx.nonce := tx].Keys == m.Keys;
    }
  }

  // Loops over the map and its heap

  /** Pops nonces until the threshold is reached. */
  method PopBelow(m0: Items, index0: seq<nat>, t: nat) returns (m: Items, index: seq<nat>, removed: seq<Tx>)
    requires Indexes(index0, m0)
    ensures m == From(m0, t) && Indexes(index, m)
    ensures removed == Listing(m0, 0, t)
  {
    m, index, removed := m0, index0, [];
    ghost var lo: nat := 0;
    while |index| > 0 && index[0] < t
      invariant lo <= t && IsFrom(m, m0, lo) && Indexes(index, m)
      invariant removed == Listing(m0, 0, lo)
      decreases |index|
    {
      var n;
      index, n := PopLeast(index, m);
      removed := removed + [m[n]];
      ListingNext(m0, 0, lo, n);
      m := m - {n};
      lo := n + 1;
    }
    forall k: nat | k in m
      ensures k >= t
    {
      LeastFirst(index, m, k);
    }
    NothingBetween(m0, m, lo, t);
  }

  ghost predicate IsFrom(m: Items, m0: Items, lo: nat) {
    forall n: nat :: (n in m <==> n in m0 && n >= lo) && (n in m ==> m[n] == m0[n])
  }

  lemma NothingBetween(m0: Items, m: Items, lo: nat, t: nat)
    requires lo <= t && IsFrom(m, m0, lo) && forall k: nat :: k in m ==> k >= t
    ensures m == From(m0, t) && Listing(m0, 0, t) == Listing(m0, 0, lo)
  {
    ListingConcat(m0, 0, lo, t);
    ListingSkip(m0, lo, t, t);
  }

  lemma LeastFirst(index: seq<nat>, m: Items, k: nat)
    requires Indexes(index, m) && k in m
    ensures index != [] && index[0] <= k
  {
    IndexKeys(index, m);
    var i :| 0 <= i < |index| && index[i] == k;
    Heap.RootIsLeast(index, NONCE, i);
  }

  /** Pops nonces as long as they follow each other. */
  method PopRun(m0: Items, index0: seq<nat>) returns (m: Items, index: seq<nat>, ready: seq<Tx>, ghost end: nat)
    requires Indexes(index0, m0) && index0 != []
    ensures index0[0] < end && end !in m0 && (forall k: nat :: index0[0] <= k < end ==> k in m0)
    ensures m == From(m0, end) && Indexes(index, m)
    ensures ready == Listing(m0, index0[0], end)
  {
    m, index, ready := m0, index0, [];
    var next := index[0];
    ghost var least := next;
    LeastOfAll(index, m);
    while |index| > 0 && index[0] == next
      invariant Indexes(index, m) && Popped(m0, m, least, next) && (next == least ==> index == index0)
      invariant ready == Listing(m0, least, next)
      decreases |index|
    {
      index, next := PopLeast(index, m);
      ready := ready + [m[next]];
      ListingNext(m0, least, next, next);
      m := m - {next};
      next := next + 1;
    }
    end := next;
    NotNext(index, m, end);
  }

  /** `m` is what `m0` holds from `next` on; it held all nonces from `least` up to there. */
  ghost predicate Popped(m0: Items, m: Items, least: nat, next: nat) {
    least <= next && m == From(m0, next) && forall k: nat :: least <= k < next ==> k in m0
  }

  lemma LeastOfAll(index: seq<nat>, m: Items)
    requires Indexes(index, m) && index != []
    ensures m == From(m, index[0])
  {
    forall k: nat | k in m
      ensures k >= index[0]
    {
      LeastFirst(index, m, k);
    }
  }

  lemma NotNext(index: seq<nat>, m: Items, n: nat)
    requires Indexes(index, m) && (forall k: nat :: k in m ==> k >= n) && (index == [] || index[0] != n)
    ensures n !in m
  {
    IndexKeys(index, m);
    if index != [] { assert index[0] in index; }
    if n in m { LeastFirst(index, m, n); }
  }

  /** The nonces of a map, in the order of its iteration. */
  method KeySeq(m: Items) returns (ks: seq<nat>)
    ensures multiset(ks) == multiset(m.Keys)
  {
    ks := [];
    var todo := m.Keys;
    while todo != {}
      invariant todo <= m.Keys && multiset(ks) == multiset(m.Keys - todo)
      decreases |todo|
    {
      var n :| n in todo;
      assert multiset(m.Keys - (todo - {n})) == multiset(m.Keys - todo) + multiset{n};
      ks, todo := ks + [n], todo - {n};
    }
    assert m.Keys - {} == m.Keys;
  }

  /** Removes what `drop` says, in the order of the map's iteration. */
  method FilterItems(m0: Items, drop: Tx -> bool, ghost top: nat) returns (m: Items, removed: seq<Tx>)
    requires forall n: nat :: n in m0 ==> n < top
    ensures m == Kept(m0, drop)
    ensures multiset(removed) == multiset(Listing(Dropped(m0, drop), 0, top))
  {
    m, removed := m0, [];
    ghost var d: Items := map[];
    NoListing(d, top);
    var todo := m0.Keys;
    while todo != {}
      invariant todo <= m0.Keys && Filtered(m0, m, d, todo, drop) && Lists(removed, d, top)
      decreases |todo|
    {
      var n :| n in todo;
      m, removed, d := FilterNext(m0, m, removed, d, todo, drop, n, top);
      todo := todo - {n};
    }
    FilteredAll(m0, m, d, drop);
  }

  /** `removed` holds the transactions of `d`, in some order. */
  ghost predicate Lists(removed: seq<Tx>, d: Items, top: nat) {
    multiset(removed) == multiset(Listing(d, 0, top))
  }

  method FilterNext(m0: Items, m: Items, removed: seq<Tx>, ghost d: Items, ghost todo: set<nat>, drop: Tx -> bool, n: nat, ghost top: nat)
    returns (m': Items, removed': seq<Tx>, ghost d': Items)
    requires n in todo && n in m0 && n < top && Filtered(m0, m, d, todo, drop) && Lists(removed, d, top)
    ensures Filtered(m0, m', d', todo - {n}, drop) && Lists(removed', d', top)
  {
    if !drop(m0[n]) {
      FilterNone(m0, m, d, todo, drop, n);
      return m, removed, d;
    }
    m', removed', d' := m - {n}, removed + [m0[n]], d[n := m0[n]];
    FilterOne(m0, m, d, todo, drop, n);
    ListsOneMore(removed, d, top, n, m0[n]);
  }

  lemma ListsOneMore(removed: seq<Tx>, d: Items, top: nat, n: nat, tx: Tx)
    requires n < top && n !in d && Lists(removed, d, top)
    ensures Lists(removed + [tx], d[n := tx], top)
  {
    ListingInsert(d, 0, top, n, tx);
  }

  lemma FilterNone(m0: Items, m: Items, d: Items, todo: set<nat>, drop: Tx -> bool, n: nat)
    requires n in todo && n in m0 && !drop(m0[n]) && Filtered(m0, m, d, todo, drop)
    ensures Filtered(m0, m, d, todo - {n}, drop)
  {
  }

  lemma FilteredAll(m0: Items, m: Items, d: Items, drop: Tx -> bool)
    requires Filtered(m0, m, d, {}, drop)
    ensures m == Kept(m0, drop) && d == Dropped(m0, drop)
  {
  }

  /** All but `todo` is filtered: `d` was dropped, `m` is left. */
  ghost predicate Filtered(m0: Items, m: Items, d: Items, todo: set<nat>, drop: Tx -> bool) {
    && (forall n: nat :: (n in d <==> n in m0 && n !in todo && drop(m0[n])) && (n in d ==> d[n] == m0[n]))
    && (forall n: nat :: (n in m <==> n in m0 && n !in d) && (n in m ==> m[n] == m0[n]))
  }

  lemma FilterOne(m0: Items, m: Items, d: Items, todo: set<nat>, drop: Tx -> bool, n: nat)
    requires n in todo && n in m0 && drop(m0[n]) && Filtered(m0, m, d, todo, drop)
    ensures n !in d && Filtered(m0, m - {n}, d[n := m0[n]], todo - {n}, drop)
  {
    var m', d', rest := m - {n}, d[n := m0[n]], todo - {n};
    forall k: nat
      ensures (k in d' <==> k in m0 && k !in rest && drop(m0[k])) && (k in d' ==> d'[k] == m0[k])
      ensures (k in m' <==> k in m0 && k !in d') && (k in m' ==> m'[k] == m0[k])
    {
      assert k in d <==> k in m0 && k !in todo && drop(m0[k]);
      assert k in m <==> k in m0 && k !in d;
    }
  }

  lemma {:induction false} NoListing(d: Items, top: nat)
    requires d == map[]
    ensures Listing(d, 0, top) == []
  {
    ListingSkip(d, 0, top, top);
  }

  /** The transactions of a map, in the order of its iteration. */
  method ValueSeq(m: Items, ghost top: nat) returns (txs: seq<Tx>)
    requires forall n: nat :: n in m ==> n < top
    ensures multiset(txs) == multiset(Listing(m, 0, top))
  {
    var kept;
    kept, txs := FilterItems(m, _ => true, top);
    assert Dropped(m, _ => true) == m;
  }

  lemma {:induction false} ListingIncreasing(m: Items, lo: nat, hi: nat)
    requires ByNonce(m)
    ensures Sorting.Increasing(Listing(m, lo, hi), BY_NONCE)
    ensures forall i :: 0 <= i < |Listing(m, lo, hi)| ==> lo <= Listing(m, lo, hi)[i].nonce
    decreases hi - lo
  {
    if lo < hi { ListingIncreasing(m, lo + 1, hi); }
  }

  const BY_NONCE: Tx -> int := (tx: Tx) => tx.nonce

  /** The transactions of a map in the order of their nonces. */
  method SortedValues(m: Items, ghost top: nat) returns (txs: seq<Tx>)
    requires ByNonce(m) && forall n: nat :: n in m ==> n < top
    ensures txs == Listing(m, 0, top)
  {
    var loose := ValueSeq(m, top);
    txs := Sorting.Sort(loose, BY_NONCE);
    ListingIncreasing(m, 0, top);
    Sorting.SortedUnique(txs, Listing(m, 0, top), BY_NONCE);
  }

  ghost function Reversed<T>(s: seq<T>): (r: seq<T>) {
    if s == [] then [] else [s[|s| - 1]] + Reversed(s[..|s| - 1])
  }

  lemma ReversedAppend<T>(s: seq<T>, x: T)
    ensures Reversed(s + [x]) == [x] + Reversed(s)
  {
    assert (s + [x])[..|s|] == s;
  }

  /** Drops the highest nonces until `threshold` are left. */
  method CapItems(m0: Items, index0: seq<nat>, threshold: nat, ghost top: nat)
    returns (m: Items, index: seq<nat>, drops: seq<Tx>, ghost cut: nat)
    requires Indexes(index0, m0) && threshold < |m0| && forall n: nat :: n in m0 ==> n < top
    ensures cut <= top && m == Below(m0, cut) && |m| == threshold && Indexes(index, m)
    ensures Reversed(drops) == Listing(m0, cut, top) && |drops| == |m0| - threshold
  {
    IndexKeys(index0, m0);
    var ks := Sorting.Sort(index0, NONCE);
    assert |multiset(ks)| == |multiset(index0)|;
    m, drops, cut := DropTop(m0, ks, threshold, top);
    index := Heap.Init(ks[..threshold], NONCE);
  }

  /** The first `size` of the nonces are those of the map. */
  ghost predicate FirstAre(ks: seq<nat>, size: nat, m: Items) {
    size <= |ks| && |m| == size && multiset(ks[..size]) == multiset(m.Keys)
  }

  method DropTop(m0: Items, ks: seq<nat>, threshold: nat, ghost top: nat) returns (m: Items, drops: seq<Tx>, ghost cut: nat)
    requires Sorting.Nondecreasing(ks, NONCE) && multiset(ks) == multiset(m0.Keys) && |ks| == |m0|
    requires threshold < |m0| && forall n: nat :: n in m0 ==> n < top
    ensures cut <= top && m == Below(m0, cut) && FirstAre(ks, threshold, m)
    ensures Reversed(drops) == Listing(m0, cut, top) && |drops| == |m0| - threshold
  {
    m, drops, cut := m0, [], top;
    var size := |m0|;
    assert ks[..size] == ks && Below(m0, top) == m0;
    while size > threshold
      invariant threshold <= size <= |ks| && |drops| == |m0| - size
      invariant FirstAre(ks, size, m) && CutAt(m0, m, drops, cut, top)
    {
      size := size - 1;
      m, drops, cut := DropNext(m0, m, ks, size, drops, cut, top);
    }
  }

  /** The nonces from `cut` on were dropped, from the highest down. */
  ghost predicate CutAt(m0: Items, m: Items, drops: seq<Tx>, cut: nat, top: nat) {
    cut <= top && m == Below(m0, cut) && Reversed(drops) == Listing(m0, cut, top)
  }

  method DropNext(ghost m0: Items, m: Items, ks: seq<nat>, size: nat, drops: seq<Tx>, ghost cut: nat, ghost top: nat)
    returns (m': Items, drops': seq<Tx>, ghost cut': nat)
    requires Sorting.Nondecreasing(ks, NONCE) && size < |ks| && FirstAre(ks, size + 1, m) && CutAt(m0, m, drops, cut, top)
    ensures FirstAre(ks, size, m') && CutAt(m0, m', drops', cut', top) && |drops'| == |drops| + 1
  {
    var n := ks[size];
    ShrinkKeys(ks, size + 1, m);
    DropGreatest(m0, m, cut, top, n);
    ReversedAppend(drops, m[n]);
    m', drops', cut' := m - {n}, drops + [m[n]], n;
  }

  lemma LastIsGreatest(ks: seq<nat>, m: Items)
    requires ks != [] && Sorting.Nondecreasing(ks, NONCE) && multiset(ks) == multiset(m.Keys)
    ensures ks[|ks| - 1] in m && forall k: nat :: k in m ==> k <= ks[|ks| - 1]
  {
    IndexKeys(ks, m);
    assert ks[|ks| - 1] in ks;
    forall k: nat | k in m
      ensures k <= ks[|ks| - 1]
    {
      var i :| 0 <= i < |ks| && ks[i] == k;
      if i < |ks| - 1 { assert NONCE(ks[i]) <= NONCE(ks[|ks| - 1]); }
    }
  }

  lemma ShrinkKeys(ks: seq<nat>, size: nat, m: Items)
    requires 0 < size <= |ks| && Sorting.Nondecreasing(ks, NONCE) && FirstAre(ks, size, m)
    ensures ks[size - 1] in m && forall k: nat :: k in m ==> k <= ks[size - 1]
    ensures FirstAre(ks, size - 1, m - {ks[size - 1]})
  {
    var part := ks[..size];
    LastIsGreatest(part, m);
    RemoveSize(m, ks[size - 1]);
    assert part[..size - 1] == ks[..size - 1];
    Heap.TakeOut(part);
    RemoveKey(part, part[..size - 1], m, ks[size - 1]);
  }

  lemma {:induction false} DropGreatest(m0: Items, m: Items, cut: nat, top: nat, n: nat)
    requires m == Below(m0, cut) && cut <= top && n in m && forall k: nat :: k in m ==> k <= n
    ensures m - {n} == Below(m0, n) && Listing(m0, n, top) == [m[n]] + Listing(m0, cut, top)
  {
    forall k: nat | n + 1 <= k < cut
      ensures k !in m0
    {
      assert k in m0 ==> k in m;
    }
    ListingSkip(m0, n + 1, cut, top);
  }

  /** The first position of a nonce in the heap's slice. */
  method FindIndex(index: seq<nat>, nonce: nat) returns (i: nat)
    requires nonce in index
    ensures i < |index| && index[i] == nonce
  {
    i := 0;
    while index[i] != nonce
      invariant i < |index| && nonce !in index[..i]
      decreases |index| - i
    {
      assert nonce in index[i + 1..];
      i := i + 1;
    }
  }

  class TxSortedMap {
    var items: Items
    var index: seq<nat>
    var cache: Option<seq<Tx>>

    /** Nonces stay below this; it is 2^64 for nonces of 64 bits. */
    ghost const top: nat

    ghost predicate Valid()
      reads this
    {
      && ByNonce(items)
      && (forall n: nat :: n in items ==> n < top)
      && Indexes(index, items)
      && (cache.Some? ==> cache.value == Listing(items, 0, top))
    }

    constructor (ghost top: nat)
      ensures Valid() && items == map[] && this.top == top
    {
      items, index, cache, this.top := map[], [], None, top;
    }

    method Put(tx: Tx)
      requires Valid() && tx.nonce < top
      modifies this
      ensures Valid() && items == old(items)[tx.nonce := tx]
    {
      var index' := PutIndex(index, items, tx);
      items, index, cache := items[tx.nonce := tx], index', None;
    }

    /** Removes all transactions with nonces below the threshold. */
    method Forward(threshold: nat) returns (removed: seq<Tx>)
      requires Valid()
      modifies this
      ensures Valid() && items == From(old(items), threshold)
      ensures removed == Listing(old(items), 0, threshold)
    {
      var m, index';
      m, index', removed := PopBelow(items, index, threshold);
      var cache' := cache;
      if cache.Some? {
        ShiftFront(items, threshold, top);
        cache' := Some(cache.value[|removed|..]);
      }
      items, index, cache := m, index', cache';
    }

    /** Removes all transactions for which the filter says so. */
    method Filter(filter: Tx -> bool) returns (removed: seq<Tx>)
      requires Valid()
      modifies this
      ensures Valid() && items == Kept(old(items), filter)
      ensures multiset(removed) == multiset(Listing(Dropped(old(items), filter), 0, top))
    {
      var m;
      m, removed := FilterItems(items, filter, top);
      if |removed| > 0 {
        var ks := KeySeq(m);
        ks := Heap.Init(ks, NONCE);
        items, index, cache := m, ks, None;
      } else {
        NothingDropped(items, filter, top);
      }
    }

    /** Keeps the transactions with the lowest nonces, `threshold` of them, and drops the others, the
        highest nonce first. */
    method Cap(threshold: nat) returns (drops: seq<Tx>, ghost cut: nat)
      requires Valid()
      modifies this
      ensures Valid() && items == Below(old(items), cut) && cut <= top
      ensures |items| == if old(|items|) <= threshold then old(|items|) else threshold
      ensures Reversed(drops) == Listing(old(items), cut, top)
    {
      if |items| <= threshold {
        assert Below(items, top) == items;
        return [], top;
      }
      var m, index';
      m, index', drops, cut := CapItems(items, index, threshold, top);
      var cache' := cache;
      if cache.Some? {
        ShiftBack(items, cut, top, drops);
        cache' := Some(cache.value[..|cache.value| - |drops|]);
      }
      items, index, cache := m, index', cache';
    }

    method Remove(nonce: nat) returns (found: bool)
      requires Valid()
      modifies this
      ensures Valid() && items == old(items) - {nonce} && (found <==> nonce in old(items))
    {
      if nonce !in items {
        assert items - {nonce} == items;
        return false;
      }
      IndexKeys(index, items);
      var i := FindIndex(index, nonce);
      var index', n := Heap.Remove(index, NONCE, i);
      RemoveKey(index, index', items, nonce);
      items, index, cache := items - {nonce}, index', None;
      found := true;
    }

    /** Takes out the run of transactions that starts at the least nonce, if that is no larger than
        `start`. The run ends where the next nonce is missing. */
    method Ready(start: nat) returns (ready: seq<Tx>, ghost least: nat, ghost end: nat)
      requires Valid()
      modifies this
      ensures Valid() && (forall n: nat :: n in old(items) ==> least <= n)
      ensures if old(items) == map[] || least > start then ready == [] && items == old(items)
              else
                && least < end && end !in old(items) && (forall n: nat :: least <= n < end ==> n in old(items))
                && ready == Listing(old(items), least, end)
                && items == From(old(items), end)
    {
      IndexKeys(index, items);
      if |index| == 0 { return [], 0, 0; }
      LeastOfAll(index, items);
      least, end := index[0], 0;
      if index[0] > start { return [], least, end; }
      var m, index';
      m, index', ready, end := PopRun(items, index);
      items, index, cache := m, index', None;
    }

    /** The transactions in the order of their nonces. */
    method Flatten() returns (txs: seq<Tx>)
      requires Valid()
      modifies this`cache
      ensures Valid() && txs == Listing(items, 0, top)
    {
      if cache.None? {
        var sorted := SortedValues(items, top);
        cache := Some(sorted);
      }
      txs := cache.value;
    }
  }

  lemma ShiftFront(m: Items, t: nat, top: nat)
    requires forall n: nat :: n in m ==> n < top
    ensures |Listing(m, 0, t)| <= |Listing(m, 0, top)|
    ensures Listing(m, 0, top)[|Listing(m, 0, t)|..] == Listing(From(m, t), 0, top)
  {
    if t <= top {
      ListingConcat(m, 0, t, top);
      ListingSkip(From(m, t), 0, t, top);
      ListingSame(m, From(m, t), t, top);
    } else {
      ListingConcat(m, 0, top, t);
      ListingSkip(m, top, t, t);
      ListingSkip(From(m, t), 0, top, top);
    }
  }

  lemma ShiftBack(m: Items, cut: nat, top: nat, drops: seq<Tx>)
    requires cut <= top && Reversed(drops) == Listing(m, cut, top)
    ensures |drops| <= |Listing(m, 0, top)|
    ensures Listing(m, 0, top)[..|Listing(m, 0, top)| - |drops|] == Listing(Below(m, cut), 0, top)
  {
    ReversedLength(drops);
    ListingConcat(m, 0, cut, top);
    ListingConcat(Below(m, cut), 0, cut, top);
    ListingSkip(Below(m, cut), cut, top, top);
    ListingSame(m, Below(m, cut), 0, cut);
  }

  lemma {:induction false} ReversedLength<T>(s: seq<T>)
    ensures |Reversed(s)| == |s|
  {
    if s != [] { ReversedLength(s[..|s| - 1]); }
  }

  lemma NothingDropped(m: Items, drop: Tx -> bool, top: nat)
    requires (forall n: nat :: n in m ==> n < top) && multiset(Listing(Dropped(m, drop), 0, top)) == multiset([])
    ensures Kept(m, drop) == m
  {
    var d := Dropped(m, drop);
    ListingSize(d, 0, top);
    assert |multiset(Listing(d, 0, top))| == 0;
    assert d.Keys == {};
    forall n: nat | n in m
      ensures !drop(m[n])
    {
      assert n !in d.Keys;
    }
  }
}
