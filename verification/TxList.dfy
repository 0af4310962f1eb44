/** The list of an account's transactions: a sorted map with caps on the costs and the gas in it that
    spare most scans, and, if the list is strict, no gaps. */
module TxList {
  import opened Listings
  import opened Wrappers
  import opened Transactions
  import opened Maps = TxSortedMap

  const MAX_UINT64: nat := 0xffff_ffff_ffff_ffff

  // What filtering leaves and takes out, strict or not

  ghost function FilterKeeps(m: Items, strict: bool, drop: Tx -> bool): (r: Items) {
    if strict then StrictKept(m, drop) else Kept(m, drop)
  }

  ghost function FilterInvalidates(m: Items, strict: bool, drop: Tx -> bool): (r: Items) {
    if strict then Invalidated(m, drop) else map[]
  }

  lemma NothingToFilter(m: Items, strict: bool, drop: Tx -> bool, top: nat)
    requires forall n: nat :: n in m ==> !drop(m[n])
    ensures FilterKeeps(m, strict, drop) == m && FilterInvalidates(m, strict, drop) == map[]
    ensures Kept(m, drop) == m && Dropped(m, drop) == map[]
  {
  }

  lemma FilterAbove(m: Items, drop: Tx -> bool, lowest: nat)
    requires ByNonce(m) && lowest in m && drop(m[lowest]) && forall n: nat :: n in m && drop(m[n]) ==> lowest <= n
    ensures Kept(Kept(m, drop), Behind(lowest)) == StrictKept(m, drop)
    ensures Dropped(Kept(m, drop), Behind(lowest)) == Invalidated(m, drop)
  {
  }

  ghost predicate GapFree(m: Items) {
    exists lo: nat, hi: nat :: lo <= hi && Spans(m, lo, hi)
  }

  /** A list without gaps has none after a strict filter, after dropping what is below a nonce, and
      after dropping what is not. */
  lemma StaysGapFree(m: Items, drop: Tx -> bool, t: nat)
    requires GapFree(m)
    ensures GapFree(FilterKeeps(m, true, drop)) && GapFree(From(m, t)) && GapFree(Below(m, t))
  {
    var lo: nat, hi: nat :| lo <= hi && Spans(m, lo, hi);
    var mid := StrictKeptSpans(m, drop, lo, hi);
    BelowSpans(m, lo, hi, t);
    assert Spans(From(m, t), if t < lo then lo else if t < hi then t else hi, hi);
  }

  function Behind(nonce: nat): (drop: Tx -> bool) {
    (tx: Tx) => tx.nonce > nonce
  }

  lemma RemovedBehind(m: Items, nonce: nat)
    requires ByNonce(m)
    ensures Kept(m - {nonce}, Behind(nonce)) == Below(m, nonce)
    ensures Dropped(m - {nonce}, Behind(nonce)) == From(m, nonce + 1)
  {
  }

  method LowestNonce(txs: seq<Tx>) returns (lowest: nat)
    requires forall i :: 0 <= i < |txs| ==> txs[i].nonce <= MAX_UINT64
    ensures forall i :: 0 <= i < |txs| ==> lowest <= txs[i].nonce
    ensures txs != [] ==> exists i :: 0 <= i < |txs| && lowest == txs[i].nonce
  {
    lowest := MAX_UINT64;
    for i := 0 to |txs|
      invariant forall k :: 0 <= k < i ==> lowest <= txs[k].nonce
      invariant lowest == MAX_UINT64 || exists k :: 0 <= k < i && lowest == txs[k].nonce
    {
      if lowest > txs[i].nonce { lowest := txs[i].nonce; }
    }
    if txs != [] && lowest == MAX_UINT64 { assert txs[0].nonce == lowest; }
  }

  /** A transaction is among the values of a map just if it is in its listing. */
  lemma ListedIff(s: seq<Tx>, m: Items, top: nat)
    requires ByNonce(m) && (forall n: nat :: n in m ==> n < top) && multiset(s) == multiset(Listing(m, 0, top))
    ensures forall n: nat :: n in m ==> m[n] in s
    ensures forall i :: 0 <= i < |s| ==> s[i].nonce in m && m[s[i].nonce] == s[i]
  {
    forall n: nat | n in m
      ensures m[n] in s
    {
      ListingHas(m, 0, top, m[n]);
      assert m[n] in multiset(s);
    }
    forall i | 0 <= i < |s|
      ensures s[i].nonce in m && m[s[i].nonce] == s[i]
    {
      assert s[i] in multiset(s);
      ListingHas(m, 0, top, s[i]);
    }
  }

  class TxList {
    const strict: bool
    const txs: TxSortedMap
    var costcap: int
    var gascap: nat

    ghost predicate Valid()
      reads this, txs
    {
      && txs.Valid()
      && txs.top <= MAX_UINT64 + 1
      && forall n: nat :: n in txs.items ==> txs.items[n].cost <= costcap && txs.items[n].gas <= gascap
    }

    constructor (strict: bool, ghost top: nat)
      requires top <= MAX_UINT64 + 1
      ensures Valid() && fresh(txs) && txs.items == map[] && txs.top == top && this.strict == strict
    {
      this.strict, costcap, gascap := strict, 0, 0;
      txs := new TxSortedMap(top);
    }

    method Overlaps(tx: Tx) returns (b: bool)
      requires Valid()
      ensures b <==> tx.nonce in txs.items
    {
      b := tx.nonce in txs.items;
    }

    /** Adds a transaction, unless one that is not cheap enough is in its place. A replacement always
        has a higher price. */
    method Add(tx: Tx, priceBump: nat) returns (inserted: bool, replaced: Option<Tx>)
      requires Valid() && tx.nonce < txs.top
      modifies this, txs
      ensures Valid() && (inserted <==> Accepts(old(txs.items), tx, priceBump))
      ensures inserted <==> tx.nonce !in old(txs.items) || old(txs.items)[tx.nonce].price * (100 + priceBump) < 100 * tx.price
      ensures txs.items == if inserted then old(txs.items)[tx.nonce := tx] else old(txs.items)
      ensures replaced == if inserted && tx.nonce in old(txs.items) then Some(old(txs.items)[tx.nonce]) else None
      ensures replaced.Some? ==> replaced.value.price < tx.price
    {
      AcceptsExactly(txs.items, tx, priceBump);
      replaced := None;
      if tx.nonce in txs.items {
        var before := txs.items[tx.nonce];
        if Threshold(before.price, priceBump) >= tx.price { return false, None; }
        ThresholdIsHigher(before.price, priceBump);
        replaced := Some(before);
      }
      txs.Put(tx);
      if costcap < tx.cost { costcap := tx.cost; }
      if gascap < tx.gas { gascap := tx.gas; }
      inserted := true;
    }

    method Forward(threshold: nat) returns (removed: seq<Tx>)
      requires Valid()
      modifies txs
      ensures Valid() && txs.items == From(old(txs.items), threshold)
      ensures removed == Listing(old(txs.items), 0, threshold)
    {
      removed := txs.Forward(threshold);
    }

    /** Takes out what costs or burns too much, and, if the list is strict, what comes behind it. The
        caps make no difference to the result. */
    method Filter(costLimit: int, gasLimit: nat) returns (removed: seq<Tx>, invalids: seq<Tx>)
      requires Valid()
      modifies this, txs
      ensures Valid() && txs.items == FilterKeeps(old(txs.items), strict, AboveLimits(costLimit, gasLimit))
      ensures multiset(removed) == multiset(Listing(Dropped(old(txs.items), AboveLimits(costLimit, gasLimit)), 0, txs.top))
      ensures multiset(invalids) == multiset(Listing(FilterInvalidates(old(txs.items), strict, AboveLimits(costLimit, gasLimit)), 0, txs.top))
    {
      ghost var m := txs.items;
      var drop := AboveLimits(costLimit, gasLimit);
      NoListing(map[], txs.top);
      if costcap <= costLimit && gascap <= gasLimit {
        NothingToFilter(m, strict, drop, txs.top);
        return [], [];
      }
      costcap, gascap := costLimit, gasLimit;
      removed := txs.Filter(drop);
      invalids := [];
      if strict && |removed| > 0 {
        invalids := FilterBehind(removed, m, drop);
      } else {
        NoInvalids(m, strict, drop, removed, txs.top);
      }
    }

    /** Takes out what comes behind the first of the removed transactions. */
    method FilterBehind(removed: seq<Tx>, ghost m: Items, ghost drop: Tx -> bool) returns (invalids: seq<Tx>)
      requires Valid() && removed != [] && txs.items == Kept(m, drop)
      requires ByNonce(m) && forall n: nat :: n in m ==> n < txs.top
      requires multiset(removed) == multiset(Listing(Dropped(m, drop), 0, txs.top))
      modifies txs
      ensures Valid() && txs.items == StrictKept(m, drop)
      ensures multiset(invalids) == multiset(Listing(Invalidated(m, drop), 0, txs.top))
    {
      ListedIff(removed, Dropped(m, drop), txs.top);
      var lowest := LowestNonce(removed);
      LowestIsLeast(removed, m, drop, lowest);
      FilterAbove(m, drop, lowest);
      invalids := txs.Filter(Behind(lowest));
    }

    method Cap(threshold: nat) returns (drops: seq<Tx>, ghost cut: nat)
      requires Valid()
      modifies txs
      ensures Valid() && txs.items == Below(old(txs.items), cut) && cut <= txs.top
      ensures |txs.items| == if old(|txs.items|) <= threshold then old(|txs.items|) else threshold
      ensures Reversed(drops) == Listing(old(txs.items), cut, txs.top)
    {
      drops, cut := txs.Cap(threshold);
    }

    /** Takes out a transaction, and, if the list is strict, what comes behind it. */
    method Remove(tx: Tx) returns (found: bool, invalids: seq<Tx>)
      requires Valid()
      modifies txs
      ensures Valid() && (found <==> tx.nonce in old(txs.items))
      ensures txs.items == if found && strict then Below(old(txs.items), tx.nonce) else old(txs.items) - {tx.nonce}
      ensures multiset(invalids) ==
        multiset(if found && strict then Listing(From(old(txs.items), tx.nonce + 1), 0, txs.top) else [])
    {
      ghost var m := txs.items;
      found := txs.Remove(tx.nonce);
      invalids := [];
      if found && strict {
        invalids := DropBehind(tx.nonce, m);
      }
    }

    method DropBehind(nonce: nat, ghost m: Items) returns (invalids: seq<Tx>)
      requires Valid() && txs.items == m - {nonce} && ByNonce(m)
      modifies txs
      ensures Valid() && txs.items == Below(m, nonce)
      ensures multiset(invalids) == multiset(Listing(From(m, nonce + 1), 0, txs.top))
    {
      RemovedBehind(m, nonce);
      invalids := txs.Filter(Behind(nonce));
    }

    method Ready(start: nat) returns (ready: seq<Tx>, ghost least: nat, ghost end: nat)
      requires Valid()
      modifies txs
      ensures Valid() && (forall n: nat :: n in old(txs.items) ==> least <= n)
      ensures if old(txs.items) == map[] || least > start then ready == [] && txs.items == old(txs.items)
              else
                && least < end && end !in old(txs.items) && (forall n: nat :: least <= n < end ==> n in old(txs.items))
                && ready == Listing(old(txs.items), least, end)
                && txs.items == From(old(txs.items), end)
    {
      ready, least, end := txs.Ready(start);
    }

    method Flatten() returns (list: seq<Tx>)
      requires Valid()
      modifies txs
      ensures Valid() && txs.items == old(txs.items) && list == Listing(txs.items, 0, txs.top)
    {
      list := txs.Flatten();
    }
  }

  lemma NoInvalids(m: Items, strict: bool, drop: Tx -> bool, removed: seq<Tx>, top: nat)
    requires (forall n: nat :: n in m ==> n < top) && multiset(removed) == multiset(Listing(Dropped(m, drop), 0, top))
    requires !strict || removed == []
    ensures FilterKeeps(m, strict, drop) == Kept(m, drop) && FilterInvalidates(m, strict, drop) == map[]
  {
    if strict {
      NothingDropped(m, drop, top);
      assert forall n: nat :: n in m ==> n in Kept(m, drop);
      NothingToFilter(m, strict, drop, top);
    }
  }

  lemma LowestIsLeast(removed: seq<Tx>, m: Items, drop: Tx -> bool, lowest: nat)
    requires removed != [] && ByNonce(m)
    requires forall n: nat :: n in Dropped(m, drop) ==> m[n] in removed
    requires forall i :: 0 <= i < |removed| ==> removed[i].nonce in Dropped(m, drop)
    requires forall i :: 0 <= i < |removed| ==> lowest <= removed[i].nonce
    requires exists i :: 0 <= i < |removed| && lowest == removed[i].nonce
    ensures lowest in m && drop(m[lowest]) && forall n: nat :: n in m && drop(m[n]) ==> lowest <= n
  {
    forall n: nat | n in m && drop(m[n])
      ensures lowest <= n
    {
      assert n in Dropped(m, drop);
      var i :| 0 <= i < |removed| && removed[i] == m[n];
    }
  }
}
