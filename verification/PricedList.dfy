/** The price-sorted heap of a pool's transactions, some of which may no longer be in the pool. */
module PricedList {
  import opened Wrappers
  import opened Transactions
  import Heap

  const PRICE: Tx -> int := (tx: Tx) => tx.price

  type All = map<Hash, Tx>

  /** What a sequence holds of one kind, in the same order. */
  ghost function Select(s: seq<Tx>, p: Tx -> bool): (r: seq<Tx>) {
    if s == [] then [] else Select(s[..|s| - 1], p) + if p(s[|s| - 1]) then [s[|s| - 1]] else []
  }

  lemma SelectNext(s: seq<Tx>, x: Tx, p: Tx -> bool)
    ensures Select(s + [x], p) == Select(s, p) + if p(x) then [x] else []
  {
    assert (s + [x])[..|s|] == s;
  }

  lemma {:induction false} SelectHas(s: seq<Tx>, p: Tx -> bool, x: Tx)
    ensures x in Select(s, p) <==> x in s && p(x)
  {
    if s != [] {
      SelectHas(s[..|s| - 1], p, x);
      assert s == s[..|s| - 1] + [s[|s| - 1]];
    }
  }

  /** Not in the pool any more. */
  function Stale(all: All): (p: Tx -> bool) {
    (tx: Tx) => tx.hash !in all
  }

  function Remote(all: All, local: Hash -> bool): (p: Tx -> bool) {
    (tx: Tx) => tx.hash in all && !local(tx.hash)
  }

  function Local(all: All, local: Hash -> bool): (p: Tx -> bool) {
    (tx: Tx) => tx.hash in all && local(tx.hash)
  }

  lemma SelectMultiset(s: seq<Tx>, p: Tx -> bool)
    requires s != []
    ensures multiset(Select(s, p)) ==
      multiset(Select(s[..|s| - 1], p)) + if p(s[|s| - 1]) then multiset{s[|s| - 1]} else multiset{}
  {
  }

  /** Each transaction is stale, remote or local. */
  lemma {:induction false} Partition(s: seq<Tx>, all: All, local: Hash -> bool)
    ensures multiset(s) ==
      multiset(Select(s, Stale(all))) + multiset(Select(s, Remote(all, local))) + multiset(Select(s, Local(all, local)))
  {
    if s != [] {
      var init, last := s[..|s| - 1], s[|s| - 1];
      Partition(init, all, local);
      SelectMultiset(s, Stale(all));
      SelectMultiset(s, Remote(all, local));
      SelectMultiset(s, Local(all, local));
      Heap.TakeOut(s);
      PartitionNext(multiset(init), multiset(Select(init, Stale(all))), multiset(Select(init, Remote(all, local))),
        multiset(Select(init, Local(all, local))), last, Stale(all)(last), Remote(all, local)(last));
    }
  }

  lemma PartitionNext(s: multiset<Tx>, a: multiset<Tx>, b: multiset<Tx>, c: multiset<Tx>, x: Tx, inA: bool, inB: bool)
    requires s == a + b + c && !(inA && inB)
    ensures s + multiset{x} ==
      (a + if inA then multiset{x} else multiset{}) + (b + if inB then multiset{x} else multiset{}) +
      (c + if !inA && !inB then multiset{x} else multiset{})
  {
  }

  /** Every element of `a` is as cheap as every element of `b`. */
  ghost predicate Cheaper(a: seq<Tx>, b: seq<Tx>) {
    forall x, y :: x in a && y in b ==> x.price <= y.price
  }

  ghost predicate Ascending(s: seq<Tx>) {
    forall i, j :: 0 <= i < j < |s| ==> s[i].price <= s[j].price
  }

  /** `popped` came out of the heap `items0` in this order, and left `items`. */
  ghost predicate PoppedFrom(items0: seq<Tx>, items: seq<Tx>, popped: seq<Tx>) {
    && Heap.IsHeap(items, PRICE)
    && multiset(items0) == multiset(items) + multiset(popped)
    && Cheaper(popped, items)
    && Ascending(popped)
  }

  method PopNext(ghost items0: seq<Tx>, items: seq<Tx>, ghost popped: seq<Tx>) returns (items': seq<Tx>, tx: Tx)
    requires PoppedFrom(items0, items, popped) && items != []
    ensures tx == items[0] && PoppedFrom(items0, items', popped + [tx]) && |items'| == |items| - 1
  {
    items', tx := Heap.Pop(items, PRICE);
    assert |multiset(items)| == |multiset(items')| + 1;
    PopKeeps(items0, items, items', popped, tx);
  }

  lemma PopKeeps(items0: seq<Tx>, items: seq<Tx>, items': seq<Tx>, popped: seq<Tx>, tx: Tx)
    requires PoppedFrom(items0, items, popped) && Heap.IsHeap(items', PRICE)
    requires multiset(items) == multiset(items') + multiset{tx} && forall y :: y in items ==> PRICE(tx) <= PRICE(y)
    ensures PoppedFrom(items0, items', popped + [tx])
  {
    forall y | y in items'
      ensures y in items
    {
      assert y in multiset(items') && y in multiset(items);
    }
    assert tx in multiset(items);
  }

  /** Pops until `count` remote transactions were found or the heap is empty. */
  method PopRemote(items0: seq<Tx>, all: All, local: Hash -> bool, count: nat)
    returns (items: seq<Tx>, drop: seq<Tx>, save: seq<Tx>, stale: nat, ghost popped: seq<Tx>)
    requires Heap.IsHeap(items0, PRICE)
    ensures PoppedFrom(items0, items, popped)
    ensures drop == Select(popped, Remote(all, local)) && save == Select(popped, Local(all, local))
    ensures stale == |Select(popped, Stale(all))|
    ensures |drop| <= count && (|drop| < count ==> items == [])
  {
    items, drop, save, stale, popped := items0, [], [], 0, [];
    while |items| > 0 && |drop| < count
      invariant PoppedFrom(items0, items, popped)
      invariant drop == Select(popped, Remote(all, local)) && save == Select(popped, Local(all, local))
      invariant stale == |Select(popped, Stale(all))| && |drop| <= count
      decreases |items|
    {
      var tx;
      items, tx := PopNext(items0, items, popped);
      SelectNext(popped, tx, Remote(all, local));
      SelectNext(popped, tx, Local(all, local));
      SelectNext(popped, tx, Stale(all));
      popped := popped + [tx];
      if tx.hash !in all {
        stale := stale + 1;
      } else if local(tx.hash) {
        save := save + [tx];
      } else {
        drop := drop + [tx];
      }
    }
  }

  /** Pops until a transaction of the pool at or above the threshold was found, which is lost, or the
      heap is empty. */
  method PopBelow(items0: seq<Tx>, all: All, local: Hash -> bool, threshold: int)
    returns (items: seq<Tx>, drop: seq<Tx>, save: seq<Tx>, stale: nat, lost: Option<Tx>, ghost popped: seq<Tx>)
    requires Heap.IsHeap(items0, PRICE)
    ensures PoppedFrom(items0, items, popped + LostPart(lost))
    ensures drop == Select(popped, Remote(all, local)) && save == Select(popped, Local(all, local))
    ensures stale == |Select(popped, Stale(all))|
    ensures forall x :: x in popped && x.hash in all ==> x.price < threshold
    ensures if lost.None? then items == [] else lost.value.hash in all && lost.value.price >= threshold
  {
    items, drop, save, stale, lost, popped := items0, [], [], 0, None, [];
    assert popped + [] == popped;
    while |items| > 0
      invariant PoppedFrom(items0, items, popped)
      invariant drop == Select(popped, Remote(all, local)) && save == Select(popped, Local(all, local))
      invariant stale == |Select(popped, Stale(all))|
      invariant forall x :: x in popped && x.hash in all ==> x.price < threshold
      decreases |items|
    {
      var tx;
      items, tx := PopNext(items0, items, popped);
      if tx.hash in all && tx.price >= threshold {
        lost := Some(tx);
        return;
      }
      SelectNext(popped, tx, Remote(all, local));
      SelectNext(popped, tx, Local(all, local));
      SelectNext(popped, tx, Stale(all));
      popped := popped + [tx];
      if tx.hash !in all {
        stale := stale + 1;
      } else if local(tx.hash) {
        save := save + [tx];
      } else {
        drop := drop + [tx];
      }
    }
    assert popped + [] == popped;
  }

  method PushAll(items0: seq<Tx>, save: seq<Tx>) returns (items: seq<Tx>)
    requires Heap.IsHeap(items0, PRICE)
    ensures Heap.IsHeap(items, PRICE) && multiset(items) == multiset(items0) + multiset(save)
  {
    items := items0;
    for i := 0 to |save|
      invariant Heap.IsHeap(items, PRICE) && multiset(items) == multiset(items0) + multiset(save[..i])
    {
      assert save[..i + 1] == save[..i] + [save[i]];
      items := Heap.Push(items, PRICE, save[i]);
    }
    assert save[..|save|] == save;
  }

  class TxPricedList {
    var items: seq<Tx>
    var stales: int

    ghost predicate Valid()
      reads this
    {
      Heap.IsHeap(items, PRICE)
    }

    constructor ()
      ensures Valid() && items == [] && stales == 0
    {
      items, stales := [], 0;
    }

    method Put(tx: Tx)
      requires Valid()
      modifies this`items
      ensures Valid() && multiset(items) == multiset(old(items)) + multiset{tx}
    {
      items := Heap.Push(items, PRICE, tx);
    }

    /** Counts a transaction that left the pool; once a quarter is stale, the heap is made anew. */
    method Removed(all: All)
      requires Valid()
      modifies this
      ensures Valid()
      ensures if old(stales) + 1 <= |old(items)| / 4 then stales == old(stales) + 1 && items == old(items)
              else stales == 0 && |items| == |all| && forall tx :: tx in items <==> exists h :: h in all && all[h] == tx
    {
      stales := stales + 1;
      if stales <= |items| / 4 { return; }
      var txs := Values(all);
      var heap := Heap.Init(txs, PRICE);
      SameMembers(heap, txs);
      stales, items := 0, heap;
    }

    /** Drops from the heap the transactions of the pool that cost less than the threshold, unless they
        are local. The first one that does not is lost as well, though it stays in the pool. */
    method Cap(all: All, threshold: int, local: Hash -> bool) returns (drop: seq<Tx>, lost: Option<Tx>, ghost popped: seq<Tx>)
      requires Valid()
      modifies this
      ensures Valid() && drop == Select(popped, Remote(all, local))
      ensures multiset(old(items)) ==
        multiset(items) + multiset(drop) + multiset(Select(popped, Stale(all))) + multiset(LostPart(lost))
      ensures forall x :: x in drop ==> x.hash in all && !local(x.hash) && x.price < threshold
      ensures forall y :: y in items && y.hash in all && !local(y.hash) ==> y.price >= threshold
      ensures LocalsKept(all, local)(old(items), items, lost)
      ensures lost.Some? <==> exists x :: x in old(items) && x.hash in all && x.price >= threshold
      ensures lost.Some? ==> lost.value.hash in all && forall y :: y in items && y.price >= threshold ==> lost.value.price <= y.price
      ensures stales == old(stales) - |Select(popped, Stale(all))|
    {
      var items', stale;
      items', drop, stale, lost, popped := DropBelow(items, all, threshold, local);
      items, stales := items', stales - stale;
    }

    /** Drops from the heap the cheapest remote transactions of the pool, `count` of them or all. */
    method Discard(all: All, count: nat, local: Hash -> bool) returns (drop: seq<Tx>, ghost popped: seq<Tx>)
      requires Valid()
      modifies this
      ensures Valid() && drop == Select(popped, Remote(all, local)) && |drop| <= count
      ensures multiset(old(items)) == multiset(items) + multiset(drop) + multiset(Select(popped, Stale(all)))
      ensures forall x :: x in drop ==> x.hash in all && !local(x.hash)
      ensures forall x, y :: x in drop && y in items && y.hash in all && !local(y.hash) ==> x.price <= y.price
      ensures |drop| < count ==> forall y :: y in items && y.hash in all ==> local(y.hash)
      ensures LocalsKept(all, local)(old(items), items, None)
      ensures stales == old(stales) - |Select(popped, Stale(all))|
    {
      var items', stale;
      items', drop, stale, popped := DropCheapest(items, all, count, local);
      items, stales := items', stales - stale;
    }

    /** Whether every remaining transaction of the pool costs at least as much as `tx`. Local ones are
        never underpriced. */
    method Underpriced(all: All, tx: Tx, local: Hash -> bool) returns (b: bool, ghost popped: seq<Tx>)
      requires Valid()
      modifies this
      ensures Valid() && multiset(old(items)) == multiset(items) + multiset(popped) && forall x :: x in popped ==> x.hash !in all
      ensures b <==> !local(tx.hash) && (exists x :: x in old(items) && x.hash in all)
                     && forall x :: x in old(items) && x.hash in all ==> x.price >= tx.price
    {
      popped := [];
      if local(tx.hash) { return false, []; }
      var rest, stale;
      rest, stale, popped := PopStale(items, all);
      StaleResult(items, rest, popped, all);
      if |rest| > 0 { HeadIsCheapest(rest); }
      items, stales := rest, stales - stale;
      if |items| == 0 { return false, popped; }
      b := items[0].price >= tx.price;
    }
  }

  /** `TxPricedList.Cap`, on the heap's slice. */
  method DropBelow(items0: seq<Tx>, all: All, threshold: int, local: Hash -> bool)
    returns (items: seq<Tx>, drop: seq<Tx>, stale: nat, lost: Option<Tx>, ghost popped: seq<Tx>)
    requires Heap.IsHeap(items0, PRICE)
    ensures Heap.IsHeap(items, PRICE) && drop == Select(popped, Remote(all, local)) && stale == |Select(popped, Stale(all))|
    ensures multiset(items0) ==
      multiset(items) + multiset(drop) + multiset(Select(popped, Stale(all))) + multiset(LostPart(lost))
    ensures forall x :: x in drop ==> x.hash in all && !local(x.hash) && x.price < threshold
    ensures forall y :: y in items && y.hash in all && !local(y.hash) ==> y.price >= threshold
    ensures LocalsKept(all, local)(items0, items, lost)
    ensures lost.Some? <==> exists x :: x in items0 && x.hash in all && x.price >= threshold
    ensures lost.Some? ==> lost.value.hash in all && forall y :: y in items && y.price >= threshold ==> lost.value.price <= y.price
  {
    var rest, save;
    rest, drop, save, stale, lost, popped := PopBelow(items0, all, local, threshold);
    items := PushAll(rest, save);
    CapConserves(items0, rest, items, all, local, lost, popped);
    LocalsStay(items0, items, all, local, lost, popped);
    CapLoses(items0, rest, all, threshold, lost, popped);
    forall x | x in drop
      ensures x in popped && x.hash in all && !local(x.hash)
    {
      SelectHas(popped, Remote(all, local), x);
    }
    forall y | y in items && ((y.hash in all && !local(y.hash)) || y.price >= threshold)
      ensures y in rest && lost.Some? && lost.value.price <= y.price
    {
      NotPutBack(rest, items, all, local, popped, y);
      assert lost.value in popped + LostPart(lost);
    }
  }

  /** `TxPricedList.Discard`, on the heap's slice. */
  method DropCheapest(items0: seq<Tx>, all: All, count: nat, local: Hash -> bool)
    returns (items: seq<Tx>, drop: seq<Tx>, stale: nat, ghost popped: seq<Tx>)
    requires Heap.IsHeap(items0, PRICE)
    ensures Heap.IsHeap(items, PRICE) && drop == Select(popped, Remote(all, local)) && |drop| <= count && stale == |Select(popped, Stale(all))|
    ensures multiset(items0) == multiset(items) + multiset(drop) + multiset(Select(popped, Stale(all)))
    ensures forall x :: x in drop ==> x.hash in all && !local(x.hash)
    ensures forall x, y :: x in drop && y in items && y.hash in all && !local(y.hash) ==> x.price <= y.price
    ensures |drop| < count ==> forall y :: y in items && y.hash in all ==> local(y.hash)
    ensures LocalsKept(all, local)(items0, items, None)
  {
    var rest, save;
    rest, drop, save, stale, popped := PopRemote(items0, all, local, count);
    items := PushAll(rest, save);
    DiscardConserves(items0, rest, items, all, local, popped);
    LocalsStay(items0, items, all, local, None, popped);
    forall x | x in drop
      ensures x in popped && x.hash in all && !local(x.hash)
    {
      SelectHas(popped, Remote(all, local), x);
    }
    forall y | y in items && y.hash in all && !local(y.hash)
      ensures y in rest
    {
      NotPutBack(rest, items, all, local, popped, y);
    }
  }

  /** Pops stale transactions off the front of the heap. */
  method PopStale(items0: seq<Tx>, all: All) returns (items: seq<Tx>, stale: nat, ghost popped: seq<Tx>)
    requires Heap.IsHeap(items0, PRICE)
    ensures PoppedFrom(items0, items, popped) && stale == |popped|
    ensures (forall x :: x in popped ==> x.hash !in all) && (items == [] || items[0].hash in all)
  {
    items, stale, popped := items0, 0, [];
    while |items| > 0 && items[0].hash !in all
      invariant PoppedFrom(items0, items, popped) && stale == |popped|
      invariant forall x :: x in popped ==> x.hash !in all
      decreases |items|
    {
      var tx;
      items, tx := PopNext(items0, items, popped);
      popped := popped + [tx];
      stale := stale + 1;
    }
  }

  lemma SameMembers(a: seq<Tx>, b: seq<Tx>)
    requires multiset(a) == multiset(b)
    ensures |a| == |b| && forall x :: x in a <==> x in b
  {
    assert |multiset(a)| == |multiset(b)|;
    forall x
      ensures x in a <==> x in b
    {
      assert x in a <==> x in multiset(a);
      assert x in b <==> x in multiset(b);
    }
  }

  lemma HeadIsCheapest(items: seq<Tx>)
    requires Heap.IsHeap(items, PRICE) && items != []
    ensures forall y :: y in items ==> items[0].price <= y.price
  {
    forall i | 0 <= i < |items|
      ensures items[0].price <= items[i].price
    {
      Heap.RootIsLeast(items, PRICE, i);
    }
  }

  lemma StaleResult(items0: seq<Tx>, items: seq<Tx>, popped: seq<Tx>, all: All)
    requires PoppedFrom(items0, items, popped) && forall x :: x in popped ==> x.hash !in all
    ensures forall x: Tx :: x.hash in all ==> (x in items0 <==> x in items)
  {
    forall x: Tx | x.hash in all
      ensures x in items0 <==> x in items
    {
      assert x !in multiset(popped);
      assert x in items0 <==> x in multiset(items0);
      assert x in items <==> x in multiset(items);
    }
  }

  lemma DiscardConserves(items0: seq<Tx>, rest: seq<Tx>, items: seq<Tx>, all: All, local: Hash -> bool, popped: seq<Tx>)
    requires multiset(items0) == multiset(rest) + multiset(popped)
    requires multiset(items) == multiset(rest) + multiset(Select(popped, Local(all, local)))
    ensures multiset(items0) == multiset(items) + multiset(Select(popped, Remote(all, local))) + multiset(Select(popped, Stale(all)))
  {
    Partition(popped, all, local);
  }

  function LostPart(lost: Option<Tx>): (s: seq<Tx>) {
    if lost.Some? then [lost.value] else []
  }

  lemma CapConserves(items0: seq<Tx>, rest: seq<Tx>, items: seq<Tx>, all: All, local: Hash -> bool, lost: Option<Tx>, popped: seq<Tx>)
    requires multiset(items0) == multiset(rest) + multiset(popped + LostPart(lost))
    requires multiset(items) == multiset(rest) + multiset(Select(popped, Local(all, local)))
    ensures multiset(items0) == multiset(items) + multiset(Select(popped, Remote(all, local))) + multiset(Select(popped, Stale(all)))
                                + multiset(LostPart(lost))
  {
    Partition(popped, all, local);
    assert multiset(popped + LostPart(lost)) == multiset(popped) + multiset(LostPart(lost));
  }

  /** The local transactions of the pool are in the heap as often as before, except for the lost one. */
  ghost function LocalsKept(all: All, local: Hash -> bool): (seq<Tx>, seq<Tx>, Option<Tx>) -> bool {
    (items0: seq<Tx>, items: seq<Tx>, lost: Option<Tx>) =>
      forall y: Tx :: y.hash in all && local(y.hash) ==> multiset(items)[y] + (if lost == Some(y) then 1 else 0) == multiset(items0)[y]
  }

  /** They are put back, all but the lost one. */
  lemma LocalsStay(items0: seq<Tx>, items: seq<Tx>, all: All, local: Hash -> bool, lost: Option<Tx>, popped: seq<Tx>)
    requires multiset(items0) == multiset(items) + multiset(Select(popped, Remote(all, local))) + multiset(Select(popped, Stale(all)))
                                 + multiset(LostPart(lost))
    ensures LocalsKept(all, local)(items0, items, lost)
  {
    forall y: Tx | y.hash in all && local(y.hash)
      ensures multiset(items)[y] + (if lost == Some(y) then 1 else 0) == multiset(items0)[y]
    {
      LocalStays(items0, items, all, local, lost, popped, y);
    }
  }

  lemma LocalStays(items0: seq<Tx>, items: seq<Tx>, all: All, local: Hash -> bool, lost: Option<Tx>, popped: seq<Tx>, y: Tx)
    requires multiset(items0) == multiset(items) + multiset(Select(popped, Remote(all, local))) + multiset(Select(popped, Stale(all)))
                                 + multiset(LostPart(lost))
    requires y.hash in all && local(y.hash)
    ensures multiset(items)[y] + (if lost == Some(y) then 1 else 0) == multiset(items0)[y]
  {
    SelectHas(popped, Remote(all, local), y);
    SelectHas(popped, Stale(all), y);
    assert y !in multiset(Select(popped, Remote(all, local))) && y !in multiset(Select(popped, Stale(all)));
  }

  /** What is in the heap after local transactions were put back, but is not one of these, was never
      popped. */
  lemma NotPutBack(rest: seq<Tx>, items: seq<Tx>, all: All, local: Hash -> bool, popped: seq<Tx>, y: Tx)
    requires multiset(items) == multiset(rest) + multiset(Select(popped, Local(all, local)))
    requires y in items && (y !in popped || !Local(all, local)(y))
    ensures y in rest
  {
    SelectHas(popped, Local(all, local), y);
    assert y in multiset(items) && y !in multiset(Select(popped, Local(all, local)));
    assert y in multiset(rest);
  }

  lemma CapLoses(items0: seq<Tx>, rest: seq<Tx>, all: All, threshold: int, lost: Option<Tx>, popped: seq<Tx>)
    requires multiset(items0) == multiset(rest) + multiset(popped + LostPart(lost))
    requires forall x :: x in popped && x.hash in all ==> x.price < threshold
    requires if lost.None? then rest == [] else lost.value.hash in all && lost.value.price >= threshold
    ensures lost.Some? <==> exists x :: x in items0 && x.hash in all && x.price >= threshold
  {
    if lost.Some? {
      assert lost.value in popped + LostPart(lost);
      assert lost.value in multiset(popped + LostPart(lost));
      assert lost.value in multiset(items0);
    } else {
      assert popped + [] == popped;
      SameMembers(items0, popped);
    }
  }

  method Values(all: All) returns (txs: seq<Tx>)
    ensures |txs| == |all| && forall tx :: tx in txs <==> exists h :: h in all && all[h] == tx
  {
    txs := [];
    var todo := all.Keys;
    while todo != {}
      invariant todo <= all.Keys && |txs| == |all| - |todo|
      invariant forall tx :: tx in txs <==> exists h :: h in all && h !in todo && all[h] == tx
      decreases |todo|
    {
      var h :| h in todo;
      txs, todo := txs + [all[h]], todo - {h};
    }
  }
}
