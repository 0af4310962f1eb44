/** Binary heaps in a slice, as the container/heap package keeps them: the smallest key is first. */
module Heap {
  /** The position of the parent; the root is its own parent. */
  function Parent(c: nat): (p: nat)
    ensures c > 0 ==> p < c
  {
    if c == 0 then 0 else (c - 1) / 2
  }

  predicate Edge<T>(h: seq<T>, key: T -> int, c: nat)
    requires c < |h|
  {
    key(h[Parent(c)]) <= key(h[c])
  }

  /** The edges among the first `n` elements whose parent is at `lo` or behind it hold, but for those
      above `top` and below `hole`. */
  ghost predicate Edges<T>(h: seq<T>, key: T -> int, lo: nat, n: nat, top: nat, hole: nat)
    requires n <= |h|
  {
    forall c: nat :: 0 < c < n && Parent(c) >= lo && c != top && Parent(c) != hole ==> Edge(h, key, c)
  }

  /** Every edge holds, but for the one above `j`. */
  ghost predicate EdgesBut<T>(h: seq<T>, key: T -> int, j: nat) {
    forall c: nat :: 0 < c < |h| && c != j ==> Edge(h, key, c)
  }

  ghost predicate IsHeap<T>(h: seq<T>, key: T -> int) {
    forall c: nat :: 0 < c < |h| ==> Edge(h, key, c)
  }

  /** The children of `i` are no smaller than its parent. */
  ghost predicate Spanned<T>(h: seq<T>, key: T -> int, n: nat, i: nat)
    requires n <= |h| && i < |h|
  {
    forall c: nat :: 0 < c < n && Parent(c) == i ==> key(h[Parent(i)]) <= key(h[c])
  }

  function Swap<T>(h: seq<T>, i: nat, j: nat): (r: seq<T>)
    requires i < |h| && j < |h|
    ensures |r| == |h| && r[i] == h[j] && r[j] == h[i]
    ensures forall k :: 0 <= k < |h| && k != i && k != j ==> r[k] == h[k]
  {
    h[i := h[j]][j := h[i]]
  }

  lemma SwapPermutes<T>(h: seq<T>, i: nat, j: nat)
    requires i < |h| && j < |h|
    ensures multiset(Swap(h, i, j)) == multiset(h)
  {
  }

  lemma {:induction false} RootIsLeast<T>(h: seq<T>, key: T -> int, i: nat)
    requires IsHeap(h, key) && i < |h|
    ensures key(h[0]) <= key(h[i])
  {
    if i > 0 {
      assert Edge(h, key, i);
      RootIsLeast(h, key, Parent(i));
    }
  }

  /** Moves an element up to where its parent is not larger. */
  method Up<T>(h0: seq<T>, key: T -> int, j0: nat) returns (h: seq<T>)
    requires j0 < |h0|
    requires EdgesBut(h0, key, j0) && Spanned(h0, key, |h0|, j0)
    ensures IsHeap(h, key) && multiset(h) == multiset(h0)
  {
    h := h0;
    var j: nat := j0;
    while j != 0 && key(h[j]) < key(h[Parent(j)])
      invariant |h| == |h0| && j < |h| && multiset(h) == multiset(h0)
      invariant EdgesBut(h, key, j) && Spanned(h, key, |h|, j)
    {
      var i := Parent(j);
      UpStep(h, key, j);
      SwapPermutes(h, i, j);
      h := Swap(h, i, j);
      j := i;
    }
  }

  lemma UpStep<T>(h: seq<T>, key: T -> int, j: nat)
    requires 0 < j < |h| && key(h[j]) < key(h[Parent(j)])
    requires EdgesBut(h, key, j) && Spanned(h, key, |h|, j)
    ensures var i, r := Parent(j), Swap(h, Parent(j), j); EdgesBut(r, key, i) && Spanned(r, key, |r|, i)
  {
    var i, r := Parent(j), Swap(h, Parent(j), j);
    forall c: nat | 0 < c < |r| && c != i
      ensures Edge(r, key, c)
    {
      if c != j { assert Edge(h, key, c); }
    }
    forall c: nat | 0 < c < |r| && Parent(c) == i
      ensures key(r[Parent(i)]) <= key(r[c])
    {
      if i > 0 { assert Edge(h, key, i); }
      if c != j { assert Edge(h, key, c); }
    }
  }

  /** The element on its way down from `i0` is at `i`; only edges whose parent is at `lo` or behind it
      count. */
  ghost predicate Sinking<T>(h: seq<T>, key: T -> int, lo: nat, n: nat, i0: nat, i: nat)
    requires lo <= i0 <= i < n <= |h|
  {
    && Edges(h, key, lo, n, i0, i)
    && (i > 0 && Parent(i) >= lo ==> Spanned(h, key, n, i))
    && (i != i0 && i0 > 0 && Parent(i0) >= lo ==> Edge(h, key, i0))
  }

  lemma Children(i: nat, c: nat)
    ensures c > 0 && Parent(c) == i <==> c == 2 * i + 1 || c == 2 * i + 2
  {
  }

  /** The smaller of the children of `i`, or `n` or more if there are none. */
  method LeastChild<T>(h: seq<T>, key: T -> int, i: nat, n: nat) returns (j: nat)
    requires n <= |h|
    ensures j > i && (j < n ==> Parent(j) == i)
    ensures forall c: nat :: 0 < c < n && Parent(c) == i ==> j < n && key(h[j]) <= key(h[c])
  {
    j := 2 * i + 1;
    Children(i, j);
    Children(i, j + 1);
    forall c: nat | 0 < c < n && Parent(c) == i
      ensures c == 2 * i + 1 || c == 2 * i + 2
    {
      Children(i, c);
    }
    if j >= n { return; }
    if j + 1 < n && !(key(h[j]) < key(h[j + 1])) { j := j + 1; }
  }

  /** Moves an element down, among the first `n`, to where its children are not smaller. */
  method Down<T>(h0: seq<T>, key: T -> int, lo: nat, i0: nat, n: nat) returns (h: seq<T>)
    requires lo <= i0 && i0 < n <= |h0| && Sinking(h0, key, lo, n, i0, i0)
    ensures |h| == |h0| && multiset(h) == multiset(h0) && h[n..] == h0[n..]
    ensures forall c: nat :: 0 < c < n && Parent(c) >= lo && c != i0 ==> Edge(h, key, c)
    ensures i0 > 0 && Parent(i0) >= lo ==> Spanned(h, key, n, i0)
  {
    h := h0;
    var i: nat := i0;
    while true
      invariant |h| == |h0| && i0 <= i < n && multiset(h) == multiset(h0) && h[n..] == h0[n..]
      invariant Sinking(h, key, lo, n, i0, i)
      decreases n - i
    {
      var j := LeastChild(h, key, i, n);
      if j >= n { break; }
      if !(key(h[j]) < key(h[i])) { break; }
      SwapPermutes(h, i, j);
      DownStep(h, key, lo, n, i0, i, j);
      h := Swap(h, i, j);
      i := j;
    }
    DownEnd(h, key, lo, n, i0, i);
  }

  lemma DownStep<T>(h: seq<T>, key: T -> int, lo: nat, n: nat, i0: nat, i: nat, j: nat)
    requires lo <= i0 <= i < n <= |h| && 0 < j < n && Parent(j) == i && key(h[j]) < key(h[i])
    requires forall c: nat :: 0 < c < n && Parent(c) == i ==> key(h[j]) <= key(h[c])
    requires Sinking(h, key, lo, n, i0, i)
    ensures Sinking(Swap(h, i, j), key, lo, n, i0, j)
  {
    var r := Swap(h, i, j);
    forall c: nat | 0 < c < n && Parent(c) >= lo && c != i0 && Parent(c) != j
      ensures Edge(r, key, c)
    {
      if Parent(c) != i { assert Edge(h, key, c); }
    }
    forall c: nat | 0 < c < n && Parent(c) == j
      ensures key(r[Parent(j)]) <= key(r[c])
    {
      assert Edge(h, key, c);
    }
  }

  lemma DownEnd<T>(h: seq<T>, key: T -> int, lo: nat, n: nat, i0: nat, i: nat)
    requires lo <= i0 <= i < n <= |h| && Sinking(h, key, lo, n, i0, i)
    requires forall c: nat :: 0 < c < n && Parent(c) == i ==> key(h[i]) <= key(h[c])
    ensures forall c: nat :: 0 < c < n && Parent(c) >= lo && c != i0 ==> Edge(h, key, c)
    ensures i0 > 0 && Parent(i0) >= lo ==> Spanned(h, key, n, i0)
  {
    forall c: nat | 0 < c < n && Parent(c) >= lo && c != i0
      ensures Edge(h, key, c)
    {
    }
    if i0 > 0 && Parent(i0) >= lo && i != i0 {
      forall c: nat | 0 < c < n && Parent(c) == i0
        ensures key(h[Parent(i0)]) <= key(h[c])
      {
        assert Edge(h, key, c);
      }
    }
  }

  // The operations of the package

  method Push<T>(h0: seq<T>, key: T -> int, x: T) returns (h: seq<T>)
    requires IsHeap(h0, key)
    ensures IsHeap(h, key) && multiset(h) == multiset(h0) + multiset{x}
  {
    h := h0 + [x];
    forall c: nat | 0 < c < |h| && c != |h0|
      ensures Edge(h, key, c)
    {
      assert Edge(h0, key, c);
    }
    h := Up(h, key, |h0|);
  }

  /** Takes out the first element, which has the least key. */
  method Pop<T>(h0: seq<T>, key: T -> int) returns (h: seq<T>, x: T)
    requires IsHeap(h0, key) && h0 != []
    ensures x == h0[0] && forall y :: y in h0 ==> key(x) <= key(y)
    ensures IsHeap(h, key) && multiset(h0) == multiset(h) + multiset{x}
  {
    forall i | 0 <= i < |h0|
      ensures key(h0[0]) <= key(h0[i])
    {
      RootIsLeast(h0, key, i);
    }
    h, x := Remove(h0, key, 0);
  }

  /** Takes out the element at a position. */
  method Remove<T>(h0: seq<T>, key: T -> int, i: nat) returns (h: seq<T>, x: T)
    requires IsHeap(h0, key) && i < |h0|
    ensures x == h0[i]
    ensures IsHeap(h, key) && multiset(h0) == multiset(h) + multiset{x}
  {
    if i != |h0| - 1 {
      var d := Sunk(h0, key, i);
      x := d[|d| - 1];
      TakeOut(d);
      CutLast(d, key, i);
      h := Up(d[..|d| - 1], key, i);
    } else {
      x := h0[i];
      TakeOut(h0);
      CutLast(h0, key, i);
      h := h0[..i];
    }
  }

  /** Exchanges an element with the last one, and moves that one down among the others. */
  method Sunk<T>(h: seq<T>, key: T -> int, i: nat) returns (d: seq<T>)
    requires IsHeap(h, key) && i < |h| - 1
    ensures |d| == |h| && multiset(d) == multiset(h) && d[|d| - 1] == h[i]
    ensures forall c: nat :: 0 < c < |d| - 1 && c != i ==> Edge(d, key, c)
    ensures i > 0 ==> Spanned(d, key, |d| - 1, i)
  {
    var n := |h| - 1;
    SwapPermutes(h, i, n);
    SwapOut(h, key, i);
    d := Down(Swap(h, i, n), key, 0, i, n);
    assert d[n] == d[n..][0] == Swap(h, i, n)[n..][0];
  }

  lemma CutLast<T>(h: seq<T>, key: T -> int, i: nat)
    requires h != [] && i < |h| && forall c: nat :: 0 < c < |h| - 1 && c != i ==> Edge(h, key, c)
    requires 0 < i < |h| - 1 ==> Spanned(h, key, |h| - 1, i)
    ensures EdgesBut(h[..|h| - 1], key, i)
    ensures i < |h| - 1 ==> Spanned(h[..|h| - 1], key, |h| - 1, i)
  {
    var r := h[..|h| - 1];
    forall c: nat | 0 < c < |r| && c != i
      ensures Edge(r, key, c)
    {
      assert Edge(h, key, c);
    }
    if i == 0 && |r| > 0 {
      forall c: nat | 0 < c < |r| && Parent(c) == 0
        ensures key(r[0]) <= key(r[c])
      {
        assert Edge(r, key, c);
      }
    }
  }

  lemma TakeOut<T>(h: seq<T>)
    requires h != []
    ensures multiset(h) == multiset(h[..|h| - 1]) + multiset{h[|h| - 1]}
  {
    assert h == h[..|h| - 1] + [h[|h| - 1]];
  }

  lemma SwapOut<T>(h: seq<T>, key: T -> int, i: nat)
    requires IsHeap(h, key) && i < |h| - 1
    ensures Sinking(Swap(h, i, |h| - 1), key, 0, |h| - 1, i, i)
  {
    var n := |h| - 1;
    var r := Swap(h, i, n);
    forall c: nat | 0 < c < n && c != i && Parent(c) != i
      ensures Edge(r, key, c)
    {
      assert Edge(h, key, c);
    }
    if i > 0 {
      forall c: nat | 0 < c < n && Parent(c) == i
        ensures key(r[Parent(i)]) <= key(r[c])
      {
        assert Edge(h, key, c) && Edge(h, key, i);
      }
    }
  }

  /** Orders the elements of a slice into a heap. */
  method Init<T>(h0: seq<T>, key: T -> int) returns (h: seq<T>)
    ensures IsHeap(h, key) && multiset(h) == multiset(h0)
  {
    h := h0;
    var n := |h|;
    var i := n / 2;
    while i > 0
      invariant 0 <= i <= n / 2 && |h| == n && multiset(h) == multiset(h0)
      invariant forall c: nat :: 0 < c < n && Parent(c) >= i ==> Edge(h, key, c)
    {
      i := i - 1;
      h := Down(h, key, i, i, n);
    }
  }
}
