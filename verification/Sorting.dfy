/** Sorting by a key, and the fact that distinct keys leave one sorted order only. */
module Sorting {
  ghost predicate Nondecreasing<T>(s: seq<T>, key: T -> int) {
    forall i, j :: 0 <= i < j < |s| ==> key(s[i]) <= key(s[j])
  }

  ghost predicate Increasing<T>(s: seq<T>, key: T -> int) {
    forall i, j :: 0 <= i < j < |s| ==> key(s[i]) < key(s[j])
  }

  method Sort<T>(s: seq<T>, key: T -> int) returns (r: seq<T>)
    ensures Nondecreasing(r, key) && multiset(r) == multiset(s)
  {
    r := [];
    for i := 0 to |s|
      invariant Nondecreasing(r, key) && multiset(r) == multiset(s[..i])
    {
      assert s[..i + 1] == s[..i] + [s[i]];
      r := Insert(r, key, s[i]);
    }
    assert s[..|s|] == s;
  }

  method Insert<T>(s: seq<T>, key: T -> int, x: T) returns (r: seq<T>)
    requires Nondecreasing(s, key)
    ensures Nondecreasing(r, key) && multiset(r) == multiset(s) + multiset{x}
  {
    var i := |s|;
    while i > 0 && key(x) < key(s[i - 1])
      invariant 0 <= i <= |s| && forall k :: i <= k < |s| ==> key(x) < key(s[k])
    {
      i := i - 1;
    }
    InsertOrdered(s, key, i, x);
    InsertPermutes(s, i, x);
    r := s[..i] + [x] + s[i..];
  }

  lemma InsertOrdered<T>(s: seq<T>, key: T -> int, i: nat, x: T)
    requires i <= |s| && Nondecreasing(s, key)
    requires (forall k :: i <= k < |s| ==> key(x) < key(s[k])) && (i > 0 ==> key(s[i - 1]) <= key(x))
    ensures Nondecreasing(s[..i] + [x] + s[i..], key)
  {
    var r := s[..i] + [x] + s[i..];
    forall a, b | 0 <= a < b < |r|
      ensures key(r[a]) <= key(r[b])
    {
      assert r[a] == (if a < i then s[a] else if a == i then x else s[a - 1]);
      assert r[b] == (if b < i then s[b] else if b == i then x else s[b - 1]);
    }
  }

  lemma InsertPermutes<T>(s: seq<T>, i: nat, x: T)
    requires i <= |s|
    ensures multiset(s[..i] + [x] + s[i..]) == multiset(s) + multiset{x}
  {
    assert s == s[..i] + s[i..];
  }

  /** If keys are distinct, a sorted sequence is determined by what it holds. */
  lemma {:induction false} SortedUnique<T>(a: seq<T>, b: seq<T>, key: T -> int)
    requires Nondecreasing(a, key) && Increasing(b, key) && multiset(a) == multiset(b)
    ensures a == b
    decreases |a|
  {
    assert |multiset(a)| == |multiset(b)|;
    if a != [] {
      SameFirst(a, b, key);
      assert a == [a[0]] + a[1..] && b == [b[0]] + b[1..];
      assert multiset(a[1..]) == multiset(a) - multiset{a[0]};
      assert multiset(b[1..]) == multiset(b) - multiset{b[0]};
      SortedUnique(a[1..], b[1..], key);
    }
  }

  lemma SameFirst<T>(a: seq<T>, b: seq<T>, key: T -> int)
    requires Nondecreasing(a, key) && Increasing(b, key) && multiset(a) == multiset(b) && a != [] && b != []
    ensures a[0] == b[0]
  {
    assert a[0] in multiset(b) && b[0] in multiset(a);
    var i :| 0 <= i < |b| && b[i] == a[0];
    var j :| 0 <= j < |a| && a[j] == b[0];
  }
}
