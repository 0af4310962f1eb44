/** The pool's queues of known and of newly discovered servers: maps from ever-growing indices to
    entries, against the bounded lists of least recently used entries they stand for. */
module EntryQueue {
  import opened Listings
  import opened Wrappers

  class PoolEntry {
    var queueIdx: nat
    var known: bool

    constructor ()
      ensures queueIdx == 0 && !known
    {
      queueIdx, known := 0, false;
    }
  }

  /** The list without the first occurrence of a value. */
  ghost function Without<T>(s: seq<T>, x: T): (r: seq<T>) {
    if s == [] then [] else if s[0] == x then s[1..] else [s[0]] + Without(s[1..], x)
  }

  lemma {:induction false} ListingDelete<T>(m: map<nat, T>, lo: nat, hi: nat, k: nat)
    requires lo <= k < hi && k in m && forall j :: j in m && m[j] == m[k] ==> j == k
    ensures Listing(m - {k}, lo, hi) == Without(Listing(m, lo, hi), m[k])
    decreases hi - lo
  {
    var rest := Listing(m, lo + 1, hi);
    if lo == k {
      ListingSame(m, m - {k}, lo + 1, hi);
      assert Listing(m, lo, hi)[1..] == rest;
    } else {
      ListingDelete(m, lo + 1, hi, k);
      if lo in m {
        assert Listing(m, lo, hi)[1..] == rest;
      } else {
        assert Listing(m, lo, hi) == rest;
      }
    }
  }

  lemma {:induction false} WithoutAbsent<T>(s: seq<T>, x: T)
    requires x !in s
    ensures Without(s, x) == s
  {
    if s != [] { WithoutAbsent(s[1..], x); }
  }

  /** The list after an access: the entry goes last, and makes room if it is new and the list full. */
  ghost function Accessed<T>(s: seq<T>, x: T, maxCnt: nat): (r: seq<T>) {
    if x in s then Without(s, x) + [x]
    else if |s| == maxCnt && s != [] then s[1..] + [x]
    else s + [x]
  }

  // What a bounded queue remembers of a run of accesses

  /** The values of a log in the order of their last occurrences. */
  ghost function Recency<T>(log: seq<T>): (s: seq<T>) {
    if log == [] then []
    else
      var x := log[|log| - 1];
      Without(Recency(log[..|log| - 1]), x) + [x]
  }

  /** What a queue of at most `maxCnt` entries holds after the accesses of a log. */
  ghost function Remembered<T>(log: seq<T>, maxCnt: nat): (s: seq<T>) {
    if log == [] then [] else Accessed(Remembered(log[..|log| - 1], maxCnt), log[|log| - 1], maxCnt)
  }

  ghost function Last<T>(s: seq<T>, n: nat): (r: seq<T>) {
    if |s| <= n then s else s[|s| - n..]
  }

  ghost predicate NoRepeat<T>(s: seq<T>) {
    s == [] || (s[0] !in s[1..] && NoRepeat(s[1..]))
  }

  lemma {:induction false} WithoutMembers<T>(s: seq<T>, x: T)
    requires NoRepeat(s)
    ensures NoRepeat(Without(s, x)) && forall y :: y in Without(s, x) <==> y in s && y != x
  {
    if s != [] {
      WithoutMembers(s[1..], x);
      assert s == [s[0]] + s[1..];
    }
  }

  lemma {:induction false} AppendNoRepeat<T>(s: seq<T>, x: T)
    requires NoRepeat(s) && x !in s
    ensures NoRepeat(s + [x])
  {
    if s != [] {
      AppendNoRepeat(s[1..], x);
      assert (s + [x])[1..] == s[1..] + [x];
    }
  }

  lemma {:induction false} NotInBoth<T>(a: seq<T>, b: seq<T>, x: T)
    requires NoRepeat(a + b) && x in b
    ensures x !in a
  {
    if a != [] {
      assert (a + b)[1..] == a[1..] + b;
      NotInBoth(a[1..], b, x);
    }
  }

  lemma {:induction false} WithoutConcat<T>(a: seq<T>, b: seq<T>, x: T)
    ensures Without(a + b, x) == if x in a then Without(a, x) + b else a + Without(b, x)
  {
    if a != [] {
      assert (a + b)[1..] == a[1..] + b;
      WithoutConcat(a[1..], b, x);
    } else {
      assert a + b == b;
    }
  }

  lemma {:induction false} WithoutLength<T>(s: seq<T>, x: T)
    ensures |Without(s, x)| == |s| - if x in s then 1 else 0
  {
    if s != [] { WithoutLength(s[1..], x); }
  }

  lemma {:induction false} RecencyNoRepeat<T>(log: seq<T>)
    ensures NoRepeat(Recency(log))
  {
    if log != [] {
      var before, x := Recency(log[..|log| - 1]), log[|log| - 1];
      RecencyNoRepeat(log[..|log| - 1]);
      WithoutMembers(before, x);
      AppendNoRepeat(Without(before, x), x);
    }
  }

  lemma LastConcat<T>(a: seq<T>, t: seq<T>, n: nat)
    requires |t| == n || (a == [] && |t| <= n)
    ensures Last(a + t, n) == t
  {
  }

  lemma AccessedNew<T>(a: seq<T>, l: seq<T>, x: T, maxCnt: nat)
    requires x !in l && maxCnt >= 1 && (|l| == maxCnt || (a == [] && |l| < maxCnt))
    ensures Accessed(l, x, maxCnt) == Last(a + l + [x], maxCnt)
  {
    if |l| < maxCnt {
      LastConcat([], l + [x], maxCnt);
      assert a + l + [x] == [] + (l + [x]);
    } else {
      LastConcat(a + [l[0]], l[1..] + [x], maxCnt);
      assert a + l + [x] == a + [l[0]] + (l[1..] + [x]);
    }
  }

  lemma LastAfter<T>(a: seq<T>, w: seq<T>, x: T, n: nat)
    requires |w| + 1 == n || (a == [] && |w| < n)
    ensures Last(a + w + [x], n) == w + [x]
  {
    LastConcat(a, w + [x], n);
    assert a + w + [x] == a + (w + [x]);
  }

  lemma AccessedKnown<T>(a: seq<T>, l: seq<T>, x: T, maxCnt: nat)
    requires x in l && maxCnt >= 1 && (|l| == maxCnt || (a == [] && |l| < maxCnt))
    ensures Accessed(l, x, maxCnt) == Last(a + Without(l, x) + [x], maxCnt)
  {
    WithoutLength(l, x);
    LastAfter(a, Without(l, x), x, maxCnt);
  }

  /** `l` is the part of a recency list that a queue remembers, `a` the part that it forgot. */
  lemma AccessedLast<T>(a: seq<T>, l: seq<T>, x: T, maxCnt: nat)
    requires NoRepeat(a + l) && maxCnt >= 1 && (|l| == maxCnt || (a == [] && |l| < maxCnt))
    ensures Accessed(l, x, maxCnt) == Last(Without(a + l, x) + [x], maxCnt)
  {
    WithoutConcat(a, l, x);
    if x in l {
      NotInBoth(a, l, x);
      AccessedKnown(a, l, x, maxCnt);
    } else {
      WithoutAbsent(l, x);
      AccessedNew(if x in a then Without(a, x) else a, l, x, maxCnt);
    }
  }

  /** A queue remembers the most recently accessed entries, as many as it may hold. */
  lemma {:induction false} RemembersMostRecent<T>(log: seq<T>, maxCnt: nat)
    requires maxCnt >= 1
    ensures Remembered(log, maxCnt) == Last(Recency(log), maxCnt)
  {
    if log != [] {
      var before := log[..|log| - 1];
      RemembersMostRecent(before, maxCnt);
      RecencyNoRepeat(before);
      var s := Recency(before);
      var l := Last(s, maxCnt);
      assert s == s[..|s| - |l|] + l;
      AccessedLast(s[..|s| - |l|], l, log[|log| - 1], maxCnt);
    }
  }

  class PoolEntryQueue {
    var queue: map<nat, PoolEntry>
    var newPtr: nat
    var oldPtr: nat
    const maxCnt: nat

    ghost predicate Valid()
      reads this, queue.Values
    {
      && maxCnt >= 1
      && oldPtr <= newPtr
      && (forall k :: k in queue ==> oldPtr <= k < newPtr && queue[k] in queue.Values && queue[k].queueIdx == k)
      && |queue| <= maxCnt
    }

    /** An entry that is in the queue is filed under its own index. */
    predicate Has(entry: PoolEntry)
      reads this, entry
    {
      entry.queueIdx in queue && queue[entry.queueIdx] == entry
    }

    lemma HasIsMember(entry: PoolEntry)
      requires Valid()
      ensures Has(entry) <==> entry in Contents()
    {
      ListingHas(queue, oldPtr, newPtr, entry);
    }

    /** From least to most recently accessed. */
    ghost function Contents(): (s: seq<PoolEntry>)
      reads this
    {
      Listing(queue, oldPtr, newPtr)
    }

    constructor (maxCnt: nat)
      requires maxCnt >= 1
      ensures Valid() && Contents() == [] && this.maxCnt == maxCnt && queue == map[]
    {
      this.maxCnt, queue, newPtr, oldPtr := maxCnt, map[], 0, 0;
    }

    /** Takes out the least recently accessed entry. */
    method FetchOldest() returns (e: Option<PoolEntry>)
      requires Valid()
      modifies this
      ensures Valid()
      ensures if old(Contents()) == [] then e.None? && Contents() == []
              else e == Some(old(Contents())[0]) && Contents() == old(Contents())[1..] && !Has(e.value)
      ensures |queue| == if old(|queue|) == 0 then 0 else old(|queue|) - 1
      ensures forall k :: k in queue ==> k in old(queue) && queue[k] == old(queue[k])
    {
      ListingSize(queue, oldPtr, newPtr);
      if |queue| == 0 { return None; }
      var ptr, rest := TakeFirst(queue, oldPtr, newPtr);
      e := Some(queue[ptr]);
      queue, oldPtr := rest, ptr + 1;
    }

    /** Takes out all entries, from least to most recently accessed. */
    method Drain() returns (list: seq<PoolEntry>)
      requires Valid()
      modifies this
      ensures Valid() && queue == map[]
      ensures list == old(Contents()) && Contents() == []
    {
      list := [];
      ListingSize(queue, oldPtr, newPtr);
      ghost var all := Contents();
      for i := 0 to |queue|
        invariant Valid() && |queue| == |all| - i
        invariant Drained(all, list, Contents(), i)
      {
        DrainNext(all, list, Contents(), i);
        var e := FetchOldest();
        list := list + [e.value];
      }
    }

    /** Takes out an entry, if it is there. */
    method Remove(entry: PoolEntry)
      requires Valid()
      modifies this
      ensures Valid()
      ensures Contents() == Without(old(Contents()), entry)
      ensures !old(Has(entry)) ==> queue == old(queue)
      ensures |queue| == old(|queue|) - if old(Has(entry)) then 1 else 0
      ensures !Has(entry) && forall k :: k in queue ==> k in old(queue) && queue[k] == old(queue[k])
    {
      if Has(entry) {
        ListingDelete(queue, oldPtr, newPtr, entry.queueIdx);
        RemoveSize(queue, entry.queueIdx);
        queue := queue - {entry.queueIdx};
      } else {
        HasIsMember(entry);
        WithoutAbsent(Contents(), entry);
      }
    }

    /** Makes an entry the most recently accessed one. A new entry evicts the least recently accessed
        one if the queue is full. */
    method SetLatest(entry: PoolEntry) returns (evicted: Option<PoolEntry>)
      requires Valid()
      modifies this, entry`queueIdx
      ensures Valid()
      ensures Contents() == Accessed(old(Contents()), entry, maxCnt)
      ensures forall k :: k in queue ==> queue[k] == entry || (k in old(queue) && queue[k] == old(queue[k]))
      ensures evicted ==
        if entry !in old(Contents()) && |old(Contents())| == maxCnt then Some(old(Contents())[0]) else None
    {
      HasIsMember(entry);
      ListingSize(queue, oldPtr, newPtr);
      evicted := MakeRoom(entry);
      Push(entry);
    }

    /** Takes the entry out of its place, or, if it has none, the oldest one out of a full queue. */
    method MakeRoom(entry: PoolEntry) returns (evicted: Option<PoolEntry>)
      requires Valid()
      modifies this
      ensures Valid() && |queue| < maxCnt && !Has(entry)
      ensures Contents() ==
        if old(Has(entry)) then Without(old(Contents()), entry)
        else if |old(Contents())| == maxCnt then old(Contents())[1..]
        else old(Contents())
      ensures forall k :: k in queue ==> k in old(queue) && queue[k] == old(queue[k])
      ensures evicted == if !old(Has(entry)) && |old(Contents())| == maxCnt then Some(old(Contents())[0]) else None
    {
      evicted := None;
      ListingSize(queue, oldPtr, newPtr);
      if Has(entry) {
        Remove(entry);
      } else if |queue| == maxCnt {
        evicted := FetchOldest();
        HasIsMember(evicted.value);
        WithoutAbsent(Contents(), evicted.value);
        Remove(evicted.value);
      }
    }

    /** Files an entry under the next index. */
    method Push(entry: PoolEntry)
      requires Valid() && |queue| < maxCnt && !Has(entry)
      modifies this, entry`queueIdx
      ensures Valid() && Contents() == old(Contents()) + [entry]
      ensures forall k :: k in queue ==> queue[k] == entry || (k in old(queue) && queue[k] == old(queue[k]))
    {
      ListingAppend(queue, oldPtr, newPtr, entry);
      assert forall k :: k in queue ==> queue[k] != entry;
      entry.queueIdx := newPtr;
      queue := queue[newPtr := entry];
      newPtr := newPtr + 1;
    }
  }

  /** The first `i` of all entries are in the list, the others are left. */
  ghost predicate Drained<T>(all: seq<T>, list: seq<T>, rest: seq<T>, i: nat) {
    i <= |all| && list == all[..i] && rest == all[i..]
  }

  lemma DrainNext<T>(all: seq<T>, list: seq<T>, rest: seq<T>, i: nat)
    requires Drained(all, list, rest, i) && i < |all|
    ensures rest != [] && Drained(all, list + [rest[0]], rest[1..], i + 1)
  {
  }

  /** Takes out the first entry in use. */
  method TakeFirst<T>(m: map<nat, T>, lo: nat, hi: nat) returns (ptr: nat, rest: map<nat, T>)
    requires |m| > 0 && forall k :: k in m ==> lo <= k < hi
    ensures lo <= ptr < hi && ptr in m && rest == m - {ptr} && |rest| == |m| - 1 && forall k :: k in rest ==> ptr < k < hi
    ensures Listing(m, lo, hi) == [m[ptr]] + Listing(rest, ptr + 1, hi)
  {
    ptr := NextUsed(m, lo, hi);
    ListingTake(m, lo, ptr, hi);
    RemoveSize(m, ptr);
    rest := m - {ptr};
  }

  /** Scans for the first index in use, which is there because the map is not empty. */
  method NextUsed<T>(m: map<nat, T>, lo: nat, hi: nat) returns (ptr: nat)
    requires |m| > 0 && forall k :: k in m ==> lo <= k < hi
    ensures lo <= ptr && ptr in m && forall k :: lo <= k < ptr ==> k !in m
  {
    ghost var last :| last in m;
    ptr := lo;
    while ptr !in m
      invariant lo <= ptr <= last && forall k :: lo <= k < ptr ==> k !in m
      decreases last - ptr
    {
      ptr := ptr + 1;
    }
  }

  lemma ListingTake<T>(m: map<nat, T>, lo: nat, ptr: nat, hi: nat)
    requires lo <= ptr < hi && ptr in m && forall k :: lo <= k < ptr ==> k !in m
    ensures Listing(m, lo, hi) == [m[ptr]] + Listing(m - {ptr}, ptr + 1, hi)
  {
    ListingSkip(m, lo, ptr, hi);
    var rest := m - {ptr};
    ListingSame(m, rest, ptr + 1, hi);
    assert Listing(m, ptr, hi) == [m[ptr]] + Listing(m, ptr + 1, hi);
  }

  /** The two queues of the server pool. An entry is in the queue of new entries until it is known. */
  class ServerPool {
    const knownQueue: PoolEntryQueue
    const newQueue: PoolEntryQueue

    ghost predicate Valid()
      reads this, knownQueue, newQueue, knownQueue.queue.Values, newQueue.queue.Values
    {
      && knownQueue != newQueue
      && knownQueue.Valid() && newQueue.Valid()
      && (forall k :: k in knownQueue.queue ==> knownQueue.queue[k] in knownQueue.queue.Values && knownQueue.queue[k].known)
      && (forall k :: k in newQueue.queue ==> newQueue.queue[k] in newQueue.queue.Values && !newQueue.queue[k].known)
    }

    constructor (maxKnown: nat, maxNew: nat)
      requires maxKnown >= 1 && maxNew >= 1
      ensures Valid() && knownQueue.Contents() == [] && newQueue.Contents() == []
    {
      knownQueue := new PoolEntryQueue(maxKnown);
      newQueue := new PoolEntryQueue(maxNew);
    }

    /** A node was discovered. */
    method Discovered(entry: PoolEntry) returns (evicted: Option<PoolEntry>)
      requires Valid()
      modifies newQueue, entry`queueIdx
      ensures Valid()
      ensures newQueue.Contents() == if entry.known then old(newQueue.Contents()) else Accessed(old(newQueue.Contents()), entry, newQueue.maxCnt)
    {
      evicted := None;
      if !entry.known {
        evicted := newQueue.SetLatest(entry);
      }
    }

    /** A node was registered: it leaves the queue of new entries for that of known ones. */
    method Registered(entry: PoolEntry) returns (evicted: Option<PoolEntry>)
      requires Valid()
      modifies knownQueue, newQueue, entry
      ensures Valid() && entry.known
      ensures newQueue.Contents() == if old(entry.known) then old(newQueue.Contents()) else Without(old(newQueue.Contents()), entry)
      ensures knownQueue.Contents() == Accessed(old(knownQueue.Contents()), entry, knownQueue.maxCnt)
    {
      if !entry.known { Know(entry); }
      evicted := knownQueue.SetLatest(entry);
    }

    method Know(entry: PoolEntry)
      requires Valid() && !entry.known
      modifies newQueue, entry`known
      ensures Valid() && entry.known
      ensures newQueue.Contents() == Without(old(newQueue.Contents()), entry)
    {
      newQueue.Remove(entry);
      entry.known := true;
    }

    /** The known entries, from least to most recently connected, are taken out to be stored. */
    method SaveNodes() returns (list: seq<PoolEntry>)
      requires Valid()
      modifies knownQueue
      ensures Valid()
      ensures list == old(knownQueue.Contents()) && knownQueue.Contents() == []
    {
      list := knownQueue.Drain();
    }
  }
}
