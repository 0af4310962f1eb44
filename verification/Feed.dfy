/** The event feed: one-to-many delivery over channels, with subscriptions that come and go
    while a send is in progress. */
module Feed {

  /** Channels are compared by identity only. */
  type Chan = int

  /** The feed's own channel, whose receive case comes first in the list of cases. */
  const REMOVE_SUB: Chan := 0

  /** The index of the first subscription in the list of cases. */
  const FIRST_SUB: nat := 1

  // ----- the list of cases -----

  /** The index of the first case for `ch`, or -1. */
  function Find(cs: seq<Chan>, ch: Chan): (i: int)
    ensures -1 <= i < |cs|
    ensures i == -1 <==> ch !in cs
    ensures i >= 0 ==> cs[i] == ch && ch !in cs[..i]
  {
    if cs == [] then -1
    else if cs[0] == ch then 0
    else
      var i := Find(cs[1..], ch);
      assert cs == [cs[0]] + cs[1..];
      if i == -1 then -1 else assert cs[..i + 1] == [cs[0]] + cs[1..][..i]; i + 1
  }

  function Delete(cs: seq<Chan>, index: nat): (r: seq<Chan>)
    requires index < |cs|
    ensures |r| == |cs| - 1
  {
    cs[..index] + cs[index + 1..]
  }

  /** Swaps the case at `index` with the last of the first `active` cases. */
  function Deactivate(cs: seq<Chan>, active: nat, index: nat): (r: seq<Chan>)
    requires index < active <= |cs|
    ensures |r| == |cs|
  {
    cs[index := cs[active - 1]][active - 1 := cs[index]]
  }

  /** How many of the cases from `lo` up to `hi` are for `ch`. */
  ghost function Count(cs: seq<Chan>, lo: nat, hi: nat, ch: Chan): nat
    requires lo <= hi <= |cs|
  {
    if lo == hi then 0 else Count(cs, lo, hi - 1, ch) + if cs[hi - 1] == ch then 1 else 0
  }

  lemma {:induction false} CountSplit(cs: seq<Chan>, lo: nat, mid: nat, hi: nat, ch: Chan)
    requires lo <= mid <= hi <= |cs|
    ensures Count(cs, lo, hi, ch) == Count(cs, lo, mid, ch) + Count(cs, mid, hi, ch)
    decreases hi
  {
    if mid < hi { CountSplit(cs, lo, mid, hi - 1, ch); }
  }

  lemma CountPick(cs: seq<Chan>, lo: nat, mid: nat, hi: nat, ch: Chan)
    requires lo <= mid < hi <= |cs|
    ensures Count(cs, lo, hi, ch) == Count(cs, lo, mid, ch) + (if cs[mid] == ch then 1 else 0) + Count(cs, mid + 1, hi, ch)
  {
    CountSplit(cs, lo, mid + 1, hi, ch);
  }

  /** Equal stretches of two lists hold the same cases. */
  lemma {:induction false} CountShift(cs: seq<Chan>, r: seq<Chan>, lo: nat, hi: nat, d: nat, ch: Chan)
    requires lo <= hi <= |r| && hi + d <= |cs|
    requires forall k :: lo <= k < hi ==> r[k] == cs[k + d]
    ensures Count(r, lo, hi, ch) == Count(cs, lo + d, hi + d, ch)
    decreases hi
  {
    if lo < hi { CountShift(cs, r, lo, hi - 1, d, ch); }
  }

  lemma {:induction false} CountMember(cs: seq<Chan>, lo: nat, hi: nat, ch: Chan)
    requires lo <= hi <= |cs|
    ensures Count(cs, lo, hi, ch) > 0 <==> exists k :: lo <= k < hi && cs[k] == ch
    decreases hi
  {
    if lo < hi { CountMember(cs, lo, hi - 1, ch); }
  }

  /** Deactivating takes exactly the chosen case out of the active ones and loses none. */
  lemma DeactivateCount(cs: seq<Chan>, active: nat, index: nat, ch: Chan)
    requires FIRST_SUB <= index < active <= |cs|
    ensures var r := Deactivate(cs, active, index);
            && r[0] == cs[0]
            && Count(r, 1, active - 1, ch) + (if cs[index] == ch then 1 else 0) == Count(cs, 1, active, ch)
            && Count(r, 1, |r|, ch) == Count(cs, 1, |cs|, ch)
  {
    var r, last := Deactivate(cs, active, index), active - 1;
    CountPick(cs, 1, last, |cs|, ch);
    CountPick(r, 1, last, |cs|, ch);
    CountShift(cs, r, active, |cs|, 0, ch);
    assert r[index] == cs[last] && forall k :: 0 <= k < last && k != index ==> r[k] == cs[k];
    CountSwapped(cs, r, index, last, ch);
    CountPick(cs, 1, last, active, ch);
  }

  /** Exchanging two cases, counted up to the second. */
  lemma CountSwapped(cs: seq<Chan>, r: seq<Chan>, index: nat, last: nat, ch: Chan)
    requires 1 <= index <= last < |cs| == |r| && r[index] == cs[last] && forall k :: 0 <= k < last && k != index ==> r[k] == cs[k]
    ensures Count(r, 1, last, ch) + (if cs[index] == ch then 1 else 0) == Count(cs, 1, last, ch) + (if cs[last] == ch then 1 else 0)
  {
    CountShift(cs, r, 1, index, 0, ch);
    if index < last {
      CountPick(cs, 1, index, last, ch);
      CountPick(r, 1, index, last, ch);
      CountShift(cs, r, index + 1, last, 0, ch);
    }
  }

  /** Deleting takes exactly the chosen case out. */
  lemma DeleteOne(cs: seq<Chan>, lo: nat, hi: nat, index: nat, ch: Chan)
    requires lo <= index < hi <= |cs|
    ensures Count(Delete(cs, index), lo, hi - 1, ch) + (if cs[index] == ch then 1 else 0) == Count(cs, lo, hi, ch)
  {
    var r := Delete(cs, index);
    CountPick(cs, lo, index, hi, ch);
    CountSplit(r, lo, index, hi - 1, ch);
    CountShift(cs, r, lo, index, 0, ch);
    CountShift(cs, r, index, hi - 1, 1, ch);
  }

  /** The case is taken out of the active ones if it is among them. */
  lemma DeleteCount(cs: seq<Chan>, active: nat, index: nat, ch: Chan)
    requires FIRST_SUB <= index < |cs| && FIRST_SUB <= active <= |cs|
    ensures var r, gone := Delete(cs, index), if cs[index] == ch then 1 else 0;
            && r[0] == cs[0]
            && Count(r, 1, |r|, ch) + gone == Count(cs, 1, |cs|, ch)
            && (index < active ==> Count(r, 1, active - 1, ch) + gone == Count(cs, 1, active, ch))
            && (index >= active ==> Count(r, 1, active, ch) == Count(cs, 1, active, ch))
  {
    DeleteOne(cs, 1, |cs|, index, ch);
    if index < active { DeleteOne(cs, 1, active, index, ch); } else { CountShift(cs, Delete(cs, index), 1, active, 0, ch); }
  }

  // ----- the same operations in place, on slices of one backing array -----

  method FindInPlace(a: array<Chan>, n: nat, ch: Chan) returns (i: int)
    requires n <= a.Length
    ensures i == Find(a[..n], ch)
  {
    i := 0;
    while i < n
      invariant 0 <= i <= n && ch !in a[..i]
    {
      if a[i] == ch {
        FirstIsFind(a[..n], ch, i);
        return;
      }
      i := i + 1;
    }
    i := -1;
  }

  lemma FirstIsFind(cs: seq<Chan>, ch: Chan, i: nat)
    requires i < |cs| && cs[i] == ch && ch !in cs[..i]
    ensures Find(cs, ch) == i
  {
  }

  /** Shifts the cases after `index` down by one; the list is then one shorter. A shorter
      slice of the same array loses the case too if it contains it, and is otherwise
      left as it was. */
  method DeleteInPlace(a: array<Chan>, n: nat, index: nat, active: nat)
    requires index < n <= a.Length && active <= n
    modifies a
    ensures a[..][..n - 1] == Delete(old(a[..])[..n], index) && a[..][n..] == old(a[..])[n..]
    ensures index < active ==> a[..][..active - 1] == Delete(old(a[..])[..active], index)
    ensures index >= active ==> a[..][..active] == old(a[..])[..active]
  {
    var i := index;
    while i < n - 1
      invariant index <= i <= n - 1
      invariant forall k :: 0 <= k < index || n <= k < a.Length ==> a[k] == old(a[k])
      invariant forall k :: index <= k < i ==> a[k] == old(a[k + 1])
      invariant forall k :: i < k < n ==> a[k] == old(a[k])
    {
      a[i] := a[i + 1];
      i := i + 1;
    }
    Shifted(old(a[..]), a[..], n, index, active);
  }

  lemma Shifted(s: seq<Chan>, t: seq<Chan>, n: nat, index: nat, active: nat)
    requires |s| == |t| && index < n <= |s| && active <= n
    requires forall k :: 0 <= k < index || n <= k < |s| ==> t[k] == s[k]
    requires forall k :: index <= k < n - 1 ==> t[k] == s[k + 1]
    ensures t[..n - 1] == Delete(s[..n], index) && t[n..] == s[n..]
    ensures index < active ==> t[..active - 1] == Delete(s[..active], index)
    ensures index >= active ==> t[..active] == s[..active]
  {
  }

  /** Moves the case at `index` out of the first `active`, keeping every case in the array. */
  method DeactivateInPlace(a: array<Chan>, active: nat, index: nat)
    requires index < active <= a.Length
    modifies a
    ensures a[..] == Deactivate(old(a[..]), active, index)
  {
    a[index], a[active - 1] := a[active - 1], a[index];
  }

  // ----- the feed as a state machine, one event per lock region or channel handoff -----

  /** How far the send in progress has come: the first `active` cases are still to be served,
      and `next` is the one to be tried without blocking. `taken` are the subscriptions that
      are live when the send takes the inbox, `dropped` those removed before their turn. */
  datatype Progress = Idle | Busy(active: nat, next: nat, nsent: nat, taken: multiset<Chan>, dropped: multiset<Chan>)

  datatype Result = Result(nsent: nat, taken: multiset<Chan>, dropped: multiset<Chan>)

  datatype Delivery = Delivery(send: nat, ch: Chan)

  /** `live` counts the subscriptions whose Unsubscribe has not completed, `waiting` those whose
      Unsubscribe has looked at the inbox in vain. The same channel may be subscribed
      more than once. */
  datatype State = State(
    inbox: seq<Chan>,
    sendCases: seq<Chan>,
    progress: Progress,
    live: multiset<Chan>,
    waiting: multiset<Chan>,
    log: seq<Delivery>,
    results: seq<Result>)

  datatype Event =
    | Subscribe(ch: Chan)
    | Remove(ch: Chan)         // Unsubscribe looks at the inbox
    | RemoveIdle(ch: Chan)     // Unsubscribe gets the send lock
    | Begin                    // Send gets the send lock and takes the inbox
    | TrySent                  // a non-blocking send succeeds
    | TryFailed                // a non-blocking send would block
    | Sent(index: nat)         // the select statement sends to a subscriber
    | RemoveBusy(ch: Chan)     // the select statement hears of an Unsubscribe
    | End                      // Send returns

  const INIT := State([], [REMOVE_SUB], Idle, multiset{}, multiset{}, [], [])

  function Plus(m: multiset<Chan>, ch: Chan): multiset<Chan> {
    m[ch := m[ch] + 1]
  }

  function Minus(m: multiset<Chan>, ch: Chan): multiset<Chan> {
    if ch in m then m[ch := m[ch] - 1] else m
  }

  predicate Enabled(s: State, e: Event) {
    match e
    case Subscribe(ch) => ch != REMOVE_SUB
    case Remove(ch) => s.live[ch] > s.waiting[ch]
    case RemoveIdle(ch) => ch in s.waiting && s.progress.Idle?
    case Begin => s.progress.Idle?
    case TrySent => s.progress.Busy? && s.progress.next < s.progress.active <= |s.sendCases|
    case TryFailed => s.progress.Busy? && s.progress.next < s.progress.active <= |s.sendCases|
    case Sent(k) => s.progress.Busy? && s.progress.next == s.progress.active <= |s.sendCases| && FIRST_SUB <= k < s.progress.active
    case RemoveBusy(ch) => s.progress.Busy? && s.progress.next == s.progress.active && s.progress.active > FIRST_SUB && ch in s.waiting
    case End => s.progress.Busy? && s.progress.next == s.progress.active == FIRST_SUB
  }

  /** The value goes to case `k`, which becomes inactive. */
  function Deliver(s: State, k: nat, next: nat): State
    requires s.progress.Busy? && k < s.progress.active <= |s.sendCases|
  {
    var p := s.progress;
    s.(sendCases := Deactivate(s.sendCases, p.active, k),
       progress := p.(active := p.active - 1, next := next, nsent := p.nsent + 1),
       log := s.log + [Delivery(|s.results|, s.sendCases[k])])
  }

  /** The case at `index` goes, together with the waiting Unsubscribe it belongs to. */
  function DeleteCase(s: State, ch: Chan, index: nat): State
    requires index < |s.sendCases|
  {
    var p := s.progress;
    s.(sendCases := Delete(s.sendCases, index),
       progress := if p.Idle? then p
                   else if 0 < index < p.active then p.(active := p.active - 1, next := FIRST_SUB, dropped := Plus(p.dropped, ch))
                   else p.(next := FIRST_SUB),
       live := Minus(s.live, ch), waiting := Minus(s.waiting, ch))
  }

  /** Looking up the case of a waiting Unsubscribe must not fail: the list operations of the
      source panic on the index -1. */
  predicate NoPanic(s: State, e: Event) {
    (e.RemoveIdle? || e.RemoveBusy?) ==> Find(s.sendCases, e.ch) >= FIRST_SUB
  }

  function Next(s: State, e: Event): State
    requires Enabled(s, e) && NoPanic(s, e)
  {
    match e
    case Subscribe(ch) => s.(inbox := s.inbox + [ch], live := Plus(s.live, ch))
    case Remove(ch) =>
      var index := Find(s.inbox, ch);
      if index != -1 then s.(inbox := Delete(s.inbox, index), live := Minus(s.live, ch))
      else s.(waiting := Plus(s.waiting, ch))
    case RemoveIdle(ch) => DeleteCase(s, ch, Find(s.sendCases, ch))
    case Begin =>
      var cases := s.sendCases + s.inbox;
      s.(sendCases := cases, inbox := [], progress := Busy(|cases|, FIRST_SUB, 0, s.live, multiset{}))
    case TrySent => Deliver(s, s.progress.next, s.progress.next)
    case TryFailed => s.(progress := s.progress.(next := s.progress.next + 1))
    case Sent(k) => Deliver(s, k, FIRST_SUB)
    case RemoveBusy(ch) => DeleteCase(s, ch, Find(s.sendCases, ch))
    case End =>
      s.(progress := Idle, results := s.results + [Result(s.progress.nsent, s.progress.taken, s.progress.dropped)])
  }

  /** How often send number `id` was delivered on `ch`. */
  ghost function Delivered(log: seq<Delivery>, id: nat, ch: Chan): nat {
    if log == [] then 0
    else Delivered(log[..|log| - 1], id, ch) + if log[|log| - 1] == Delivery(id, ch) then 1 else 0
  }

  /** How often send number `id` was delivered at all. */
  ghost function Deliveries(log: seq<Delivery>, id: nat): nat {
    if log == [] then 0
    else Deliveries(log[..|log| - 1], id) + if log[|log| - 1].send == id then 1 else 0
  }

  /** A finished send reached every subscription it took, once, but for those removed before their turn. */
  ghost predicate ResultOk(r: Result, log: seq<Delivery>, id: nat) {
    && (forall ch :: r.taken[ch] == Delivered(log, id, ch) + r.dropped[ch])
    && r.nsent == Deliveries(log, id)
  }

  /** Every live subscription has its case, in the inbox or in the list, and every Unsubscribe
      that waits has one in the list. */
  ghost predicate CasesOk(s: State) {
    && |s.sendCases| >= FIRST_SUB && s.sendCases[0] == REMOVE_SUB
    && REMOVE_SUB !in s.live
    && (forall ch :: s.live[ch] == Count(s.inbox, 0, |s.inbox|, ch) + Count(s.sendCases, 1, |s.sendCases|, ch))
    && (forall ch :: s.waiting[ch] <= Count(s.sendCases, 1, |s.sendCases|, ch))
  }

  /** The send in progress owes a delivery to exactly the active cases. */
  ghost predicate ProgressOk(s: State) {
    var p := s.progress;
    p.Busy? ==>
      && FIRST_SUB <= p.next <= p.active <= |s.sendCases|
      && (forall ch :: p.taken[ch] == Delivered(s.log, |s.results|, ch) + p.dropped[ch] + Count(s.sendCases, 1, p.active, ch))
      && p.nsent == Deliveries(s.log, |s.results|)
  }

  ghost predicate LogOk(s: State) {
    && (forall i :: 0 <= i < |s.log| ==> s.log[i].send <= |s.results|)
    && (s.progress.Idle? ==> forall i :: 0 <= i < |s.log| ==> s.log[i].send < |s.results|)
    && (forall i :: 0 <= i < |s.results| ==> ResultOk(s.results[i], s.log, i))
  }

  /** Holds in every reachable state. */
  ghost predicate Inv(s: State) {
    CasesOk(s) && ProgressOk(s) && LogOk(s)
  }

  lemma LogAppend(log: seq<Delivery>, d: Delivery, id: nat)
    ensures Deliveries(log + [d], id) == Deliveries(log, id) + if d.send == id then 1 else 0
    ensures forall ch {:trigger Delivered(log + [d], id, ch)} ::
              Delivered(log + [d], id, ch) == Delivered(log, id, ch) + if d == Delivery(id, ch) then 1 else 0
  {
    assert (log + [d])[..|log|] == log;
  }

  lemma {:induction false} NoneYet(log: seq<Delivery>, id: nat)
    requires forall i :: 0 <= i < |log| ==> log[i].send < id
    ensures Deliveries(log, id) == 0 && forall ch :: Delivered(log, id, ch) == 0
  {
    if log != [] { NoneYet(log[..|log| - 1], id); }
  }

  /** A waiting Unsubscribe finds its case. */
  lemma FindsCase(s: State, e: Event)
    requires CasesOk(s) && Enabled(s, e)
    ensures NoPanic(s, e)
  {
    if e.RemoveIdle? || e.RemoveBusy? {
      assert Count(s.sendCases, 1, |s.sendCases|, e.ch) > 0 && e.ch in s.live;
      CountMember(s.sendCases, 1, |s.sendCases|, e.ch);
    }
  }

  lemma DeliverOk(s: State, k: nat, next: nat)
    requires Inv(s) && s.progress.Busy? && FIRST_SUB <= k < s.progress.active
    requires FIRST_SUB <= next <= s.progress.active - 1
    ensures Inv(Deliver(s, k, next))
  {
    var s', p := Deliver(s, k, next), s.progress;
    var d := Delivery(|s.results|, s.sendCases[k]);
    forall ch
      ensures Count(s'.sendCases, 1, p.active - 1, ch) + (if s.sendCases[k] == ch then 1 else 0) == Count(s.sendCases, 1, p.active, ch)
      ensures Count(s'.sendCases, 1, |s'.sendCases|, ch) == Count(s.sendCases, 1, |s.sendCases|, ch)
    {
      DeactivateCount(s.sendCases, p.active, k, ch);
    }
    LogAppend(s.log, d, |s.results|);
    forall i | 0 <= i < |s.results|
      ensures ResultOk(s.results[i], s'.log, i)
    {
      LogAppend(s.log, d, i);
      assert ResultOk(s.results[i], s.log, i);
    }
  }

  lemma DeleteCaseOk(s: State, ch: Chan)
    requires Inv(s) && ch in s.waiting && Find(s.sendCases, ch) >= FIRST_SUB
    ensures Inv(DeleteCase(s, ch, Find(s.sendCases, ch)))
  {
    var index := Find(s.sendCases, ch);
    DeletedCases(s, ch, index);
    DeletedProgress(s, ch, index);
  }

  lemma DeletedCases(s: State, ch: Chan, index: nat)
    requires CasesOk(s) && ch in s.waiting && FIRST_SUB <= index < |s.sendCases| && s.sendCases[index] == ch
    ensures CasesOk(DeleteCase(s, ch, index))
  {
    var s' := DeleteCase(s, ch, index);
    forall c
      ensures Count(s'.sendCases, 1, |s'.sendCases|, c) + (if c == ch then 1 else 0) == Count(s.sendCases, 1, |s.sendCases|, c)
    {
      DeleteOne(s.sendCases, 1, |s.sendCases|, index, c);
    }
  }

  lemma DeletedProgress(s: State, ch: Chan, index: nat)
    requires ProgressOk(s) && FIRST_SUB <= index < |s.sendCases| && s.sendCases[index] == ch
    ensures ProgressOk(DeleteCase(s, ch, index))
  {
    var s', p := DeleteCase(s, ch, index), s.progress;
    if p.Busy? {
      forall c
        ensures s'.progress.taken[c] == Delivered(s'.log, |s'.results|, c) + s'.progress.dropped[c] + Count(s'.sendCases, 1, s'.progress.active, c)
      {
        DeleteCount(s.sendCases, p.active, index, c);
      }
    }
  }

  lemma RemoveOk(s: State, ch: Chan)
    requires Inv(s) && Enabled(s, Remove(ch))
    ensures Inv(Next(s, Remove(ch)))
  {
    var s', index := Next(s, Remove(ch)), Find(s.inbox, ch);
    if index != -1 {
      forall c
        ensures Count(s'.inbox, 0, |s'.inbox|, c) + (if c == ch then 1 else 0) == Count(s.inbox, 0, |s.inbox|, c)
      {
        DeleteOne(s.inbox, 0, |s.inbox|, index, c);
      }
    } else {
      CountMember(s.inbox, 0, |s.inbox|, ch);
    }
  }

  lemma SubscribeOk(s: State, ch: Chan)
    requires Inv(s) && Enabled(s, Subscribe(ch))
    ensures Inv(Next(s, Subscribe(ch)))
  {
    forall c
      ensures Count(s.inbox + [ch], 0, |s.inbox| + 1, c) == Count(s.inbox, 0, |s.inbox|, c) + if c == ch then 1 else 0
    {
      InboxAppend(s.inbox, ch, c);
    }
  }

  lemma InboxAppend(inbox: seq<Chan>, ch: Chan, c: Chan)
    ensures Count(inbox + [ch], 0, |inbox| + 1, c) == Count(inbox, 0, |inbox|, c) + if c == ch then 1 else 0
  {
    CountShift(inbox + [ch], inbox, 0, |inbox|, 0, c);
  }

  lemma BeginOk(s: State)
    requires Inv(s) && Enabled(s, Begin)
    ensures Inv(Next(s, Begin))
  {
    forall c
      ensures Count(s.sendCases + s.inbox, 1, |s.sendCases + s.inbox|, c) == Count(s.sendCases, 1, |s.sendCases|, c) + Count(s.inbox, 0, |s.inbox|, c)
    {
      CountAppend(s.sendCases, s.inbox, c);
    }
    NoneYet(s.log, |s.results|);
  }

  lemma CountAppend(cs: seq<Chan>, inbox: seq<Chan>, ch: Chan)
    requires |cs| >= FIRST_SUB
    ensures Count(cs + inbox, 1, |cs + inbox|, ch) == Count(cs, 1, |cs|, ch) + Count(inbox, 0, |inbox|, ch)
  {
    var cases := cs + inbox;
    CountSplit(cases, 1, |cs|, |cases|, ch);
    CountShift(cases, cs, 1, |cs|, 0, ch);
    CountShift(cases, inbox, 0, |inbox|, |cs|, ch);
  }

  lemma EndOk(s: State)
    requires Inv(s) && Enabled(s, End)
    ensures Inv(Next(s, End))
  {
    var s' := Next(s, End);
    forall i | 0 <= i < |s'.results|
      ensures ResultOk(s'.results[i], s'.log, i)
    {
      if i < |s.results| { assert ResultOk(s.results[i], s.log, i); }
    }
  }

  /** Every event that can happen does so without a panic and keeps the invariant. */
  lemma InvStep(s: State, e: Event)
    requires Inv(s) && Enabled(s, e)
    ensures NoPanic(s, e) && Inv(Next(s, e))
  {
    FindsCase(s, e);
    match e {
      case Subscribe(ch) => SubscribeOk(s, ch);
      case Remove(ch) => RemoveOk(s, ch);
      case RemoveIdle(ch) => DeleteCaseOk(s, ch);
      case RemoveBusy(ch) => DeleteCaseOk(s, ch);
      case Begin => BeginOk(s);
      case TrySent => DeliverOk(s, s.progress.next, s.progress.next);
      case TryFailed =>
      case Sent(k) => DeliverOk(s, k, FIRST_SUB);
      case End => EndOk(s);
    }
  }

  // ----- what holds over whole runs -----

  /** The events `es`, each possible when its turn comes, lead from `s` to `t`. */
  ghost predicate Run(s: State, es: seq<Event>, t: State)
    decreases |es|
  {
    if es == [] then s == t
    else Enabled(s, es[0]) && NoPanic(s, es[0]) && Run(Next(s, es[0]), es[1..], t)
  }

  lemma {:induction false} RunKeepsInv(s: State, es: seq<Event>, t: State)
    requires Inv(s) && Run(s, es, t)
    ensures Inv(t)
    decreases |es|
  {
    if es != [] {
      InvStep(s, es[0]);
      RunKeepsInv(Next(s, es[0]), es[1..], t);
    }
  }

  /** In every run no event panics, and each finished send was delivered once for every
      subscription it took that was not removed before its turn; it returned how often. */
  lemma EveryRun(es: seq<Event>, t: State)
    requires Run(INIT, es, t)
    ensures Inv(t)
    ensures forall e :: Enabled(t, e) ==> NoPanic(t, e)
    ensures forall i :: 0 <= i < |t.results| ==> ResultOk(t.results[i], t.log, i)
    ensures forall ch :: t.live[ch] == Subscribed(es, ch) - Completed(INIT, es, ch)
  {
    RunKeepsInv(INIT, es, t);
    forall ch
      ensures t.live[ch] == Subscribed(es, ch) - Completed(INIT, es, ch)
    {
      LiveCount(INIT, es, t, ch);
    }
    forall e | Enabled(t, e)
      ensures NoPanic(t, e)
    {
      FindsCase(t, e);
    }
  }

  /** A channel subscribed once when a finished send took the inbox got the value exactly once,
      or not at all if it was removed before its turn; a channel not subscribed then got nothing. */
  lemma TakenOnce(es: seq<Event>, t: State, i: nat, ch: Chan)
    requires Run(INIT, es, t) && i < |t.results|
    ensures t.results[i].taken[ch] == 1 ==> Delivered(t.log, i, ch) == if ch in t.results[i].dropped then 0 else 1
    ensures t.results[i].taken[ch] == 0 ==> Delivered(t.log, i, ch) == 0
  {
    EveryRun(es, t);
    assert ResultOk(t.results[i], t.log, i);
  }

  // ----- the same, counted on the events of a run -----

  ghost predicate Possible(s: State, e: Event) {
    Enabled(s, e) && NoPanic(s, e)
  }

  ghost function Subscribed(es: seq<Event>, ch: Chan): nat {
    if es == [] then 0 else (if es[0] == Subscribe(ch) then 1 else 0) + Subscribed(es[1..], ch)
  }

  /** Whether the event completes an Unsubscribe for `ch`: it finds the channel in the inbox, or its case
      is taken out of the list. */
  ghost predicate Completes(s: State, e: Event, ch: Chan) {
    (e == Remove(ch) && ch in s.inbox) || e == RemoveIdle(ch) || e == RemoveBusy(ch)
  }

  ghost function Completed(s: State, es: seq<Event>, ch: Chan): nat
    decreases |es|
  {
    if es == [] || !Possible(s, es[0]) then 0
    else (if Completes(s, es[0], ch) then 1 else 0) + Completed(Next(s, es[0]), es[1..], ch)
  }

  /** Whether the event hands the value over on `ch`. */
  ghost predicate Serves(s: State, e: Event, ch: Chan)
    requires Possible(s, e)
  {
    match e
    case TrySent => s.sendCases[s.progress.next] == ch
    case Sent(k) => s.sendCases[k] == ch
    case _ => false
  }

  ghost function Served(s: State, es: seq<Event>, ch: Chan): nat
    decreases |es|
  {
    if es == [] || !Possible(s, es[0]) then 0
    else (if Serves(s, es[0], ch) then 1 else 0) + Served(Next(s, es[0]), es[1..], ch)
  }

  /** Whether the event takes away a case for `ch` that was still to be served. */
  ghost predicate Misses(s: State, e: Event, ch: Chan) {
    e == RemoveBusy(ch) && s.progress.Busy? && Find(s.sendCases, ch) < s.progress.active
  }

  ghost function Missed(s: State, es: seq<Event>, ch: Chan): nat
    decreases |es|
  {
    if es == [] || !Possible(s, es[0]) then 0
    else (if Misses(s, es[0], ch) then 1 else 0) + Missed(Next(s, es[0]), es[1..], ch)
  }

  /** How many events hand over a value, on whatever channel. */
  ghost function Handovers(es: seq<Event>): nat {
    if es == [] then 0 else (if es[0].TrySent? || es[0].Sent? then 1 else 0) + Handovers(es[1..])
  }

  lemma LiveStep(s: State, e: Event, ch: Chan)
    requires Inv(s) && Possible(s, e)
    ensures Next(s, e).live[ch] == s.live[ch] + (if e == Subscribe(ch) then 1 else 0) - if Completes(s, e, ch) then 1 else 0
  {
    if e.RemoveIdle? || e.RemoveBusy? {
      CountMember(s.sendCases, 1, |s.sendCases|, e.ch);
      assert e.ch in s.live;
    }
    if e.Remove? { assert e.ch in s.live; }
  }

  /** The live subscriptions of a channel are its subscriptions less the completed removals. */
  lemma {:induction false} LiveCount(s: State, es: seq<Event>, t: State, ch: Chan)
    requires Inv(s) && Run(s, es, t)
    ensures t.live[ch] == s.live[ch] + Subscribed(es, ch) - Completed(s, es, ch)
    decreases |es|
  {
    if es != [] {
      LiveStep(s, es[0], ch);
      InvStep(s, es[0]);
      LiveCount(Next(s, es[0]), es[1..], t, ch);
    }
  }

  /** How often the send in progress still has to serve `ch`. */
  ghost function Owed(s: State, ch: Chan): nat
    requires s.progress.Busy? && 1 <= s.progress.active <= |s.sendCases|
  {
    Count(s.sendCases, 1, s.progress.active, ch)
  }

  lemma OwedAtBegin(s: State, ch: Chan)
    requires Inv(s) && Enabled(s, Begin)
    ensures var b := Next(s, Begin);
            && b.progress.Busy? && 1 <= b.progress.active <= |b.sendCases| && Owed(b, ch) == s.live[ch]
            && b.progress.nsent == 0 && |b.results| == |s.results| && Delivered(b.log, |b.results|, ch) == 0
  {
    CountAppend(s.sendCases, s.inbox, ch);
    NoneYet(s.log, |s.results|);
  }

  lemma OwedStep(s: State, e: Event, ch: Chan)
    requires Inv(s) && s.progress.Busy? && Possible(s, e) && e != End
    ensures var t := Next(s, e);
            && t.progress.Busy? && 1 <= t.progress.active <= |t.sendCases| && |t.results| == |s.results|
            && Owed(s, ch) == Owed(t, ch) + (if Serves(s, e, ch) then 1 else 0) + (if Misses(s, e, ch) then 1 else 0)
            && t.progress.nsent == s.progress.nsent + (if e.TrySent? || e.Sent? then 1 else 0)
            && Delivered(t.log, |s.results|, ch) == Delivered(s.log, |s.results|, ch) + if Serves(s, e, ch) then 1 else 0
  {
    if e.TrySent? || e.Sent? {
      var k := if e.TrySent? then s.progress.next else e.index;
      DeactivateCount(s.sendCases, s.progress.active, k, ch);
      LogAppend(s.log, Delivery(|s.results|, s.sendCases[k]), |s.results|);
      assert Next(s, e).log == s.log + [Delivery(|s.results|, s.sendCases[k])];
    } else if e.RemoveBusy? {
      DeleteCount(s.sendCases, s.progress.active, Find(s.sendCases, e.ch), ch);
    }
  }

  /** What the send owed is served, missed or still owed. */
  lemma {:induction false} OwedRun(s: State, es: seq<Event>, t: State, ch: Chan)
    requires Inv(s) && s.progress.Busy? && Run(s, es, t) && End !in es
    ensures t.progress.Busy? && 1 <= t.progress.active <= |t.sendCases| && |t.results| == |s.results|
    ensures Owed(s, ch) == Owed(t, ch) + Served(s, es, ch) + Missed(s, es, ch)
    ensures t.progress.nsent == s.progress.nsent + Handovers(es)
    ensures Delivered(t.log, |s.results|, ch) == Delivered(s.log, |s.results|, ch) + Served(s, es, ch)
    decreases |es|
  {
    if es != [] {
      OwedStep(s, es[0], ch);
      InvStep(s, es[0]);
      OwedRun(Next(s, es[0]), es[1..], t, ch);
    }
  }

  /** After the events `before` a send begins in `s`, and after `during`, in `u`, it is about to return. */
  ghost predicate SendRun(before: seq<Event>, s: State, during: seq<Event>, u: State) {
    && Run(INIT, before, s) && Enabled(s, Begin)
    && Run(Next(s, Begin), during, u) && End !in during && Enabled(u, End)
  }

  /** Over every run, each send hands its value over on every channel as often as the channel was
      subscribed when it began, but for the subscriptions that were removed before their turn; it returns
      how often it did. All is counted on the events of the run. */
  lemma ExactlyOnce(before: seq<Event>, s: State, during: seq<Event>, u: State, ch: Chan)
    requires SendRun(before, s, during, u)
    ensures var b, t := Next(s, Begin), Next(u, End);
            && Served(b, during, ch) + Missed(b, during, ch) == Subscribed(before, ch) - Completed(INIT, before, ch)
            && t.progress.Idle? && |t.results| == |s.results| + 1
            && t.results[|s.results|].nsent == Handovers(during)
            && Delivered(t.log, |s.results|, ch) == Served(b, during, ch)
  {
    RunKeepsInv(INIT, before, s);
    LiveCount(INIT, before, s, ch);
    OwedAtBegin(s, ch);
    InvStep(s, Begin);
    OwedRun(Next(s, Begin), during, u, ch);
  }

  /** A send in progress can always finish: it can serve the cases that are left, and then return. */
  lemma {:induction false} CanFinish(s: State) returns (es: seq<Event>, t: State)
    requires Inv(s) && s.progress.Busy?
    ensures Run(s, es, t) && t.progress.Idle? && End !in es[..|es| - 1] && |t.results| == |s.results| + 1
    decreases s.progress.active, s.progress.active - s.progress.next
  {
    var p := s.progress;
    var e := if p.next < p.active then TrySent else if p.active > FIRST_SUB then Sent(FIRST_SUB) else End;
    InvStep(s, e);
    if e == End {
      es, t := [End], Next(s, End);
      assert es[1..] == [];
    } else {
      var rest;
      rest, t := CanFinish(Next(s, e));
      es := [e] + rest;
      assert es[1..] == rest;
    }
  }

  lemma QuietStep(s: State, e: Event, ch: Chan, id: nat)
    requires Inv(s) && Enabled(s, e) && NoPanic(s, e) && ch !in s.live && e != Subscribe(ch)
    ensures ch !in Next(s, e).live && Delivered(Next(s, e).log, id, ch) == Delivered(s.log, id, ch)
  {
    if e.TrySent? || e.Sent? {
      var k := if e.TrySent? then s.progress.next else e.index;
      CountMember(s.sendCases, 1, |s.sendCases|, s.sendCases[k]);
      assert s.live[s.sendCases[k]] > 0;
      LogAppend(s.log, Delivery(|s.results|, s.sendCases[k]), id);
      assert Next(s, e).log == s.log + [Delivery(|s.results|, s.sendCases[k])];
    }
  }

  /** Once every Unsubscribe for a channel has completed, nothing more is delivered on it
      unless it is subscribed again. */
  lemma {:induction false} NothingAfterUnsubscribe(s: State, es: seq<Event>, t: State, ch: Chan, id: nat)
    requires Inv(s) && Run(s, es, t) && ch !in s.live && Subscribe(ch) !in es
    ensures ch !in t.live && Delivered(t.log, id, ch) == Delivered(s.log, id, ch)
    decreases |es|
  {
    if es != [] {
      InvStep(s, es[0]);
      QuietStep(s, es[0], ch, id);
      NothingAfterUnsubscribe(Next(s, es[0]), es[1..], t, ch, id);
    }
  }
}
