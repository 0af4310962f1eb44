/** The request distributor: a queue of requests in creation order, matched to peers that can
    serve them, and the signal that wakes the loop which does the matching. */
module Distributor {
  import opened Wrappers

  type Peer = nat
  type Req = nat

  /** The buffer of the loop's signal channel. */
  const LOOP_CHAN_SIZE: nat := 2

  /** The loop sleeps for at most this many milliseconds before it looks again. */
  const DIST_MAX_WAIT: nat := 50

  /** Whether a peer can be sent a request now: the peer accepts more, the request suits it. */
  type Suits = (Peer, Req) -> bool

  /** How long a peer has to be waited for before it can be sent a request. */
  type Waits = (Peer, Req) -> nat

  /** The creation orders of the queued requests increase strictly. */
  ghost predicate Sorted(q: seq<Req>, order: map<Req, nat>) {
    && (forall i :: 0 <= i < |q| ==> q[i] in order)
    && (forall i, j :: 0 <= i < j < |q| ==> order[q[i]] < order[q[j]])
  }

  /** No two requests were given the same order, and none more than `last`. */
  ghost predicate Issued(order: map<Req, nat>, last: nat) {
    && (forall r :: r in order ==> 0 < order[r] <= last)
    && (forall r, r' :: r in order && r' in order && order[r] == order[r'] ==> r == r')
  }

  /** The first request of the queue that `p` can be sent is at `i`. */
  ghost predicate FirstAt(q: seq<Req>, suits: Suits, p: Peer, i: nat) {
    i < |q| && suits(p, q[i]) && forall j :: 0 <= j < i ==> !suits(p, q[j])
  }

  /** `r` is the first request of the queue that `p` can be sent. */
  ghost predicate FirstFor(q: seq<Req>, suits: Suits, p: Peer, r: Req) {
    exists i: nat :: FirstAt(q, suits, p, i) && q[i] == r
  }

  ghost predicate NobodyTakes(peers: set<Peer>, suits: Suits, r: Req) {
    forall p :: p in peers ==> !suits(p, r)
  }

  /** The best choice so far of a peer that has to be waited for. */
  datatype Wait = Wait(peer: Peer, req: Req, wait: nat)

  ghost predicate Offers(peers: set<Peer>, checked: set<Peer>, req: Req, suits: Suits, p: Peer) {
    p in peers && p !in checked && suits(p, req)
  }

  /** What is ready, and the best one to wait for, once the peers that can be sent `req` are looked at too. */
  ghost predicate Looked(peers: set<Peer>, checked: set<Peer>, req: Req, suits: Suits, waits: Waits,
                         ready: set<(Peer, Req)>, best: Option<Wait>, ready': set<(Peer, Req)>, best': Option<Wait>) {
    && (forall x :: x in ready' <==> x in ready || (x.1 == req && Offers(peers, checked, req, suits, x.0) && waits(x.0, req) == 0))
    && (best'.Some? ==> best' == best || (best'.value.req == req && Offers(peers, checked, req, suits, best'.value.peer) && 0 < best'.value.wait == waits(best'.value.peer, req)))
    && (best.Some? ==> best'.Some? && best'.value.wait <= best.value.wait)
    && (forall p :: Offers(peers, checked, req, suits, p) && waits(p, req) > 0 ==> best'.Some? && best'.value.wait <= waits(p, req))
  }

  /** Looks for the peers that can be sent `req` among those not yet matched. */
  method CheckPeers(peers: set<Peer>, checked: set<Peer>, req: Req, suits: Suits, waits: Waits, ready: set<(Peer, Req)>, best: Option<Wait>)
    returns (canSend: bool, checked': set<Peer>, ready': set<(Peer, Req)>, best': Option<Wait>)
    requires checked <= peers
    ensures checked' == checked + (set p | p in peers && suits(p, req))
    ensures canSend <==> exists p :: p in peers && p !in checked && suits(p, req)
    ensures Looked(peers, checked, req, suits, waits, ready, best, ready', best')
  {
    canSend, checked', ready', best' := false, checked, ready, best;
    var rest := peers;
    while rest != {}
      invariant rest <= peers
      invariant checked' == checked + (set p | p in peers - rest && suits(p, req))
      invariant canSend <==> exists p :: p in peers - rest && p !in checked && suits(p, req)
      invariant Looked(peers - rest, checked, req, suits, waits, ready, best, ready', best')
      decreases rest
    {
      var p: Peer :| p in rest;
      if p !in checked' && suits(p, req) {
        canSend := true;
        var wait := waits(p, req);
        if wait == 0 {
          ready' := ready' + {(p, req)};
        } else if best'.None? || wait < best'.value.wait {
          best' := Some(Wait(p, req, wait));
        }
        checked' := checked' + {p};
      }
      rest := rest - {p};
    }
  }

  /** The next request to send or to wait for, with the peer that is to serve it: of all registered peers,
      each with the first request it can be sent, one that needs the least wait. Requests at the front of
      the queue that no registered peer can serve are dropped. */
  method NextRequest(q: seq<Req>, peers: set<Peer>, suits: Suits, waits: Waits)
    returns (q': seq<Req>, peer: Peer, req: Option<Req>, wait: nat, ghost dropped: nat)
    ensures dropped <= |q| && q' == q[dropped..]
    ensures forall i :: 0 <= i < dropped ==> NobodyTakes(peers, suits, q[i])
    ensures q' != [] ==> !NobodyTakes(peers, suits, q'[0])
    ensures req.None? <==> q' == []
    ensures req.Some? ==> peer in peers && FirstFor(q', suits, peer, req.value)
    ensures req.Some? ==> wait == waits(peer, req.value) && forall p, r :: p in peers && FirstFor(q', suits, p, r) ==> wait <= waits(p, r)
    ensures wait == 0 <==> req.None? || exists p, r :: p in peers && FirstFor(q', suits, p, r) && waits(p, r) == 0
  {
    var checked: set<Peer>, ready: set<(Peer, Req)>, best: Option<Wait> := {}, {}, None;
    var i := 0;
    q', dropped := q, 0;
    while (|peers| > 0 || i == 0) && i < |q'|
      invariant dropped <= |q| && q' == q[dropped..] && i <= |q'|
      invariant forall k :: 0 <= k < dropped ==> NobodyTakes(peers, suits, q[k])
      invariant Scanned(q'[..i], peers, suits, waits, checked, ready, best)
      invariant i > 0 ==> !NobodyTakes(peers, suits, q'[0])
      decreases |q'| - i
    {
      ghost var seen := q'[..i];
      var canSend;
      canSend, checked, ready, best := Look(seen, peers, checked, q'[i], suits, waits, ready, best);
      if !canSend && i == 0 {
        q', dropped := q'[1..], dropped + 1;
      } else {
        assert q'[..i + 1] == seen + [q'[i]];
        i := i + 1;
      }
    }
    assert i > 0 ==> peers != {};
    assert q'[..i] == q';
    peer, req, wait := Choose(q', peers, suits, waits, checked, ready, best);
  }

  /** Every peer's first request among the ones looked at is taken into account: it is ready to be sent,
      or the best one to wait for needs no more. */
  ghost predicate Scanned(s: seq<Req>, peers: set<Peer>, suits: Suits, waits: Waits,
                          checked: set<Peer>, ready: set<(Peer, Req)>, best: Option<Wait>) {
    && checked <= peers
    && (forall p :: p in peers ==> (p in checked <==> exists r :: r in s && suits(p, r)))
    && (forall p, r :: p in peers && FirstFor(s, suits, p, r) ==> Weighed(waits, ready, best, p, r))
    && (forall x :: x in ready ==> x.0 in peers && FirstFor(s, suits, x.0, x.1) && waits(x.0, x.1) == 0)
    && (best.Some? ==> var b := best.value; b.peer in peers && FirstFor(s, suits, b.peer, b.req) && 0 < b.wait == waits(b.peer, b.req))
  }

  ghost predicate Weighed(waits: Waits, ready: set<(Peer, Req)>, best: Option<Wait>, p: Peer, r: Req) {
    if waits(p, r) == 0 then (p, r) in ready else best.Some? && best.value.wait <= waits(p, r)
  }

  /** Looks at one more request. */
  method Look(ghost s: seq<Req>, peers: set<Peer>, checked: set<Peer>, req: Req, suits: Suits, waits: Waits, ready: set<(Peer, Req)>, best: Option<Wait>)
    returns (canSend: bool, checked': set<Peer>, ready': set<(Peer, Req)>, best': Option<Wait>)
    requires Scanned(s, peers, suits, waits, checked, ready, best)
    ensures s == [] && !canSend ==> Scanned([], peers, suits, waits, checked', ready', best')
    ensures s != [] || canSend ==> Scanned(s + [req], peers, suits, waits, checked', ready', best')
    ensures s == [] ==> (canSend <==> !NobodyTakes(peers, suits, req))
  {
    canSend, checked', ready', best' := CheckPeers(peers, checked, req, suits, waits, ready, best);
    ScannedNext(s, peers, checked, req, suits, waits, ready, best, checked', ready', best');
    if s == [] {
      assert s + [req] == [req];
      if !canSend { ScannedNothing(req, peers, suits, waits, checked', ready', best'); }
    }
  }

  lemma ScannedNext(s: seq<Req>, peers: set<Peer>, checked: set<Peer>, req: Req, suits: Suits, waits: Waits,
                    ready: set<(Peer, Req)>, best: Option<Wait>, checked': set<Peer>, ready': set<(Peer, Req)>, best': Option<Wait>)
    requires Scanned(s, peers, suits, waits, checked, ready, best)
    requires checked' == checked + (set p | p in peers && suits(p, req))
    requires Looked(peers, checked, req, suits, waits, ready, best, ready', best')
    ensures Scanned(s + [req], peers, suits, waits, checked', ready', best')
  {
    forall p, r
      ensures FirstFor(s + [req], suits, p, r) <==> FirstFor(s, suits, p, r) || (r == req && suits(p, req) && forall x :: x in s ==> !suits(p, x))
    {
      FirstOfMore(s, req, suits, p, r);
    }
    forall p | p in peers
      ensures p in checked' <==> exists r :: r in s + [req] && suits(p, r)
    {
      assert req in s + [req];
      assert forall r :: r in s + [req] <==> r in s || r == req;
    }
  }

  /** A request that suits no peer leaves no trace. */
  lemma ScannedNothing(req: Req, peers: set<Peer>, suits: Suits, waits: Waits, checked: set<Peer>, ready: set<(Peer, Req)>, best: Option<Wait>)
    requires Scanned([req], peers, suits, waits, checked, ready, best) && NobodyTakes(peers, suits, req)
    ensures Scanned([], peers, suits, waits, checked, ready, best)
  {
  }

  lemma SomethingFound(s: seq<Req>, peers: set<Peer>, suits: Suits, waits: Waits, checked: set<Peer>, ready: set<(Peer, Req)>, best: Option<Wait>)
    requires Scanned(s, peers, suits, waits, checked, ready, best) && (s != [] ==> !NobodyTakes(peers, suits, s[0]))
    ensures ready == {} && best.None? ==> s == []
    ensures s == [] ==> best.None? && forall x :: x !in ready
  {
    if s != [] {
      var p :| p in peers && suits(p, s[0]);
      assert FirstAt(s, suits, p, 0);
      assert FirstFor(s, suits, p, s[0]);
    }
  }

  /** Picks one of the ready ones, or else the best one to wait for. */
  method Choose(ghost s: seq<Req>, peers: set<Peer>, ghost suits: Suits, ghost waits: Waits, ghost checked: set<Peer>, ready: set<(Peer, Req)>, best: Option<Wait>)
    returns (peer: Peer, req: Option<Req>, wait: nat)
    requires Scanned(s, peers, suits, waits, checked, ready, best) && (s != [] ==> !NobodyTakes(peers, suits, s[0]))
    ensures req.None? <==> s == []
    ensures req.Some? ==> peer in peers && FirstFor(s, suits, peer, req.value)
    ensures req.Some? ==> wait == waits(peer, req.value) && forall p, r :: p in peers && FirstFor(s, suits, p, r) ==> wait <= waits(p, r)
    ensures wait == 0 <==> req.None? || exists p, r :: p in peers && FirstFor(s, suits, p, r) && waits(p, r) == 0
  {
    if ready != {} {
      var c :| c in ready;
      return c.0, Some(c.1), 0;
    }
    if best.Some? { return best.value.peer, Some(best.value.req), best.value.wait; }
    SomethingFound(s, peers, suits, waits, checked, ready, best);
    return 0, None, 0;
  }

  /** The first request that suits a peer: among the earlier ones, or else the last one. */
  lemma FirstOfMore(s: seq<Req>, req: Req, suits: Suits, p: Peer, r: Req)
    ensures FirstFor(s + [req], suits, p, r) <==> FirstFor(s, suits, p, r) || (r == req && suits(p, req) && forall x :: x in s ==> !suits(p, x))
  {
    var t := s + [req];
    assert forall j :: 0 <= j < |s| ==> t[j] == s[j];
    assert forall i: nat :: i < |s| ==> (FirstAt(s, suits, p, i) <==> FirstAt(t, suits, p, i));
    assert FirstAt(t, suits, p, |s|) <==> suits(p, req) && forall x :: x in s ==> !suits(p, x);
  }

  function Inserted(q: seq<Req>, r: Req, i: nat): seq<Req>
    requires i <= |q|
  {
    q[..i] + [r] + q[i..]
  }

  /** The place of `r` in the queue: at the back, or before the first request created later. */
  method Place(q: seq<Req>, order: map<Req, nat>, r: Req) returns (i: nat)
    requires Sorted(q, order) && r in order
    requires forall k :: 0 <= k < |q| ==> order[q[k]] != order[r]
    ensures i <= |q| && Sorted(Inserted(q, r, i), order)
    ensures (forall k :: 0 <= k < |q| ==> order[q[k]] < order[r]) ==> i == |q|
  {
    if q == [] || order[r] > order[q[|q| - 1]] {
      InsertedSorted(q, order, r, |q|);
      return |q|;
    }
    i := 0;
    while order[q[i]] < order[r]
      invariant i < |q| && forall k :: 0 <= k < i ==> order[q[k]] < order[r]
      decreases |q| - i
    {
      i := i + 1;
    }
    InsertedSorted(q, order, r, i);
  }

  lemma InsertedSorted(q: seq<Req>, order: map<Req, nat>, r: Req, i: nat)
    requires Sorted(q, order) && r in order && i <= |q|
    requires (i > 0 ==> order[q[i - 1]] < order[r]) && (i < |q| ==> order[r] < order[q[i]])
    ensures Sorted(Inserted(q, r, i), order)
  {
    var q' := Inserted(q, r, i);
    forall k | 0 <= k < |q'|
      ensures q'[k] == if k < i then q[k] else if k == i then r else q[k - 1]
    {
    }
  }

  /** Gives the request an order, unless it has one, and puts it in its place. */
  method Enqueue(q: seq<Req>, order: map<Req, nat>, last: nat, r: Req) returns (q': seq<Req>, order': map<Req, nat>, last': nat)
    requires Sorted(q, order) && Issued(order, last) && r !in q
    ensures Sorted(q', order') && Issued(order', last')
    ensures order' == if r in order then order else order[r := last + 1]
    ensures exists i: nat :: i <= |q| && q' == Inserted(q, r, i)
    ensures r !in order ==> q' == q + [r]
    ensures |q'| == |q| + 1 && forall x :: x in q' <==> x in q || x == r
  {
    order', last' := order, last;
    if r !in order {
      last' := last + 1;
      order' := order[r := last'];
    }
    forall k | 0 <= k < |q|
      ensures q[k] in order' && order'[q[k]] != order'[r]
    {
      assert q[k] in q;
    }
    var i := Place(q, order', r);
    q' := Inserted(q, r, i);
  }

  lemma SortedSuffix(q: seq<Req>, order: map<Req, nat>, n: nat)
    requires Sorted(q, order) && n <= |q|
    ensures Sorted(q[n..], order)
  {
  }

  /** The queue without `r`. */
  function Without(q: seq<Req>, r: Req): (w: seq<Req>) {
    if q == [] then [] else if q[0] == r then q[1..] else [q[0]] + Without(q[1..], r)
  }

  lemma {:induction false} WithoutSorted(q: seq<Req>, order: map<Req, nat>, r: Req)
    requires Sorted(q, order)
    ensures Sorted(Without(q, r), order) && forall x :: x in Without(q, r) <==> x in q && x != r
  {
    if q != [] {
      assert q == [q[0]] + q[1..];
      SortedSuffix(q, order, 1);
      WithoutSorted(q[1..], order, r);
      if q[0] == r {
        assert forall k :: 0 <= k < |q[1..]| ==> order[q[1..][k]] > order[q[0]];
      } else {
        var w := Without(q[1..], r);
        forall k | 0 <= k < |w|
          ensures order[q[0]] < order[w[k]]
        {
          assert w[k] in w;
          assert w[k] in q[1..];
          var j :| 0 <= j < |q[1..]| && q[1..][j] == w[k];
          assert q[j + 1] == w[k];
        }
      }
    }
  }

  class RequestDistributor {
    var reqQueue: seq<Req>
    var order: map<Req, nat>       // the reqOrder field of every request that was ever queued
    var lastReqOrder: nat
    var peers: set<Peer>
    var loopNextSent: bool
    var loopChn: nat               // signals in the channel's buffer
    var sleeping: nat              // goroutines that will send a signal after sleeping
    var received: bool             // the loop has taken a signal but not the lock yet

    /** Holds whenever the lock is free. */
    ghost predicate Valid()
      reads this
    {
      && Sorted(reqQueue, order) && Issued(order, lastReqOrder)
      // exactly one signal is on its way when one is said to be
      && (if loopNextSent then 1 else 0) == loopChn + sleeping + (if received then 1 else 0)
      // and no queued request is left without a wake-up
      && (reqQueue != [] ==> loopNextSent)
    }

    constructor ()
      ensures Valid() && reqQueue == [] && peers == {}
    {
      reqQueue, order, lastReqOrder, peers := [], map[], 0, {};
      loopNextSent, loopChn, sleeping, received := false, 0, 0, false;
    }

    method RegisterPeer(p: Peer)
      requires Valid()
      modifies this`peers
      ensures Valid() && peers == old(peers) + {p}
    {
      peers := peers + {p};
    }

    method UnregisterPeer(p: Peer)
      requires Valid()
      modifies this`peers
      ensures Valid() && peers == old(peers) - {p}
    {
      peers := peers - {p};
    }

    /** Queues a request that is not queued: a new one at the back, a resent one where its
        creation puts it. The signal never blocks on a full channel. */
    method Queue(r: Req)
      requires Valid() && r !in reqQueue
      modifies this`reqQueue, this`order, this`lastReqOrder, this`loopNextSent, this`loopChn
      ensures Valid() && loopNextSent
      ensures order == if r in old(order) then old(order) else old(order)[r := old(lastReqOrder) + 1]
      ensures exists i: nat :: i <= |old(reqQueue)| && reqQueue == Inserted(old(reqQueue), r, i)
      ensures r !in old(order) ==> reqQueue == old(reqQueue) + [r]
      ensures loopChn == old(loopChn) + if old(loopNextSent) then 0 else 1
      ensures loopChn < LOOP_CHAN_SIZE
    {
      var q, o, last := Enqueue(reqQueue, order, lastReqOrder, r);
      reqQueue, order, lastReqOrder := q, o, last;
      if !loopNextSent {
        loopNextSent := true;
        loopChn := loopChn + 1;
      }
    }

    /** Takes a request out of the queue, if it is still there. */
    method Cancel(r: Req) returns (ok: bool)
      requires Valid()
      modifies this`reqQueue
      ensures Valid() && (ok <==> r in old(reqQueue)) && reqQueue == (if ok then Without(old(reqQueue), r) else old(reqQueue))
      ensures forall x :: x in reqQueue <==> x in old(reqQueue) && x != r
    {
      if r !in reqQueue { return false; }
      WithoutSorted(reqQueue, order, r);
      reqQueue := Without(reqQueue, r);
      ok := true;
    }

    /** A sleeping goroutine wakes and signals the loop, without blocking. */
    method Wake()
      requires Valid() && sleeping > 0
      modifies this`sleeping, this`loopChn
      ensures Valid() && loopChn <= 1 && sleeping == old(sleeping) - 1 && loopChn == old(loopChn) + 1
    {
      sleeping, loopChn := sleeping - 1, loopChn + 1;
    }

    /** The loop takes a signal from its channel. */
    method Receive()
      requires Valid() && loopChn > 0 && !received
      modifies this`loopChn, this`received
      ensures Valid() && received && loopChn == old(loopChn) - 1
    {
      loopChn, received := loopChn - 1, true;
    }

    /** The loop's locked region: sends requests until there is none left or the next one has to
        wait. `suits` gives, for each round, which peer can be sent which request, and `waits` after how
        long; `nap` is for how long the loop then sleeps. */
    method Process(suits: nat -> Suits, waits: nat -> Waits) returns (sent: seq<(Peer, Req)>, nap: nat)
      requires Valid() && received
      modifies this`reqQueue, this`loopNextSent, this`sleeping, this`received
      ensures Valid() && !received
      ensures loopNextSent <==> reqQueue != []
      ensures sleeping == old(sleeping) + if loopNextSent then 1 else 0
      ensures forall x :: x in reqQueue ==> x in old(reqQueue)
      ensures forall k :: 0 <= k < |sent| ==> sent[k].1 in old(reqQueue) && sent[k].1 !in reqQueue
      ensures forall j, k :: 0 <= j < k < |sent| ==> sent[j].1 != sent[k].1
      ensures forall k :: 0 <= k < |sent| ==> sent[k].0 in peers && suits(k)(sent[k].0, sent[k].1)
      ensures forall k, x :: 0 <= k < |sent| && x in reqQueue && suits(k)(sent[k].0, x) ==> order[sent[k].1] < order[x]
      ensures forall j, k :: 0 <= j < k < |sent| && suits(j)(sent[j].0, sent[k].1) ==> order[sent[j].1] < order[sent[k].1]
      ensures Accounted(old(reqQueue), reqQueue, sent, peers, suits, |sent| + 1)
      ensures reqQueue != [] ==> !NobodyTakes(peers, suits(|sent|), reqQueue[0])
      ensures forall k :: 0 <= k < |sent| ==> waits(k)(sent[k].0, sent[k].1) == 0
      ensures forall p, r :: p in peers && FirstFor(reqQueue, suits(|sent|), p, r) ==> 0 < nap <= waits(|sent|)(p, r)
      ensures reqQueue == [] ==> nap == 0
      ensures reqQueue != [] ==> 0 < nap <= 50
      ensures reqQueue != [] ==> exists p, r :: p in peers && FirstFor(reqQueue, suits(|sent|), p, r) && (nap == waits(|sent|)(p, r) || nap == 50)
    {
      var queue, wait;
      queue, sent, wait := SendAll(reqQueue, peers, suits, waits, order);
      nap := Nap(queue, peers, suits(|sent|), waits(|sent|), wait);
      Rest(queue, wait > 0);
    }

    /** The loop goes back to waiting for a signal, having arranged for one if `again`. */
    method Rest(queue: seq<Req>, again: bool)
      modifies this`reqQueue, this`loopNextSent, this`sleeping, this`received
      ensures reqQueue == queue && !received && loopNextSent == again && sleeping == old(sleeping) + if again then 1 else 0
    {
      reqQueue, received, loopNextSent := queue, false, again;
      if again { sleeping := sleeping + 1; }
    }
  }

  /** What was sent: each request once, out of the queue, to a peer that could be sent it, and never
      while an earlier request that this peer could be sent was queued. */
  ghost predicate Dispatched(sent: seq<(Peer, Req)>, queue: seq<Req>, q: seq<Req>, peers: set<Peer>,
                             suits: nat -> Suits, waits: nat -> Waits, order: map<Req, nat>)
    requires forall x :: x in queue ==> x in order
    requires forall x :: x in q ==> x in queue
  {
    && (forall k :: 0 <= k < |sent| ==> sent[k].1 in queue && sent[k].1 !in q)
    && (forall j, k :: 0 <= j < k < |sent| ==> sent[j].1 != sent[k].1)
    && (forall k :: 0 <= k < |sent| ==> sent[k].0 in peers && suits(k)(sent[k].0, sent[k].1) && waits(k)(sent[k].0, sent[k].1) == 0)
    && (forall k, x :: 0 <= k < |sent| && x in q && suits(k)(sent[k].0, x) ==> order[sent[k].1] < order[x])
    && (forall j, k :: 0 <= j < k < |sent| && suits(j)(sent[j].0, sent[k].1) ==> order[sent[j].1] < order[sent[k].1])
  }

  lemma DispatchOne(sent: seq<(Peer, Req)>, queue: seq<Req>, q: seq<Req>, rest: seq<Req>, peers: set<Peer>,
                    suits: nat -> Suits, waits: nat -> Waits, order: map<Req, nat>, p: Peer, r: Req)
    requires forall x :: x in queue ==> x in order
    requires forall x :: x in q ==> x in queue
    requires forall x :: x in rest ==> x in q
    requires Dispatched(sent, queue, q, peers, suits, waits, order)
    requires r in q && r !in rest && p in peers && suits(|sent|)(p, r) && waits(|sent|)(p, r) == 0
    requires forall x :: x in rest && suits(|sent|)(p, x) ==> order[r] < order[x]
    ensures Dispatched(sent + [(p, r)], queue, rest, peers, suits, waits, order)
  {
  }

  lemma DispatchNone(sent: seq<(Peer, Req)>, queue: seq<Req>, q: seq<Req>, rest: seq<Req>, peers: set<Peer>,
                     suits: nat -> Suits, waits: nat -> Waits, order: map<Req, nat>)
    requires forall x :: x in queue ==> x in order
    requires forall x :: x in q ==> x in queue
    requires forall x :: x in rest ==> x in q
    requires Dispatched(sent, queue, q, peers, suits, waits, order)
    ensures Dispatched(sent, queue, rest, peers, suits, waits, order)
  {
  }

  ghost predicate Served(sent: seq<(Peer, Req)>, x: Req) {
    exists k :: 0 <= k < |sent| && sent[k].1 == x
  }

  ghost predicate GivenUp(peers: set<Peer>, suits: nat -> Suits, n: nat, x: Req) {
    exists k: nat :: k < n && NobodyTakes(peers, suits(k), x)
  }

  /** Every request is still queued, or was sent, or was dropped in one of the first `n` rounds, in which
      no registered peer could be sent it. */
  ghost predicate Accounted(queue: seq<Req>, q: seq<Req>, sent: seq<(Peer, Req)>, peers: set<Peer>, suits: nat -> Suits, n: nat) {
    forall x :: x in queue ==> x in q || Served(sent, x) || GivenUp(peers, suits, n, x)
  }

  lemma AccountedNext(queue: seq<Req>, q: seq<Req>, rest: seq<Req>, sent: seq<(Peer, Req)>, sent': seq<(Peer, Req)>, peers: set<Peer>,
                      suits: nat -> Suits)
    requires Accounted(queue, q, sent, peers, suits, |sent|) && sent <= sent'
    requires forall x :: x in q ==> x in rest || Served(sent', x) || NobodyTakes(peers, suits(|sent|), x)
    ensures Accounted(queue, rest, sent', peers, suits, |sent| + 1)
  {
    assert forall k :: 0 <= k < |sent| ==> sent'[k] == sent[k];
    forall x | x in queue && x !in rest && !Served(sent', x)
      ensures GivenUp(peers, suits, |sent| + 1, x)
    {
      if x !in q {
        var k: nat :| k < |sent| && NobodyTakes(peers, suits(k), x);
      } else {
        assert NobodyTakes(peers, suits(|sent|), x);
      }
    }
  }

  /** Sends requests as long as a peer is ready for the first one that suits it; `wait` is zero if the
      queue ran empty, and the least time until a peer is ready otherwise. */
  method SendAll(queue: seq<Req>, peers: set<Peer>, suits: nat -> Suits, waits: nat -> Waits, ghost order: map<Req, nat>)
    returns (q: seq<Req>, sent: seq<(Peer, Req)>, wait: nat)
    requires Sorted(queue, order)
    ensures Sorted(q, order) && forall x :: x in q ==> x in queue
    ensures Dispatched(sent, queue, q, peers, suits, waits, order) && Accounted(queue, q, sent, peers, suits, |sent| + 1)
    ensures q != [] ==> !NobodyTakes(peers, suits(|sent|), q[0])
    ensures LeastWait(q, peers, suits(|sent|), waits(|sent|), wait) && (wait == 0 <==> q == [])
  {
    q, sent, wait := queue, [], 0;
    var more := true;
    while more
      invariant Sorted(q, order)
      invariant more ==> Sending(queue, peers, suits, waits, order)(q, sent)
      invariant !more ==> Done(queue, peers, suits, waits, order)(q, sent, wait)
      decreases more, |q|
    {
      q, sent, wait, more := SendMore(queue, q, sent, peers, suits, waits, order);
    }
  }

  /** What holds after every round. */
  ghost function Sending(queue: seq<Req>, peers: set<Peer>, suits: nat -> Suits, waits: nat -> Waits, order: map<Req, nat>): (seq<Req>, seq<(Peer, Req)>) -> bool
    requires Sorted(queue, order)
  {
    (q, sent) =>
      && (forall x :: x in q ==> x in queue)
      && Dispatched(sent, queue, q, peers, suits, waits, order)
      && Accounted(queue, q, sent, peers, suits, |sent|)
  }

  /** What holds after the last round. */
  ghost function Done(queue: seq<Req>, peers: set<Peer>, suits: nat -> Suits, waits: nat -> Waits, order: map<Req, nat>): (seq<Req>, seq<(Peer, Req)>, nat) -> bool
    requires Sorted(queue, order)
  {
    (q: seq<Req>, sent: seq<(Peer, Req)>, wait: nat) =>
      && (forall x :: x in q ==> x in queue)
      && Dispatched(sent, queue, q, peers, suits, waits, order)
      && Accounted(queue, q, sent, peers, suits, |sent| + 1)
      && (q != [] ==> !NobodyTakes(peers, suits(|sent|), q[0]))
      && LeastWait(q, peers, suits(|sent|), waits(|sent|), wait)
  }

  /** One more round; `more` unless it was the last. */
  method SendMore(ghost queue: seq<Req>, q: seq<Req>, sent: seq<(Peer, Req)>, peers: set<Peer>, suits: nat -> Suits, waits: nat -> Waits, ghost order: map<Req, nat>)
    returns (q': seq<Req>, sent': seq<(Peer, Req)>, wait: nat, more: bool)
    requires Sorted(queue, order) && Sorted(q, order) && Sending(queue, peers, suits, waits, order)(q, sent)
    ensures Sorted(q', order)
    ensures more ==> |q'| < |q| && Sending(queue, peers, suits, waits, order)(q', sent')
    ensures !more ==> Done(queue, peers, suits, waits, order)(q', sent', wait)
  {
    var peer, req;
    q', peer, req, wait := SendOne(q, peers, suits(|sent|), waits(|sent|), order);
    more := req.Some?;
    if more {
      sent' := sent + [(peer, req.value)];
      DispatchOne(sent, queue, q, q', peers, suits, waits, order, peer, req.value);
      assert sent'[|sent|].1 == req.value;
    } else {
      sent' := sent;
      DispatchNone(sent, queue, q, q', peers, suits, waits, order);
    }
    AccountedNext(queue, q, q', sent, sent', peers, suits);
  }

  lemma EarliestFor(q: seq<Req>, order: map<Req, nat>, suits: Suits, p: Peer, r: Req)
    requires Sorted(q, order) && FirstFor(q, suits, p, r)
    ensures r in order && forall x :: x in q && x != r && suits(p, x) ==> order[r] < order[x]
  {
    var i :| 0 <= i < |q| && q[i] == r && suits(p, r) && forall j :: 0 <= j < i ==> !suits(p, q[j]);
    forall x | x in q && x != r && suits(p, x)
      ensures order[r] < order[x]
    {
      var k :| 0 <= k < |q| && q[k] == x;
      assert k > i;
    }
  }

  /** No registered peer is ready for the first request of `q` that suits it before `wait`, and one is
      then, unless nothing is queued. */
  ghost predicate LeastWait(q: seq<Req>, peers: set<Peer>, suits: Suits, waits: Waits, wait: nat) {
    && (wait == 0 <==> q == [])
    && (forall p, r :: p in peers && FirstFor(q, suits, p, r) ==> wait <= waits(p, r))
    && (q != [] ==> exists p, r :: p in peers && FirstFor(q, suits, p, r) && wait == waits(p, r))
  }

  /** How long the loop sleeps: until a peer is ready, or for the longest time allowed. */
  method Nap(ghost q: seq<Req>, ghost peers: set<Peer>, ghost suits: Suits, ghost waits: Waits, wait: nat) returns (nap: nat)
    requires LeastWait(q, peers, suits, waits, wait)
    ensures forall p, r :: p in peers && FirstFor(q, suits, p, r) ==> 0 < nap <= waits(p, r)
    ensures nap == 0 <==> q == []
    ensures q != [] ==> 0 < nap <= 50 && exists p, r :: p in peers && FirstFor(q, suits, p, r) && (nap == waits(p, r) || nap == 50)
  {
    nap := if wait > DIST_MAX_WAIT then DIST_MAX_WAIT else wait;
  }

  /** One round: a request is sent and leaves the queue, or there is none to send now. */
  method SendOne(queue: seq<Req>, peers: set<Peer>, suits: Suits, waits: Waits, ghost order: map<Req, nat>)
    returns (q: seq<Req>, peer: Peer, sent: Option<Req>, wait: nat)
    requires Sorted(queue, order)
    ensures Sorted(q, order) && forall x :: x in q ==> x in queue
    ensures sent.Some? ==> |q| < |queue| && sent.value in queue && sent.value !in q && peer in peers && suits(peer, sent.value)
    ensures sent.Some? ==> forall x :: x in q && suits(peer, x) ==> order[sent.value] < order[x]
    ensures sent.Some? ==> waits(peer, sent.value) == 0
    ensures sent.None? ==> LeastWait(q, peers, suits, waits, wait) && (q != [] ==> !NobodyTakes(peers, suits, q[0]))
    ensures forall x :: x in queue ==> x in q || sent == Some(x) || NobodyTakes(peers, suits, x)
  {
    var req;
    ghost var dropped;
    q, peer, req, wait, dropped := NextRequest(queue, peers, suits, waits);
    SortedSuffix(queue, order, dropped);
    assert forall x :: x in queue && x !in q ==> NobodyTakes(peers, suits, x);
    sent := None;
    if req.Some? && wait == 0 {
      WithoutSorted(q, order, req.value);
      WithoutShorter(q, req.value);
      EarliestFor(q, order, suits, peer, req.value);
      q, sent := Without(q, req.value), req;
    }
  }

  lemma {:induction false} WithoutShorter(q: seq<Req>, r: Req)
    requires r in q
    ensures |Without(q, r)| == |q| - 1
  {
    if q[0] != r { WithoutShorter(q[1..], r); }
  }
}
