/** The transaction pool: every run of additions, removals, price changes, resets and expirations keeps
    each account's pending transactions contiguous from its nonce. */
module TxPool {
  import opened Wrappers
  import opened Transactions
  import opened PoolState
  import opened PoolSums
  import opened PoolAccounts
  import opened PoolLimits
  import opened PoolShares

  /** No more than `k` transactions are in the lists. */
  ghost predicate Holds(m: Accounts, k: nat) {
    forall n: nat :: Total(m, n) <= k
  }

  /** Only accounts below `n` have transactions. */
  ghost predicate Within(m: Accounts, n: nat) {
    forall a: Address :: Size(m, a) > 0 ==> a < n
  }

  lemma {:induction false} TotalBeyond(m: Accounts, n: nat, n0: nat)
    requires Within(m, n0) && n0 <= n
    ensures Total(m, n) == Total(m, n0)
    decreases n
  {
    if n0 < n {
      TotalBeyond(m, n - 1, n0);
      assert Size(m, n - 1) == 0;
    }
  }

  lemma {:induction false} TotalGrows(m: Accounts, n: nat, n0: nat)
    requires n <= n0
    ensures Total(m, n) <= Total(m, n0)
    decreases n0
  {
    if n < n0 { TotalGrows(m, n, n0 - 1); }
  }

  lemma {:induction false} Bound(s: set<Address>) returns (n: nat)
    ensures forall a: Address :: a in s ==> a < n
    decreases |s|
  {
    n := 0;
    if s != {} {
      var a :| a in s;
      n := Bound(s - {a});
      if a >= n { n := a + 1; }
      assert forall b: Address :: b in s ==> b == a || b in s - {a};
    }
  }

  /** The pool holds no more pending transactions than it may, but for accounts that are spared
      because one of their transactions is local. */
  ghost predicate PendingWithin(p: Pool, c: Config, local: Hash -> bool) {
    Holds(p.pending, c.globalSlots) || forall a: Address :: Size(p.pending, a) > c.accountSlots ==> HasLocal(p, local, a)
  }

  lemma HoldsAll(m: Accounts, n0: nat, k: nat)
    requires Within(m, n0) && Total(m, n0) <= k
    ensures Holds(m, k)
  {
    forall n: nat
      ensures Total(m, n) <= k
    {
      if n <= n0 {
        TotalGrows(m, n, n0);
      } else {
        TotalBeyond(m, n, n0);
      }
    }
  }

  lemma CutWithin(m: Accounts, m': Accounts, n: nat)
    requires (forall a: Address :: a in m ==> a < n) && forall a: Address :: Lower(Of(m', a), Of(m, a))
    ensures Within(m', n)
  {
    forall a: Address | a !in m
      ensures Size(m', a) == 0
    {
      assert Of(m', a).Keys == {};
    }
  }

  lemma PendingStaysWithin(p: Pool, p': Pool, n: nat)
    requires PendingCut(p, p') && forall a: Address :: a in p.pending ==> a < n
    ensures Within(p'.pending, n)
  {
    forall a: Address
      ensures Lower(Of(p'.pending, a), Of(p.pending, a))
    {
      assert PendCut(p, p', a);
    }
    CutWithin(p.pending, p'.pending, n);
  }

  lemma QueueStaysWithin(p: Pool, p': Pool, n: nat)
    requires QueuesCut(p, p') && forall a: Address :: a in p.queue ==> a < n
    ensures Within(p'.queue, n)
  {
    forall a: Address
      ensures Lower(Of(p'.queue, a), Of(p.queue, a))
    {
      assert QueueCut(p, p', a);
    }
    CutWithin(p.queue, p'.queue, n);
  }

  lemma SameQueues(p: Pool, p': Pool, accounts: set<Address>, n: nat)
    requires PendingCut(p, p')
    ensures SumIn(p'.queue, accounts, n) == SumIn(p.queue, accounts, n) <= Total(p'.queue, n)
    ensures p.queue.Keys <= accounts ==> SumIn(p.queue, accounts, n) == Total(p'.queue, n)
  {
    forall a: Address
      ensures Size(p'.queue, a) == Size(p.queue, a)
    {
      assert PendCut(p, p', a);
    }
    SumSame(p.queue, p'.queue, accounts, n);
    SumAtMost(p'.queue, accounts, n);
  }

  /** Cutting queues leaves the pending transactions within their limit. */
  lemma QueuesCutWithin(p: Pool, p': Pool, c: Config, local: Hash -> bool)
    requires QueuesCut(p, p') && PendingWithin(p, c, local)
    ensures PendingWithin(p', c, local)
  {
    forall a: Address
      ensures Size(p'.pending, a) == Size(p.pending, a) && Pend(p', a) == Pend(p, a)
    {
      assert QueueCut(p, p', a);
    }
    if Holds(p.pending, c.globalSlots) {
      forall n: nat
        ensures Total(p'.pending, n) <= c.globalSlots
      {
        TotalChange(p.pending, p'.pending, 0, n);
      }
    } else {
      forall a: Address | Size(p'.pending, a) > c.accountSlots
        ensures HasLocal(p', local, a)
      {
        assert HasLocal(p, local, a) && Pend(p', a) == Pend(p, a);
      }
    }
  }

  /** A pool within the limit of pending transactions stays as it is. In any other, the accounts above
      their share, but for local ones, are down to one level. */
  ghost predicate Shared(p: Pool, p': Pool, c: Config, local: Hash -> bool) {
    if Holds(p.pending, c.globalSlots) then p' == p
    else exists s: set<Address>, level: nat :: Leveled(p, p', s, level) && level >= c.accountSlots && Spamming(p, c.accountSlots, local, s, {})
  }

  /** Brings pending transactions back within their limit. */
  method LimitPending(p: Pool, c: Config, local: Hash -> bool, ghost n: nat) returns (p': Pool)
    requires Inv(p) && forall a: Address :: a in p.pending ==> a < n
    ensures Inv(p') && PendingCut(p, p') && PendingWithin(p', c, local) && Shared(p, p', c, local)
  {
    ghost var s, level;
    p', s, level := Equalize(p, c, local, n);
    if Total(p'.pending, n) <= c.globalSlots {
      PendingStaysWithin(p, p', n);
      HoldsAll(p'.pending, n, c.globalSlots);
    }
    if Total(p.pending, n) <= c.globalSlots {
      assert forall a: Address :: PendCut(p, p, a);
      PendingStaysWithin(p, p, n);
      HoldsAll(p.pending, n, c.globalSlots);
    }
  }

  /** Brings queued transactions back within their limit, if `queued` counts all of them. */
  method LimitQueue(p: Pool, c: Config, queued: nat, ghost n: nat) returns (p': Pool, ghost last: Address)
    requires Inv(p) && queued <= Total(p.queue, n) && forall a: Address :: a in p.queue ==> a < n
    ensures Inv(p') && QueuesCut(p, p') && (queued <= c.globalQueue ==> p' == p) && WholeBut(p, p', last)
    ensures Total(p'.queue, n) == Total(p.queue, n) - (if queued > c.globalQueue then queued - c.globalQueue else 0)
    ensures queued == Total(p.queue, n) ==> Holds(p'.queue, c.globalQueue)
  {
    p', last := p, 0;
    if queued > c.globalQueue {
      p', last := DropOverflow(p, c, queued, n);
    }
    if queued == Total(p.queue, n) {
      QueueStaysWithin(p, p', n);
      HoldsAll(p'.queue, n, c.globalQueue);
    }
  }

  /** The queues of `accounts` were promoted, then pending transactions were shared out, then queues lost
      their highest nonces, if there were too many. */
  ghost predicate Settled(p: Pool, p': Pool, st: State, c: Config, accounts: set<Address>, local: Hash -> bool) {
    exists p1: Pool, p2: Pool :: PromotedOnly(p, p1, st, c, accounts) && Shared(p1, p2, c, local) && Relieved(p2, p', c, accounts)
  }

  /** Of the transactions queued in `accounts`, so many as are above the limit were dropped from queues:
      whole queues, but for one. */
  ghost predicate Relieved(p: Pool, p': Pool, c: Config, accounts: set<Address>) {
    exists n: nat, last: Address :: RelievedOf(p, p', c, accounts, n, last)
  }

  ghost predicate RelievedOf(p: Pool, p': Pool, c: Config, accounts: set<Address>, n: nat, last: Address) {
    && Within(p.queue, n) && (forall a: Address :: a in accounts ==> a < n) && QueuesCut(p, p') && WholeBut(p, p', last)
    && var queued := SumIn(p.queue, accounts, n);
       if queued <= c.globalQueue then p' == p else Total(p'.queue, n) == Total(p.queue, n) - (queued - c.globalQueue)
  }

  /** Promotes what has become executable, then brings the pool back within its limits. */
  method PromoteExecutables(p: Pool, st: State, c: Config, accounts: set<Address>, local: Hash -> bool) returns (p': Pool)
    requires Promoting(p, st, accounts)
    ensures Inv(p') && p'.base == p.base && PendingWithin(p', c, local) && Settled(p, p', st, c, accounts, local)
    ensures p.queue.Keys <= accounts ==> Holds(p'.queue, c.globalQueue)
  {
    ghost var n := Bound(p.pending.Keys + p.queue.Keys + accounts);
    var p1, queued := PromoteQueues(p, st, c, accounts, n);
    var p2 := LimitPending(p1, c, local, n);
    SameQueues(p1, p2, accounts, n);
    ghost var last;
    p', last := LimitQueue(p2, c, queued, n);
    QueuesCutWithin(p2, p', c, local);
    assert Within(p2.queue, n);
    assert RelievedOf(p2, p', c, accounts, n, last);
    assert PromotedOnly(p, p1, st, c, accounts) && Shared(p1, p2, c, local) && Relieved(p2, p', c, accounts);
  }

  // Adding

  datatype Rejection = Known | Invalid | Underpriced | ReplaceUnderpriced | NoState

  datatype Verdict = Added(replaced: bool) | Rejected(why: Rejection)

  /** The checks on a transaction against the chain. `sound` stands for those that need only the
      transaction itself: its signature, value, intrinsic gas and size. */
  predicate ValidateTx(tx: Tx, st: State, gasPrice: nat, local: Hash -> bool, sound: bool) {
    && (local(tx.hash) || gasPrice <= tx.price)
    && sound
    && st.Nonce(tx.from) <= tx.nonce
    && tx.gas <= st.gasLimit
    && tx.cost <= st.Balance(tx.from)
  }

  /** The transaction is in the index and in one of its account's lists. */
  ghost predicate Pooled(p: Pool, tx: Tx) {
    && tx.hash in p.all && p.all[tx.hash] == tx
    && (InList(Pend(p, tx.from), tx) || InList(Que(p, tx.from), tx))
  }

  ghost predicate InList(m: Items, tx: Tx) {
    tx.nonce in m && m[tx.nonce] == tx
  }

  /** One pool after the other, each without one more transaction. */
  ghost predicate RemoveRun(p: Pool, run: seq<Pool>, hashes: seq<Hash>) {
    |run| == |hashes| + 1 && run[0] == p && forall i :: 0 <= i < |hashes| ==> RemoveStep(run[i], run[i + 1], hashes[i])
  }

  /** `p'` is `p` after the transactions were removed in this order. */
  ghost predicate Removed(p: Pool, p': Pool, hashes: seq<Hash>) {
    && p'.base == p.base && p'.all == p.all - Named(hashes)
    && exists run: seq<Pool> :: RemoveRun(p, run, hashes) && run[|hashes|] == p'
  }

  method RemoveAll(p: Pool, hashes: seq<Hash>, priceBump: nat) returns (p': Pool)
    requires Inv(p)
    ensures Inv(p') && Removed(p, p', hashes)
  {
    p' := p;
    assert p.all - Named(hashes[..0]) == p.all;
    ghost var run := [p];
    for i := 0 to |hashes|
      invariant Inv(p') && p'.base == p.base && p'.all == p.all - Named(hashes[..i])
      invariant RemoveRun(p, run, hashes[..i]) && run[i] == p'
    {
      NamedNext(p.all, hashes, i);
      ghost var before := p';
      p' := RemoveTx(p', hashes[i], priceBump);
      RemoveRunNext(p, run, p', hashes, i);
      run := run + [p'];
    }
    assert hashes[..|hashes|] == hashes;
  }

  lemma RemoveRunNext(p: Pool, run: seq<Pool>, p': Pool, hashes: seq<Hash>, i: nat)
    requires i < |hashes| && RemoveRun(p, run, hashes[..i]) && RemoveStep(run[i], p', hashes[i])
    ensures RemoveRun(p, run + [p'], hashes[..i + 1])
  {
    var more, hs := run + [p'], hashes[..i + 1];
    forall k | 0 <= k < |hs|
      ensures RemoveStep(more[k], more[k + 1], hs[k])
    {
      if k < i {
        assert RemoveStep(run[k], run[k + 1], hashes[..i][k]);
        assert more[k] == run[k] && more[k + 1] == run[k + 1] && hs[k] == hashes[..i][k];
      } else {
        assert more[k] == run[i] && more[k + 1] == p' && hs[k] == hashes[i];
      }
    }
  }

  /** An account of which no transaction is removed stays as it is. */
  lemma {:induction false} UnnamedStays(p: Pool, run: seq<Pool>, hashes: seq<Hash>, i: nat, a: Address)
    requires RemoveRun(p, run, hashes) && i <= |hashes|
    requires forall k :: 0 <= k < |hashes| && hashes[k] in p.all ==> p.all[hashes[k]].from != a
    ensures View(run[i], a) == View(p, a) && (forall h: Hash :: h in run[i].all ==> h in p.all && run[i].all[h] == p.all[h])
  {
    if i > 0 {
      UnnamedStays(p, run, hashes, i - 1, a);
      assert RemoveStep(run[i - 1], run[i], hashes[i - 1]);
    }
  }

  /** Removing transactions leaves the lists of every other account alone. */
  lemma RemovedOthers(p: Pool, p': Pool, hashes: seq<Hash>, a: Address)
    requires Removed(p, p', hashes) && forall k :: 0 <= k < |hashes| && hashes[k] in p.all ==> p.all[hashes[k]].from != a
    ensures View(p', a) == View(p, a)
  {
    var run: seq<Pool> :| RemoveRun(p, run, hashes) && run[|hashes|] == p';
    UnnamedStays(p, run, hashes, |hashes|, a);
  }

  function Named(hashes: seq<Hash>): (s: set<Hash>) {
    set h | h in hashes
  }

  lemma NamedNext(all: All, hashes: seq<Hash>, i: nat)
    requires i < |hashes|
    ensures all - Named(hashes[..i + 1]) == all - Named(hashes[..i]) - {hashes[i]}
  {
    assert hashes[..i + 1] == hashes[..i] + [hashes[i]];
    assert Named(hashes[..i + 1]) == Named(hashes[..i]) + {hashes[i]};
  }

  /** The list a transaction goes to: the pending one, if its nonce is there, or else the queue. */
  function ListFor(p: Pool, tx: Tx): (m: Items) {
    if tx.nonce in Pend(p, tx.from) then Pend(p, tx.from) else Que(p, tx.from)
  }

  /** The transaction took its place in one list of its account, and whatever was there before is gone. */
  ghost predicate InsertedInto(p: Pool, p': Pool, tx: Tx, priceBump: nat) {
    var a, m := tx.from, ListFor(p, tx);
    && Accepts(m, tx, priceBump) && Touches(p, p', a) && p'.all == Replacing(p.all, m, tx) && Pooled(p', tx)
    && View(p', a) == (if tx.nonce in Pend(p, a) then View(p, a).(pend := m[tx.nonce := tx]) else View(p, a).(que := m[tx.nonce := tx]))
  }

  /** Puts a valid transaction into its account: over a pending one of the same nonce, or else into the
      queue. A transaction that it replaces has a lower price. */
  method Insert(p: Pool, tx: Tx, priceBump: nat) returns (p': Pool, v: Verdict)
    requires Inv(p) && tx.hash !in p.all && Base(p, tx.from) <= tx.nonce
    ensures Inv(p') && p'.base == p.base
    ensures if Accepts(ListFor(p, tx), tx, priceBump)
            then v == Added(tx.nonce in ListFor(p, tx)) && InsertedInto(p, p', tx, priceBump)
            else v == Rejected(ReplaceUnderpriced) && p' == p
    ensures v == Added(true) ==> ListFor(p, tx)[tx.nonce].price < tx.price
    ensures var m := if tx.nonce in Pend(p, tx.from) then Pend(p, tx.from) else Que(p, tx.from);
            v.Added? <==> tx.nonce !in m || m[tx.nonce].price * (100 + priceBump) < 100 * tx.price
  {
    var a := tx.from;
    AcceptsExactly(ListFor(p, tx), tx, priceBump);
    assert AccountOk(p, a);
    var all, acc;
    all, acc, v := Place(p.all, View(p, a), tx, Base(p, a), priceBump);
    if v.Rejected? { return p, v; }
    StoreKeepsInv(p, a, acc, all);
    p' := Store(p, a, acc, all);
    assert View(p', a) == acc;
  }

  /** Puts a transaction into one list of its account. */
  method Place(all: All, acc: Account, tx: Tx, ghost lo: nat, priceBump: nat) returns (all': All, acc': Account, v: Verdict)
    requires Keyed(all) && Ok(all, tx.from, acc, lo) && tx.hash !in all && lo <= tx.nonce
    ensures Keyed(all') && Ok(all', tx.from, acc', lo) && KeepsOthers(all, all', tx.from)
    ensures var m := if tx.nonce in acc.pend then acc.pend else acc.que;
            && (v == Added(true) ==> tx.nonce in m && m[tx.nonce].price < tx.price)
            && if Accepts(m, tx, priceBump)
               then v == Added(tx.nonce in m) && all' == Replacing(all, m, tx) &&
                    acc' == if tx.nonce in acc.pend then acc.(pend := m[tx.nonce := tx]) else acc.(que := m[tx.nonce := tx])
               else v == Rejected(ReplaceUnderpriced) && all' == all && acc' == acc
  {
    all', acc', v := all, acc, Rejected(ReplaceUnderpriced);
    if tx.nonce in acc.pend {
      if !Accepts(acc.pend, tx, priceBump) { return; }
      ThresholdIsHigher(acc.pend[tx.nonce].price, priceBump);
      EnqueueListed(all, tx.from, acc.que, acc.pend, tx);
      all', acc', v := Replacing(all, acc.pend, tx), acc.(pend := acc.pend[tx.nonce := tx]), Added(true);
    } else {
      var inserted, que;
      EnqueueListed(all, tx.from, acc.pend, acc.que, tx);
      all', que, inserted := EnqueueTx(all, acc.que, tx, priceBump);
      if !inserted { return; }
      if tx.nonce in acc.que { ThresholdIsHigher(acc.que[tx.nonce].price, priceBump); }
      acc', v := acc.(que := que), Added(tx.nonce in acc.que);
    }
  }

  /** A transaction on its way into the pool, with what the pool will know when its turn comes. */
  datatype Candidate = Candidate(tx: Tx, st: Option<State>, sound: bool, underpriced: bool, drops: seq<Hash>)

  ghost predicate Full(p: Pool, c: Config) {
    |p.all| >= c.globalSlots + c.globalQueue
  }

  /** Nothing speaks against the transaction but what may be in its place. */
  ghost predicate Admitted(p: Pool, c: Config, t: Candidate, gasPrice: nat, local: Hash -> bool) {
    && t.tx.hash !in p.all && t.st.Some? && ValidateTx(t.tx, t.st.value, gasPrice, local, t.sound)
    && !(Full(p, c) && t.underpriced)
  }

  /** A full pool without the transactions that make room; any other stays as it is. */
  ghost predicate RoomMade(p: Pool, r: Pool, c: Config, drops: seq<Hash>) {
    if Full(p, c) then Removed(p, r, drops) else r == p
  }

  /** What adding a transaction makes of the pool. One that is not admitted changes nothing; one that
      is, takes its place once there is room, unless it is too cheap to replace what is there. */
  ghost predicate AddStep(p: Pool, p': Pool, c: Config, t: Candidate, gasPrice: nat, local: Hash -> bool, v: Verdict) {
    if !Admitted(p, c, t, gasPrice, local) then p' == p && v.Rejected? && v.why != ReplaceUnderpriced
    else exists r: Pool ::
      && RoomMade(p, r, c, t.drops)
      && if Accepts(ListFor(r, t.tx), t.tx, c.priceBump)
         then v == Added(t.tx.nonce in ListFor(r, t.tx)) && InsertedInto(r, p', t.tx, c.priceBump)
         else v == Rejected(ReplaceUnderpriced) && p' == r
  }

  /** Adds a transaction to the pool. If the pool is full, it is refused as underpriced, or the
      transactions that the price index names make room for it. */
  method AddTx(p: Pool, c: Config, t: Candidate, gasPrice: nat, local: Hash -> bool) returns (p': Pool, v: Verdict)
    requires Inv(p) && (t.st.Some? ==> Forward(p, t.st.value))
    ensures Inv(p') && p'.base == p.base && AddStep(p, p', c, t, gasPrice, local, v)
    ensures v == Rejected(Known) <==> t.tx.hash in p.all
    ensures v.Added? || v == Rejected(ReplaceUnderpriced) <==>
            && t.tx.hash !in p.all && t.st.Some? && t.sound && (local(t.tx.hash) || gasPrice <= t.tx.price)
            && (if t.tx.from in t.st.value.nonces then t.st.value.nonces[t.tx.from] else 0) <= t.tx.nonce
            && t.tx.gas <= t.st.value.gasLimit
            && t.tx.cost <= (if t.tx.from in t.st.value.balances then t.st.value.balances[t.tx.from] else 0)
            && !(|p.all| >= c.globalSlots + c.globalQueue && t.underpriced)
  {
    if t.tx.hash in p.all { return p, Rejected(Known); }
    if t.st.None? { return p, Rejected(NoState); }
    if !ValidateTx(t.tx, t.st.value, gasPrice, local, t.sound) { return p, Rejected(Invalid); }
    var r := p;
    if |p.all| >= c.globalSlots + c.globalQueue {
      if t.underpriced { return p, Rejected(Underpriced); }
      r := RemoveAll(p, t.drops, c.priceBump);
    }
    assert RoomMade(p, r, c, t.drops);
    assert Base(r, t.tx.from) == Base(p, t.tx.from) <= t.st.value.Nonce(t.tx.from);
    p', v := Insert(r, t.tx, c.priceBump);
  }

  // Resetting

  /** Takes over a new state of the chain: what was executed or cannot be paid for leaves the pool, what
      it leaves behind goes back to the queue, and what has become executable is promoted. */
  method Reset(p: Pool, st: State, c: Config, local: Hash -> bool) returns (p': Pool)
    requires Inv(p) && Forward(p, st)
    ensures Inv(p') && p'.base == st.nonces && ResetTo(p, p', st, c, local)
    ensures PendingWithin(p', c, local) && Holds(p'.queue, c.globalQueue)
  {
    var p1 := DemoteUnexecutables(p, st, c.priceBump);
    ReadyToPromote(p, p1, st);
    p' := PromoteExecutables(p1, st, c, p1.queue.Keys, local);
  }

  /** Pending transactions were demoted, then all queues promoted. */
  ghost predicate ResetTo(p: Pool, p': Pool, st: State, c: Config, local: Hash -> bool) {
    exists p1: Pool :: Demoting(p, p1, st, {}) && Settled(p1, p', st, c, p1.queue.Keys, local)
  }

  lemma ReadyToPromote(p: Pool, p1: Pool, st: State)
    requires Demoting(p, p1, st, {})
    ensures Promoting(p1, st, p1.queue.Keys)
  {
    forall a: Address
      ensures AlmostOk(p1.all, a, View(p1, a), Base(p1, a), st.Nonce(a))
      ensures a !in p1.queue ==> AccountOk(p1, a)
    {
      assert a !in {};
    }
  }

  /** The pending nonce is as far ahead of the account's nonce as there are pending transactions, and no
      nonce is both pending and queued. */
  lemma PendingNonce(p: Pool, a: Address)
    requires Inv(p)
    ensures Pn(p, a) == Base(p, a) + Size(p.pending, a)
    ensures Pend(p, a).Keys !! Que(p, a).Keys
  {
    assert AccountOk(p, a);
    SpansSize(Pend(p, a), Base(p, a), Pn(p, a));
  }

  /** What an insertion does to the index: the new transaction is there and the one it replaced is not,
      nothing else changes. */
  lemma InsertedIndex(p: Pool, p': Pool, tx: Tx, priceBump: nat)
    requires Inv(p) && tx.hash !in p.all && InsertedInto(p, p', tx, priceBump)
    ensures var m := if tx.nonce in Pend(p, tx.from) then Pend(p, tx.from) else Que(p, tx.from);
            p'.all.Keys == p.all.Keys - (if tx.nonce in m then {m[tx.nonce].hash} else {}) + {tx.hash}
  {
  }

  /** What promotion leaves: whatever is queued or newly pending is from the queue, not too old and
      payable; and whatever is gone is too old or not payable, or the queue is full. */
  lemma PromotedMeans(acc: Account, acc': Account, s: nat, balance: int, gasLimit: nat, accountQueue: nat, n: nat)
    requires PromotedTo(acc, acc', s, balance, gasLimit, accountQueue)
    ensures n in acc'.que || (n in acc'.pend && n !in acc.pend) ==>
              n in acc.que && n >= s && acc.que[n].cost <= balance && acc.que[n].gas <= gasLimit
    ensures n in acc.que && n !in acc'.que && n !in acc'.pend ==>
              n < s || acc.que[n].cost > balance || acc.que[n].gas > gasLimit || |acc'.que| == accountQueue
  {
    var q := Kept(From(acc.que, s), AboveLimits(balance, gasLimit));
    var rest := From(q, acc'.pn);
    assert n in q <==> n in acc.que && n >= s && !(acc.que[n].cost > balance || acc.que[n].gas > gasLimit);
    if |acc'.que| != accountQueue { LowerSameSize(acc'.que, rest); }
  }

  /** What demotion leaves: whatever is still pending is not too old and payable; and whatever is not was too
      old, or something up to it is not payable. */
  lemma DemotedMeans(acc: Account, acc': Account, st: State, a: Address, n: nat)
    requires DemotedTo(acc, acc', st, a)
    ensures var s, balance := (if a in st.nonces then st.nonces[a] else 0), (if a in st.balances then st.balances[a] else 0);
            && (n in acc'.pend ==> n in acc.pend && n >= s && acc.pend[n].cost <= balance && acc.pend[n].gas <= st.gasLimit)
            && (n in acc.pend && n !in acc'.pend ==>
                  n < s || exists k: nat :: s <= k <= n && k in acc.pend && (acc.pend[k].cost > balance || acc.pend[k].gas > st.gasLimit))
            && (n in acc'.que && n !in acc.que ==> n in acc.pend && n >= s && acc.pend[n].cost <= balance && acc.pend[n].gas <= st.gasLimit)
  {
    var s, balance := (if a in st.nonces then st.nonces[a] else 0), (if a in st.balances then st.balances[a] else 0);
    var live, drop := From(acc.pend, s), AboveLimits(balance, st.gasLimit);
    assert n in live <==> n in acc.pend && n >= s;
    if n in live && n !in acc'.pend {
      var k: nat :| k in live && drop(live[k]) && k <= n;
      assert k in acc.pend && s <= k;
    }
  }

  lemma AlwaysReady(p: Pool, st: State, accounts: set<Address>)
    requires Inv(p)
    ensures Promoting(p, st, accounts)
  {
    forall a: Address
      ensures AlmostOk(p.all, a, View(p, a), Base(p, a), st.Nonce(a)) && AccountOk(p, a)
    {
      assert AccountOk(p, a);
    }
  }

  /** If account nonces may go back, what is left of a pending list after a reset starts at the
      account's nonce if and only if that nonce did not go back or nothing is left. */
  lemma StartsAtNonce(m: Items, lo: nat, hi: nat, s: nat, drop: Tx -> bool)
    requires lo <= hi && Spans(m, lo, hi)
    ensures (exists mid: nat :: s <= mid && Spans(StrictKept(From(m, s), drop), s, mid)) <==> s >= lo || lo == hi || drop(m[lo])
  {
    var r := StrictKept(From(m, s), drop);
    if s >= lo {
      var mid := KeptSpans(m, drop, lo, hi, s);
    } else {
      assert From(m, s) == m;
      var mid := StrictKeptSpans(m, drop, lo, hi);
      if lo == hi || drop(m[lo]) {
        assert mid == lo;
        assert Spans(r, s, s);
      } else {
        assert lo in r && s !in r;
      }
    }
  }

  /** A reorganization takes the account's nonce from 5 back to 4: the transaction with nonce 5 stays
      pending although 4 is missing. */
  lemma NonceWentBack(tx: Tx)
    ensures var m: Items := map[5 := tx];
            Spans(m, 5, 6) && StrictKept(From(m, 4), (t: Tx) => false) == m && 4 !in m
  {
  }

  // The pool

  class TxPool {
    var pool: Pool
    var gasPrice: nat
    const config: Config

    ghost predicate Valid()
      reads this
    {
      Inv(pool)
    }

    constructor (config: Config, gasPrice: nat, st: State)
      ensures Valid() && pool.base == st.nonces && pool.all == map[]
    {
      this.config, this.gasPrice := config, gasPrice;
      pool := Pool(map[], map[], map[], map[], st.nonces);
    }

    /** Adds a transaction, and promotes what it makes executable. */
    method Add(t: Candidate, st': Option<State>, local: Hash -> bool) returns (v: Verdict, ghost p: Pool)
      requires Valid() && (t.st.Some? ==> Forward(pool, t.st.value))
      modifies this`pool
      ensures Valid() && pool.base == old(pool.base) && AddStep(old(pool), p, config, t, gasPrice, local, v)
      ensures if v == Added(false) && st'.Some?
              then Settled(p, pool, st'.value, config, {t.tx.from}, local) && PendingWithin(pool, config, local)
              else pool == p
    {
      var p1;
      p1, v := AddTx(pool, config, t, gasPrice, local);
      p := p1;
      if v.Added? && !v.replaced && st'.Some? {
        AlwaysReady(p1, st'.value, {t.tx.from});
        p1 := PromoteExecutables(p1, st'.value, config, {t.tx.from}, local);
      }
      pool := p1;
    }

    /** Adds transactions one by one, and promotes what they make executable together. */
    method AddBatch(txs: seq<Candidate>, st': Option<State>, local: Hash -> bool) returns (ghost run: seq<Pool>, ghost vs: seq<Verdict>)
      requires Valid() && forall i :: 0 <= i < |txs| && txs[i].st.Some? ==> Forward(pool, txs[i].st.value)
      modifies this`pool
      ensures Valid() && pool.base == old(pool.base) && AddRun(old(pool), run, config, txs, gasPrice, local, vs)
      ensures if st'.Some? && Dirty(txs, vs) != {}
              then Settled(run[|txs|], pool, st'.value, config, Dirty(txs, vs), local) && PendingWithin(pool, config, local)
              else pool == run[|txs|]
    {
      var p, dirty;
      p, dirty, run, vs := AddAll(pool, config, txs, gasPrice, local);
      if dirty != {} && st'.Some? {
        AlwaysReady(p, st'.value, dirty);
        p := PromoteExecutables(p, st'.value, config, dirty, local);
      }
      pool := p;
    }

    method RemoveBatch(hashes: seq<Hash>)
      requires Valid()
      modifies this`pool
      ensures Valid() && Removed(old(pool), pool, hashes)
    {
      pool := RemoveAll(pool, hashes, config.priceBump);
    }

    /** Sets the lowest price for remote transactions, and drops those that the price index names. */
    method SetGasPrice(price: nat, drops: seq<Hash>)
      requires Valid()
      modifies this
      ensures Valid() && Removed(old(pool), pool, drops) && gasPrice == price
    {
      gasPrice := price;
      pool := RemoveAll(pool, drops, config.priceBump);
    }

    /** The head of the chain moved. If its state is not available, nothing happens. */
    method ResetState(st: Option<State>, local: Hash -> bool)
      requires Valid() && (st.Some? ==> Forward(pool, st.value))
      modifies this`pool
      ensures Valid() && pool.base == if st.Some? then st.value.nonces else old(pool.base)
      ensures if st.None? then pool == old(pool) else ResetTo(old(pool), pool, st.value, config, local)
      ensures st.Some? ==> PendingWithin(pool, config, local) && Holds(pool.queue, config.globalQueue)
    {
      if st.Some? {
        pool := Reset(pool, st.value, config, local);
      }
    }

    /** Drops the queues of the accounts that were idle for too long. */
    method Expire(idle: set<Address>)
      requires Valid()
      modifies this`pool
      ensures Valid() && Expired(old(pool), pool, idle)
    {
      pool := DropQueues(pool, idle, config.priceBump);
    }
  }

  /** One pool after the other, each after one more transaction. */
  ghost predicate AddRun(p: Pool, run: seq<Pool>, c: Config, txs: seq<Candidate>, gasPrice: nat, local: Hash -> bool, vs: seq<Verdict>) {
    && |vs| == |txs| && |run| == |txs| + 1 && run[0] == p
    && forall i: nat {:trigger AddedAt(run, c, txs, gasPrice, local, vs, i)} :: i < |txs| ==> AddedAt(run, c, txs, gasPrice, local, vs, i)
  }

  ghost predicate AddedAt(run: seq<Pool>, c: Config, txs: seq<Candidate>, gasPrice: nat, local: Hash -> bool, vs: seq<Verdict>, i: nat)
    requires i < |txs| == |vs| && |run| == |txs| + 1
  {
    AddStep(run[i], run[i + 1], c, txs[i], gasPrice, local, vs[i])
  }

  /** The senders of transactions that replaced no other. */
  ghost function Dirty(txs: seq<Candidate>, vs: seq<Verdict>): (s: set<Address>)
    requires |txs| == |vs|
  {
    set i | 0 <= i < |txs| && vs[i] == Added(false) :: txs[i].tx.from
  }

  method AddAll(p: Pool, c: Config, txs: seq<Candidate>, gasPrice: nat, local: Hash -> bool)
    returns (p': Pool, dirty: set<Address>, ghost run: seq<Pool>, ghost vs: seq<Verdict>)
    requires Inv(p) && forall i :: 0 <= i < |txs| && txs[i].st.Some? ==> Forward(p, txs[i].st.value)
    ensures Inv(p') && p'.base == p.base
    ensures AddRun(p, run, c, txs, gasPrice, local, vs) && p' == run[|txs|] && dirty == Dirty(txs, vs)
  {
    p', dirty, run, vs := p, {}, [p], [];
    for i := 0 to |txs|
      invariant Inv(p') && p'.base == p.base && AddedRun(p, p', c, txs[..i], gasPrice, local, dirty, run, vs)
    {
      if txs[i].st.Some? { SameBase(p, p', txs[i].st.value); }
      p', dirty, run, vs := AddNext(p, p', c, txs, i, gasPrice, local, dirty, run, vs);
    }
    assert txs[..|txs|] == txs;
  }

  /** Where a batch is after `txs`. */
  ghost predicate AddedRun(p: Pool, p': Pool, c: Config, txs: seq<Candidate>, gasPrice: nat, local: Hash -> bool, dirty: set<Address>,
                           run: seq<Pool>, vs: seq<Verdict>) {
    AddRun(p, run, c, txs, gasPrice, local, vs) && p' == run[|txs|] && dirty == Dirty(txs, vs)
  }

  method AddNext(ghost p: Pool, p1: Pool, c: Config, txs: seq<Candidate>, i: nat, gasPrice: nat, local: Hash -> bool, dirty: set<Address>,
                 ghost run: seq<Pool>, ghost vs: seq<Verdict>)
    returns (p': Pool, dirty': set<Address>, ghost run': seq<Pool>, ghost vs': seq<Verdict>)
    requires i < |txs| && Inv(p1) && (txs[i].st.Some? ==> Forward(p1, txs[i].st.value))
    requires AddedRun(p, p1, c, txs[..i], gasPrice, local, dirty, run, vs)
    ensures Inv(p') && p'.base == p1.base && AddedRun(p, p', c, txs[..i + 1], gasPrice, local, dirty', run', vs')
  {
    var v;
    p', v := AddTx(p1, c, txs[i], gasPrice, local);
    dirty' := if v.Added? && !v.replaced then dirty + {txs[i].tx.from} else dirty;
    RunNextTx(p, run, p', c, txs, i, gasPrice, local, vs, v);
    DirtyNext(txs, i, vs, v);
    run', vs' := run + [p'], vs + [v];
  }

  lemma RunNextTx(p: Pool, run: seq<Pool>, p': Pool, c: Config, txs: seq<Candidate>, i: nat, gasPrice: nat, local: Hash -> bool,
                  vs: seq<Verdict>, v: Verdict)
    requires i < |txs| && AddRun(p, run, c, txs[..i], gasPrice, local, vs) && AddStep(run[i], p', c, txs[i], gasPrice, local, v)
    ensures AddRun(p, run + [p'], c, txs[..i + 1], gasPrice, local, vs + [v]) && (run + [p'])[|txs[..i + 1]|] == p'
  {
    var more, txs', vs' := run + [p'], txs[..i + 1], vs + [v];
    forall k: nat | k < |txs'|
      ensures AddedAt(more, c, txs', gasPrice, local, vs', k)
    {
      if k < i {
        var t := txs[..i][k];
        assert AddedAt(run, c, txs[..i], gasPrice, local, vs, k);
        assert more[k] == run[k] && more[k + 1] == run[k + 1] && txs'[k] == t && vs'[k] == vs[k];
      } else {
        assert more[k] == run[i] && more[k + 1] == p' && txs'[k] == txs[i] && vs'[k] == v;
      }
    }
  }

  lemma DirtyNext(txs: seq<Candidate>, i: nat, vs: seq<Verdict>, v: Verdict)
    requires i < |txs| && |vs| == i
    ensures Dirty(txs[..i + 1], vs + [v]) == Dirty(txs[..i], vs) + if v == Added(false) then {txs[i].tx.from} else {}
  {
    var txs', vs' := txs[..i + 1], vs + [v];
    forall a: Address
      ensures a in Dirty(txs', vs') <==> a in Dirty(txs[..i], vs) || (v == Added(false) && a == txs[i].tx.from)
    {
      if a in Dirty(txs[..i], vs) {
        var k :| 0 <= k < i && vs[k] == Added(false) && txs[..i][k].tx.from == a;
        assert vs'[k] == vs[k] && txs'[k] == txs[..i][k];
      }
      if v == Added(false) && a == txs[i].tx.from { assert vs'[i] == v && txs'[i] == txs[i]; }
    }
  }

  lemma SameBase(p: Pool, p': Pool, st: State)
    requires Forward(p, st) && p'.base == p.base
    ensures Forward(p', st)
  {
    forall a: Address
      ensures Base(p', a) <= st.Nonce(a)
    {
      assert Base(p, a) <= st.Nonce(a);
    }
  }

  /** The queues of the idle accounts are empty and their transactions gone from the index; nothing else
      changed. */
  ghost predicate Expired(p: Pool, p': Pool, idle: set<Address>) {
    && QueuesCut(p, p')
    && (forall a: Address :: a in idle ==> Que(p', a) == map[])
    && (forall a: Address :: a !in idle ==> View(p', a) == View(p, a))
  }

  method DropQueues(p: Pool, idle: set<Address>, priceBump: nat) returns (p': Pool)
    requires Inv(p)
    ensures Inv(p') && Expired(p, p', idle)
  {
    p' := p;
    var todo := idle;
    while todo != {}
      invariant todo <= idle && Inv(p') && QueuesCut(p, p')
      invariant forall a: Address :: a in idle && a !in todo ==> Size(p'.queue, a) == 0
      invariant forall a: Address :: a !in idle ==> View(p', a) == View(p, a)
      decreases |todo|
    {
      var a :| a in todo;
      ghost var before := p';
      p' := RemoveHighest(p', a, Size(p'.queue, a), priceBump);
      QueuesCutOn(p, before, p');
      SameSizes(before, p', a);
      todo := todo - {a};
    }
    forall a: Address | a in idle
      ensures Que(p', a) == map[]
    {
      assert Size(p'.queue, a) == 0;
      assert Que(p', a).Keys == {};
    }
  }
}
