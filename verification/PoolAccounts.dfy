/** What adding, promoting, demoting and removing transactions does to one account of the pool. */
module PoolAccounts {
  import opened Transactions
  import opened PoolState

  /** What the pool reads from the chain. */
  datatype State = State(nonces: map<Address, nat>, balances: map<Address, int>, gasLimit: nat) {
    function Nonce(a: Address): nat { NonceOf(nonces, a) }
    function Balance(a: Address): int { if a in balances then balances[a] else 0 }
  }

  datatype Config = Config(priceBump: nat, accountSlots: nat, globalSlots: nat, accountQueue: nat, globalQueue: nat)

  // Queueing

  /** The index after a transaction took its place in a list. */
  function Replacing(all: All, m: Items, tx: Tx): (all': All) {
    (if tx.nonce in m then all - {m[tx.nonce].hash} else all)[tx.hash := tx]
  }

  lemma EnqueueListed(all: All, a: Address, pend: Items, list: Items, tx: Tx)
    requires tx.from == a && (tx.hash !in all || all[tx.hash] == tx)
    requires Listed(all, a, pend) && Listed(all, a, list) && tx.nonce !in pend
    ensures Listed(Replacing(all, list, tx), a, pend) && Listed(Replacing(all, list, tx), a, list[tx.nonce := tx])
    ensures KeepsOthers(all, Replacing(all, list, tx), a)
  {
    var others: Items := list - {tx.nonce};
    var less := all;
    if tx.nonce in list {
      ForgetOne(all, a, tx.nonce, list[tx.nonce], pend);
      ForgetOne(all, a, tx.nonce, list[tx.nonce], others);
      less := all - {list[tx.nonce].hash};
    }
    Learn(less, a, tx, pend);
    Learn(less, a, tx, others);
  }

  /** Puts a transaction into the queue, unless one that is not cheap enough is in its place. */
  method EnqueueTx(all: All, que: Items, tx: Tx, priceBump: nat) returns (all': All, que': Items, inserted: bool)
    ensures inserted <==> Accepts(que, tx, priceBump)
    ensures inserted <==> tx.nonce !in que || que[tx.nonce].price * (100 + priceBump) < 100 * tx.price
    ensures all' == (if inserted then Replacing(all, que, tx) else all)
    ensures que' == if inserted then que[tx.nonce := tx] else que
  {
    AcceptsExactly(que, tx, priceBump);
    if !Accepts(que, tx, priceBump) { return all, que, false; }
    all', que', inserted := Replacing(all, que, tx), que[tx.nonce := tx], true;
  }

  ghost predicate Requeued(que: Items, que': Items, m: Items, todo: set<nat>) {
    forall n: nat :: (n in que' <==> n in que || (n in m && n !in todo)) &&
                     (n in que' ==> que'[n] == if n in m then m[n] else que[n])
  }

  /** Queues transactions again that were pending until now. */
  method Requeue(all: All, ghost a: Address, que: Items, m: Items, priceBump: nat) returns (all': All, que': Items)
    requires Listed(all, a, m) && forall n: nat :: n in m ==> n !in que
    ensures all' == all && que' == que + m
  {
    all', que' := all, que;
    var todo := m.Keys;
    while todo != {}
      invariant todo <= m.Keys && all' == all && Requeued(que, que', m, todo)
      decreases |todo|
    {
      var n :| n in todo;
      assert InAll(all, a, n, m[n]);
      RequeueOne(all, a, que', n, m[n]);
      RequeuedNext(que, que', m, todo, n);
      var inserted;
      all', que', inserted := EnqueueTx(all', que', m[n], priceBump);
      todo := todo - {n};
    }
    RequeuedAll(que, que', m);
  }

  lemma RequeueOne(all: All, a: Address, que: Items, n: nat, tx: Tx)
    requires InAll(all, a, n, tx) && n !in que
    ensures Replacing(all, que, tx) == all
  {
  }

  lemma RequeuedNext(que: Items, que': Items, m: Items, todo: set<nat>, n: nat)
    requires Requeued(que, que', m, todo) && n in todo && n in m && m[n].nonce == n
    ensures Requeued(que, que'[m[n].nonce := m[n]], m, todo - {n})
  {
  }

  lemma RequeuedAll(que: Items, que': Items, m: Items)
    requires Requeued(que, que', m, {})
    ensures que' == que + m
  {
  }

  // Removing

  /** What removing a nonce makes of an account. If it was pending, those behind it go back to the queue,
      unless nothing is left before it: then they are in neither list. */
  ghost predicate RemovedFrom(acc: Account, acc': Account, n: nat, lo: nat) {
    if n in acc.pend
    then acc' == Account(Below(acc.pend, n), if n == lo then acc.que else acc.que + From(acc.pend, n + 1), n)
    else acc' == acc.(que := acc.que - {n})
  }

  /** Takes a transaction out of its account's lists, wherever its nonce is. */
  method RemoveFrom(all: All, ghost a: Address, ghost lo: nat, acc: Account, tx: Tx, priceBump: nat) returns (all': All, acc': Account)
    requires Ok(all, a, acc, lo) && InAll(all, a, tx.nonce, tx)
    ensures Ok(all', a, acc', lo) && all' == all - {tx.hash} && KeepsOthers(all, all', a)
    ensures RemovedFrom(acc, acc', tx.nonce, lo)
  {
    all' := all - {tx.hash};
    if tx.nonce in acc.pend {
      var kept, invalid := Below(acc.pend, tx.nonce), From(acc.pend, tx.nonce + 1);
      ForgetOne(all, a, tx.nonce, tx, kept);
      ForgetOne(all, a, tx.nonce, tx, invalid);
      ForgetOne(all, a, tx.nonce, tx, acc.que);
      var que := acc.que;
      if kept != map[] {
        all', que := Requeue(all', a, que, invalid, priceBump);
      } else {
        assert lo < tx.nonce ==> lo in kept;
      }
      acc' := Account(kept, que, if acc.pn > tx.nonce then tx.nonce else acc.pn);
    } else {
      acc' := acc.(que := acc.que - {tx.nonce});
      ForgetOne(all, a, tx.nonce, tx, acc'.pend);
      ForgetOne(all, a, tx.nonce, tx, acc'.que);
    }
  }

  /** What removing a transaction makes of the pool: one that is not there changes nothing, any other
      leaves the index and its own account, and no other account changes. */
  ghost predicate RemoveStep(p: Pool, p': Pool, hash: Hash) {
    && p'.base == p.base && p'.all == p.all - {hash} && (hash !in p.all ==> p' == p)
    && (hash in p.all ==> var a, n := p.all[hash].from, p.all[hash].nonce;
                          Touches(p, p', a) && RemovedFrom(View(p, a), View(p', a), n, Base(p, a)))
  }

  method RemoveTx(p: Pool, hash: Hash, priceBump: nat) returns (p': Pool)
    requires Inv(p)
    ensures Inv(p') && RemoveStep(p, p', hash)
  {
    if hash !in p.all {
      assert p.all - {hash} == p.all;
      return p;
    }
    var tx := p.all[hash];
    var a := tx.from;
    assert AccountOk(p, a);
    var all, acc := RemoveFrom(p.all, a, Base(p, a), View(p, a), tx, priceBump);
    StoreKeepsInv(p, a, acc, all);
    p' := Store(p, a, acc, all);
  }

  // Promoting

  /** As `Ok`, but the queue may still hold nonces below the account's nonce `s`, which is where its
      pending transactions start. */
  ghost predicate AlmostOk(all: All, a: Address, acc: Account, lo: nat, s: nat) {
    && lo <= acc.pn && Spans(acc.pend, lo, acc.pn)
    && (forall n: nat :: n in acc.que ==> n >= acc.pn || (n < s && n < lo))
    && Listed(all, a, acc.pend) && Listed(all, a, acc.que)
  }

  ghost predicate Part(r: Items, m: Items) {
    forall n: nat :: n in r ==> n in m && r[n] == m[n]
  }

  /** `r` holds the transactions of `m` with the lowest nonces. */
  ghost predicate Lower(r: Items, m: Items) {
    Part(r, m) && forall n: nat, k: nat :: n in r && k in m && k !in r ==> n < k
  }

  /** The least key of a map, if there is one. */
  method Least(m: Items) returns (least: nat)
    requires m != map[]
    ensures least in m && forall n: nat :: n in m ==> least <= n
  {
    var k :| k in m;
    least := k;
    var todo := m.Keys - {k};
    while todo != {}
      invariant todo <= m.Keys && least in m && forall n: nat :: n in m && n !in todo ==> least <= n
      decreases |todo|
    {
      var n :| n in todo;
      if n < least { least := n; }
      todo := todo - {n};
    }
  }

  method Greatest(m: Items) returns (greatest: nat)
    requires m != map[]
    ensures greatest in m && forall n: nat :: n in m ==> n <= greatest
  {
    var k :| k in m;
    greatest := k;
    var todo := m.Keys - {k};
    while todo != {}
      invariant todo <= m.Keys && greatest in m && forall n: nat :: n in m && n !in todo ==> n <= greatest
      decreases |todo|
    {
      var n :| n in todo;
      if n > greatest { greatest := n; }
      todo := todo - {n};
    }
  }

  /** The end of the run of nonces that starts at `start`, the least that may be there; `start` itself
      if there is no such run. */
  method ReadyEnd(m: Items, start: nat) returns (end: nat)
    requires forall n: nat :: n in m ==> n >= start
    ensures start <= end && end !in m && forall n: nat :: start <= n < end ==> n in m
  {
    end := start;
    if m == map[] { return; }
    var least := Least(m);
    if least > start { return; }
    ghost var top := Greatest(m);
    while end in m
      invariant start <= end && forall n: nat :: start <= n < end ==> n in m
      decreases top + 1 - end
    {
      end := end + 1;
    }
  }

  /** The transactions with the lowest nonces, `count` of them or all. */
  method CapAt(m: Items, count: nat) returns (rest: Items)
    ensures Lower(rest, m) && |rest| == if |m| <= count then |m| else count
  {
    rest := m;
    while |rest| > count
      invariant Lower(rest, m) && |rest| <= |m| && (|rest| < |m| ==> |rest| >= count)
      decreases |rest|
    {
      var n := Greatest(rest);
      assert (rest - {n}).Keys == rest.Keys - {n};
      rest := rest - {n};
    }
  }

  /** Puts a transaction into the pending list, unless one that is not cheap enough is in its place. */
  method PromoteTx(all: All, acc: Account, tx: Tx, priceBump: nat) returns (all': All, acc': Account)
    requires tx.hash in all && all[tx.hash] == tx
    ensures if Accepts(acc.pend, tx, priceBump)
            then all' == Replacing(all, acc.pend, tx) && acc' == Account(acc.pend[tx.nonce := tx], acc.que, tx.nonce + 1)
            else all' == all - {tx.hash} && acc' == acc
    ensures acc'.pn == tx.nonce + 1 || acc' == acc
    ensures acc' == acc || tx.nonce !in acc.pend || acc.pend[tx.nonce].price * (100 + priceBump) < 100 * tx.price
  {
    AcceptsExactly(acc.pend, tx, priceBump);
    all', acc' := all, acc;
    if !Accepts(acc.pend, tx, priceBump) {
      all' := all - {tx.hash};
      return;
    }
    if tx.nonce in acc.pend { all' := all' - {acc.pend[tx.nonce].hash}; }
    if tx.hash !in all' {
      all' := all'[tx.hash := tx];
    } else {
      assert all'[tx.hash := tx] == all';
    }
    acc' := Account(acc.pend[tx.nonce := tx], acc.que, tx.nonce + 1);
  }

  /** Promotes a run of transactions that follow the pending ones. */
  method PromoteRun(all: All, ghost a: Address, ghost lo: nat, acc: Account, run: Items, end: nat, priceBump: nat) returns (acc': Account)
    requires Ok(all, a, acc, lo) && acc.pn <= end && Spans(run, acc.pn, end) && Listed(all, a, run)
    requires forall n: nat :: n in acc.que ==> n > end
    ensures Ok(all, a, acc', lo) && acc'.pn == end && acc'.que == acc.que && acc'.pend == acc.pend + run
  {
    acc' := acc;
    RunBounds(acc.pend, run, acc.pn, end);
    for n := acc.pn to end
      invariant Ok(all, a, acc', lo) && acc'.pn == n && acc'.que == acc.que && acc'.pend == acc.pend + Below(run, n)
    {
      assert InAll(all, a, n, run[n]);
      RunNext(acc.pend, run, n);
      var same;
      RequeueOne(all, a, acc'.pend, n, run[n]);
      same, acc' := PromoteTx(all, acc', run[n], priceBump);
    }
  }

  lemma RunBounds(pend: Items, run: Items, pn: nat, end: nat)
    requires Spans(run, pn, end)
    ensures pend + Below(run, pn) == pend && Below(run, end) == run
  {
  }

  lemma RunNext(pend: Items, run: Items, n: nat)
    requires n in run
    ensures pend + Below(run, n + 1) == (pend + Below(run, n))[n := run[n]]
  {
  }

  /** What promotion makes of an account: of what is neither too old nor too costly in its queue, the run
      that follows the pending transactions joins them, and of the rest the lowest nonces stay queued. */
  ghost predicate PromotedTo(acc: Account, acc': Account, s: nat, balance: int, gasLimit: nat, accountQueue: nat) {
    var q := Kept(From(acc.que, s), AboveLimits(balance, gasLimit));
    var rest := From(q, acc'.pn);
    && acc.pn <= acc'.pn && acc'.pn !in q && (forall n: nat :: acc.pn <= n < acc'.pn ==> n in q)
    && acc'.pend == acc.pend + Below(q, acc'.pn)
    && Lower(acc'.que, rest) && |acc'.que| == if |rest| <= accountQueue then |rest| else accountQueue
  }

  /** The index only loses entries, among them those of `m` that are in neither list. */
  ghost predicate Forgets(all: All, all': All, m: Items, acc: Account) {
    all'.Keys <= all.Keys && forall n: nat :: n in m && n !in acc.pend && n !in acc.que ==> m[n].hash !in all'
  }

  /** Drops what is too old or too costly from an account's queue, promotes what can be executed, and
      caps what is left. */
  method PromoteAccount(all: All, ghost a: Address, ghost lo: nat, acc: Account, s: nat, balance: int, gasLimit: nat, c: Config)
    returns (all': All, acc': Account)
    requires Keyed(all) && AlmostOk(all, a, acc, lo, s)
    ensures Keyed(all') && Ok(all', a, acc', lo) && KeepsOthers(all, all', a)
    ensures PromotedTo(acc, acc', s, balance, gasLimit, c.accountQueue) && Forgets(all, all', acc.que, acc')
  {
    var all1, que := PruneQueue(all, a, lo, acc, s, balance, gasLimit);
    var acc1 := PromoteReady(all1, a, lo, acc.(que := que), c.priceBump);
    var capped := CapAt(acc1.que, c.accountQueue);
    all', que := DropQueued(all1, a, acc1.pend, acc1.que, capped);
    acc' := acc1.(que := que);
    KeepsOthersOn(all, all1, all', a);
  }

  lemma KeepsOthersOn(all: All, all1: All, all2: All, a: Address)
    requires KeepsOthers(all, all1, a) && KeepsOthers(all1, all2, a)
    ensures KeepsOthers(all, all2, a)
  {
  }

  method PruneQueue(all: All, ghost a: Address, ghost lo: nat, acc: Account, s: nat, balance: int, gasLimit: nat)
    returns (all': All, que: Items)
    requires Keyed(all) && AlmostOk(all, a, acc, lo, s)
    ensures que == Kept(From(acc.que, s), AboveLimits(balance, gasLimit))
    ensures Keyed(all') && Ok(all', a, acc.(que := que), lo) && KeepsOthers(all, all', a)
    ensures Forgets(all, all', acc.que, acc.(que := que))
  {
    var all1;
    all1, que := DropQueued(all, a, acc.pend, acc.que, From(acc.que, s));
    all', que := DropQueued(all1, a, acc.pend, que, Kept(que, AboveLimits(balance, gasLimit)));
    KeepsOthersOn(all, all1, all', a);
  }

  method PromoteReady(all: All, ghost a: Address, ghost lo: nat, acc: Account, priceBump: nat) returns (acc': Account)
    requires Ok(all, a, acc, lo)
    ensures Ok(all, a, acc', lo) && acc.pn <= acc'.pn && acc'.pn !in acc.que
    ensures forall n: nat :: acc.pn <= n < acc'.pn ==> n in acc.que
    ensures acc'.que == From(acc.que, acc'.pn) && acc'.pend == acc.pend + Below(acc.que, acc'.pn)
  {
    var end := ReadyEnd(acc.que, acc.pn);
    acc' := PromoteRun(all, a, lo, acc.(que := From(acc.que, end)), Below(acc.que, end), end, priceBump);
  }

  /** Keeps a part of a list, and forgets the rest. */
  method DropQueued(all: All, ghost a: Address, ghost pend: Items, que: Items, kept: Items) returns (all': All, que': Items)
    requires Keyed(all) && Listed(all, a, pend) && Listed(all, a, que) && Part(kept, que)
    requires forall n: nat :: n in pend ==> n !in que || n in kept
    ensures que' == kept && Keyed(all') && Listed(all', a, pend) && Listed(all', a, kept) && KeepsOthers(all, all', a)
    ensures all'.Keys <= all.Keys && forall n: nat :: n in que && n !in kept ==> que[n].hash !in all'
  {
    var dropped: Items := que - kept.Keys;
    Forget(all, a, dropped, pend);
    Forget(all, a, dropped, kept);
    all', que' := all - Hashes(dropped), kept;
    forall n: nat | n in que && n !in kept
      ensures que[n].hash !in all'
    {
      assert n in dropped && dropped[n] == que[n];
    }
  }

  // Demoting

  /** Splits a list at the first transaction that is filtered out. */
  method StrictFilter(m: Items, drop: Tx -> bool) returns (kept: Items, invalid: Items)
    ensures kept == StrictKept(m, drop) && invalid == Invalidated(m, drop)
  {
    var dropped := Dropped(m, drop);
    if dropped == map[] {
      NothingDropped(m, drop);
      return m, map[];
    }
    var lowest := Least(dropped);
    kept := Below(m, lowest);
    invalid := Kept(From(m, lowest), drop);
    SplitAtLowest(m, drop, lowest);
  }

  lemma NothingDropped(m: Items, drop: Tx -> bool)
    requires Dropped(m, drop) == map[]
    ensures StrictKept(m, drop) == m && Invalidated(m, drop) == map[]
  {
    forall n: nat | n in m
      ensures !drop(m[n])
    {
      assert n !in Dropped(m, drop);
    }
  }

  lemma SplitAtLowest(m: Items, drop: Tx -> bool, lowest: nat)
    requires lowest in Dropped(m, drop) && forall n: nat :: n in Dropped(m, drop) ==> lowest <= n
    ensures StrictKept(m, drop) == Below(m, lowest) && Invalidated(m, drop) == Kept(From(m, lowest), drop)
  {
    forall n: nat | n in m && drop(m[n])
      ensures lowest <= n
    {
      assert n in Dropped(m, drop);
    }
  }

  /** Drops what is too old or too costly from an account's pending transactions, and queues what is
      behind it. The account's nonce is now `s`. */
  method DemoteAccount(all: All, ghost a: Address, ghost lo: nat, acc: Account, s: nat, balance: int, gasLimit: nat, priceBump: nat)
    returns (all': All, acc': Account)
    requires Keyed(all) && Ok(all, a, acc, lo) && lo <= s
    ensures Keyed(all') && AlmostOk(all', a, acc', s, s) && KeepsOthers(all, all', a)
    ensures acc'.pend == StrictKept(From(acc.pend, s), AboveLimits(balance, gasLimit))
    ensures acc'.que == acc.que + Invalidated(From(acc.pend, s), AboveLimits(balance, gasLimit))
    ensures Forgets(all, all', acc.pend, acc')
  {
    var drop := AboveLimits(balance, gasLimit);
    var kept, invalid := StrictFilter(From(acc.pend, s), drop);
    ghost var mid := KeptSpans(acc.pend, drop, lo, acc.pn, s);
    PartsOf(acc.pend, s, drop, kept, invalid);
    all' := DropPending(all, a, acc, kept, invalid);
    var que;
    all', que := Requeue(all', a, acc.que, invalid, priceBump);
    var pn := NextNonce(kept, s);
    DemotedOk(all', a, acc, kept, invalid, s, mid, pn);
    acc' := Account(kept, que, pn);
  }

  /** The nonce behind a list, or `s` if it is empty. */
  method NextNonce(m: Items, s: nat) returns (pn: nat)
    ensures forall mid: nat :: s <= mid && Spans(m, s, mid) ==> pn == mid
  {
    pn := s;
    if m != map[] {
      var last := Greatest(m);
      pn := last + 1;
      forall mid: nat | s <= mid && Spans(m, s, mid)
        ensures pn == mid
      {
        assert mid - 1 in m;
      }
    } else {
      forall mid: nat | s <= mid && Spans(m, s, mid)
        ensures pn == mid
      {
        assert s !in m;
      }
    }
  }

  lemma PartsOf(m: Items, s: nat, drop: Tx -> bool, kept: Items, invalid: Items)
    requires kept == StrictKept(From(m, s), drop) && invalid == Invalidated(From(m, s), drop)
    ensures Part(kept, m) && Part(invalid, m)
  {
  }

  /** Forgets the pending transactions that are in neither of two lists. */
  method DropPending(all: All, ghost a: Address, acc: Account, kept: Items, invalid: Items) returns (all': All)
    requires Keyed(all) && Listed(all, a, acc.pend) && Listed(all, a, acc.que)
    requires forall n: nat :: n in acc.pend ==> n !in acc.que
    requires Part(kept, acc.pend) && Part(invalid, acc.pend)
    ensures Keyed(all') && Listed(all', a, kept) && Listed(all', a, invalid) && Listed(all', a, acc.que) && KeepsOthers(all, all', a)
    ensures all'.Keys <= all.Keys && forall n: nat :: n in acc.pend && n !in kept && n !in invalid ==> acc.pend[n].hash !in all'
  {
    var dropped: Items := acc.pend - kept.Keys - invalid.Keys;
    Forget(all, a, dropped, kept);
    Forget(all, a, dropped, invalid);
    Forget(all, a, dropped, acc.que);
    all' := all - Hashes(dropped);
    forall n: nat | n in acc.pend && n !in kept && n !in invalid
      ensures acc.pend[n].hash !in all'
    {
      assert n in dropped && dropped[n] == acc.pend[n];
    }
  }

  lemma DemotedOk(all: All, a: Address, acc: Account, kept: Items, invalid: Items, s: nat, mid: nat, pn: nat)
    requires s <= mid && Spans(kept, s, mid) && pn == mid && (mid <= acc.pn || mid == s)
    requires (forall n: nat :: n in invalid ==> n > mid) && (forall n: nat :: n in acc.que ==> n >= acc.pn)
    requires Listed(all, a, kept) && Listed(all, a, invalid) && Listed(all, a, acc.que)
    ensures AlmostOk(all, a, Account(kept, acc.que + invalid, pn), s, s)
  {
  }

  /** What is left of the pending transactions starts at the new nonce. */
  lemma KeptSpans(m: Items, drop: Tx -> bool, lo: nat, pn: nat, s: nat) returns (mid: nat)
    requires lo <= s && lo <= pn && Spans(m, lo, pn)
    ensures s <= mid && Spans(StrictKept(From(m, s), drop), s, mid)
    ensures mid <= pn || mid == s
    ensures forall n: nat :: n in Invalidated(From(m, s), drop) ==> mid < n < pn
  {
    if s <= pn {
      assert Spans(From(m, s), s, pn);
      mid := StrictKeptSpans(From(m, s), drop, s, pn);
    } else {
      mid := s;
    }
  }

  // The whole pool

  lemma OthersAlmostOk(all: All, all': All, a: Address, b: Address, acc: Account, lo: nat, s: nat)
    requires KeepsOthers(all, all', a) && a != b && AlmostOk(all, b, acc, lo, s)
    ensures AlmostOk(all', b, acc, lo, s)
  {
    OthersStayListed(all, all', a, b, acc.pend);
    OthersStayListed(all, all', a, b, acc.que);
  }

  lemma OthersOk(all: All, all': All, a: Address, b: Address, acc: Account, lo: nat)
    requires KeepsOthers(all, all', a) && a != b && Ok(all, b, acc, lo)
    ensures Ok(all', b, acc, lo)
  {
    OthersStayListed(all, all', a, b, acc.pend);
    OthersStayListed(all, all', a, b, acc.que);
  }

  /** Account nonces never go back. */
  ghost predicate Forward(p: Pool, st: State) {
    forall a: Address :: Base(p, a) <= st.Nonce(a)
  }

  /** Accounts in `todo` are as they were, the others start at their new nonces. */
  ghost predicate Demoting(p: Pool, p1: Pool, st: State, todo: set<Address>) {
    && Keyed(p1.all) && p1.base == st.nonces
    && (forall a: Address :: a in todo ==>
          Pend(p1, a) == Pend(p, a) && Que(p1, a) == Que(p, a) && Ok(p1.all, a, View(p, a), Base(p, a)))
    && (forall a: Address :: a !in todo ==>
          AlmostOk(p1.all, a, View(p1, a), st.Nonce(a), st.Nonce(a)) && DemotedTo(View(p, a), View(p1, a), st, a))
    && (forall a: Address :: a !in todo ==> Forgets(p.all, p1.all, Pend(p, a), View(p1, a)))
    && p1.all.Keys <= p.all.Keys
  }

  /** What demotion makes of an account: pending transactions from the new nonce up to the first that is
      too costly stay, those behind it go back to the queue. */
  ghost predicate DemotedTo(acc: Account, acc': Account, st: State, a: Address) {
    var live, drop := From(acc.pend, st.Nonce(a)), AboveLimits(st.Balance(a), st.gasLimit);
    acc'.pend == StrictKept(live, drop) && acc'.que == acc.que + Invalidated(live, drop)
  }

  method DemoteUnexecutables(p: Pool, st: State, priceBump: nat) returns (p1: Pool)
    requires Inv(p) && Forward(p, st)
    ensures Demoting(p, p1, st, {})
  {
    p1 := p.(base := st.nonces, nonces := map[]);
    var todo := p.pending.Keys;
    StartDemoting(p, st);
    while todo != {}
      invariant Demoting(p, p1, st, todo)
      decreases |todo|
    {
      var a :| a in todo;
      var all, acc := DemoteAccount(p1.all, a, Base(p, a), View(p, a), st.Nonce(a), st.Balance(a), st.gasLimit, priceBump);
      DemotedOne(p, p1, st, todo, a, all, acc);
      p1, todo := Store(p1, a, acc, all), todo - {a};
    }
  }

  lemma NothingToDemote(acc: Account, acc': Account, st: State, a: Address)
    requires acc.pend == acc'.pend == map[] && acc'.que == acc.que
    ensures DemotedTo(acc, acc', st, a)
  {
    var live, drop := From(acc.pend, st.Nonce(a)), AboveLimits(st.Balance(a), st.gasLimit);
    assert StrictKept(live, drop).Keys == {} && Invalidated(live, drop).Keys == {};
  }

  lemma StartDemoting(p: Pool, st: State)
    requires Inv(p) && Forward(p, st)
    ensures Demoting(p, p.(base := st.nonces, nonces := map[]), st, p.pending.Keys)
  {
    var p1 := p.(base := st.nonces, nonces := map[]);
    forall a: Address
      ensures Pend(p1, a) == Pend(p, a) && Que(p1, a) == Que(p, a) && Ok(p1.all, a, View(p, a), Base(p, a))
    {
      assert AccountOk(p, a);
    }
    forall a: Address | a !in p.pending
      ensures AlmostOk(p1.all, a, View(p1, a), st.Nonce(a), st.Nonce(a)) && DemotedTo(View(p, a), View(p1, a), st, a)
      ensures Forgets(p.all, p1.all, Pend(p, a), View(p1, a))
    {
      StartOne(p, st, a);
    }
  }

  lemma StartOne(p: Pool, st: State, a: Address)
    requires Inv(p) && Forward(p, st) && a !in p.pending
    ensures var p1 := p.(base := st.nonces, nonces := map[]);
            && AlmostOk(p1.all, a, View(p1, a), st.Nonce(a), st.Nonce(a)) && DemotedTo(View(p, a), View(p1, a), st, a)
            && Forgets(p.all, p1.all, Pend(p, a), View(p1, a))
  {
    var p1 := p.(base := st.nonces, nonces := map[]);
    assert AccountOk(p, a) && Base(p, a) <= st.Nonce(a);
    NothingToDemote(View(p, a), View(p1, a), st, a);
  }

  lemma DemotedOne(p: Pool, p1: Pool, st: State, todo: set<Address>, a: Address, all: All, acc: Account)
    requires Demoting(p, p1, st, todo) && a in todo && Keyed(all) && KeepsOthers(p1.all, all, a)
    requires AlmostOk(all, a, acc, st.Nonce(a), st.Nonce(a)) && DemotedTo(View(p, a), acc, st, a)
    requires Forgets(p1.all, all, Pend(p, a), acc)
    ensures Demoting(p, Store(p1, a, acc, all), st, todo - {a})
  {
    var p2 := Store(p1, a, acc, all);
    forall b: Address | b != a
      ensures b in todo ==> Pend(p2, b) == Pend(p, b) && Que(p2, b) == Que(p, b) && Ok(p2.all, b, View(p, b), Base(p, b))
      ensures b !in todo ==> AlmostOk(p2.all, b, View(p2, b), st.Nonce(b), st.Nonce(b)) && DemotedTo(View(p, b), View(p2, b), st, b)
    {
      assert View(p2, b) == View(p1, b);
      if b in todo {
        OthersOk(p1.all, all, a, b, View(p, b), Base(p, b));
      } else {
        OthersAlmostOk(p1.all, all, a, b, View(p1, b), st.Nonce(b), st.Nonce(b));
      }
    }
    StillForgotten(p, p1, st, todo, a, all, acc);
  }

  lemma StillForgotten(p: Pool, p1: Pool, st: State, todo: set<Address>, a: Address, all: All, acc: Account)
    requires Demoting(p, p1, st, todo) && Forgets(p1.all, all, Pend(p, a), acc)
    ensures forall b: Address :: b !in todo - {a} ==> Forgets(p.all, all, Pend(p, b), View(Store(p1, a, acc, all), b))
  {
    forall b: Address | b !in todo - {a}
      ensures Forgets(p.all, all, Pend(p, b), View(Store(p1, a, acc, all), b))
    {
      if b != a { assert Forgets(p.all, p1.all, Pend(p, b), View(p1, b)); }
    }
  }

  /** Accounts in `todo` may hold old transactions in their queues, the others do not. */
  ghost predicate Promoting(p: Pool, st: State, todo: set<Address>) {
    && Keyed(p.all)
    && (forall a: Address :: a in todo ==> AlmostOk(p.all, a, View(p, a), Base(p, a), st.Nonce(a)))
    && (forall a: Address :: a !in todo ==> AccountOk(p, a))
  }

  lemma PromotedOne(p: Pool, st: State, todo: set<Address>, a: Address, all: All, acc: Account)
    requires Promoting(p, st, todo) && Keyed(all) && KeepsOthers(p.all, all, a) && Ok(all, a, acc, Base(p, a))
    ensures Promoting(Store(p, a, acc, all), st, todo - {a})
  {
    var p' := Store(p, a, acc, all);
    forall b: Address | b != a
      ensures b in todo ==> AlmostOk(p'.all, b, View(p', b), Base(p', b), st.Nonce(b))
      ensures b !in todo ==> AccountOk(p', b)
    {
      assert View(p', b) == View(p, b);
      if b in todo {
        OthersAlmostOk(p.all, all, a, b, View(p, b), Base(p, b), st.Nonce(b));
      } else {
        OthersOk(p.all, all, a, b, View(p, b), Base(p, b));
      }
    }
  }
}
