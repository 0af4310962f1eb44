/** The limits of the pool: promotion of whole queues, the overflow of the queue, and the fair share of
    pending transactions. */
module PoolLimits {
  import opened Transactions
  import opened PoolState
  import opened PoolSums
  import opened PoolAccounts

  /** No account comes into the pool. */
  ghost predicate NoNewAccounts(p: Pool, p': Pool) {
    && (forall a: Address :: a in p'.queue ==> a in p.queue)
    && (forall a: Address :: a in p'.pending ==> a in p.pending || a in p.queue)
  }

  ghost predicate Promoted(p: Pool, p': Pool, st: State, c: Config, a: Address) {
    && PromotedTo(View(p, a), View(p', a), st.Nonce(a), st.Balance(a), st.gasLimit, c.accountQueue)
    && Forgets(p.all, p'.all, Que(p, a), View(p', a))
  }

  lemma NothingQueued(acc: Account, s: nat, balance: int, gasLimit: nat, accountQueue: nat)
    requires acc.que == map[]
    ensures PromotedTo(acc, acc, s, balance, gasLimit, accountQueue)
  {
    var q := Kept(From(acc.que, s), AboveLimits(balance, gasLimit));
    assert q.Keys == {} && Below(q, acc.pn).Keys == {} && From(q, acc.pn).Keys == {};
    assert acc.pend + Below(q, acc.pn) == acc.pend;
  }

  /** Promotes what can be executed in the queue of an account, and counts what stays there. */
  method PromoteQueue(p: Pool, st: State, c: Config, a: Address, ghost todo: set<Address>) returns (p': Pool, k: nat)
    requires Promoting(p, st, todo) && a in todo
    ensures Promoting(p', st, todo - {a}) && p'.base == p.base && NoNewAccounts(p, p')
    ensures k == Size(p'.queue, a) && forall b: Address :: b != a ==> View(p', b) == View(p, b)
    ensures Promoted(p, p', st, c, a)
  {
    if a !in p.queue {
      NothingQueued(View(p, a), st.Nonce(a), st.Balance(a), st.gasLimit, c.accountQueue);
      return p, 0;
    }
    var all, acc := PromoteAccount(p.all, a, Base(p, a), View(p, a), st.Nonce(a), st.Balance(a), st.gasLimit, c);
    PromotedOne(p, st, todo, a, all, acc);
    p', k := Store(p, a, acc, all), |acc.que|;
  }

  lemma CountOne(m: Accounts, m': Accounts, accounts: set<Address>, todo: set<Address>, a: Address, n: nat)
    requires a in todo && todo <= accounts && a < n && forall b: Address :: b != a ==> Size(m', b) == Size(m, b)
    ensures SumIn(m', accounts - (todo - {a}), n) == SumIn(m, accounts - todo, n) + Size(m', a)
  {
    assert accounts - (todo - {a}) == accounts - todo + {a};
    SumWith(m, accounts - todo, a, n);
    SumChange(m, m', accounts - todo + {a}, a, n);
  }

  method PromoteQueues(p: Pool, st: State, c: Config, accounts: set<Address>, ghost n: nat) returns (p': Pool, queued: nat)
    requires Promoting(p, st, accounts) && forall a: Address :: a in accounts ==> a < n
    ensures Inv(p') && p'.base == p.base && NoNewAccounts(p, p') && queued == SumIn(p'.queue, accounts, n)
    ensures PromotedOnly(p, p', st, c, accounts)
  {
    p', queued := p, 0;
    var todo := accounts;
    SumOfNone(p'.queue, accounts - todo, n);
    while todo != {}
      invariant Progress(p, p', st, c, accounts, todo) && queued == SumIn(p'.queue, accounts - todo, n)
      decreases |todo|
    {
      var a :| a in todo;
      p', queued := PromoteNext(p, p', st, c, accounts, todo, a, queued, n);
      todo := todo - {a};
    }
    assert accounts - {} == accounts;
  }

  ghost predicate Progress(p: Pool, p': Pool, st: State, c: Config, accounts: set<Address>, todo: set<Address>) {
    && todo <= accounts && Promoting(p', st, todo) && p'.base == p.base && NoNewAccounts(p, p')
    && PromotedOnly(p, p', st, c, accounts - todo) && p'.all.Keys <= p.all.Keys
  }

  /** The queues of `done` were promoted, and nothing happened to other accounts. */
  ghost predicate PromotedOnly(p: Pool, p': Pool, st: State, c: Config, done: set<Address>) {
    forall a: Address :: if a in done then Promoted(p, p', st, c, a) else View(p', a) == View(p, a)
  }

  lemma PromotedOneMore(p: Pool, p1: Pool, p': Pool, st: State, c: Config, done: set<Address>, done': set<Address>, a: Address)
    requires PromotedOnly(p, p1, st, c, done) && p1.all.Keys <= p.all.Keys && a !in done && done' == done + {a}
    requires Promoted(p1, p', st, c, a) && forall b: Address :: b != a ==> View(p', b) == View(p1, b)
    ensures PromotedOnly(p, p', st, c, done')
  {
    forall b: Address
      ensures if b in done' then Promoted(p, p', st, c, b) else View(p', b) == View(p, b)
    {
      if b == a {
        assert View(p1, a) == View(p, a);
        PromotedAfter(p, p1, p', st, c, a);
      } else if b in done {
        assert Promoted(p, p1, st, c, b) && View(p', b) == View(p1, b);
        PromotedStays(p, p1, p', st, c, b);
      } else {
        assert View(p', b) == View(p1, b) == View(p, b);
      }
    }
  }

  lemma PromotedAfter(p: Pool, p1: Pool, p': Pool, st: State, c: Config, a: Address)
    requires View(p1, a) == View(p, a) && p1.all.Keys <= p.all.Keys && Promoted(p1, p', st, c, a)
    ensures Promoted(p, p', st, c, a)
  {
    assert Que(p1, a) == View(p1, a).que;
  }

  lemma PromotedStays(p: Pool, p1: Pool, p': Pool, st: State, c: Config, a: Address)
    requires Promoted(p, p1, st, c, a) && View(p', a) == View(p1, a) && p'.all.Keys <= p1.all.Keys
    ensures Promoted(p, p', st, c, a)
  {
  }

  lemma SameSizes(p: Pool, p': Pool, a: Address)
    requires forall b: Address :: b != a ==> View(p', b) == View(p, b)
    ensures forall b: Address :: b != a ==> Size(p'.queue, b) == Size(p.queue, b)
  {
    forall b: Address | b != a
      ensures Size(p'.queue, b) == Size(p.queue, b)
    {
      assert View(p', b) == View(p, b) && Que(p', b) == Que(p, b);
    }
  }

  method PromoteNext(ghost p: Pool, p1: Pool, st: State, c: Config, ghost accounts: set<Address>, ghost todo: set<Address>,
                     a: Address, queued: nat, ghost n: nat) returns (p': Pool, queued': nat)
    requires Progress(p, p1, st, c, accounts, todo) && queued == SumIn(p1.queue, accounts - todo, n) && a in todo && a < n
    ensures Progress(p, p', st, c, accounts, todo - {a}) && queued' == SumIn(p'.queue, accounts - (todo - {a}), n)
  {
    var k;
    p', k := PromoteQueue(p1, st, c, a, todo);
    SameSizes(p1, p', a);
    PromotedOneMore(p, p1, p', st, c, accounts - todo, accounts - (todo - {a}), a);
    CountOne(p1.queue, p'.queue, accounts, todo, a, n);
    queued' := queued + k;
  }

  // The overflow of the queue

  /** Only queues changed, and only by losing their highest nonces, which leave the index as well. */
  ghost predicate QueuesCut(p: Pool, p': Pool) {
    p'.base == p.base && p'.all.Keys <= p.all.Keys && forall b: Address :: QueueCut(p, p', b)
  }

  ghost predicate QueueCut(p: Pool, p': Pool, b: Address) {
    && Pend(p', b) == Pend(p, b) && Pn(p', b) == Pn(p, b)
    && Lower(Que(p', b), Que(p, b)) && Leaves(Que(p, b), Que(p', b), p'.all)
  }

  /** What a list lost is not in the index. */
  ghost predicate Leaves(m: Items, m': Items, all: All) {
    forall n: nat :: n in m && n !in m' ==> m[n].hash !in all
  }

  /** Only account `a` changed. */
  ghost predicate OthersSame(p: Pool, p': Pool, a: Address) {
    forall b: Address :: b != a ==> View(p', b) == View(p, b)
  }

  lemma QueuesCutOn(p: Pool, q: Pool, r: Pool)
    requires QueuesCut(p, q) && QueuesCut(q, r)
    ensures QueuesCut(p, r)
  {
    forall b: Address
      ensures QueueCut(p, r, b)
    {
      assert QueueCut(p, q, b) && QueueCut(q, r, b);
      LowerOn(Que(p, b), Que(q, b), Que(r, b));
      LeavesOn(Que(p, b), Que(q, b), Que(r, b), q.all, r.all);
    }
  }

  lemma LeavesOn(a: Items, b: Items, c: Items, all: All, all': All)
    requires Part(b, a) && Leaves(a, b, all) && Leaves(b, c, all') && all'.Keys <= all.Keys
    ensures Leaves(a, c, all')
  {
  }

  lemma LowerOn(a: Items, b: Items, c: Items)
    requires Lower(b, a) && Lower(c, b)
    ensures Lower(c, a)
  {
    forall n: nat, k: nat | n in c && k in a && k !in c
      ensures n < k
    {
      if k in b { assert n < k; }
    }
  }

  /** Removes the transaction with the highest nonce from a queue. */
  method RemoveLast(p: Pool, a: Address, priceBump: nat) returns (p': Pool)
    requires Inv(p) && Size(p.queue, a) > 0
    ensures Inv(p') && QueuesCut(p, p') && Size(p'.queue, a) == Size(p.queue, a) - 1
    ensures OthersSame(p, p', a)
  {
    var que := Que(p, a);
    var last := Greatest(que);
    assert AccountOk(p, a);
    assert InAll(p.all, a, last, que[last]);
    p' := RemoveTx(p, que[last].hash, priceBump);
    assert View(p', a) == View(p, a).(que := que - {last});
    assert (que - {last}).Keys == que.Keys - {last};
    LastCut(p, p', a, last);
  }

  lemma LastCut(p: Pool, p': Pool, a: Address, last: nat)
    requires Touches(p, p', a) && View(p', a) == View(p, a).(que := Que(p, a) - {last})
    requires last in Que(p, a) && p'.all == p.all - {Que(p, a)[last].hash} && forall n: nat :: n in Que(p, a) ==> n <= last
    ensures QueuesCut(p, p') && OthersSame(p, p', a)
  {
    assert Pend(p', a) == View(p', a).pend && Que(p', a) == View(p', a).que && Pn(p', a) == View(p', a).pn;
    forall b: Address
      ensures QueueCut(p, p', b)
    {
      if b != a { assert Que(p', b) == Que(p, b); }
    }
  }

  /** Removes the transactions with the highest nonces from a queue. */
  method RemoveHighest(p: Pool, a: Address, count: nat, priceBump: nat) returns (p': Pool)
    requires Inv(p) && count <= Size(p.queue, a)
    ensures Inv(p') && QueuesCut(p, p') && Size(p'.queue, a) == Size(p.queue, a) - count
    ensures OthersSame(p, p', a)
  {
    p' := p;
    for i := 0 to count
      invariant Inv(p') && QueuesCut(p, p') && Size(p'.queue, a) == Size(p.queue, a) - i
      invariant OthersSame(p, p', a)
    {
      ghost var before := p';
      p' := RemoveLast(p', a, priceBump);
      QueuesCutOn(p, before, p');
    }
  }

  /** Each queue but that of `a` is as it was or empty. */
  ghost predicate WholeBut(p: Pool, p': Pool, a: Address) {
    forall b: Address :: b != a ==> Size(p'.queue, b) == 0 || Que(p', b) == Que(p, b)
  }

  /** The queues of `todo` are as they were, the others are so or empty, but for that of `a` if nothing
      is left to drop. */
  ghost predicate Dropping(p: Pool, p': Pool, todo: set<Address>, drop: int, a: Address) {
    && (forall b: Address :: b in todo ==> Que(p', b) == Que(p, b))
    && (if drop > 0 then forall b: Address :: Size(p'.queue, b) == 0 || Que(p', b) == Que(p, b) else WholeBut(p, p', a))
  }

  /** Drops queued transactions of whole accounts, until `queued` of them would be within the limit; only
      the last account `last` loses a part of its queue. There are always accounts left to drop from. */
  method DropOverflow(p: Pool, c: Config, queued: nat, ghost n: nat) returns (p': Pool, ghost last: Address)
    requires Inv(p) && c.globalQueue <= queued <= Total(p.queue, n) && forall a: Address :: a in p.queue ==> a < n
    ensures Inv(p') && QueuesCut(p, p') && Total(p'.queue, n) == Total(p.queue, n) - (queued - c.globalQueue)
    ensures WholeBut(p, p', last)
  {
    p', last := p, 0;
    var drop, addresses := queued - c.globalQueue, p.queue.Keys;
    SumAtMost(p.queue, addresses, n);
    while drop > 0
      invariant Inv(p') && QueuesCut(p, p') && addresses <= p.queue.Keys
      invariant 0 <= drop <= SumIn(p'.queue, addresses, n)
      invariant Total(p'.queue, n) == Total(p.queue, n) - (queued - c.globalQueue) + drop
      invariant Dropping(p, p', addresses, drop, last)
      decreases |addresses|
    {
      if addresses == {} { SumOfNone(p'.queue, addresses, n); }
      var a :| a in addresses;
      var size := Size(p'.queue, a);
      var k := if size <= drop then size else drop;
      ghost var before := p';
      p' := RemoveHighest(p', a, k, c.priceBump);
      QueuesCutOn(p, before, p');
      SameSizes(before, p', a);
      DroppingNext(p, before, p', addresses, drop, a, k);
      OverflowStep(before.queue, p'.queue, addresses, a, n);
      drop, addresses, last := drop - k, addresses - {a}, a;
    }
  }

  lemma DroppingNext(p: Pool, p1: Pool, p': Pool, todo: set<Address>, drop: nat, a: Address, k: nat)
    requires (exists b: Address :: Dropping(p, p1, todo, drop, b)) && drop > 0 && a in todo && OthersSame(p1, p', a)
    requires k == (if Size(p1.queue, a) <= drop then Size(p1.queue, a) else drop) && Size(p'.queue, a) == Size(p1.queue, a) - k
    ensures Dropping(p, p', todo - {a}, drop - k, a)
  {
    SameSizes(p1, p', a);
    forall b: Address | b != a
      ensures Que(p', b) == Que(p1, b)
    {
      assert View(p', b) == View(p1, b);
    }
  }

  lemma OverflowStep(m: Accounts, m': Accounts, s: set<Address>, a: Address, n: nat)
    requires a in s && a < n && forall b: Address :: b != a ==> Size(m', b) == Size(m, b)
    ensures SumIn(m', s - {a}, n) == SumIn(m, s, n) - Size(m, a)
    ensures Total(m', n) == Total(m, n) + Size(m', a) - Size(m, a)
  {
    assert s == s - {a} + {a};
    SumWith(m, s - {a}, a, n);
    SumSame(m, m', s - {a}, n);
    TotalChange(m, m', a, n);
  }
}
