/** The fair share of pending transactions: if the pool holds too many, the accounts that have most lose
    their highest nonces, until all of them are down to one level. */
module PoolShares {
  import opened Transactions
  import opened PoolState
  import opened PoolSums
  import opened PoolAccounts
  import opened PoolLimits

  /** Only pending lists changed, and only by losing their highest nonces, which leave the index as well. */
  ghost predicate PendingCut(p: Pool, p': Pool) {
    p'.base == p.base && p'.queue.Keys <= p.queue.Keys && p'.all.Keys <= p.all.Keys && forall b: Address :: PendCut(p, p', b)
  }

  ghost predicate PendCut(p: Pool, p': Pool, b: Address) {
    Que(p', b) == Que(p, b) && Lower(Pend(p', b), Pend(p, b)) && Leaves(Pend(p, b), Pend(p', b), p'.all)
  }

  lemma PendingCutOn(p: Pool, q: Pool, r: Pool)
    requires PendingCut(p, q) && PendingCut(q, r)
    ensures PendingCut(p, r)
  {
    forall b: Address
      ensures PendCut(p, r, b)
    {
      assert PendCut(p, q, b) && PendCut(q, r, b);
      LowerOn(Pend(p, b), Pend(q, b), Pend(r, b));
      LeavesOn(Pend(p, b), Pend(q, b), Pend(r, b), q.all, r.all);
    }
  }

  /** Drops the pending transaction with the highest nonce of an account. */
  method DropLast(p: Pool, a: Address) returns (p': Pool)
    requires Inv(p) && Size(p.pending, a) > 0
    ensures Inv(p') && PendingCut(p, p') && Size(p'.pending, a) == Size(p.pending, a) - 1
    ensures forall b: Address :: b != a ==> Size(p'.pending, b) == Size(p.pending, b)
    ensures Pn(p', a) in Pend(p, a) && Pn(p', a) + 1 == Pn(p, a) && p'.all == p.all - {Pend(p, a)[Pn(p', a)].hash}
  {
    var acc := View(p, a);
    assert AccountOk(p, a);
    var last := Greatest(acc.pend);
    assert acc.pn - 1 in acc.pend;
    var kept: Items := acc.pend - {last};
    assert kept.Keys == acc.pend.Keys - {last};
    assert InAll(p.all, a, last, acc.pend[last]);
    ForgetOne(p.all, a, last, acc.pend[last], kept);
    ForgetOne(p.all, a, last, acc.pend[last], acc.que);
    var all := p.all - {acc.pend[last].hash};
    var acc' := Account(kept, acc.que, if acc.pn > last then last else acc.pn);
    StoreKeepsInv(p, a, acc', all);
    p' := Store(p, a, acc', all);
    DroppedLast(p, p', a, last);
  }

  lemma DroppedLast(p: Pool, p': Pool, a: Address, last: nat)
    requires Pend(p', a) == Pend(p, a) - {last} && Que(p', a) == Que(p, a) && p'.base == p.base && p'.queue.Keys <= p.queue.Keys
    requires forall b: Address :: b != a ==> View(p', b) == View(p, b)
    requires last in Pend(p, a) && p'.all == p.all - {Pend(p, a)[last].hash} && forall n: nat :: n in Pend(p, a) ==> n <= last
    ensures PendingCut(p, p') && forall b: Address :: b != a ==> Size(p'.pending, b) == Size(p.pending, b)
  {
    forall b: Address
      ensures PendCut(p, p', b) && (b != a ==> Size(p'.pending, b) == Size(p.pending, b))
    {
      if b != a { assert View(p', b) == View(p, b) && Pend(p', b) == Pend(p, b); }
    }
  }

  ghost predicate Distinct(s: seq<Address>) {
    forall i, j :: 0 <= i < j < |s| ==> s[i] != s[j]
  }

  /** Every account of `s` has the same number of pending transactions. */
  ghost predicate AllHave(p: Pool, s: seq<Address>, k: nat) {
    forall i :: 0 <= i < |s| ==> Size(p.pending, s[i]) == k
  }

  /** The accounts that are not in `s` have as many pending transactions as before. */
  ghost predicate OthersKeep(p: Pool, p': Pool, s: seq<Address>) {
    forall b: Address :: b !in s ==> Size(p'.pending, b) == Size(p.pending, b)
  }

  /** Drops one pending transaction of each account of `s`, all of which have `k` of them. */
  method DropEach(p: Pool, s: seq<Address>, ghost k: nat, pending: nat, ghost n: nat) returns (p': Pool, pending': nat)
    requires Inv(p) && Distinct(s) && k > 0 && AllHave(p, s, k) && (forall i :: 0 <= i < |s| ==> s[i] < n)
    requires pending == Total(p.pending, n)
    ensures Inv(p') && PendingCut(p, p') && AllHave(p', s, k - 1) && OthersKeep(p, p', s)
    ensures pending' == Total(p'.pending, n) && pending' == pending - |s|
  {
    p', pending' := p, pending;
    for i := 0 to |s|
      invariant Inv(p') && PendingCut(p, p') && AllHave(p', s[..i], k - 1) && AllHave(p', s[i..], k) && OthersKeep(p, p', s[..i])
      invariant pending' == Total(p'.pending, n) && pending' == pending - i
    {
      ghost var before := p';
      assert s[i..][0] == s[i];
      p' := DropLast(p', s[i]);
      PendingCutOn(p, before, p');
      DroppedOne(p, before, p', s, i, k);
      TotalChange(before.pending, p'.pending, s[i], n);
      pending' := pending' - 1;
    }
    assert s[..|s|] == s;
  }

  lemma DroppedOne(p: Pool, before: Pool, p': Pool, s: seq<Address>, i: nat, k: nat)
    requires i < |s| && Distinct(s) && k > 0
    requires AllHave(before, s[..i], k - 1) && AllHave(before, s[i..], k) && OthersKeep(p, before, s[..i])
    requires Size(p'.pending, s[i]) == k - 1 && forall b: Address :: b != s[i] ==> Size(p'.pending, b) == Size(before.pending, b)
    ensures AllHave(p', s[..i + 1], k - 1) && AllHave(p', s[i + 1..], k) && OthersKeep(p, p', s[..i + 1])
  {
    assert s[..i + 1] == s[..i] + [s[i]];
    var rest := s[i + 1..];
    forall j | 0 <= j < |rest|
      ensures Size(p'.pending, rest[j]) == k
    {
      assert rest[j] == s[i..][j + 1];
    }
  }

  /** Drops from all accounts of `s`, one transaction each at a time, until the pool is within its limit
      or they are down to `floor`. */
  method LowerTo(p: Pool, s: seq<Address>, floor: nat, globalSlots: nat, ghost k0: nat, pending: nat, ghost n: nat)
    returns (p': Pool, pending': nat, ghost k: nat)
    requires Inv(p) && s != [] && Distinct(s) && AllHave(p, s, k0) && floor <= k0 && (forall i :: 0 <= i < |s| ==> s[i] < n)
    requires pending == Total(p.pending, n)
    ensures Inv(p') && PendingCut(p, p') && AllHave(p', s, k) && OthersKeep(p, p', s) && floor <= k <= k0
    ensures pending' == Total(p'.pending, n) && (pending' <= globalSlots || k == floor)
    ensures pending > globalSlots ==> pending' + |s| > globalSlots
  {
    p', pending', k := p, pending, k0;
    while pending' > globalSlots && Size(p'.pending, s[|s| - 1]) > floor
      invariant Inv(p') && PendingCut(p, p') && AllHave(p', s, k) && OthersKeep(p, p', s) && floor <= k <= k0
      invariant pending' == Total(p'.pending, n) && (pending > globalSlots ==> pending' + |s| > globalSlots)
      decreases k
    {
      ghost var before := p';
      p', pending' := DropEach(p', s, k, pending', n);
      PendingCutOn(p, before, p');
      k := k - 1;
    }
  }

  // Who is penalized

  /** Some transaction of the account is local. */
  ghost predicate HasLocal(p: Pool, local: Hash -> bool, a: Address) {
    exists k: nat :: k in Pend(p, a) && local(Pend(p, a)[k].hash)
  }

  ghost predicate HasRemote(p: Pool, local: Hash -> bool, a: Address) {
    exists k: nat :: k in Pend(p, a) && !local(Pend(p, a)[k].hash)
  }

  /** Whether an account has more than its share. One transaction is enough to see whether it is local,
      and any may be looked at. */
  method IsSpammer(items: Items, accountSlots: nat, local: Hash -> bool) returns (b: bool)
    ensures b ==> |items| > accountSlots && exists k: nat :: k in items && !local(items[k].hash)
    ensures |items| > accountSlots && !b ==> exists k: nat :: k in items && local(items[k].hash)
  {
    if |items| <= accountSlots { return false; }
    var k :| k in items;
    b := !local(items[k].hash);
  }

  ghost predicate Spamming(p: Pool, accountSlots: nat, local: Hash -> bool, s: set<Address>, todo: set<Address>) {
    && (forall a: Address :: a in s ==> a in p.pending && Size(p.pending, a) > accountSlots && HasRemote(p, local, a))
    && (forall a: Address :: a !in todo && a !in s && Size(p.pending, a) > accountSlots ==> HasLocal(p, local, a))
  }

  /** The accounts with more pending transactions than their share, but for those of which the one
      transaction that is looked at is local. */
  method Spammers(p: Pool, accountSlots: nat, local: Hash -> bool) returns (s: set<Address>)
    ensures Spamming(p, accountSlots, local, s, {})
  {
    s := {};
    var todo := p.pending.Keys;
    while todo != {}
      invariant todo <= p.pending.Keys && Spamming(p, accountSlots, local, s, todo)
      decreases |todo|
    {
      var a :| a in todo;
      var b := IsSpammer(Pend(p, a), accountSlots, local);
      SpamOne(p, accountSlots, local, s, todo, a, b);
      if b { s := s + {a}; }
      todo := todo - {a};
    }
  }

  lemma SpamOne(p: Pool, accountSlots: nat, local: Hash -> bool, s: set<Address>, todo: set<Address>, a: Address, b: bool)
    requires Spamming(p, accountSlots, local, s, todo) && a in p.pending
    requires if b then Size(p.pending, a) > accountSlots && HasRemote(p, local, a) else Size(p.pending, a) <= accountSlots || HasLocal(p, local, a)
    ensures Spamming(p, accountSlots, local, if b then s + {a} else s, todo - {a})
  {
  }

  /** An account of `s` that has most pending transactions. */
  method Largest(p: Pool, s: set<Address>) returns (a: Address)
    requires s != {}
    ensures a in s && forall b: Address :: b in s ==> Size(p.pending, b) <= Size(p.pending, a)
  {
    var first :| first in s;
    a := first;
    var todo := s - {first};
    while todo != {}
      invariant todo <= s && a in s && forall b: Address :: b in s && b !in todo ==> Size(p.pending, b) <= Size(p.pending, a)
      decreases |todo|
    {
      var b :| b in todo;
      if Size(p.pending, b) > Size(p.pending, a) { a := b; }
      todo := todo - {b};
    }
  }

  method CountPending(p: Pool, ghost n: nat) returns (k: nat)
    requires forall a: Address :: a in p.pending ==> a < n
    ensures k == Total(p.pending, n)
  {
    k := 0;
    var todo := p.pending.Keys;
    SumOfNone(p.pending, p.pending.Keys - todo, n);
    while todo != {}
      invariant todo <= p.pending.Keys && k == SumIn(p.pending, p.pending.Keys - todo, n)
      decreases |todo|
    {
      var a :| a in todo;
      SumWith(p.pending, p.pending.Keys - todo, a, n);
      assert p.pending.Keys - (todo - {a}) == p.pending.Keys - todo + {a};
      k, todo := k + |p.pending[a]|, todo - {a};
    }
    assert p.pending.Keys - {} == p.pending.Keys;
    SumAtMost(p.pending, p.pending.Keys, n);
  }

  // The level

  /** Where the water stands: every offender has what it had or `level`, whichever is less, everyone
      else has what they had, and the accounts still to come have no more than `level`. */
  ghost predicate Level(p: Pool, p': Pool, offenders: seq<Address>, rest: set<Address>, level: nat) {
    && Distinct(offenders)
    && (forall i :: 0 <= i < |offenders| ==> offenders[i] !in rest)
    && (forall i :: 0 <= i < |offenders| ==>
          Size(p'.pending, offenders[i]) == if Size(p.pending, offenders[i]) < level then Size(p.pending, offenders[i]) else level)
    && OthersKeep(p, p', offenders)
    && (forall a: Address :: a in rest ==> Size(p.pending, a) <= level)
  }

  /** The next offender comes in, and the others go down towards it. */
  method NextOffender(p: Pool, p1: Pool, offenders: seq<Address>, rest: set<Address>, ghost level: nat, c: Config, pending: nat, ghost n: nat)
    returns (p': Pool, o: Address, ghost level': nat, pending': nat)
    requires Inv(p1) && PendingCut(p, p1) && rest != {} && pending == Total(p1.pending, n) && pending > c.globalSlots
    requires Level(p, p1, offenders, rest, level) && AllHave(p1, offenders, level)
    requires (forall i :: 0 <= i < |offenders| ==> offenders[i] < n) && (forall a: Address :: a in rest ==> Size(p.pending, a) > c.accountSlots)
    ensures Inv(p') && PendingCut(p, p') && pending' == Total(p'.pending, n) && o in rest
    ensures Level(p, p', offenders + [o], rest - {o}, level') && level' > c.accountSlots
    ensures pending' > c.globalSlots ==> AllHave(p', offenders + [o], level')
    ensures pending' + |offenders| > c.globalSlots
  {
    o := Largest(p1, rest);
    assert o !in offenders && Size(p1.pending, o) == Size(p.pending, o);
    if |offenders| > 0 {
      p', pending', level' := LowerTo(p1, offenders, Size(p1.pending, o), c.globalSlots, level, pending, n);
      PendingCutOn(p, p1, p');
    } else {
      p', pending', level' := p1, pending, Size(p1.pending, o);
    }
    LevelNext(p, p1, p', offenders, rest, o, level, level');
  }

  lemma LevelNext(p: Pool, p1: Pool, p': Pool, offenders: seq<Address>, rest: set<Address>, o: Address, level: nat, level': nat)
    requires Level(p, p1, offenders, rest, level) && AllHave(p1, offenders, level) && o in rest
    requires forall b: Address :: b in rest ==> Size(p1.pending, b) <= Size(p1.pending, o)
    requires Size(p1.pending, o) <= level' && (offenders != [] ==> level' <= level)
    requires AllHave(p', offenders, level') && OthersKeep(p1, p', offenders)
    ensures Level(p, p', offenders + [o], rest - {o}, level')
    ensures Size(p'.pending, o) == Size(p1.pending, o)
  {
    var next := offenders + [o];
    assert o !in offenders;
    forall b: Address | b in rest
      ensures Size(p.pending, b) <= level'
    {
      assert b !in offenders;
    }
  }

  lemma {:induction false} SizeAtMost(m: Accounts, a: Address, n: nat)
    requires a < n
    ensures Size(m, a) <= Total(m, n)
    decreases n
  {
    if a < n - 1 { SizeAtMost(m, a, n - 1); }
  }

  lemma LevelEnd(p: Pool, p1: Pool, p': Pool, offenders: seq<Address>, rest: set<Address>, level: nat, level': nat)
    requires Level(p, p1, offenders, rest, level) && AllHave(p1, offenders, level) && rest == {}
    requires level' <= level && AllHave(p', offenders, level') && OthersKeep(p1, p', offenders)
    ensures Level(p, p', offenders, rest, level')
  {
  }

  /** `p'` is `p` with the accounts of `s` down to `level`. */
  ghost predicate Leveled(p: Pool, p': Pool, s: set<Address>, level: nat) {
    && PendingCut(p, p')
    && forall a: Address ::
         Size(p'.pending, a) == if a in s && level < Size(p.pending, a) then level else Size(p.pending, a)
  }

  lemma LevelIsLeveled(p: Pool, p': Pool, offenders: seq<Address>, rest: set<Address>, s: set<Address>, level: nat)
    requires PendingCut(p, p') && Level(p, p', offenders, rest, level)
    requires forall a: Address :: a in s <==> a in offenders || a in rest
    ensures Leveled(p, p', s, level)
  {
    forall a: Address
      ensures Size(p'.pending, a) == if a in s && level < Size(p.pending, a) then level else Size(p.pending, a)
    {
      if a in offenders {
        var i :| 0 <= i < |offenders| && offenders[i] == a;
      }
    }
  }

  /** Brings the pool back to its limit, if it is above it, at the cost of the accounts that have most, and
      never further below the limit than one transaction of each of them. */
  method Equalize(p: Pool, c: Config, local: Hash -> bool, ghost n: nat) returns (p': Pool, ghost s: set<Address>, ghost level: nat)
    requires Inv(p) && forall a: Address :: a in p.pending ==> a < n
    ensures Inv(p') && Leveled(p, p', s, level) && level >= c.accountSlots
    ensures Total(p.pending, n) <= c.globalSlots ==> p' == p
    ensures Total(p.pending, n) > c.globalSlots ==> Spamming(p, c.accountSlots, local, s, {}) && Total(p'.pending, n) + |s| > c.globalSlots
    ensures Total(p'.pending, n) <= c.globalSlots || forall a: Address :: Size(p'.pending, a) > c.accountSlots ==> HasLocal(p', local, a)
  {
    p', s, level := p, {}, c.accountSlots;
    var pending: nat := CountPending(p, n);
    if pending <= c.globalSlots { return; }
    var rest := Spammers(p, c.accountSlots, local);
    s, level := rest, c.accountSlots + pending + 1;
    var offenders: seq<Address>;
    forall a: Address | a in rest
      ensures Size(p.pending, a) <= level && a < n
    {
      SizeAtMost(p.pending, a, n);
    }
    p', offenders, rest, level, pending := Penalize(p, c, rest, level, pending, n);
    if pending > c.globalSlots && |offenders| > 0 {
      ghost var p1, level1 := p', level;
      p', pending, level := LowerTo(p', offenders, c.accountSlots, c.globalSlots, level, pending, n);
      PendingCutOn(p, p1, p');
      LevelEnd(p, p1, p', offenders, rest, level1, level);
    }
    LevelIsLeveled(p, p', offenders, rest, s, level);
    forall a: Address | pending > c.globalSlots && Size(p'.pending, a) > c.accountSlots
      ensures HasLocal(p', local, a)
    {
      StillLocal(p, p', c, local, s, level, a);
    }
  }

  /** Takes one account after the other down to the next, until the pool is within its limit or there
      are no more accounts to take. */
  method Penalize(p: Pool, c: Config, s: set<Address>, ghost level: nat, pending: nat, ghost n: nat)
    returns (p': Pool, offenders: seq<Address>, rest: set<Address>, ghost level': nat, pending': nat)
    requires Inv(p) && pending == Total(p.pending, n) && pending > c.globalSlots && level > c.accountSlots
    requires forall a: Address :: a in s ==> a < n && c.accountSlots < Size(p.pending, a) <= level
    ensures Equalizing(p, p', c, offenders, rest, s, level', pending', n)
    ensures pending' <= c.globalSlots || rest == {}
  {
    p', offenders, rest, level', pending' := p, [], s, level, pending;
    while pending' > c.globalSlots && rest != {}
      invariant Equalizing(p, p', c, offenders, rest, s, level', pending', n)
      decreases rest
    {
      var o;
      p', o, level', pending' := NextOffender(p, p', offenders, rest, level', c, pending', n);
      offenders, rest := offenders + [o], rest - {o};
    }
  }

  lemma StillLocal(p: Pool, p': Pool, c: Config, local: Hash -> bool, s: set<Address>, level: nat, a: Address)
    requires Spamming(p, c.accountSlots, local, s, {}) && Leveled(p, p', s, level) && (s == {} || level == c.accountSlots)
    requires Size(p'.pending, a) > c.accountSlots
    ensures HasLocal(p', local, a)
  {
    assert HasLocal(p, local, a) && PendCut(p, p', a);
    LowerSameSize(Pend(p', a), Pend(p, a));
  }

  lemma LowerSameSize(r: Items, m: Items)
    requires Lower(r, m) && |r| == |m|
    ensures r == m
  {
    assert |m.Keys - r.Keys| == 0 by {
      assert r.Keys <= m.Keys;
      assert m.Keys == r.Keys + (m.Keys - r.Keys);
    }
    assert m.Keys - r.Keys == {};
    forall n: nat | n in m
      ensures n in r
    {
      assert n !in m.Keys - r.Keys;
    }
  }

  ghost predicate Equalizing(p: Pool, p': Pool, c: Config, offenders: seq<Address>, rest: set<Address>, s: set<Address>,
                             level: nat, pending: nat, n: nat) {
    && Inv(p') && PendingCut(p, p') && pending == Total(p'.pending, n)
    && Level(p, p', offenders, rest, level) && level > c.accountSlots
    && (pending > c.globalSlots ==> AllHave(p', offenders, level))
    && (forall i :: 0 <= i < |offenders| ==> offenders[i] < n)
    && (forall a: Address :: a in rest ==> a < n && Size(p.pending, a) > c.accountSlots)
    && (forall a: Address :: a in s <==> a in offenders || a in rest)
    && |offenders| + |rest| == |s| && pending + |s| > c.globalSlots
  }
}
