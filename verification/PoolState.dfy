/** The state of the transaction pool: pending and queued transactions of each account, the index of
    all transactions, and the nonces that the next pending transactions will have. */
module PoolState {
  import opened Transactions

  type All = map<Hash, Tx>
  type Accounts = map<Address, Items>

  /** `base` holds the account nonces at the last reset; `nonces` overrides them for accounts with
      pending transactions. */
  datatype Pool = Pool(pending: Accounts, queue: Accounts, all: All, nonces: map<Address, nat>, base: map<Address, nat>)

  function Of(m: Accounts, a: Address): (items: Items) {
    if a in m then m[a] else map[]
  }

  function NonceOf(m: map<Address, nat>, a: Address): (n: nat) {
    if a in m then m[a] else 0
  }

  function Pend(p: Pool, a: Address): (items: Items) { Of(p.pending, a) }
  function Que(p: Pool, a: Address): (items: Items) { Of(p.queue, a) }
  function Base(p: Pool, a: Address): (n: nat) { NonceOf(p.base, a) }

  /** The nonce that comes after the pending transactions. */
  function Pn(p: Pool, a: Address): (n: nat) {
    if a in p.nonces then p.nonces[a] else Base(p, a)
  }

  // The invariant

  predicate InAll(all: All, a: Address, n: nat, tx: Tx) {
    tx.from == a && tx.nonce == n && tx.hash in all && all[tx.hash] == tx
  }

  ghost predicate Listed(all: All, a: Address, m: Items) {
    forall n: nat :: n in m ==> InAll(all, a, n, m[n])
  }

  ghost predicate OkWith(all: All, a: Address, pend: Items, que: Items, lo: nat, pn: nat) {
    && lo <= pn && Spans(pend, lo, pn)
    && (forall n: nat :: n in que ==> n >= pn)
    && Listed(all, a, pend) && Listed(all, a, que)
  }

  /** The pending nonces of an account are those from its nonce up to the pending nonce, the queued
      ones come after these, and all its transactions are in the index. */
  ghost predicate AccountOk(p: Pool, a: Address) {
    OkWith(p.all, a, Pend(p, a), Que(p, a), Base(p, a), Pn(p, a))
  }

  /** Every transaction is filed under its own hash. */
  ghost predicate Keyed(all: All) {
    forall h: Hash :: h in all ==> all[h].hash == h
  }

  ghost predicate Inv(p: Pool) {
    Keyed(p.all) && forall a: Address :: AccountOk(p, a)
  }

  // One account

  /** An account's lists, and the nonce that comes after its pending transactions. */
  datatype Account = Account(pend: Items, que: Items, pn: nat)

  function View(p: Pool, a: Address): (acc: Account) {
    Account(Pend(p, a), Que(p, a), Pn(p, a))
  }

  /** Files a list, or takes it out if it is empty. */
  function Update(m: Accounts, a: Address, items: Items): (m': Accounts)
    ensures Of(m', a) == items && forall b: Address :: b != a ==> Of(m', b) == Of(m, b)
  {
    if items == map[] then m - {a} else m[a := items]
  }

  /** The pool with an account changed. */
  function Store(p: Pool, a: Address, acc: Account, all: All): (p': Pool)
    ensures View(p', a) == acc && p'.all == all && p'.base == p.base
    ensures forall b: Address :: b != a ==> View(p', b) == View(p, b)
  {
    p.(pending := Update(p.pending, a, acc.pend), queue := Update(p.queue, a, acc.que), all := all,
       nonces := p.nonces[a := acc.pn])
  }

  ghost predicate Ok(all: All, a: Address, acc: Account, lo: nat) {
    OkWith(all, a, acc.pend, acc.que, lo, acc.pn)
  }

  lemma StoreKeepsInv(p: Pool, a: Address, acc: Account, all: All)
    requires Inv(p) && Keyed(all) && KeepsOthers(p.all, all, a) && Ok(all, a, acc, Base(p, a))
    ensures Inv(Store(p, a, acc, all)) && Touches(p, Store(p, a, acc, all), a)
  {
    var p' := Store(p, a, acc, all);
    forall b: Address | b != a
      ensures Pend(p', b) == Pend(p, b) && Que(p', b) == Que(p, b) && Pn(p', b) == Pn(p, b)
    {
      assert View(p', b) == View(p, b);
    }
    InvAfter(p, p', a);
  }

  // Changes to one account

  function Hashes(m: Items): (s: set<Hash>) {
    set n | n in m :: m[n].hash
  }

  /** The transactions of other accounts stay in the index. */
  ghost predicate KeepsOthers(all: All, all': All, a: Address) {
    forall h: Hash :: h in all && all[h].from != a ==> h in all' && all'[h] == all[h]
  }

  /** Only account `a` changed. */
  ghost predicate Touches(p: Pool, p': Pool, a: Address) {
    && (forall b: Address :: b != a ==> Pend(p', b) == Pend(p, b) && Que(p', b) == Que(p, b) && Pn(p', b) == Pn(p, b))
    && p'.base == p.base
    && KeepsOthers(p.all, p'.all, a)
  }

  lemma OthersStayListed(all: All, all': All, a: Address, b: Address, m: Items)
    requires KeepsOthers(all, all', a) && a != b && Listed(all, b, m)
    ensures Listed(all', b, m)
  {
    forall n: nat | n in m
      ensures InAll(all', b, n, m[n])
    {
      assert InAll(all, b, n, m[n]);
    }
  }

  lemma OtherStaysOk(p: Pool, p': Pool, a: Address, b: Address)
    requires Touches(p, p', a) && a != b && AccountOk(p, b)
    ensures AccountOk(p', b)
  {
    OthersStayListed(p.all, p'.all, a, b, Pend(p, b));
    OthersStayListed(p.all, p'.all, a, b, Que(p, b));
  }

  lemma InvAfter(p: Pool, p': Pool, a: Address)
    requires Inv(p) && Keyed(p'.all) && Touches(p, p', a) && AccountOk(p', a)
    ensures Inv(p')
  {
    forall b: Address
      ensures AccountOk(p', b)
    {
      assert AccountOk(p, b);
      if b != a { OtherStaysOk(p, p', a, b); }
    }
  }

  // Forgetting and learning transactions

  /** Forgetting listed transactions of an account leaves the others listed. */
  lemma Forget(all: All, a: Address, d: Items, m: Items)
    requires Listed(all, a, d) && Listed(all, a, m) && forall n: nat :: n in m ==> n !in d
    ensures Listed(all - Hashes(d), a, m) && KeepsOthers(all, all - Hashes(d), a)
  {
    forall n: nat | n in m
      ensures InAll(all - Hashes(d), a, n, m[n])
    {
      assert InAll(all, a, n, m[n]);
      forall k: nat | k in d
        ensures d[k].hash != m[n].hash
      {
        assert InAll(all, a, k, d[k]);
      }
    }
    forall h: Hash | h in all && all[h].from != a
      ensures h !in Hashes(d)
    {
      forall k: nat | k in d
        ensures d[k].hash != h
      {
        assert InAll(all, a, k, d[k]);
      }
    }
  }

  lemma Learn(all: All, a: Address, tx: Tx, m: Items)
    requires tx.from == a && (tx.hash !in all || all[tx.hash] == tx) && Listed(all, a, m)
    ensures Listed(all[tx.hash := tx], a, m) && KeepsOthers(all, all[tx.hash := tx], a)
  {
    forall n: nat | n in m
      ensures InAll(all[tx.hash := tx], a, n, m[n])
    {
      assert InAll(all, a, n, m[n]);
    }
  }

  lemma ForgetOne(all: All, a: Address, n: nat, tx: Tx, m: Items)
    requires InAll(all, a, n, tx) && Listed(all, a, m) && n !in m
    ensures Listed(all - {tx.hash}, a, m) && KeepsOthers(all, all - {tx.hash}, a)
  {
    forall k: nat | k in m
      ensures InAll(all - {tx.hash}, a, k, m[k])
    {
      assert InAll(all, a, k, m[k]);
    }
  }
}
