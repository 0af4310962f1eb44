/** The light client's transaction pool: which locally sent transactions are pending, which
    are mined and where, as the head moves between branches. */
module LightTxPool {
  import opened Chain

  type TxHash = int

  type Address = nat

  datatype Tx = Tx(hash: TxHash, from: Address, nonce: nat)

  /** The stored block position of a mined transaction. */
  datatype Position = Position(block: Hash, number: nat, index: nat)

  type Bodies = map<Hash, seq<TxHash>>

  /** Recent changes: true means mined, false rolled back, no entry no change. */
  type Changes = map<TxHash, bool>

  /** Mined blocks below the head by more than this are considered permanent. */
  const TX_PERMANENT: nat := 500

  datatype Pool = Pool(
    head: Hash,
    pending: map<TxHash, Tx>,
    mined: map<Hash, seq<Tx>>,
    clearIdx: nat,
    positions: map<TxHash, Position>)

  function SetState(txc: Changes, t: TxHash, mined: bool): Changes {
    if t in txc && txc[t] != mined then txc - {t} else txc[t := mined]
  }

  /** `txc` is exactly the difference between what was pending and what is pending now. */
  ghost predicate Net(txc: Changes, before: map<TxHash, Tx>, now: map<TxHash, Tx>) {
    forall t :: (t in txc && txc[t] <==> t in before && t !in now) && (t in txc && !txc[t] <==> t !in before && t in now)
  }

  /** Recording each move as it happens keeps the net difference. */
  lemma SetStateNet(txc: Changes, before: map<TxHash, Tx>, now: map<TxHash, Tx>, tx: Tx)
    requires Net(txc, before, now)
    ensures tx.hash in now ==> Net(SetState(txc, tx.hash, true), before, now - {tx.hash})
    ensures tx.hash !in now ==> Net(SetState(txc, tx.hash, false), before, now[tx.hash := tx])
  {
  }

  ghost predicate MinedAt(mined: map<Hash, seq<Tx>>, t: TxHash, h: Hash, i: nat) {
    h in mined && i < |mined[h]| && mined[h][i].hash == t
  }

  /** The transaction itself, not only its hash, is mined there. */
  ghost predicate MinedTx(mined: map<Hash, seq<Tx>>, tx: Tx, h: Hash, i: nat) {
    h in mined && i < |mined[h]| && mined[h][i] == tx
  }

  ghost predicate PendingTx(pending: map<TxHash, Tx>, tx: Tx) {
    tx.hash in pending && pending[tx.hash] == tx
  }

  /** A transaction is pending or mined, never both, and mined only once. */
  ghost predicate Exclusive(pending: map<TxHash, Tx>, mined: map<Hash, seq<Tx>>) {
    && (forall t :: t in pending ==> pending[t].hash == t)
    && (forall t, h, i :: MinedAt(mined, t, h, i) ==> t !in pending)
    && (forall t, h, i, h', i' :: MinedAt(mined, t, h, i) && MinedAt(mined, t, h', i') ==> h == h' && i == i')
  }

  /** Mined transactions are in the block they are filed under, at the stored position. */
  ghost predicate Placed(mined: map<Hash, seq<Tx>>, positions: map<TxHash, Position>, all: Headers, bodies: Bodies) {
    forall t, h, i :: MinedAt(mined, t, h, i) ==>
      && t in positions && positions[t].block == h && h in all && positions[t].number == all[h].number
      && h in bodies && positions[t].index < |bodies[h]| && bodies[h][positions[t].index] == t
  }

  /** Every mined block is an ancestor of `head`. */
  ghost predicate OnHead(mined: map<Hash, seq<Tx>>, all: Headers, genesis: Hash, head: Hash) {
    && Closed(all, genesis) && head in all
    && forall h :: h in mined ==> h in all && all[h].number <= all[head].number && Ancestry(all, genesis, head)[all[h].number] == h
  }

  /** No mined block is numbered below `clearIdx`. */
  ghost predicate AboveClear(s: Pool, all: Headers) {
    forall h :: h in s.mined ==> h in all && all[h].number >= s.clearIdx
  }

  /** What holds after every head event, also one that was cut short. */
  ghost predicate Tracked(s: Pool, all: Headers, bodies: Bodies, genesis: Hash) {
    && Exclusive(s.pending, s.mined)
    && Placed(s.mined, s.positions, all, bodies)
    && OnHead(s.mined, all, genesis, s.head)
  }

  /** Moves the transactions mined in a rolled back block back to pending. */
  method RollbackTxs(s: Pool, hash: Hash, txc: Changes, ghost before: map<TxHash, Tx>) returns (s': Pool, txc': Changes)
    requires Exclusive(s.pending, s.mined) && Net(txc, before, s.pending)
    ensures s'.mined == s.mined - {hash} && s'.head == s.head && s'.clearIdx == s.clearIdx
    ensures Exclusive(s'.pending, s'.mined) && Net(txc', before, s'.pending)
    ensures forall t :: t in s'.pending <==> t in s.pending || exists i: nat :: MinedAt(s.mined, t, hash, i)
    ensures forall t :: t in s.pending ==> s'.pending[t] == s.pending[t]
    ensures hash in s.mined ==> forall i :: 0 <= i < |s.mined[hash]| ==> PendingTx(s'.pending, s.mined[hash][i])
    ensures forall t :: t in s'.positions <==> t in s.positions && !exists i: nat :: MinedAt(s.mined, t, hash, i)
    ensures forall t :: t in s'.positions ==> s'.positions[t] == s.positions[t]
  {
    s', txc' := s, txc;
    if hash in s.mined {
      var list := s.mined[hash];
      forall i: nat | i < |list|
        ensures MinedAt(s.mined, list[i].hash, hash, i)
      {
      }
      var pending, positions;
      pending, positions, txc' := Restore(list, s.pending, s.positions, txc, before);
      s' := s.(pending := pending, positions := positions, mined := s.mined - {hash});
      assert forall t, i: nat :: MinedAt(s.mined, t, hash, i) <==> i < |list| && list[i].hash == t;
      assert forall t, h, i :: MinedAt(s'.mined, t, h, i) ==> MinedAt(s.mined, t, h, i);
    }
  }

  /** The loop of `RollbackTxs` over the transactions of the block. */
  method Restore(list: seq<Tx>, was: map<TxHash, Tx>, stored: map<TxHash, Position>, txc: Changes, ghost before: map<TxHash, Tx>)
    returns (pending: map<TxHash, Tx>, positions: map<TxHash, Position>, txc': Changes)
    requires Net(txc, before, was) && forall t :: t in was ==> was[t].hash == t
    requires forall i :: 0 <= i < |list| ==> list[i].hash !in was
    requires forall i, j :: 0 <= i < j < |list| ==> list[i].hash != list[j].hash
    ensures Net(txc', before, pending) && forall t :: t in pending ==> pending[t].hash == t
    ensures forall t :: t in pending <==> t in was || exists i :: 0 <= i < |list| && list[i].hash == t
    ensures forall t :: t in was ==> pending[t] == was[t]
    ensures forall i :: 0 <= i < |list| ==> PendingTx(pending, list[i])
    ensures forall t :: t in positions <==> t in stored && forall i :: 0 <= i < |list| ==> list[i].hash != t
    ensures forall t :: t in positions ==> positions[t] == stored[t]
  {
    pending, positions, txc' := was, stored, txc;
    for k := 0 to |list|
      invariant Net(txc', before, pending)
      invariant forall t :: t in pending ==> pending[t].hash == t
      invariant forall t :: t in pending <==> t in was || exists i :: 0 <= i < k && list[i].hash == t
      invariant forall t :: t in was ==> pending[t] == was[t]
      invariant forall i :: 0 <= i < k ==> PendingTx(pending, list[i])
      invariant forall t :: t in positions <==> t in stored && forall i :: 0 <= i < k ==> list[i].hash != t
      invariant forall t :: t in positions ==> positions[t] == stored[t]
    {
      var tx := list[k];
      SetStateNet(txc', before, pending, tx);
      positions := positions - {tx.hash};
      pending := pending[tx.hash := tx];
      txc' := SetState(txc', tx.hash, false);
    }
  }

  /** Marks the pending transactions found in block `hash`, numbered `idx`, as mined. Fetching
      the block or its receipts may fail, and then nothing has changed. */
  method CheckMinedTxs(s: Pool, hash: Hash, idx: nat, txc: Changes, ghost all: Headers, bodies: Bodies, ghost before: map<TxHash, Tx>)
    returns (s': Pool, txc': Changes, ok: bool)
    requires Exclusive(s.pending, s.mined) && Placed(s.mined, s.positions, all, bodies) && Net(txc, before, s.pending)
    requires hash in all && all[hash].number == idx && hash in bodies && hash !in s.mined
    ensures s'.head == s.head && s'.clearIdx == s.clearIdx
    ensures Exclusive(s'.pending, s'.mined) && Placed(s'.mined, s'.positions, all, bodies) && Net(txc', before, s'.pending)
    ensures !ok ==> s' == s && txc' == txc
    ensures ok ==> forall t :: t in s'.pending <==> t in s.pending && t !in bodies[hash]
    ensures forall t :: t in s'.pending ==> s'.pending[t] == s.pending[t]
    ensures forall h :: h in s'.mined ==> h in s.mined || h == hash
    ensures forall h :: h in s.mined ==> h in s'.mined && s'.mined[h] == s.mined[h]
    ensures ok ==> forall t :: Files(s'.mined, hash, t) <==> t in s.pending && t in bodies[hash]
    ensures hash in s'.mined ==> forall i :: 0 <= i < |s'.mined[hash]| ==> PendingTx(s.pending, s'.mined[hash][i])
    ensures ok ==> (hash in s'.mined <==> exists t :: t in s.pending && t in bodies[hash])
    ensures SameKnown(s, s')
  {
    s', txc', ok := s, txc, true;
    if |s.pending| == 0 { return; }
    var fetched: bool := *;
    if !fetched { ok := false; return; }
    var pending, positions, list;
    pending, positions, list, txc', ok := CollectMined(s.pending, s.positions, txc, hash, idx, bodies[hash], before);
    if !ok { return; }
    s' := s.(pending := pending, positions := positions, mined := if list != [] then s.mined[hash := list] else s.mined);
    MinedStep(s, s', list, hash, all, bodies);
    CheckedKnown(s, s', hash, bodies[hash]);
  }

  /** The loop of `CheckMinedTxs` over the transactions of the block. */
  method CollectMined(was: map<TxHash, Tx>, stored: map<TxHash, Position>, txc: Changes, hash: Hash, idx: nat, body: seq<TxHash>, ghost before: map<TxHash, Tx>)
    returns (pending: map<TxHash, Tx>, positions: map<TxHash, Position>, list: seq<Tx>, txc': Changes, ok: bool)
    requires forall t :: t in was ==> was[t].hash == t
    requires Net(txc, before, was)
    ensures !ok ==> pending == was && positions == stored && txc' == txc
    ensures ok ==> Net(txc', before, pending)
    ensures ok ==> forall t :: t in pending <==> t in was && t !in body
    ensures ok ==> forall t :: t in pending ==> pending[t] == was[t]
    ensures ok ==> Listed(list, was, pending, positions, hash, idx, body)
    ensures ok ==> forall t :: t in stored && t !in was ==> t in positions && positions[t] == stored[t]
  {
    pending, positions, list, txc', ok := was, stored, [], txc, true;
    var haveReceipts := false;
    for k := 0 to |body|
      invariant !haveReceipts ==> pending == was && positions == stored && txc' == txc
      invariant Net(txc', before, pending)
      invariant forall t :: t in pending <==> t in was && t !in body[..k]
      invariant forall t :: t in pending ==> pending[t] == was[t]
      invariant Listed(list, was, pending, positions, hash, idx, body)
      invariant forall t :: t in stored && t !in was ==> t in positions && positions[t] == stored[t]
    {
      var t := body[k];
      if t in pending {
        if !haveReceipts {
          var received: bool := *;
          if !received { ok := false; return; }
          haveReceipts := true;
        }
        var tx := pending[t];
        SetStateNet(txc', before, pending, tx);
        ListedStep(list, was, pending, positions, hash, idx, body, k);
        positions := positions[t := Position(hash, idx, k)];
        pending := pending - {t};
        list := list + [tx];
        txc' := SetState(txc', t, true);
      }
    }
    assert body[..|body|] == body;
  }

  /** The transactions collected so far: once pending, no longer so, each at its position. */
  ghost predicate Listed(list: seq<Tx>, was: map<TxHash, Tx>, pending: map<TxHash, Tx>, positions: map<TxHash, Position>,
                         hash: Hash, number: nat, body: seq<TxHash>) {
    && (forall i :: 0 <= i < |list| ==> PendingTx(was, list[i]) && list[i].hash !in pending && list[i].hash in body)
    && (forall i, j :: 0 <= i < j < |list| ==> list[i].hash != list[j].hash)
    && (forall i :: 0 <= i < |list| ==>
          && list[i].hash in positions && positions[list[i].hash].block == hash && positions[list[i].hash].number == number
          && positions[list[i].hash].index < |body| && body[positions[list[i].hash].index] == list[i].hash)
    && (forall t :: t in was ==> t in pending || exists i :: 0 <= i < |list| && list[i].hash == t)
  }

  lemma ListedStep(list: seq<Tx>, was: map<TxHash, Tx>, pending: map<TxHash, Tx>, positions: map<TxHash, Position>,
                   hash: Hash, number: nat, body: seq<TxHash>, k: nat)
    requires Listed(list, was, pending, positions, hash, number, body)
    requires k < |body| && body[k] in pending && body[k] in was && pending[body[k]] == was[body[k]] && was[body[k]].hash == body[k]
    ensures Listed(list + [pending[body[k]]], was, pending - {body[k]}, positions[body[k] := Position(hash, number, k)], hash, number, body)
  {
    var t, list' := body[k], list + [pending[body[k]]];
    forall u | u in was && u !in pending - {t}
      ensures exists i :: 0 <= i < |list'| && list'[i].hash == u
    {
      if u == t {
        assert list'[|list|].hash == u;
      } else {
        var i :| 0 <= i < |list| && list[i].hash == u;
        assert list'[i].hash == u;
      }
    }
  }

  lemma MinedStep(s: Pool, s': Pool, list: seq<Tx>, hash: Hash, all: Headers, bodies: Bodies)
    requires Exclusive(s.pending, s.mined) && Placed(s.mined, s.positions, all, bodies)
    requires hash in all && hash in bodies && hash !in s.mined
    requires Listed(list, s.pending, s'.pending, s'.positions, hash, all[hash].number, bodies[hash])
    requires forall t :: t in s'.pending ==> t in s.pending && s'.pending[t] == s.pending[t]
    requires forall t :: t in s.positions && t !in s.pending ==> t in s'.positions && s'.positions[t] == s.positions[t]
    requires s'.mined == if list != [] then s.mined[hash := list] else s.mined
    ensures Exclusive(s'.pending, s'.mined) && Placed(s'.mined, s'.positions, all, bodies)
    ensures forall t :: t in s.pending && t !in s'.pending ==> Files(s'.mined, hash, t)
    ensures forall t :: Files(s'.mined, hash, t) ==> t in s.pending && t in bodies[hash]
    ensures hash in s'.mined ==> forall i :: 0 <= i < |s'.mined[hash]| ==> PendingTx(s.pending, s'.mined[hash][i])
    ensures hash in s'.mined <==> exists t :: t in s.pending && t !in s'.pending
  {
    assert list != [] ==> list[0].hash in s.pending && list[0].hash !in s'.pending;
    forall t, h, i | MinedAt(s'.mined, t, h, i)
      ensures if h == hash then t in s.pending && t !in s'.pending else MinedAt(s.mined, t, h, i)
    {
    }
    forall t | t in s.pending && t !in s'.pending
      ensures Files(s'.mined, hash, t)
    {
      var i :| 0 <= i < |list| && list[i].hash == t;
      assert MinedAt(s'.mined, t, hash, i);
    }
  }

  /** `hashes` lists `c` from its top down to just above number `n`. */
  ghost predicate Descends(hashes: seq<Hash>, c: seq<Hash>, n: nat) {
    |hashes| == |c| - 1 - n && forall k: nat {:trigger hashes[k]} :: k < |hashes| ==> hashes[k] == c[|c| - 1 - k]
  }

  lemma DescendsHas(hashes: seq<Hash>, c: seq<Hash>, n: nat, i: nat)
    requires Descends(hashes, c, n) && n < i < |c|
    ensures c[i] in hashes
  {
    assert hashes[|c| - 1 - i] == c[i];
  }

  lemma StepDown(all: Headers, genesis: Hash, top: Hash, x: Header, hashes: seq<Hash>)
    requires Closed(all, genesis) && top in all && OnAncestry(all, genesis, top, x) && x.number > 0
    requires Descends(hashes, Ancestry(all, genesis, top), x.number)
    ensures x.parent in all && OnAncestry(all, genesis, top, all[x.parent]) && all[x.parent].number == x.number - 1
    ensures Descends(hashes + [x.hash], Ancestry(all, genesis, top), x.number - 1)
  {
    ParentOnAncestry(all, genesis, top, x);
    DescendsNext(hashes, Ancestry(all, genesis, top), x.number);
  }

  lemma DescendsNext(hashes: seq<Hash>, c: seq<Hash>, n: nat)
    requires 0 < n < |c| && Descends(hashes, c, n)
    ensures Descends(hashes + [c[n]], c, n - 1)
  {
  }

  /** Walks the old head and the new header back to the last header they share. */
  method Walk(headers: Headers, oldHeader: Header, newHeader: Header, ghost genesis: Hash)
    returns (oldHashes: seq<Hash>, newHashes: seq<Hash>, common: Header)
    requires Closed(headers, genesis) && oldHeader.hash in headers && headers[oldHeader.hash] == oldHeader
    requires newHeader.hash in headers && headers[newHeader.hash] == newHeader
    ensures OnAncestry(headers, genesis, oldHeader.hash, common) && OnAncestry(headers, genesis, newHeader.hash, common)
    ensures Descends(oldHashes, Ancestry(headers, genesis, oldHeader.hash), common.number)
    ensures Descends(newHashes, Ancestry(headers, genesis, newHeader.hash), common.number)
    ensures LastShared(Ancestry(headers, genesis, oldHeader.hash), Ancestry(headers, genesis, newHeader.hash), common.number)
  {
    ghost var c, p := Ancestry(headers, genesis, oldHeader.hash), Ancestry(headers, genesis, newHeader.hash);
    var oldh, newh := oldHeader, newHeader;
    oldHashes, newHashes := [], [];
    while oldh.hash != newh.hash
      invariant OnAncestry(headers, genesis, oldHeader.hash, oldh) && Descends(oldHashes, c, oldh.number)
      invariant OnAncestry(headers, genesis, newHeader.hash, newh) && Descends(newHashes, p, newh.number)
      invariant Apart(c, p, oldh.number, newh.number)
      decreases oldh.number + newh.number
    {
      if oldh.number >= newh.number {
        StepDown(headers, genesis, oldHeader.hash, oldh, oldHashes);
        oldHashes := oldHashes + [oldh.hash];
        oldh := headers[oldh.parent];
      }
      if oldh.number < newh.number {
        StepDown(headers, genesis, newHeader.hash, newh, newHashes);
        newHashes := newHashes + [newh.hash];
        newh := headers[newh.parent];
      }
    }
    common := oldh;
    SharedBelow(headers, genesis, oldHeader.hash, newHeader.hash, common);
  }

  /** Two ancestries differ above number `i` and above number `j`. */
  ghost predicate Apart(c: seq<Hash>, p: seq<Hash>, i: nat, j: nat) {
    forall n: nat :: n < |c| && n < |p| && (n > i || n > j) ==> c[n] != p[n]
  }

  lemma SharedBelow(all: Headers, genesis: Hash, a: Hash, b: Hash, common: Header)
    requires Closed(all, genesis) && a in all && b in all
    requires OnAncestry(all, genesis, a, common) && OnAncestry(all, genesis, b, common)
    requires Apart(Ancestry(all, genesis, a), Ancestry(all, genesis, b), common.number, common.number)
    ensures LastShared(Ancestry(all, genesis, a), Ancestry(all, genesis, b), common.number)
  {
    forall n: nat | n <= common.number
      ensures Ancestry(all, genesis, a)[n] == Ancestry(all, genesis, b)[n]
    {
      AgreeBelow(all, genesis, a, b, common.number, n);
    }
  }

  /** Two ancestries agree up to number `m` and nowhere above it. */
  ghost predicate LastShared(c: seq<Hash>, p: seq<Hash>, m: nat) {
    m < |c| && m < |p| && forall n: nat :: n < |c| && n < |p| ==> (c[n] == p[n] <==> n <= m)
  }

  /** The transactions the pool keeps track of. */
  ghost predicate Known(pending: map<TxHash, Tx>, mined: map<Hash, seq<Tx>>, tx: Tx) {
    PendingTx(pending, tx) || exists h, i: nat :: MinedTx(mined, tx, h, i)
  }

  ghost predicate SameKnown(s: Pool, s': Pool) {
    forall tx :: Known(s.pending, s.mined, tx) <==> Known(s'.pending, s'.mined, tx)
  }

  lemma RolledBack(s: Pool, s': Pool, hash: Hash, all: Headers, bodies: Bodies)
    requires Exclusive(s.pending, s.mined) && Placed(s.mined, s.positions, all, bodies)
    requires s'.mined == s.mined - {hash}
    requires forall t :: t in s'.pending <==> t in s.pending || exists i: nat :: MinedAt(s.mined, t, hash, i)
    requires forall t :: t in s.pending ==> s'.pending[t] == s.pending[t]
    requires hash in s.mined ==> forall i :: 0 <= i < |s.mined[hash]| ==> PendingTx(s'.pending, s.mined[hash][i])
    requires forall t :: t in s'.positions <==> t in s.positions && !exists i: nat :: MinedAt(s.mined, t, hash, i)
    requires forall t :: t in s'.positions ==> s'.positions[t] == s.positions[t]
    ensures Placed(s'.mined, s'.positions, all, bodies) && SameKnown(s, s')
  {
    assert forall t, h, i :: MinedAt(s'.mined, t, h, i) <==> MinedAt(s.mined, t, h, i) && h != hash;
    forall tx
      ensures Known(s.pending, s.mined, tx) <==> Known(s'.pending, s'.mined, tx)
    {
      if h, i: nat :| MinedTx(s.mined, tx, h, i) {
        assert if h == hash then PendingTx(s'.pending, tx) else MinedTx(s'.mined, tx, h, i);
      }
      if h, i: nat :| MinedTx(s'.mined, tx, h, i) { assert MinedTx(s.mined, tx, h, i); }
      if PendingTx(s'.pending, tx) && tx.hash !in s.pending {
        var i: nat :| MinedAt(s.mined, tx.hash, hash, i);
        assert MinedTx(s.mined, tx, hash, i);
      }
    }
  }

  lemma CheckedKnown(s: Pool, s': Pool, hash: Hash, body: seq<TxHash>)
    requires hash !in s.mined
    requires forall t :: t in s'.pending <==> t in s.pending && t !in body
    requires forall t :: t in s'.pending ==> s'.pending[t] == s.pending[t]
    requires forall h :: h in s'.mined ==> h in s.mined || h == hash
    requires forall h :: h in s.mined ==> h in s'.mined && s'.mined[h] == s.mined[h]
    requires forall t :: t in s.pending && t in body ==> exists i: nat :: MinedAt(s'.mined, t, hash, i)
    requires hash in s'.mined ==> forall i :: 0 <= i < |s'.mined[hash]| ==> PendingTx(s.pending, s'.mined[hash][i])
    ensures SameKnown(s, s')
  {
    forall tx
      ensures Known(s.pending, s.mined, tx) <==> Known(s'.pending, s'.mined, tx)
    {
      if h, i: nat :| MinedTx(s.mined, tx, h, i) { assert MinedTx(s'.mined, tx, h, i); }
      if h, i: nat :| MinedTx(s'.mined, tx, h, i) && h != hash { assert MinedTx(s.mined, tx, h, i); }
      if PendingTx(s.pending, tx) && tx.hash in body {
        var i: nat :| MinedAt(s'.mined, tx.hash, hash, i);
        assert MinedTx(s'.mined, tx, hash, i);
      }
    }
  }

  /** Rolls back every block in `hashes`. */
  method RollbackAll(s: Pool, hashes: seq<Hash>, txc: Changes, ghost all: Headers, ghost bodies: Bodies, ghost before: map<TxHash, Tx>)
    returns (s': Pool, txc': Changes)
    requires Exclusive(s.pending, s.mined) && Placed(s.mined, s.positions, all, bodies) && Net(txc, before, s.pending)
    ensures Exclusive(s'.pending, s'.mined) && Placed(s'.mined, s'.positions, all, bodies) && Net(txc', before, s'.pending)
    ensures s'.head == s.head && s'.clearIdx == s.clearIdx && SameKnown(s, s')
    ensures Rolled(s, s', hashes)
  {
    s', txc' := s, txc;
    for k := 0 to |hashes|
      invariant Exclusive(s'.pending, s'.mined) && Placed(s'.mined, s'.positions, all, bodies) && Net(txc', before, s'.pending)
      invariant s'.head == s.head && s'.clearIdx == s.clearIdx && SameKnown(s, s')
      invariant Rolled(s, s', hashes[..k])
    {
      ghost var prev := s';
      s', txc' := RollbackTxs(s', hashes[k], txc', before);
      RolledBack(prev, s', hashes[k], all, bodies);
      assert hashes[..k + 1] == hashes[..k] + [hashes[k]];
      RolledNext(s, prev, s', hashes[..k], hashes[k]);
    }
    assert hashes[..|hashes|] == hashes;
  }

  /** `t` is mined in one of the blocks. */
  ghost predicate MinedIn(mined: map<Hash, seq<Tx>>, t: TxHash, hashes: seq<Hash>) {
    exists h, i: nat :: MinedAt(mined, t, h, i) && h in hashes
  }

  /** Exactly the blocks `hashes` were rolled back, and their mined transactions are pending again. */
  ghost predicate Rolled(s: Pool, s': Pool, hashes: seq<Hash>) {
    && (forall h :: h in s'.mined <==> h in s.mined && h !in hashes)
    && (forall h :: h in s'.mined ==> s'.mined[h] == s.mined[h])
    && (forall t :: t in s'.pending <==> t in s.pending || MinedIn(s.mined, t, hashes))
  }

  lemma RolledNext(s: Pool, s1: Pool, s': Pool, hashes: seq<Hash>, hash: Hash)
    requires Rolled(s, s1, hashes) && s'.mined == s1.mined - {hash}
    requires forall t :: t in s'.pending <==> t in s1.pending || exists i: nat :: MinedAt(s1.mined, t, hash, i)
    ensures Rolled(s, s', hashes + [hash])
  {
    forall t
      ensures t in s'.pending <==> t in s.pending || MinedIn(s.mined, t, hashes + [hash])
    {
      if h, i: nat :| MinedAt(s.mined, t, h, i) && h in hashes + [hash] {
        assert h in hashes ==> MinedIn(s.mined, t, hashes);
        assert h !in hashes ==> MinedAt(s1.mined, t, hash, i);
      }
      if MinedIn(s.mined, t, hashes) {
        var h, i: nat :| MinedAt(s.mined, t, h, i) && h in hashes;
        assert h in hashes + [hash];
      }
      if i: nat :| MinedAt(s1.mined, t, hash, i) {
        assert MinedAt(s.mined, t, hash, i) && hash in hashes + [hash];
      }
    }
  }

  /** Once the blocks above the common header are rolled back, the rest lies below it. */
  lemma RolledToCommon(mined: map<Hash, seq<Tx>>, mined': map<Hash, seq<Tx>>, hashes: seq<Hash>, all: Headers, genesis: Hash, head: Hash, common: Header)
    requires OnHead(mined, all, genesis, head) && OnAncestry(all, genesis, head, common)
    requires Descends(hashes, Ancestry(all, genesis, head), common.number)
    requires forall h :: h in mined' <==> h in mined && h !in hashes
    ensures OnHead(mined', all, genesis, common.hash)
  {
    var c := Ancestry(all, genesis, head);
    AncestryPrefix(all, genesis, head, common.number);
    forall h | h in mined'
      ensures all[h].number <= common.number && Ancestry(all, genesis, common.hash)[all[h].number] == h
    {
      var n := all[h].number;
      if n > common.number {
        DescendsHas(hashes, c, common.number, n);
      } else {
        assert c[..common.number + 1][n] == c[n];
      }
    }
  }

  /** Moving the head up to a child keeps the mined blocks on its ancestry. */
  lemma HeadToChild(mined: map<Hash, seq<Tx>>, mined': map<Hash, seq<Tx>>, all: Headers, genesis: Hash, head: Hash, child: Hash)
    requires OnHead(mined, all, genesis, head) && child in all && all[child].number == all[head].number + 1 && all[child].parent == head
    requires forall h :: h in mined' ==> h in mined || h == child
    ensures child !in mined && OnHead(mined', all, genesis, child)
  {
    assert HasParent(all, child);
    assert Ancestry(all, genesis, child) == Ancestry(all, genesis, head) + [child];
  }

  /** Checks the block above the head and moves the head onto it, unless a fetch fails. */
  method CheckNext(s: Pool, hash: Hash, idx: nat, txc: Changes, ghost all: Headers, bodies: Bodies, ghost genesis: Hash, ghost before: map<TxHash, Tx>)
    returns (s': Pool, txc': Changes, ok: bool)
    requires Tracked(s, all, bodies, genesis) && all.Keys == bodies.Keys && Net(txc, before, s.pending)
    requires hash in all && all[hash].number == all[s.head].number + 1 == idx && all[hash].parent == s.head
    ensures Tracked(s', all, bodies, genesis) && Net(txc', before, s'.pending) && SameKnown(s, s') && s'.clearIdx == s.clearIdx
    ensures s'.head == (if ok then hash else s.head) && (forall h :: h in s'.mined ==> h in s.mined || h == hash)
    ensures forall h :: h in s.mined ==> h in s'.mined && s'.mined[h] == s.mined[h]
    ensures ok ==> forall t :: Files(s'.mined, hash, t) <==> t in s.pending && t in bodies[hash]
    ensures if ok then (forall t :: t in s'.pending <==> t in s.pending && t !in bodies[hash]) else s' == s && txc' == txc
    ensures ok ==> (hash in s'.mined <==> exists t :: t in s.pending && t in bodies[hash])
  {
    HeadToChild(s.mined, s.mined, all, genesis, s.head, hash);
    s', txc', ok := CheckMinedTxs(s, hash, idx, txc, all, bodies, before);
    if ok {
      HeadToChild(s.mined, s'.mined, all, genesis, s.head, hash);
      s' := s'.(head := hash);
    }
  }

  /** Checks the new blocks from the lowest up, moving the head along with each one that
      could be checked; a failed fetch stops the walk at the last checked block. */
  method CheckAll(s: Pool, hashes: seq<Hash>, newHeader: Header, txc: Changes, ghost all: Headers, bodies: Bodies, ghost genesis: Hash, ghost before: map<TxHash, Tx>)
    returns (s': Pool, txc': Changes, ok: bool)
    requires Tracked(s, all, bodies, genesis) && all.Keys == bodies.Keys && Net(txc, before, s.pending)
    requires newHeader.hash in all && all[newHeader.hash] == newHeader && OnAncestry(all, genesis, newHeader.hash, all[s.head])
    requires Descends(hashes, Ancestry(all, genesis, newHeader.hash), all[s.head].number)
    ensures Tracked(s', all, bodies, genesis) && Net(txc', before, s'.pending) && SameKnown(s, s')
    ensures OnAncestry(all, genesis, newHeader.hash, all[s'.head]) && all[s.head].number <= all[s'.head].number
    ensures s'.clearIdx == s.clearIdx && (ok <==> s'.head == newHeader.hash)
    ensures Checked(s, s', Ancestry(all, genesis, newHeader.hash), bodies, all[s.head].number, all[s'.head].number)
    ensures Filed(Ancestry(all, genesis, newHeader.hash), bodies, all[s.head].number, Hashes(s.pending))(s'.mined, all[s'.head].number)
  {
    ghost var p := Ancestry(all, genesis, newHeader.hash);
    s', txc', ok := s, txc, true;
    var i := |hashes|;
    ghost var n: nat := all[s.head].number;
    NothingChecked(s, txc, p, n, all, bodies, genesis, before);
    while i > 0 && ok
      invariant i <= |hashes| <= newHeader.number && n < |p| && (if ok then n == newHeader.number - i else n < newHeader.number)
      invariant Checking(s, p, all, bodies, genesis, before)(s', txc', n)
      decreases i
    {
      i := i - 1;
      s', txc', ok, n := CheckStep(s, s', hashes[i], newHeader.number - i, txc', p, newHeader.hash, all, bodies, genesis, before, n);
    }
    Arrived(s, s', txc', p, n, newHeader, all, bodies, genesis, before);
  }

  lemma NothingChecked(s: Pool, txc: Changes, p: seq<Hash>, n: nat, all: Headers, bodies: Bodies, genesis: Hash, before: map<TxHash, Tx>)
    requires Tracked(s, all, bodies, genesis) && Net(txc, before, s.pending) && s.head in all && n == all[s.head].number
    requires n < |p| && s.head == p[n] && forall i :: 0 <= i < |p| ==> p[i] in bodies
    ensures Checking(s, p, all, bodies, genesis, before)(s, txc, n)
  {
    assert Checked(s, s, p, bodies, n, n);
    assert Filed(p, bodies, n, Hashes(s.pending))(s.mined, n);
    assert CheckedTo(s, s, txc, p, n, all, bodies, genesis, before);
  }

  /** Where the walk has ended. */
  lemma Arrived(s: Pool, s': Pool, txc: Changes, p: seq<Hash>, n: nat, newHeader: Header, all: Headers, bodies: Bodies, genesis: Hash, before: map<TxHash, Tx>)
    requires Closed(all, genesis) && newHeader.hash in all && all[newHeader.hash] == newHeader && p == Ancestry(all, genesis, newHeader.hash)
    requires Checking(s, p, all, bodies, genesis, before)(s', txc, n)
    ensures CheckedTo(s, s', txc, p, n, all, bodies, genesis, before)
    ensures OnAncestry(all, genesis, newHeader.hash, all[s'.head]) && all[s.head].number <= n && (n == newHeader.number <==> s'.head == newHeader.hash)
  {
  }

  /** `CheckedTo` for one walk, as a function of where it has come. */
  ghost function Checking(s: Pool, p: seq<Hash>, all: Headers, bodies: Bodies, genesis: Hash, before: map<TxHash, Tx>): (Pool, Changes, nat) -> bool {
    (s': Pool, txc: Changes, n: nat) => CheckedTo(s, s', txc, p, n, all, bodies, genesis, before)
  }

  /** The blocks of `p` up to number `n` were checked, and the head is there. */
  ghost predicate CheckedTo(s: Pool, s': Pool, txc: Changes, p: seq<Hash>, n: nat, all: Headers, bodies: Bodies, genesis: Hash, before: map<TxHash, Tx>) {
    && Tracked(s', all, bodies, genesis) && Net(txc, before, s'.pending) && SameKnown(s, s') && s'.clearIdx == s.clearIdx
    && s.head in all && n < |p| && s'.head == p[n] && all[s'.head].number == n
    && Checked(s, s', p, bodies, all[s.head].number, n)
    && Filed(p, bodies, all[s.head].number, Hashes(s.pending))(s'.mined, n)
  }

  lemma CheckingMeans(s: Pool, s': Pool, txc: Changes, p: seq<Hash>, n: nat, all: Headers, bodies: Bodies, genesis: Hash, before: map<TxHash, Tx>)
    requires Checking(s, p, all, bodies, genesis, before)(s', txc, n)
    ensures CheckedTo(s, s', txc, p, n, all, bodies, genesis, before)
  {
  }

  method CheckStep(ghost s: Pool, s1: Pool, hash: Hash, n: nat, txc: Changes, ghost p: seq<Hash>, ghost top: Hash,
                   ghost all: Headers, bodies: Bodies, ghost genesis: Hash, ghost before: map<TxHash, Tx>, ghost n0: nat)
    returns (s': Pool, txc': Changes, ok: bool, ghost n': nat)
    requires Closed(all, genesis) && top in all && p == Ancestry(all, genesis, top) && all.Keys == bodies.Keys
    requires OnHead(s.mined, all, genesis, s.head) && n == n0 + 1 < |p| && hash == p[n]
    requires Checking(s, p, all, bodies, genesis, before)(s1, txc, n0)
    ensures n' == (if ok then n else n0) && Checking(s, p, all, bodies, genesis, before)(s', txc', n')
  {
    CheckingMeans(s, s1, txc, p, n0, all, bodies, genesis, before);
    assert Linked(all, p, n);
    HeadToChild(s1.mined, s1.mined, all, genesis, s1.head, hash);
    assert hash !in s.mined;
    s', txc', ok := CheckNext(s1, hash, n, txc, all, bodies, genesis, before);
    n' := if ok then n else n0;
    if ok {
      assert forall i, j :: 0 <= i < j < |p| ==> p[i] != p[j];
      OneMoreChecked(s, s1, s', txc, txc', p, n, all, bodies, genesis, before);
    }
  }

  lemma OneMoreChecked(s: Pool, s1: Pool, s': Pool, txc: Changes, txc': Changes, p: seq<Hash>, n: nat, all: Headers, bodies: Bodies, genesis: Hash, before: map<TxHash, Tx>)
    requires n > 0 && CheckedTo(s, s1, txc, p, n - 1, all, bodies, genesis, before) && n < |p| && p[n] !in s.mined && p[n] !in s1.mined
    requires forall i, j :: 0 <= i < j < |p| ==> p[i] != p[j]
    requires Tracked(s', all, bodies, genesis) && Net(txc', before, s'.pending) && SameKnown(s1, s') && s'.clearIdx == s1.clearIdx
    requires s'.head == p[n] && all[s'.head].number == n
    requires forall t :: t in s'.pending <==> t in s1.pending && t !in bodies[p[n]]
    requires forall h :: h in s'.mined ==> h in s1.mined || h == p[n]
    requires forall h :: h in s1.mined ==> h in s'.mined && s'.mined[h] == s1.mined[h]
    requires forall t :: Files(s'.mined, p[n], t) <==> t in s1.pending && t in bodies[p[n]]
    requires p[n] in s'.mined <==> exists t :: t in s1.pending && t in bodies[p[n]]
    ensures Checking(s, p, all, bodies, genesis, before)(s', txc', n)
  {
    OneMore(s, s1, s', p, bodies, all[s.head].number, n);
    assert SameKnown(s, s');
    assert CheckedTo(s, s', txc', p, n, all, bodies, genesis, before);
  }

  /** `t` is in none of the blocks of `p` above `lo` and below `hi`. */
  ghost predicate Absent(p: seq<Hash>, bodies: Bodies, lo: nat, hi: nat, t: TxHash)
    requires hi <= |p| && forall i :: 0 <= i < |p| ==> p[i] in bodies
  {
    forall n: nat :: lo < n < hi ==> t !in bodies[p[n]]
  }

  /** `t` is in block `n` of `p` and in none of the blocks between `lo` and it. */
  ghost predicate FirstIn(p: seq<Hash>, bodies: Bodies, lo: nat, n: nat, t: TxHash)
    requires n < |p| && forall i :: 0 <= i < |p| ==> p[i] in bodies
  {
    t in bodies[p[n]] && Absent(p, bodies, lo, n, t)
  }

  /** Some pending transaction is found in block `n` first. */
  ghost predicate Found(s: Pool, p: seq<Hash>, bodies: Bodies, lo: nat, n: nat)
    requires n < |p| && forall i :: 0 <= i < |p| ==> p[i] in bodies
  {
    exists t :: t in s.pending && FirstIn(p, bodies, lo, n, t)
  }

  /** The blocks of `p` above `lo` and up to `hi` were checked: what was pending and is in none of them still
      is pending, and those in which something was found first hold it as mined. */
  ghost predicate Checked(s: Pool, s': Pool, p: seq<Hash>, bodies: Bodies, lo: nat, hi: nat) {
    && lo <= hi < |p| && (forall i :: 0 <= i < |p| ==> p[i] in bodies)
    && (forall t :: t in s'.pending <==> t in s.pending && Absent(p, bodies, lo, hi + 1, t))
    && (forall n: nat :: n <= hi ==> (p[n] in s'.mined <==> p[n] in s.mined || (lo < n && Found(s, p, bodies, lo, n))))
    && (forall h :: h in s.mined ==> h in s'.mined && s'.mined[h] == s.mined[h])
  }

  /** Each of the blocks of `p` above `lo` and up to `hi` holds as mined exactly those of `was` that are found
      in it first. */
  ghost function Filed(p: seq<Hash>, bodies: Bodies, lo: nat, was: iset<TxHash>): (map<Hash, seq<Tx>>, nat) -> bool {
    (mined: map<Hash, seq<Tx>>, hi: nat) =>
      && hi < |p| && (forall i :: 0 <= i < |p| ==> p[i] in bodies)
      && forall n: nat, t :: lo < n <= hi ==> (Files(mined, p[n], t) <==> t in was && FirstIn(p, bodies, lo, n, t))
  }

  ghost function Hashes(pending: map<TxHash, Tx>): iset<TxHash> {
    iset t | t in pending
  }

  ghost predicate Files(mined: map<Hash, seq<Tx>>, h: Hash, t: TxHash) {
    exists i: nat :: MinedAt(mined, t, h, i)
  }

  lemma CheckedNext(s: Pool, s1: Pool, s': Pool, p: seq<Hash>, bodies: Bodies, lo: nat, n: nat)
    requires 0 < n < |p| && lo < n && Checked(s, s1, p, bodies, lo, n - 1) && p[n] !in s.mined && p[n] !in s1.mined
    requires forall i, j :: 0 <= i < j < |p| ==> p[i] != p[j]
    requires forall t :: t in s'.pending <==> t in s1.pending && t !in bodies[p[n]]
    requires forall h :: h in s'.mined ==> h in s1.mined || h == p[n]
    requires forall h :: h in s1.mined ==> h in s'.mined && s'.mined[h] == s1.mined[h]
    requires p[n] in s'.mined <==> exists t :: t in s1.pending && t in bodies[p[n]]
    ensures Checked(s, s', p, bodies, lo, n)
  {
    FoundNext(s, s1, p, bodies, lo, n);
    forall t
      ensures t in s'.pending <==> t in s.pending && Absent(p, bodies, lo, n + 1, t)
    {
      AbsentNext(p, bodies, lo, n, t);
    }
    forall k: nat | k <= n
      ensures p[k] in s'.mined <==> p[k] in s.mined || (lo < k && Found(s, p, bodies, lo, k))
    {
      if k < n {
        assert p[k] in s1.mined <==> p[k] in s.mined || (lo < k && Found(s, p, bodies, lo, k));
        assert p[k] != p[n];
      }
    }
  }

  lemma OneMore(s: Pool, s1: Pool, s': Pool, p: seq<Hash>, bodies: Bodies, lo: nat, n: nat)
    requires 0 < n < |p| && lo < n && Checked(s, s1, p, bodies, lo, n - 1) && p[n] !in s.mined && p[n] !in s1.mined
    requires Filed(p, bodies, lo, Hashes(s.pending))(s1.mined, n - 1)
    requires forall i, j :: 0 <= i < j < |p| ==> p[i] != p[j]
    requires forall t :: t in s'.pending <==> t in s1.pending && t !in bodies[p[n]]
    requires forall h :: h in s'.mined ==> h in s1.mined || h == p[n]
    requires forall h :: h in s1.mined ==> h in s'.mined && s'.mined[h] == s1.mined[h]
    requires forall t :: Files(s'.mined, p[n], t) <==> t in s1.pending && t in bodies[p[n]]
    requires p[n] in s'.mined <==> exists t :: t in s1.pending && t in bodies[p[n]]
    ensures Checked(s, s', p, bodies, lo, n) && Filed(p, bodies, lo, Hashes(s.pending))(s'.mined, n)
  {
    CheckedNext(s, s1, s', p, bodies, lo, n);
    FiledNext(s, s1, s', p, bodies, lo, n);
  }

  lemma FiledNext(s: Pool, s1: Pool, s': Pool, p: seq<Hash>, bodies: Bodies, lo: nat, n: nat)
    requires lo < n < |p| && Filed(p, bodies, lo, Hashes(s.pending))(s1.mined, n - 1)
    requires forall i, j :: 0 <= i < j < |p| ==> p[i] != p[j]
    requires forall i :: 0 <= i < |p| ==> p[i] in bodies
    requires forall t :: t in s1.pending <==> t in s.pending && Absent(p, bodies, lo, n, t)
    requires forall h :: h in s'.mined ==> h in s1.mined || h == p[n]
    requires forall h :: h in s1.mined ==> h in s'.mined && s'.mined[h] == s1.mined[h]
    requires forall t :: Files(s'.mined, p[n], t) <==> t in s1.pending && t in bodies[p[n]]
    ensures Filed(p, bodies, lo, Hashes(s.pending))(s'.mined, n)
  {
    forall k: nat, t | lo < k <= n
      ensures Files(s'.mined, p[k], t) <==> t in Hashes(s.pending) && FirstIn(p, bodies, lo, k, t)
    {
      if k < n {
        assert p[k] != p[n];
        FilesNext(s1.mined, s'.mined, p[k], p[n], t);
        assert Files(s1.mined, p[k], t) <==> t in Hashes(s.pending) && FirstIn(p, bodies, lo, k, t);
      }
    }
  }

  lemma FilesNext(mined: map<Hash, seq<Tx>>, mined': map<Hash, seq<Tx>>, h: Hash, hash: Hash, t: TxHash)
    requires forall g :: g in mined' ==> g in mined || g == hash
    requires forall g :: g in mined ==> g in mined' && mined'[g] == mined[g]
    ensures h != hash ==> (Files(mined', h, t) <==> Files(mined, h, t))
  {
    assert forall i: nat :: h != hash ==> (MinedAt(mined', t, h, i) <==> MinedAt(mined, t, h, i));
  }

  lemma AbsentNext(p: seq<Hash>, bodies: Bodies, lo: nat, n: nat, t: TxHash)
    requires lo < n < |p| && forall i :: 0 <= i < |p| ==> p[i] in bodies
    ensures Absent(p, bodies, lo, n + 1, t) <==> Absent(p, bodies, lo, n, t) && t !in bodies[p[n]]
  {
  }

  lemma FoundNext(s: Pool, s1: Pool, p: seq<Hash>, bodies: Bodies, lo: nat, n: nat)
    requires lo < n < |p| && forall i :: 0 <= i < |p| ==> p[i] in bodies
    requires forall t :: t in s1.pending <==> t in s.pending && Absent(p, bodies, lo, n, t)
    ensures Found(s, p, bodies, lo, n) <==> exists t :: t in s1.pending && t in bodies[p[n]]
  {
    if Found(s, p, bodies, lo, n) {
      var t :| t in s.pending && FirstIn(p, bodies, lo, n, t);
      assert t in s1.pending && t in bodies[p[n]];
    }
    if t :| t in s1.pending && t in bodies[p[n]] { assert FirstIn(p, bodies, lo, n, t); }
  }

  /** The canonical index names `h`, and its number is in the range being cleared. */
  ghost predicate Cleared(h: Hash, lo: nat, hi: nat, canon: map<nat, Hash>, all: Headers) {
    h in all && lo <= all[h].number < hi && all[h].number in canon && canon[all[h].number] == h
  }

  /** Forgets the mined blocks the canonical index names for numbers that are now permanent.
      No mined block is left below the new limit exactly when the index agrees with the ancestry of
      the head wherever a block of it is mined there. */
  method ClearOld(s: Pool, number: nat, canon: map<nat, Hash>, ghost all: Headers, ghost bodies: Bodies, ghost genesis: Hash) returns (s': Pool)
    requires Tracked(s, all, bodies, genesis)
    requires forall i: nat :: i in canon && canon[i] in all ==> all[canon[i]].number == i
    ensures Tracked(s', all, bodies, genesis) && s'.head == s.head && s'.pending == s.pending && s'.positions == s.positions
    ensures s'.clearIdx == if number > s.clearIdx + 500 then number - 500 else s.clearIdx
    ensures forall h :: h in s'.mined <==> h in s.mined && !Cleared(h, s.clearIdx, s'.clearIdx, canon, all)
    ensures forall h :: h in s'.mined ==> s'.mined[h] == s.mined[h]
    ensures AboveClear(s, all) ==> (AboveClear(s', all) <==> IndexNames(s.mined, Ancestry(all, genesis, s.head), s'.clearIdx, canon))
  {
    s' := s;
    if number > s.clearIdx + TX_PERMANENT {
      var limit := number - TX_PERMANENT;
      var mined := s.mined;
      if |s.mined| > 0 {
        var i := s.clearIdx;
        while i < limit
          invariant s.clearIdx <= i <= limit
          invariant forall h :: h in mined <==> h in s.mined && !Cleared(h, s.clearIdx, i, canon, all)
          invariant forall h :: h in mined ==> mined[h] == s.mined[h]
        {
          if i in canon && canon[i] in mined { mined := mined - {canon[i]}; }
          i := i + 1;
        }
      }
      s' := s.(mined := mined, clearIdx := limit);
      assert forall t, h, i :: MinedAt(s'.mined, t, h, i) ==> MinedAt(s.mined, t, h, i);
    }
    if AboveClear(s, all) { ClearsAll(s, s', canon, all, bodies, genesis); }
  }

  /** Below `limit`, the index names every block of `p` that is mined. */
  ghost predicate IndexNames(mined: map<Hash, seq<Tx>>, p: seq<Hash>, limit: nat, canon: map<nat, Hash>) {
    forall n: nat :: n < limit && n < |p| && p[n] in mined ==> n in canon && canon[n] == p[n]
  }

  lemma ClearsAll(s: Pool, s': Pool, canon: map<nat, Hash>, all: Headers, bodies: Bodies, genesis: Hash)
    requires Tracked(s, all, bodies, genesis) && AboveClear(s, all)
    requires forall h :: h in s'.mined <==> h in s.mined && !Cleared(h, s.clearIdx, s'.clearIdx, canon, all)
    ensures AboveClear(s', all) <==> IndexNames(s.mined, Ancestry(all, genesis, s.head), s'.clearIdx, canon)
  {
    var p := Ancestry(all, genesis, s.head);
    if IndexNames(s.mined, p, s'.clearIdx, canon) {
      forall h | h in s'.mined
        ensures all[h].number >= s'.clearIdx
      {
        assert p[all[h].number] == h;
      }
    } else {
      var n: nat :| n < s'.clearIdx && n < |p| && p[n] in s.mined && !(n in canon && canon[n] == p[n]);
      var h := p[n];
      assert all[h].number == n && !Cleared(h, s.clearIdx, s'.clearIdx, canon, all);
      assert h in s'.mined;
    }
  }

  // What a head event does

  /** A transaction that is pending once the blocks that are not on `p` are rolled back. */
  ghost predicate Loose(s: Pool, p: seq<Hash>, t: TxHash) {
    t in s.pending || exists h, i: nat :: MinedAt(s.mined, t, h, i) && h !in p
  }

  /** Block `n` of the new ancestry `p`, which leaves the old one above number `meet`, will hold mined
      transactions: those it holds already or those that are found in it first. */
  ghost predicate WillHold(s: Pool, p: seq<Hash>, bodies: Bodies, meet: nat, n: nat)
    requires n < |p| && forall i :: 0 <= i < |p| ==> p[i] in bodies
  {
    if n <= meet then p[n] in s.mined else exists t :: Loose(s, p, t) && FirstIn(p, bodies, meet, n, t)
  }

  /** `Loose`, of the transaction itself. */
  ghost predicate LooseTx(s: Pool, p: seq<Hash>, tx: Tx) {
    PendingTx(s.pending, tx) || exists h, i: nat :: MinedTx(s.mined, tx, h, i) && h !in p
  }

  /** What the transactions are after a head event: those pending and those newly mined are, unchanged, ones
      that were pending or were rolled back, and a block that stays mined keeps its list. */
  ghost predicate Unchanged(s: Pool, u: Pool, p: seq<Hash>) {
    && (forall t :: t in u.pending ==> u.pending[t].hash == t && LooseTx(s, p, u.pending[t]))
    && (forall h :: h in u.mined && h in s.mined ==> u.mined[h] == s.mined[h])
    && (forall h, i :: h in u.mined && h !in s.mined && 0 <= i < |u.mined[h]| ==> LooseTx(s, p, u.mined[h][i]))
  }

  /** No transaction being lost or gained, and none mined twice, they can only have come from there. */
  lemma OnlyMoved(s: Pool, u: Pool, p: seq<Hash>)
    requires SameKnown(s, u) && Exclusive(u.pending, u.mined)
    requires forall h :: h in u.mined ==> h in p
    requires forall h :: h in s.mined && h in p ==> h in u.mined && u.mined[h] == s.mined[h]
    ensures Unchanged(s, u, p)
  {
    forall tx | PendingTx(u.pending, tx)
      ensures LooseTx(s, p, tx)
    {
      assert Known(s.pending, s.mined, tx);
      if !PendingTx(s.pending, tx) {
        var h, i: nat :| MinedTx(s.mined, tx, h, i);
        assert h in p ==> MinedAt(u.mined, tx.hash, h, i);
      }
    }
    forall h, i: nat | h in u.mined && h !in s.mined && i < |u.mined[h]|
      ensures LooseTx(s, p, u.mined[h][i])
    {
      var tx := u.mined[h][i];
      assert MinedTx(u.mined, tx, h, i) && MinedAt(u.mined, tx.hash, h, i);
      assert Known(s.pending, s.mined, tx);
      if !PendingTx(s.pending, tx) {
        var h', i': nat :| MinedTx(s.mined, tx, h', i');
        assert h' in p ==> MinedAt(u.mined, tx.hash, h', i');
      }
    }
  }

  /** `u` is `s` after a head event that checked the blocks of `p` up to number `hi`, before old blocks
      are cleared. */
  ghost predicate Moved(s: Pool, u: Pool, p: seq<Hash>, bodies: Bodies, meet: nat, hi: nat) {
    && meet <= hi < |p| && (forall i :: 0 <= i < |p| ==> p[i] in bodies)
    && (forall t :: t in u.pending <==> Loose(s, p, t) && Absent(p, bodies, meet, hi + 1, t))
    && (forall n: nat :: n <= hi ==> (p[n] in u.mined <==> WillHold(s, p, bodies, meet, n)))
    && u.clearIdx == if meet < s.clearIdx then meet else s.clearIdx
  }

  /** All of what a head event does before old blocks are cleared: which transactions end up pending, which
      blocks hold mined ones and which ones those are, and that no transaction is lost, gained or altered. */
  ghost function HeadEvent(s: Pool, p: seq<Hash>, bodies: Bodies, meet: nat): (Pool, nat) -> bool {
    (u: Pool, hi: nat) =>
      && Moved(s, u, p, bodies, meet, hi)
      && Filed(p, bodies, meet, iset t | Loose(s, p, t))(u.mined, hi)
      && SameKnown(s, u) && Unchanged(s, u, p)
  }

  /** Blocks that the two ancestries share keep what is mined in them. */
  lemma EventKeeps(s: Pool, u: Pool, p: seq<Hash>, bodies: Bodies, meet: nat, hi: nat, n: nat)
    requires HeadEvent(s, p, bodies, meet)(u, hi) && n <= meet && n < |p| && p[n] in s.mined
    ensures p[n] in u.mined && u.mined[p[n]] == s.mined[p[n]] && u.clearIdx == if meet < s.clearIdx then meet else s.clearIdx
  {
    assert Moved(s, u, p, bodies, meet, hi);
    assert Unchanged(s, u, p);
    assert WillHold(s, p, bodies, meet, n);
    var h := p[n];
    assert h in u.mined && h in s.mined;
    assert u.mined[h] == s.mined[h];
  }

  lemma EventDone(s: Pool, s1: Pool, u: Pool, p: seq<Hash>, bodies: Bodies, meet: nat, hi: nat)
    requires SameKnown(s, s1) && SameKnown(s1, u) && Exclusive(u.pending, u.mined)
    requires Checked(s1, u, p, bodies, meet, hi) && Filed(p, bodies, meet, Hashes(s1.pending))(u.mined, hi)
    requires forall i, j :: 0 <= i < j < |p| ==> p[i] != p[j]
    requires forall t :: t in s1.pending <==> Loose(s, p, t)
    requires forall h :: h in s1.mined <==> h in s.mined && h in p
    requires forall h :: h in s1.mined ==> s1.mined[h] == s.mined[h]
    requires forall n: nat :: meet < n < |p| ==> p[n] !in s1.mined
    requires forall h :: h in u.mined ==> h in p
    requires u.clearIdx == if meet < s.clearIdx then meet else s.clearIdx
    ensures HeadEvent(s, p, bodies, meet)(u, hi)
  {
    MovedAfter(s, s1, u, p, bodies, meet, hi);
    assert SameKnown(s, u);
    assert forall h :: h in s.mined && h in p ==> h in u.mined && u.mined[h] == s.mined[h];
    OnlyMoved(s, u, p);
    assert Hashes(s1.pending) == iset t | Loose(s, p, t);
  }

  /** The index agrees with the new ancestry below `limit`, wherever that will hold mined transactions. */
  ghost predicate IndexFollows(s: Pool, p: seq<Hash>, bodies: Bodies, meet: nat, limit: nat, canon: map<nat, Hash>)
    requires forall i :: 0 <= i < |p| ==> p[i] in bodies
  {
    forall n: nat :: n < limit && n < |p| && WillHold(s, p, bodies, meet, n) ==> n in canon && canon[n] == p[n]
  }

  lemma MovedAfter(s: Pool, s1: Pool, u: Pool, p: seq<Hash>, bodies: Bodies, meet: nat, hi: nat)
    requires Checked(s1, u, p, bodies, meet, hi) && forall i, j :: 0 <= i < j < |p| ==> p[i] != p[j]
    requires forall t :: t in s1.pending <==> Loose(s, p, t)
    requires forall h :: h in s1.mined <==> h in s.mined && h in p
    requires forall n: nat :: meet < n < |p| ==> p[n] !in s1.mined
    requires u.clearIdx == if meet < s.clearIdx then meet else s.clearIdx
    ensures Moved(s, u, p, bodies, meet, hi)
  {
    forall n: nat | n <= hi
      ensures p[n] in u.mined <==> WillHold(s, p, bodies, meet, n)
    {
      assert p[n] in p;
      HoldsAfter(s, s1, u, p, bodies, meet, hi, n);
    }
  }

  lemma HoldsAfter(s: Pool, s1: Pool, u: Pool, p: seq<Hash>, bodies: Bodies, meet: nat, hi: nat, n: nat)
    requires Checked(s1, u, p, bodies, meet, hi) && n <= hi
    requires forall t :: t in s1.pending <==> Loose(s, p, t)
    requires p[n] in s1.mined <==> p[n] in s.mined && n <= meet
    ensures p[n] in u.mined <==> WillHold(s, p, bodies, meet, n)
  {
    assert p[n] in u.mined <==> p[n] in s1.mined || (meet < n && Found(s1, p, bodies, meet, n));
    if n > meet { LooseFound(s, s1, p, bodies, meet, n); }
  }

  lemma LooseFound(s: Pool, s1: Pool, p: seq<Hash>, bodies: Bodies, meet: nat, n: nat)
    requires meet < n < |p| && forall i :: 0 <= i < |p| ==> p[i] in bodies
    requires forall t :: t in s1.pending <==> Loose(s, p, t)
    ensures Found(s1, p, bodies, meet, n) <==> WillHold(s, p, bodies, meet, n)
  {
    if Found(s1, p, bodies, meet, n) {
      var t :| t in s1.pending && FirstIn(p, bodies, meet, n, t);
      assert Loose(s, p, t);
    }
    if t :| Loose(s, p, t) && FirstIn(p, bodies, meet, n, t) { assert t in s1.pending; }
  }

  /** A head event, as a step on the pool: see `TxPool.ReorgOnNewHead`. */
  method Reorg(s: Pool, newHeader: Header, headers: Headers, canon: map<nat, Hash>, bodies: Bodies, ghost genesis: Hash)
    returns (s': Pool, txc: Changes, ok: bool, ghost unclear: Pool, ghost meet: nat)
    requires Tracked(s, headers, bodies, genesis) && headers.Keys == bodies.Keys
    requires newHeader.hash in headers && headers[newHeader.hash] == newHeader
    requires forall i: nat :: i in canon && canon[i] in headers ==> headers[canon[i]].number == i
    ensures Tracked(s', headers, bodies, genesis) && Net(txc, s.pending, s'.pending)
    ensures s'.pending == unclear.pending && s'.head == unclear.head
    ensures LastShared(Ancestry(headers, genesis, s.head), Ancestry(headers, genesis, newHeader.hash), meet)
    ensures OnAncestry(headers, genesis, newHeader.hash, headers[s'.head])
    ensures HeadEvent(s, Ancestry(headers, genesis, newHeader.hash), bodies, meet)(unclear, headers[s'.head].number)
    ensures (ok <==> s'.head == newHeader.hash) && (!ok ==> s' == unclear)
    ensures ok ==> s'.clearIdx == if newHeader.number > unclear.clearIdx + 500 then newHeader.number - 500 else unclear.clearIdx
    ensures ok ==> forall h :: h in s'.mined <==> h in unclear.mined && !Cleared(h, unclear.clearIdx, s'.clearIdx, canon, headers)
    ensures forall h :: h in s'.mined ==> h in unclear.mined && s'.mined[h] == unclear.mined[h]
    ensures AboveClear(s, headers) ==>
              (AboveClear(s', headers) <==>
               (ok ==> IndexFollows(s, Ancestry(headers, genesis, newHeader.hash), bodies, meet, s'.clearIdx, canon)))
  {
    s', txc, ok, meet := MoveTo(s, newHeader, headers, bodies, genesis);
    unclear := s';
    if ok {
      s' := ClearOld(s', newHeader.number, canon, headers, bodies, genesis);
      SameCondition(s, unclear, Ancestry(headers, genesis, newHeader.hash), bodies, meet, s'.clearIdx, canon);
    }
  }

  lemma SameCondition(s: Pool, u: Pool, p: seq<Hash>, bodies: Bodies, meet: nat, limit: nat, canon: map<nat, Hash>)
    requires p != [] && HeadEvent(s, p, bodies, meet)(u, |p| - 1)
    ensures forall i :: 0 <= i < |p| ==> p[i] in bodies
    ensures IndexNames(u.mined, p, limit, canon) <==> IndexFollows(s, p, bodies, meet, limit, canon)
  {
    assert Moved(s, u, p, bodies, meet, |p| - 1);
  }

  /** Rolls back to the last shared header and checks the blocks up to the new one. */
  method MoveTo(s: Pool, newHeader: Header, headers: Headers, bodies: Bodies, ghost genesis: Hash)
    returns (s': Pool, txc: Changes, ok: bool, ghost meet: nat)
    requires Tracked(s, headers, bodies, genesis) && headers.Keys == bodies.Keys
    requires newHeader.hash in headers && headers[newHeader.hash] == newHeader
    ensures Tracked(s', headers, bodies, genesis) && Net(txc, s.pending, s'.pending)
    ensures LastShared(Ancestry(headers, genesis, s.head), Ancestry(headers, genesis, newHeader.hash), meet)
    ensures OnAncestry(headers, genesis, newHeader.hash, headers[s'.head]) && (ok <==> s'.head == newHeader.hash)
    ensures HeadEvent(s, Ancestry(headers, genesis, newHeader.hash), bodies, meet)(s', headers[s'.head].number)
    ensures AboveClear(s, headers) ==> AboveClear(s', headers)
  {
    var newHashes;
    ghost var p := Ancestry(headers, genesis, newHeader.hash);
    s', txc, newHashes, meet := BackToCommon(s, newHeader, headers, bodies, genesis);
    ghost var s1 := s';
    s', txc, ok := CheckAll(s', newHashes, newHeader, txc, headers, bodies, genesis, s.pending);
    AllBelow(s', headers, bodies, genesis, newHeader.hash);
    EventDone(s, s1, s', p, bodies, meet, headers[s'.head].number);
    if AboveClear(s, headers) { StaysAbove(s1, s', newHeader.hash, bodies, headers, genesis, meet); }
  }

  /** Newly mined blocks lie above the limit. */
  lemma StaysAbove(s1: Pool, u: Pool, top: Hash, bodies: Bodies, all: Headers, genesis: Hash, meet: nat)
    requires AboveClear(s1, all) && u.clearIdx == s1.clearIdx <= meet && OnHead(u.mined, all, genesis, u.head)
    requires top in all && OnAncestry(all, genesis, top, all[u.head])
    requires Checked(s1, u, Ancestry(all, genesis, top), bodies, meet, all[u.head].number)
    ensures AboveClear(u, all)
  {
    forall h | h in u.mined
      ensures all[h].number >= u.clearIdx
    {
      var n := all[h].number;
      AgreeBelow(all, genesis, u.head, top, all[u.head].number, n);
      assert Ancestry(all, genesis, top)[n] == h;
    }
  }

  /** The first half of a head event: rolls back to the last header shared with the new head. */
  method BackToCommon(s: Pool, newHeader: Header, headers: Headers, ghost bodies: Bodies, ghost genesis: Hash)
    returns (s': Pool, txc: Changes, newHashes: seq<Hash>, ghost meet: nat)
    requires Tracked(s, headers, bodies, genesis)
    requires newHeader.hash in headers && headers[newHeader.hash] == newHeader
    ensures Tracked(s', headers, bodies, genesis) && Net(txc, s.pending, s'.pending) && SameKnown(s, s')
    ensures (AboveClear(s, headers) ==> AboveClear(s', headers)) && s'.clearIdx == (if meet < s.clearIdx then meet else s.clearIdx)
    ensures OnAncestry(headers, genesis, newHeader.hash, headers[s'.head]) && headers[s'.head].number == meet
    ensures LastShared(Ancestry(headers, genesis, s.head), Ancestry(headers, genesis, newHeader.hash), meet)
    ensures Descends(newHashes, Ancestry(headers, genesis, newHeader.hash), meet)
    ensures forall t :: t in s'.pending <==> Loose(s, Ancestry(headers, genesis, newHeader.hash), t)
    ensures forall h :: h in s'.mined <==> h in s.mined && h in Ancestry(headers, genesis, newHeader.hash)
    ensures forall h :: h in s'.mined ==> s'.mined[h] == s.mined[h]
  {
    var oldHashes, common;
    ghost var c, p := Ancestry(headers, genesis, s.head), Ancestry(headers, genesis, newHeader.hash);
    oldHashes, newHashes, common := Walk(headers, headers[s.head], newHeader, genesis);
    meet := common.number;
    s' := if common.number < s.clearIdx then s.(clearIdx := common.number) else s;
    s', txc := RollbackAll(s', oldHashes, map[], headers, bodies, s.pending);
    RolledToCommon(s.mined, s'.mined, oldHashes, headers, genesis, s.head, common);
    OffNewBranch(s.mined, headers, genesis, s.head, newHeader.hash, oldHashes, meet);
    forall t
      ensures t in s'.pending <==> Loose(s, p, t)
    {
      assert MinedIn(s.mined, t, oldHashes) <==> exists h, i: nat :: MinedAt(s.mined, t, h, i) && h !in p;
    }
    s' := s'.(head := common.hash);
  }

  /** Of the mined blocks, those rolled back are those that the new ancestry does not have. */
  lemma OffNewBranch(mined: map<Hash, seq<Tx>>, all: Headers, genesis: Hash, head: Hash, h': Hash, hashes: seq<Hash>, meet: nat)
    requires OnHead(mined, all, genesis, head) && h' in all
    requires LastShared(Ancestry(all, genesis, head), Ancestry(all, genesis, h'), meet)
    requires Descends(hashes, Ancestry(all, genesis, head), meet)
    ensures forall h :: h in mined ==> (h in hashes <==> h !in Ancestry(all, genesis, h'))
  {
    var c, p := Ancestry(all, genesis, head), Ancestry(all, genesis, h');
    forall h | h in mined
      ensures h in hashes <==> h !in p
    {
      var n := all[h].number;
      assert c[n] == h;
      if n > meet {
        DescendsHas(hashes, c, meet, n);
        assert forall k :: 0 <= k < |p| && p[k] == h ==> k == n;
      } else {
        assert p[n] == h;
        assert forall k: nat :: k < |hashes| ==> all[hashes[k]].number == |c| - 1 - k > meet;
      }
    }
  }

  // Adding

  /** The nonces of accounts in the state after each block. */
  type Nonces = (Hash, Address) -> nat

  /** What a hash stands for. */
  type Content = TxHash -> Tx

  /** Blocks were executed: nonces never go back from a block to its child, and in the state after a block
      every transaction in it is used up. */
  ghost predicate Executed(all: Headers, bodies: Bodies, nonces: Nonces, content: Content) {
    && (forall h, a: Address :: h in all && all[h].number > 0 ==> nonces(all[h].parent, a) <= nonces(h, a))
    && (forall h, k: nat :: h in bodies && k < |bodies[h]| ==> content(bodies[h][k]).nonce < nonces(h, content(bodies[h][k]).from))
  }

  /** The checks on a transaction against the state of the current header of the chain. `sound` stands for
      those that have nothing to do with its nonce. */
  predicate ValidateTx(tx: Tx, current: Hash, nonces: Nonces, sound: bool) {
    sound && nonces(current, tx.from) <= tx.nonce
  }

  lemma {:induction false} NoncesGrow(all: Headers, genesis: Hash, bodies: Bodies, nonces: Nonces, content: Content, h: Hash, i: nat, a: Address)
    requires Closed(all, genesis) && h in all && i <= all[h].number && Executed(all, bodies, nonces, content)
    ensures nonces(Ancestry(all, genesis, h)[i], a) <= nonces(h, a)
    decreases all[h].number
  {
    if i < all[h].number {
      assert HasParent(all, h);
      NoncesGrow(all, genesis, bodies, nonces, content, all[h].parent, i, a);
    }
  }

  /** A transaction that is mined in an ancestor of the current header is refused. */
  lemma MinedIsRefused(s: Pool, tx: Tx, all: Headers, bodies: Bodies, genesis: Hash, current: Hash, nonces: Nonces, content: Content,
                       sound: bool, h: Hash, i: nat)
    requires Tracked(s, all, bodies, genesis) && current in all && Executed(all, bodies, nonces, content) && content(tx.hash) == tx
    requires MinedAt(s.mined, tx.hash, h, i) && h in Ancestry(all, genesis, current)
    ensures !ValidateTx(tx, current, nonces, sound)
  {
    var p := Ancestry(all, genesis, current);
    var n :| 0 <= n < |p| && p[n] == h;
    NoncesGrow(all, genesis, bodies, nonces, content, current, n, tx.from);
    var k := s.positions[tx.hash].index;
    assert bodies[h][k] == tx.hash;
  }

  /** Mined blocks are ancestors of every descendant of the head. */
  lemma MinedBelow(s: Pool, all: Headers, bodies: Bodies, genesis: Hash, current: Hash, h: Hash)
    requires Tracked(s, all, bodies, genesis) && current in all && OnAncestry(all, genesis, current, all[s.head]) && h in s.mined
    ensures h in Ancestry(all, genesis, current)
  {
    var n := all[h].number;
    AgreeBelow(all, genesis, s.head, current, all[s.head].number, n);
    assert Ancestry(all, genesis, current)[n] == h;
  }

  lemma AllBelow(s: Pool, all: Headers, bodies: Bodies, genesis: Hash, current: Hash)
    requires Tracked(s, all, bodies, genesis) && current in all && OnAncestry(all, genesis, current, all[s.head])
    ensures forall h :: h in s.mined ==> h in Ancestry(all, genesis, current)
  {
    forall h | h in s.mined
      ensures h in Ancestry(all, genesis, current)
    {
      MinedBelow(s, all, bodies, genesis, current, h);
    }
  }

  /** Adding a transaction keeps pending and mined exclusive exactly when it is not mined. */
  lemma AddExclusive(s: Pool, tx: Tx)
    requires Exclusive(s.pending, s.mined)
    ensures Exclusive(s.pending[tx.hash := tx], s.mined) <==> forall h, i: nat :: !MinedAt(s.mined, tx.hash, h, i)
  {
    var pending := s.pending[tx.hash := tx];
    if h, i: nat :| MinedAt(s.mined, tx.hash, h, i) {
      assert tx.hash in pending;
    }
  }

  /** Two blocks on genesis, the first with transaction 7. */
  function TwoForks(): Headers {
    map[0 := Header(0, -1, 0, 1), 1 := Header(1, 0, 1, 1), 2 := Header(2, 0, 1, 1)]
  }

  /** The pool's head is the first of two blocks on genesis, in which its transaction is mined, while the
      chain has already moved to the second. The transaction is valid there, and added once more it is both
      pending and mined. */
  lemma AddedAgain()
    ensures var tx, bodies := Tx(7, 5, 0), map[0 := [], 1 := [7], 2 := []];
            var nonces: Nonces, content: Content := (h, a) => if h == 1 && a == 5 then 1 else 0, t => Tx(t, 5, 0);
            var s := Pool(1, map[], map[1 := [tx]], 0, map[7 := Position(1, 1, 0)]);
            && Tracked(s, TwoForks(), bodies, 0) && AboveClear(s, TwoForks()) && Executed(TwoForks(), bodies, nonces, content)
            && content(7) == tx && ValidateTx(tx, 2, nonces, true) && !ValidateTx(tx, 1, nonces, true)
            && !Exclusive(s.pending[7 := tx], s.mined)
  {
    var hs, tx := TwoForks(), Tx(7, 5, 0);
    var s := Pool(1, map[], map[1 := [tx]], 0, map[7 := Position(1, 1, 0)]);
    assert HasParent(hs, 1) && HasParent(hs, 2);
    assert Closed(hs, 0);
    assert Ancestry(hs, 0, 1)[1] == 1;
    assert MinedAt(s.mined, 7, 1, 0);
    AddExclusive(s, tx);
  }

  // An index that has moved on

  /** A line of headers from genesis up to number `n`, and one more on genesis. */
  function Line(n: nat): (hs: Headers)
    ensures forall h :: h in hs <==> -1 <= h <= n
    ensures forall h :: h in hs ==> hs[h] == if h == -1 then Header(-1, 0, 1, 1) else Header(h, h - 1, h, 1)
  {
    if n == 0 then map[-1 := Header(-1, 0, 1, 1), 0 := Header(0, -1, 0, 1)] else Line(n - 1)[n := Header(n, n - 1, n, 1)]
  }

  function LineBodies(n: nat): (bodies: Bodies) {
    map h | h in Line(n) :: if h == 1 then [7] else []
  }

  lemma LineClosed(n: nat)
    ensures Closed(Line(n), 0) && Line(n).Keys == LineBodies(n).Keys
  {
    forall h | h in Line(n) && Line(n)[h].number > 0
      ensures HasParent(Line(n), h)
    {
    }
  }

  lemma {:induction false} LineAncestry(n: nat, k: nat)
    requires k <= n && Closed(Line(n), 0)
    ensures forall i: nat :: i <= k ==> Ancestry(Line(n), 0, k)[i] == i
  {
    if k > 0 {
      LineAncestry(n, k - 1);
      assert HasParent(Line(n), k);
    }
  }

  /** A pool that tracks a transaction in block 1 of the line. */
  function OnLine(): (s: Pool) {
    Pool(1, map[], map[1 := [Tx(7, 5, 0)]], 1, map[7 := Position(1, 1, 0)])
  }

  lemma OnLineTracked(n: nat)
    requires n > 0
    ensures Closed(Line(n), 0) && Tracked(OnLine(), Line(n), LineBodies(n), 0) && AboveClear(OnLine(), Line(n))
    ensures Ancestry(Line(n), 0, 1) == [0, 1]
  {
    LineClosed(n);
    LineAncestry(n, 1);
  }

  /** By the time the pool hears of block `n`, the index names another block 1: the entry for the block it
      tracks stays although it is below the new limit. */
  method StaleEntryStays(n: nat) returns (s': Pool, ok: bool)
    requires n > TX_PERMANENT + 1
    ensures ok ==> s'.clearIdx == n - TX_PERMANENT && 1 in s'.mined && !AboveClear(s', Line(n))
  {
    var hs, bodies := Line(n), LineBodies(n);
    OnLineTracked(n);
    LineClosed(n);
    LineAncestry(n, n);
    var txc;
    ghost var u, meet;
    s', txc, ok, u, meet := Reorg(OnLine(), hs[n], hs, map[0 := 0, 1 := -1], bodies, 0);
    ghost var c, p := Ancestry(hs, 0, 1), Ancestry(hs, 0, n);
    assert c[1] == p[1] == 1;
    assert meet == 1;
    EventKeeps(OnLine(), u, p, bodies, meet, hs[s'.head].number, 1);
  }

  class TxPool {
    var head: Hash
    var pending: map<TxHash, Tx>
    var mined: map<Hash, seq<Tx>>
    var clearIdx: nat
    var positions: map<TxHash, Position>
    const headers: Headers      // the headers of the chain, available back to genesis
    const bodies: Bodies        // what the network serves for them
    const nonces: Nonces        // and the states after them
    ghost const genesis: Hash

    ghost function View(): Pool
      reads this
    {
      Pool(head, pending, mined, clearIdx, positions)
    }

    /** Holds after every head event: each transaction is pending or mined but not both, and
        mined blocks are ancestors of the head, with the stored positions correct. */
    ghost predicate Valid()
      reads this
    {
      headers.Keys == bodies.Keys && Tracked(View(), headers, bodies, genesis)
    }

    constructor (current: Header, headers: Headers, bodies: Bodies, nonces: Nonces, ghost genesis: Hash)
      requires Closed(headers, genesis) && headers.Keys == bodies.Keys && current.hash in headers && headers[current.hash] == current
      ensures Valid() && AboveClear(View(), headers) && head == current.hash && pending == map[] && mined == map[]
    {
      head, clearIdx := current.hash, current.number;
      pending, mined, positions := map[], map[], map[];
      this.headers, this.bodies, this.nonces, this.genesis := headers, bodies, nonces, genesis;
    }

    /** Processes the blocks between the last known head and `newHeader`. `canon` is the
        number-to-hash index of the chain database.

        The changes returned are the net difference, also when fetching fails on the way;
        the head is then the last checked block, and the same invariant holds for the
        next event to continue from. `unclear` is the pool before old entries are dropped:
        up to there no transaction is lost or gained. `meet` is the number up to which the
        old and the new ancestry agree. */
    method ReorgOnNewHead(newHeader: Header, canon: map<nat, Hash>) returns (txc: Changes, ok: bool, ghost unclear: Pool, ghost meet: nat)
      requires Valid()
      requires newHeader.hash in headers && headers[newHeader.hash] == newHeader
      requires forall i: nat :: i in canon && canon[i] in headers ==> headers[canon[i]].number == i
      modifies this
      ensures Valid() && Net(txc, old(pending), pending)
      ensures pending == unclear.pending
      ensures OnAncestry(headers, genesis, newHeader.hash, headers[head]) && (ok <==> head == newHeader.hash)
      ensures LastShared(Ancestry(headers, genesis, old(head)), Ancestry(headers, genesis, newHeader.hash), meet)
      ensures HeadEvent(old(View()), Ancestry(headers, genesis, newHeader.hash), bodies, meet)(unclear, headers[head].number)
      ensures ok ==> clearIdx == if newHeader.number > unclear.clearIdx + 500 then newHeader.number - 500 else unclear.clearIdx
      ensures !ok ==> View() == unclear
      ensures ok ==> forall h :: h in mined <==> h in unclear.mined && !Cleared(h, unclear.clearIdx, clearIdx, canon, headers)
      ensures forall h :: h in mined ==> h in unclear.mined && mined[h] == unclear.mined[h]
      ensures old(AboveClear(View(), headers)) ==>
                (AboveClear(View(), headers) <==>
                 (ok ==> IndexFollows(old(View()), Ancestry(headers, genesis, newHeader.hash), bodies, meet, clearIdx, canon)))
      ensures old(AboveClear(View(), headers)) && Follows(canon, Ancestry(headers, genesis, newHeader.hash), clearIdx) ==>
                AboveClear(View(), headers)
    {
      var s;
      ghost var s0 := View();
      s, txc, ok, unclear, meet := Reorg(Pool(head, pending, mined, clearIdx, positions), newHeader, headers, canon, bodies, genesis);
      FollowsEnough(s0, Ancestry(headers, genesis, newHeader.hash), bodies, meet, s.clearIdx, canon);
      head, pending, mined, clearIdx, positions := s.head, s.pending, s.mined, s.clearIdx, s.positions;
      assert View() == s;
    }

    /** Adds a transaction that validation against the state of the chain's current header lets through.
        Pending and mined stay exclusive unless the chain has left the block in which it is mined. */
    method Add(tx: Tx, current: Hash, sound: bool, ghost content: Content) returns (ok: bool)
      requires Valid() && current in headers
      modifies this`pending
      ensures ok <==> tx.hash !in old(pending) && sound && nonces(current, tx.from) <= tx.nonce
      ensures pending == if ok then old(pending)[tx.hash := tx] else old(pending)
      ensures Valid() <==> !(ok && exists h, i: nat :: MinedAt(mined, tx.hash, h, i))
      ensures Executed(headers, bodies, nonces, content) && content(tx.hash) == tx && OnAncestry(headers, genesis, current, headers[head]) ==> Valid()
      ensures Executed(headers, bodies, nonces, content) && content(tx.hash) == tx && !Valid() ==>
                exists h, i: nat :: MinedAt(mined, tx.hash, h, i) && h !in Ancestry(headers, genesis, current)
    {
      ghost var s := View();
      if Executed(headers, bodies, nonces, content) && content(tx.hash) == tx {
        forall h, i: nat | MinedAt(s.mined, tx.hash, h, i) && h in Ancestry(headers, genesis, current)
          ensures !ValidateTx(tx, current, nonces, sound)
        {
          MinedIsRefused(s, tx, headers, bodies, genesis, current, nonces, content, sound, h, i);
        }
        if OnAncestry(headers, genesis, current, headers[head]) {
          forall h, i: nat | MinedAt(s.mined, tx.hash, h, i)
            ensures h in Ancestry(headers, genesis, current)
          {
            MinedBelow(s, headers, bodies, genesis, current, h);
          }
        }
      }
      if tx.hash in pending || !ValidateTx(tx, current, nonces, sound) { return false; }
      AddExclusive(Pool(head, pending, mined, clearIdx, positions), tx);
      pending := pending[tx.hash := tx];
      ok := true;
    }

    method RemoveTx(hash: TxHash)
      requires Valid()
      modifies this`pending
      ensures Valid() && pending == old(pending) - {hash}
    {
      pending := pending - {hash};
    }
  }

  lemma FollowsEnough(s: Pool, p: seq<Hash>, bodies: Bodies, meet: nat, limit: nat, canon: map<nat, Hash>)
    requires forall i :: 0 <= i < |p| ==> p[i] in bodies
    ensures Follows(canon, p, limit) ==> IndexFollows(s, p, bodies, meet, limit, canon)
  {
  }

  /** The index agrees with `p` below `limit`. */
  ghost predicate Follows(canon: map<nat, Hash>, p: seq<Hash>, limit: nat) {
    forall n: nat :: n < limit && n < |p| ==> n in canon && canon[n] == p[n]
  }
}
