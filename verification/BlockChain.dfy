/** The block chain: fork choice over full blocks, reorganisation between two branches,
    and the transaction lookup table that follows the canonical chain. */
module BlockChain {
  import opened Chain

  type TxHash = int

  datatype Block = Block(header: Header, txs: seq<TxHash>)

  /** Where a transaction sits: block hash, block number and index in the block. */
  datatype Position = Position(block: Hash, number: nat, index: nat)

  type Blocks = map<Hash, Block>
  type Bodies = map<Hash, seq<TxHash>>
  type Lookup = map<TxHash, Position>

  /** The database tables and head pointers of the chain. */
  datatype Db = Db(
    blocks: Blocks,
    tds: map<Hash, int>,
    canon: map<nat, Hash>,
    lookup: Lookup,
    headBlock: Hash,
    headHeader: Hash,
    headFast: Hash)

  datatype WriteStatus = NonStat | Canon | Side

  ghost predicate ParentStored(blocks: Blocks, all: Headers, h: Hash)
    requires h in all
  {
    all[h].parent in blocks
  }

  /** What is stored under a hash is the block that hash stands for (`all`, `bodies`), with
      its total difficulty, and the parents of stored blocks are stored. */
  ghost predicate BlocksOk(db: Db, all: Headers, bodies: Bodies, genesis: Hash) {
    && Closed(all, genesis) && all.Keys == bodies.Keys && genesis in db.blocks
    && (forall h :: h in db.blocks ==> h in all && db.blocks[h] == Block(all[h], bodies[h]))
    && (forall h {:trigger ParentStored(db.blocks, all, h)} :: h in db.blocks && all[h].number > 0 ==> ParentStored(db.blocks, all, h))
    && db.tds.Keys == db.blocks.Keys
    && (forall h {:trigger db.tds[h]} :: h in db.tds ==> db.tds[h] == TotalDifficulty(all, genesis, h))
  }

  /** `p` is the position of `t` within the blocks `c`, at a number of at least `lo`. */
  ghost predicate At(bodies: Bodies, c: seq<Hash>, lo: nat, t: TxHash, p: Position) {
    && lo <= p.number < |c| && c[p.number] == p.block && p.block in bodies
    && p.index < |bodies[p.block]| && bodies[p.block][p.index] == t
  }

  /** The lookup table maps exactly the transactions of the blocks `c` to their positions. */
  ghost predicate LookupIs(lookup: Lookup, bodies: Bodies, c: seq<Hash>) {
    && (forall t :: t in lookup ==> At(bodies, c, 0, t, lookup[t]))
    && (forall t, p :: At(bodies, c, 0, t, p) ==> t in lookup && lookup[t] == p)
  }

  /** No transaction occurs twice along `c`. */
  ghost predicate NoRepeat(bodies: Bodies, c: seq<Hash>) {
    forall t, p, q :: At(bodies, c, 0, t, p) && At(bodies, c, 0, t, q) ==> p == q
  }

  /** The index up to the head is `c`; entries above it may be stale. */
  ghost predicate IndexCovers(canon: map<nat, Hash>, c: seq<Hash>) {
    forall i: nat :: i < |c| ==> i in canon && canon[i] == c[i]
  }

  /** A chain whose head is `head`. */
  ghost predicate DbOk(db: Db, all: Headers, bodies: Bodies, genesis: Hash, head: Hash) {
    && BlocksOk(db, all, bodies, genesis)
    && head in db.blocks && db.headBlock == head
    && IndexCovers(db.canon, Ancestry(all, genesis, head))
    && LookupIs(db.lookup, bodies, Ancestry(all, genesis, head))
  }

  /** No stored block has a higher total difficulty than `head`. */
  ghost predicate Heaviest(db: Db, head: Hash) {
    head in db.tds && forall h :: h in db.tds ==> db.tds[h] <= db.tds[head]
  }

  // ----- collecting the two branches -----

  /** `chain` lists the blocks of `c` from its top down to just above number `n`. */
  ghost predicate Descends(chain: seq<Block>, blocks: Blocks, c: seq<Hash>, n: nat) {
    && |chain| == |c| - 1 - n
    && forall k: nat {:trigger Rung(chain, blocks, c, k)} :: k < |chain| ==> Rung(chain, blocks, c, k)
  }

  ghost predicate Rung(chain: seq<Block>, blocks: Blocks, c: seq<Hash>, k: nat)
    requires k < |chain| < |c|
  {
    c[|c| - 1 - k] in blocks && chain[k] == blocks[c[|c| - 1 - k]]
  }

  lemma DescendsStep(chain: seq<Block>, blocks: Blocks, c: seq<Hash>, n: nat)
    requires 0 < n < |c| && Descends(chain, blocks, c, n) && c[n] in blocks
    ensures Descends(chain + [blocks[c[n]]], blocks, c, n - 1)
  {
    var chain' := chain + [blocks[c[n]]];
    forall k: nat | k < |chain'|
      ensures Rung(chain', blocks, c, k)
    {
      assert k < |chain| ==> Rung(chain, blocks, c, k);
    }
  }

  /** Member `i` of a path of stored blocks. */
  ghost predicate Row(blocks: Blocks, c: seq<Hash>, i: nat)
    requires i < |c|
  {
    && c[i] in blocks && blocks[c[i]].header.number == i && blocks[c[i]].header.hash == c[i]
    && (i > 0 ==> blocks[c[i]].header.parent == c[i - 1])
  }

  ghost predicate Path(blocks: Blocks, c: seq<Hash>) {
    |c| > 0 && forall i: nat {:trigger Row(blocks, c, i)} :: i < |c| ==> Row(blocks, c, i)
  }

  /** Appends blocks to `chain` while walking down from `from` to number `n`. */
  method Reduce(blocks: Blocks, from: Block, n: nat, ghost c: seq<Hash>) returns (chain: seq<Block>, at: Block, ok: bool)
    requires Path(blocks, c) && |c| == from.header.number + 1 && c[from.header.number] in blocks && blocks[c[from.header.number]] == from
    requires n <= from.header.number
    ensures ok && c[n] in blocks && at == blocks[c[n]] && at.header.number == n && Descends(chain, blocks, c, n)
  {
    chain, at := [], from;
    while at.header.number != n
      invariant n <= at.header.number < |c| && c[at.header.number] in blocks && at == blocks[c[at.header.number]]
      invariant Descends(chain, blocks, c, at.header.number)
      decreases at.header.number
    {
      assert Row(blocks, c, at.header.number) && Row(blocks, c, at.header.number - 1);
      DescendsStep(chain, blocks, c, at.header.number);
      chain := chain + [at];
      if at.header.parent !in blocks { return chain, at, false; }
      at := blocks[at.header.parent];
    }
    assert Row(blocks, c, n);
    ok := true;
  }

  /** Walks the old and the new branch back to the block they share, collecting the blocks
      of each from the top down. The walk never runs out of stored blocks. */
  method Branches(blocks: Blocks, oldBlock: Block, newBlock: Block, ghost c: seq<Hash>, ghost p: seq<Hash>)
    returns (oldChain: seq<Block>, newChain: seq<Block>, ok: bool, ghost meet: nat)
    requires Path(blocks, c) && |c| == oldBlock.header.number + 1 && c[oldBlock.header.number] in blocks && blocks[c[oldBlock.header.number]] == oldBlock
    requires Path(blocks, p) && |p| == newBlock.header.number + 1 && p[newBlock.header.number] in blocks && blocks[p[newBlock.header.number]] == newBlock
    requires c[0] == p[0]
    ensures ok && meet < |c| && meet < |p| && c[meet] == p[meet]
    ensures forall i :: meet < i < |c| && i < |p| ==> c[i] != p[i]
    ensures Descends(oldChain, blocks, c, meet) && Descends(newChain, blocks, p, meet)
  {
    var o, n := oldBlock, newBlock;
    oldChain, newChain := [], [];
    if o.header.number > n.header.number {
      oldChain, o, ok := Reduce(blocks, o, n.header.number, c);
    } else {
      newChain, n, ok := Reduce(blocks, n, o.header.number, p);
    }
    meet := o.header.number;
    assert Row(blocks, c, meet) && Row(blocks, p, meet);
    while o.header.hash != n.header.hash
      invariant o.header.number == n.header.number == meet < |c| && meet < |p| && ok
      invariant c[meet] in blocks && o == blocks[c[meet]] && p[meet] in blocks && n == blocks[p[meet]]
      invariant Row(blocks, c, meet) && Row(blocks, p, meet)
      invariant forall i :: meet < i < |c| && i < |p| ==> c[i] != p[i]
      invariant Descends(oldChain, blocks, c, meet) && Descends(newChain, blocks, p, meet)
      decreases meet
    {
      assert meet > 0 && Row(blocks, c, meet - 1) && Row(blocks, p, meet - 1);
      DescendsStep(oldChain, blocks, c, meet);
      DescendsStep(newChain, blocks, p, meet);
      oldChain, newChain := oldChain + [o], newChain + [n];
      if o.header.parent !in blocks || n.header.parent !in blocks { ok := false; return; }
      o, n := blocks[o.header.parent], blocks[n.header.parent];
      meet := meet - 1;
    }
  }

  // ----- rewriting the tables -----

  /** Makes `block` the head and files it under its number; the head header and the head
      fast block follow only if the index did not hold the block yet. */
  function Insert(db: Db, block: Block): Db {
    var updateHeads := block.header.number !in db.canon || db.canon[block.header.number] != block.header.hash;
    var db' := db.(canon := db.canon[block.header.number := block.header.hash], headBlock := block.header.hash);
    if updateHeads then db'.(headHeader := block.header.hash, headFast := block.header.hash) else db'
  }

  /** Files every transaction of `block` under its position. */
  method WriteTransactions(lookup: Lookup, block: Block) returns (r: Lookup)
    ensures Filed(lookup, r, block, |block.txs|)
  {
    r := lookup;
    for i := 0 to |block.txs|
      invariant Filed(lookup, r, block, i)
    {
      r := r[block.txs[i] := Position(block.header.hash, block.header.number, i)];
    }
  }

  /** `r` is `lookup` with the first `n` transactions of `block` filed, the last one of
      a repeated transaction winning. */
  ghost predicate Filed(lookup: Lookup, r: Lookup, block: Block, n: nat)
    requires n <= |block.txs|
  {
    && (forall t :: t in r <==> t in lookup || t in block.txs[..n])
    && (forall t :: t in r && t !in block.txs[..n] ==> r[t] == lookup[t])
    && (forall t :: t in block.txs[..n] ==>
          && r[t].block == block.header.hash && r[t].number == block.header.number
          && r[t].index < n && block.txs[r[t].index] == t)
  }

  ghost predicate Occurs(bodies: Bodies, c: seq<Hash>, lo: nat, t: TxHash) {
    exists p :: At(bodies, c, lo, t, p)
  }

  /** `lookup` is `base` with the transactions of the blocks of `c` numbered `lo` and above filed over it. */
  ghost predicate Overlay(lookup: Lookup, base: Lookup, bodies: Bodies, c: seq<Hash>, lo: nat) {
    && (forall t :: t in lookup ==> At(bodies, c, lo, t, lookup[t]) || (t in base && lookup[t] == base[t]))
    && (forall t, p :: At(bodies, c, lo, t, p) ==> t in lookup && lookup[t] == p)
    && (forall t :: t in base ==> t in lookup)
  }

  lemma OverlayStep(lookup: Lookup, r: Lookup, base: Lookup, bodies: Bodies, c: seq<Hash>, lo: nat, block: Block)
    requires NoRepeat(bodies, c) && lo < |c| && c[lo] in bodies
    requires block.txs == bodies[c[lo]] && block.header.hash == c[lo] && block.header.number == lo
    requires Overlay(lookup, base, bodies, c, lo + 1) && Filed(lookup, r, block, |block.txs|)
    ensures Overlay(r, base, bodies, c, lo)
  {
    assert block.txs[..|block.txs|] == block.txs;
    forall t, p | At(bodies, c, lo, t, p)
      ensures t in r && r[t] == p
    {
      if p.number == lo {
        assert t in block.txs;
        assert At(bodies, c, 0, t, r[t]) && At(bodies, c, 0, t, p);
      } else {
        assert At(bodies, c, lo + 1, t, p);
        if t in block.txs {
          assert At(bodies, c, 0, t, r[t]) && At(bodies, c, 0, t, p);
        }
      }
    }
    forall t | t in r
      ensures At(bodies, c, lo, t, r[t]) || (t in base && r[t] == base[t])
    {
      if t !in block.txs && At(bodies, c, lo + 1, t, lookup[t]) {
        assert At(bodies, c, lo, t, r[t]);
      }
    }
  }

  /** Filing the new branch over the old table and then deleting the transactions that
      only the old branch had leaves exactly the new chain's table. */
  lemma ReorgLookup(base: Lookup, lookup: Lookup, r: Lookup, bodies: Bodies, c: seq<Hash>, p: seq<Hash>, meet: nat)
    requires meet < |c| && meet < |p| && c[..meet + 1] == p[..meet + 1]
    requires LookupIs(base, bodies, c) && NoRepeat(bodies, p)
    requires Overlay(lookup, base, bodies, p, meet + 1)
    requires forall t :: t in r <==> t in lookup && !(Occurs(bodies, c, meet + 1, t) && !Occurs(bodies, p, meet + 1, t))
    requires forall t :: t in r ==> r[t] == lookup[t]
    ensures LookupIs(r, bodies, p)
  {
    assert forall i :: 0 <= i <= meet ==> c[i] == c[..meet + 1][i] == p[..meet + 1][i] == p[i];
    forall t, x | At(bodies, p, 0, t, x)
      ensures t in r && r[t] == x
    {
      if x.number > meet {
        assert At(bodies, p, meet + 1, t, x);
      } else {
        assert At(bodies, c, 0, t, x);
        if At(bodies, p, meet + 1, t, lookup[t]) {
          assert At(bodies, p, 0, t, lookup[t]);
        }
        if Occurs(bodies, c, meet + 1, t) {
          var y :| At(bodies, c, meet + 1, t, y);
          assert At(bodies, c, 0, t, y);
        }
      }
    }
    forall t | t in r
      ensures At(bodies, p, 0, t, r[t])
    {
      if !At(bodies, p, meet + 1, t, lookup[t]) {
        if base[t].number > meet {
          assert At(bodies, c, meet + 1, t, base[t]);
          assert false;
        }
      }
    }
  }

  /** Files the block of `c` numbered `lo`, once those above it have been. */
  method FileBlock(lookup: Lookup, block: Block, ghost base: Lookup, ghost bodies: Bodies, ghost c: seq<Hash>, ghost lo: nat) returns (r: Lookup)
    requires NoRepeat(bodies, c) && lo < |c| && c[lo] in bodies
    requires block.txs == bodies[c[lo]] && block.header.hash == c[lo] && block.header.number == lo
    requires Overlay(lookup, base, bodies, c, lo + 1)
    ensures Overlay(r, base, bodies, c, lo)
  {
    r := WriteTransactions(lookup, block);
    OverlayStep(lookup, r, base, bodies, c, lo, block);
  }

  /** The transactions of `chain`, block by block. */
  function Txs(chain: seq<Block>): seq<TxHash> {
    if chain == [] then [] else Txs(chain[..|chain| - 1]) + chain[|chain| - 1].txs
  }

  lemma TxsSnoc(chain: seq<Block>, k: nat)
    requires k < |chain|
    ensures Txs(chain[..k + 1]) == Txs(chain[..k]) + chain[k].txs
  {
    assert chain[..k + 1][..k] == chain[..k];
  }

  /** What the members of a branch `c` hold, as far as the database has them. */
  ghost predicate BodiesMatch(blocks: Blocks, bodies: Bodies, c: seq<Hash>) {
    Path(blocks, c) && forall i :: 0 <= i < |c| ==> c[i] in bodies && c[i] in blocks && blocks[c[i]].txs == bodies[c[i]]
  }

  lemma {:induction false} TxsOccur(chain: seq<Block>, blocks: Blocks, bodies: Bodies, c: seq<Hash>, n: nat, k: nat, t: TxHash)
    requires BodiesMatch(blocks, bodies, c) && Descends(chain, blocks, c, n) && n < |c| && k <= |chain|
    ensures t in Txs(chain[..k]) <==> Occurs(bodies, c, |c| - k, t)
  {
    if k > 0 {
      var i := |c| - k;
      TxsOccur(chain, blocks, bodies, c, n, k - 1, t);
      assert chain[..k][..k - 1] == chain[..k - 1] && chain[..k][k - 1] == chain[k - 1];
      assert Rung(chain, blocks, c, k - 1);
      if j :| 0 <= j < |bodies[c[i]]| && bodies[c[i]][j] == t {
        assert At(bodies, c, i, t, Position(c[i], i, j));
      }
      var up := i + 1;
      if x :| At(bodies, c, up, t, x) {
        assert At(bodies, c, i, t, x);
      }
      if x :| At(bodies, c, i, t, x) && x.number > i {
        assert At(bodies, c, i + 1, t, x);
      }
    }
  }

  lemma BranchTxs(chain: seq<Block>, blocks: Blocks, bodies: Bodies, c: seq<Hash>, n: nat)
    requires BodiesMatch(blocks, bodies, c) && Descends(chain, blocks, c, n) && n < |c|
    ensures forall t :: t in Txs(chain) <==> Occurs(bodies, c, n + 1, t)
  {
    assert chain[..|chain|] == chain;
    forall t
      ensures t in Txs(chain) <==> Occurs(bodies, c, n + 1, t)
    {
      TxsOccur(chain, blocks, bodies, c, n, |chain|, t);
    }
  }

  /** `db'` is `db` after the blocks of `c` numbered `lo` and above were inserted top down. */
  ghost predicate InsertedFrom(db: Db, db': Db, c: seq<Hash>, lo: nat)
    requires lo <= |c|
  {
    && db'.blocks == db.blocks && db'.tds == db.tds
    && (forall i: nat :: lo <= i < |c| ==> i in db'.canon && db'.canon[i] == c[i])
    && (forall i: nat :: i < lo ==> (i in db'.canon <==> i in db.canon))
    && (forall i: nat :: i < lo && i in db.canon ==> db'.canon[i] == db.canon[i])
    && HeadsAfter(db, db', c, lo)
  }

  ghost predicate Stale(canon: map<nat, Hash>, c: seq<Hash>, i: nat)
    requires i < |c|
  {
    i !in canon || canon[i] != c[i]
  }

  /** The lowest number from `lo` on where the index does not hold `c`. */
  ghost function LowestStale(canon: map<nat, Hash>, c: seq<Hash>, lo: nat): (m: nat)
    requires lo <= |c|
    ensures lo <= m <= |c| && (m < |c| ==> Stale(canon, c, m))
    ensures forall i: nat :: lo <= i < m ==> !Stale(canon, c, i)
    decreases |c| - lo
  {
    if lo == |c| || Stale(canon, c, lo) then lo else LowestStale(canon, c, lo + 1)
  }

  /** Head header and fast head. */
  datatype Heads = Heads(header: Hash, fast: Hash)

  ghost function HeadsOf(db: Db): (heads: Heads) {
    Heads(db.headHeader, db.headFast)
  }

  /** Where head header and fast head go when the blocks of `c` from `lo` on are inserted from the top
      down: to the lowest that the index did not hold, or nowhere. */
  ghost function HeadsFor(canon: map<nat, Hash>, c: seq<Hash>, lo: nat, heads: Heads): (heads': Heads)
    requires lo <= |c|
  {
    var m := LowestStale(canon, c, lo);
    if m < |c| then Heads(c[m], c[m]) else heads
  }

  ghost predicate HeadsAfter(db: Db, db': Db, c: seq<Hash>, lo: nat)
    requires lo <= |c|
  {
    HeadsOf(db') == HeadsFor(db.canon, c, lo, HeadsOf(db))
  }

  lemma InsertStep(db: Db, db': Db, c: seq<Hash>, lo: nat, block: Block)
    requires lo < |c| && InsertedFrom(db, db', c, lo + 1)
    requires block.header.number == lo && block.header.hash == c[lo]
    ensures InsertedFrom(db, Insert(db', block), c, lo)
  {
  }

  lemma RungBlock(chain: seq<Block>, blocks: Blocks, bodies: Bodies, p: seq<Hash>, meet: nat, k: nat)
    requires BodiesMatch(blocks, bodies, p) && meet < |p| && Descends(chain, blocks, p, meet) && k < |chain|
    ensures p[|p| - 1 - k] in bodies && chain[k].txs == bodies[p[|p| - 1 - k]]
    ensures chain[k].header.hash == p[|p| - 1 - k] && chain[k].header.number == |p| - 1 - k
  {
    assert Rung(chain, blocks, p, k) && Row(blocks, p, |p| - 1 - k);
  }

  /** `db` with the blocks of `p` inserted from the top down to a number, and their transactions filed. */
  ghost function Filing(db: Db, bodies: Bodies, p: seq<Hash>): (Db, Lookup, nat) -> bool {
    (db': Db, lookup: Lookup, lo: nat) => lo <= |p| && InsertedFrom(db, db', p, lo) && Overlay(lookup, db.lookup, bodies, p, lo)
  }

  lemma NothingInserted(db: Db, bodies: Bodies, p: seq<Hash>)
    ensures Filing(db, bodies, p)(db, db.lookup, |p|)
  {
    assert InsertedFrom(db, db, p, |p|) && Overlay(db.lookup, db.lookup, bodies, p, |p|);
  }

  method InsertNext(ghost db: Db, db1: Db, lookup: Lookup, block: Block, ghost bodies: Bodies, ghost p: seq<Hash>, ghost lo: nat)
    returns (db': Db, lookup': Lookup)
    requires NoRepeat(bodies, p) && lo < |p| && p[lo] in bodies
    requires block.txs == bodies[p[lo]] && block.header.hash == p[lo] && block.header.number == lo
    requires Filing(db, bodies, p)(db1, lookup, lo + 1)
    ensures Filing(db, bodies, p)(db', lookup', lo)
  {
    assert InsertedFrom(db, db1, p, lo + 1) && Overlay(lookup, db.lookup, bodies, p, lo + 1);
    InsertStep(db, db1, p, lo, block);
    db' := Insert(db1, block);
    lookup' := FileBlock(lookup, block, db.lookup, bodies, p, lo);
    assert InsertedFrom(db, db', p, lo) && Overlay(lookup', db.lookup, bodies, p, lo);
  }

  /** Inserts the blocks of the new branch, from the top down, filing their transactions. */
  method InsertBranch(db: Db, newChain: seq<Block>, ghost bodies: Bodies, ghost p: seq<Hash>, ghost meet: nat)
    returns (db': Db, added: seq<TxHash>)
    requires BodiesMatch(db.blocks, bodies, p) && NoRepeat(bodies, p) && meet < |p| && Descends(newChain, db.blocks, p, meet)
    ensures added == Txs(newChain)
    ensures Overlay(db'.lookup, db.lookup, bodies, p, meet + 1)
    ensures InsertedFrom(db, db', p, meet + 1)
  {
    db', added := db, [];
    var k, lookup := 0, db.lookup;
    ghost var lo := |p|;
    NothingInserted(db, bodies, p);
    while k < |newChain|
      invariant k <= |newChain| && added == Txs(newChain[..k])
      invariant lo == |p| - k && Filing(db, bodies, p)(db', lookup, lo)
    {
      RungBlock(newChain, db.blocks, bodies, p, meet, k);
      assert lo - 1 + 1 == lo;
      lo := lo - 1;
      db', lookup := InsertNext(db, db', lookup, newChain[k], bodies, p, lo);
      TxsSnoc(newChain, k);
      added := added + newChain[k].txs;
      k := k + 1;
    }
    assert newChain[..k] == newChain;
    db' := db'.(lookup := lookup);
  }

  /** The members of `a` that are not in `b`. */
  method TxDifference(a: seq<TxHash>, b: seq<TxHash>) returns (keep: seq<TxHash>)
    ensures forall t :: t in keep <==> t in a && t !in b
  {
    var remove: set<TxHash> := {};
    for i := 0 to |b|
      invariant forall t :: t in remove <==> t in b[..i]
    {
      remove := remove + {b[i]};
    }
    keep := [];
    for i := 0 to |a|
      invariant forall t :: t in keep <==> t in a[..i] && t !in b
    {
      if a[i] !in remove { keep := keep + [a[i]]; }
    }
  }

  /** Deletes the lookup entries of `txs`. */
  method DeleteTransactions(lookup: Lookup, txs: seq<TxHash>) returns (r: Lookup)
    ensures forall t :: t in r <==> t in lookup && t !in txs
    ensures forall t :: t in r ==> r[t] == lookup[t]
  {
    r := lookup;
    for i := 0 to |txs|
      invariant forall t :: t in r <==> t in lookup && t !in txs[..i]
      invariant forall t :: t in r ==> r[t] == lookup[t]
    {
      r := r - {txs[i]};
    }
  }

  lemma AncestryIsPath(db: Db, all: Headers, bodies: Bodies, genesis: Hash, h: Hash)
    requires BlocksOk(db, all, bodies, genesis) && h in db.blocks
    ensures BodiesMatch(db.blocks, bodies, Ancestry(all, genesis, h))
  {
    var c := Ancestry(all, genesis, h);
    forall i: nat | i < |c|
      ensures c[i] in bodies && Row(db.blocks, c, i) && db.blocks[c[i]].txs == bodies[c[i]]
    {
      StoredBelow(db, all, bodies, genesis, h, i);
      assert i > 0 ==> Linked(all, c, i);
      var x := c[i];
      assert x in db.blocks;
    }
  }

  lemma {:induction false} StoredBelow(db: Db, all: Headers, bodies: Bodies, genesis: Hash, h: Hash, i: nat)
    requires BlocksOk(db, all, bodies, genesis) && h in db.blocks && i <= all[h].number
    ensures Ancestry(all, genesis, h)[i] in db.blocks
    decreases all[h].number - i
  {
    var c := Ancestry(all, genesis, h);
    if i < all[h].number {
      StoredBelow(db, all, bodies, genesis, h, i + 1);
      assert Linked(all, c, i + 1) && ParentStored(db.blocks, all, c[i + 1]);
    }
  }

  /** Moves the tables from the branch of `oldBlock` to that of `newBlock`. */
  method Reorg(db: Db, oldBlock: Block, newBlock: Block, ghost all: Headers, ghost bodies: Bodies, ghost genesis: Hash)
    returns (db': Db, ok: bool, ghost meet: nat)
    requires DbOk(db, all, bodies, genesis, oldBlock.header.hash) && db.blocks[oldBlock.header.hash] == oldBlock
    requires newBlock.header.hash in db.blocks && db.blocks[newBlock.header.hash] == newBlock
    requires NoRepeat(bodies, Ancestry(all, genesis, newBlock.header.hash))
    ensures ok && db'.blocks == db.blocks && db'.tds == db.tds
    ensures IndexCovers(db'.canon, Ancestry(all, genesis, newBlock.header.hash))
    ensures LookupIs(db'.lookup, bodies, Ancestry(all, genesis, newBlock.header.hash))
    ensures var c, p := Ancestry(all, genesis, oldBlock.header.hash), Ancestry(all, genesis, newBlock.header.hash);
            && meet < |c| && meet < |p| && c[meet] == p[meet] && (forall i :: meet < i < |c| && i < |p| ==> c[i] != p[i])
            && HeadsAfter(db, db', p, meet + 1)
  {
    ghost var c, p := Ancestry(all, genesis, oldBlock.header.hash), Ancestry(all, genesis, newBlock.header.hash);
    AncestryIsPath(db, all, bodies, genesis, oldBlock.header.hash);
    AncestryIsPath(db, all, bodies, genesis, newBlock.header.hash);
    var oldChain, newChain;
    oldChain, newChain, ok, meet := Branches(db.blocks, oldBlock, newBlock, c, p);
    AncestriesMeet(all, genesis, oldBlock.header.hash, newBlock.header.hash, meet);
    db' := SwitchBranch(db, oldChain, newChain, bodies, c, p, meet);
  }

  /** Files the blocks of the new branch and their transactions, and deletes those that only the old
      branch had. */
  method SwitchBranch(db: Db, oldChain: seq<Block>, newChain: seq<Block>, ghost bodies: Bodies, ghost c: seq<Hash>, ghost p: seq<Hash>, ghost meet: nat)
    returns (db': Db)
    requires BodiesMatch(db.blocks, bodies, c) && BodiesMatch(db.blocks, bodies, p) && NoRepeat(bodies, p)
    requires meet < |c| && meet < |p| && c[..meet + 1] == p[..meet + 1]
    requires Descends(oldChain, db.blocks, c, meet) && Descends(newChain, db.blocks, p, meet)
    requires IndexCovers(db.canon, c) && LookupIs(db.lookup, bodies, c)
    ensures db'.blocks == db.blocks && db'.tds == db.tds && HeadsAfter(db, db', p, meet + 1)
    ensures IndexCovers(db'.canon, p) && LookupIs(db'.lookup, bodies, p)
  {
    var added;
    db', added := InsertBranch(db, newChain, bodies, p, meet);
    var diff := TxDifference(Txs(oldChain), added);
    var lookup := DeleteTransactions(db'.lookup, diff);
    BranchTxs(oldChain, db.blocks, bodies, c, meet);
    BranchTxs(newChain, db.blocks, bodies, p, meet);
    ReorgLookup(db.lookup, db'.lookup, lookup, bodies, c, p, meet);
    BranchIndexed(db, db', c, p, meet);
    ghost var heads := HeadsOf(db');
    db' := db'.(lookup := lookup);
    assert HeadsOf(db') == heads;
  }

  lemma BranchIndexed(db: Db, db': Db, c: seq<Hash>, p: seq<Hash>, meet: nat)
    requires meet < |c| && meet < |p| && c[..meet + 1] == p[..meet + 1]
    requires IndexCovers(db.canon, c) && InsertedFrom(db, db', p, meet + 1)
    ensures IndexCovers(db'.canon, p)
  {
    forall i: nat | i < |p|
      ensures i in db'.canon && db'.canon[i] == p[i]
    {
      if i <= meet { assert c[i] == c[..meet + 1][i] == p[..meet + 1][i]; }
    }
  }

  function StoreBlock(db: Db, block: Block, td: int): Db {
    db.(tds := db.tds[block.header.hash := td], blocks := db.blocks[block.header.hash := block])
  }

  lemma StoreBlockOk(db: Db, all: Headers, bodies: Bodies, genesis: Hash, head: Hash, block: Block, td: int)
    requires DbOk(db, all, bodies, genesis, head)
    requires block.header.hash in all && block == Block(all[block.header.hash], bodies[block.header.hash]) && block.header.number > 0
    requires block.header.parent in db.blocks && td == block.header.difficulty + db.tds[block.header.parent]
    ensures DbOk(StoreBlock(db, block, td), all, bodies, genesis, head)
    ensures td == TotalDifficulty(all, genesis, block.header.hash)
  {
    assert HasParent(all, block.header.hash);
    var db' := StoreBlock(db, block, td);
    forall h | h in db'.blocks && all[h].number > 0
      ensures ParentStored(db'.blocks, all, h)
    {
      assert h in db.blocks ==> ParentStored(db.blocks, all, h);
    }
  }

  /** Extending the chain by one block: the index gains the block, the lookup table its transactions. */
  lemma ExtendOk(db: Db, lookup: Lookup, all: Headers, bodies: Bodies, genesis: Hash, block: Block)
    requires BlocksOk(db, all, bodies, genesis) && block.header.hash in db.blocks && db.blocks[block.header.hash] == block && block.header.number > 0
    requires block.header.parent in db.blocks && IndexCovers(db.canon, Ancestry(all, genesis, block.header.parent))
    requires LookupIs(db.lookup, bodies, Ancestry(all, genesis, block.header.parent))
    requires NoRepeat(bodies, Ancestry(all, genesis, block.header.hash))
    requires Overlay(lookup, db.lookup, bodies, Ancestry(all, genesis, block.header.hash), block.header.number)
    ensures IndexCovers(Insert(db, block).canon, Ancestry(all, genesis, block.header.hash))
    ensures LookupIs(lookup, bodies, Ancestry(all, genesis, block.header.hash))
  {
    var h := block.header.hash;
    assert HasParent(all, h);
    var c, p := Ancestry(all, genesis, block.header.parent), Ancestry(all, genesis, h);
    assert p == c + [h];
    forall t, x | At(bodies, p, 0, t, x)
      ensures t in lookup && lookup[t] == x
    {
      if x.number < block.header.number {
        assert At(bodies, c, 0, t, x);
        if At(bodies, p, block.header.number, t, lookup[t]) { assert At(bodies, p, 0, t, lookup[t]); }
      } else {
        assert At(bodies, p, block.header.number, t, x);
      }
    }
    forall t | t in lookup
      ensures At(bodies, p, 0, t, lookup[t])
    {
      if !At(bodies, p, block.header.number, t, lookup[t]) { assert At(bodies, c, 0, t, lookup[t]); }
    }
  }

  /** Makes a stored block the head, reorganising first if its parent is not the head, and
      then files its transactions. `meet` is where the two branches part. */
  method MakeHead(db: Db, current: Block, block: Block, ghost all: Headers, ghost bodies: Bodies, ghost genesis: Hash)
    returns (db': Db, ok: bool, ghost meet: nat)
    requires DbOk(db, all, bodies, genesis, current.header.hash) && db.blocks[current.header.hash] == current
    requires block.header.hash in db.blocks && db.blocks[block.header.hash] == block && block.header.number > 0
    requires NoRepeat(bodies, Ancestry(all, genesis, block.header.hash))
    ensures ok && db'.blocks == db.blocks && db'.tds == db.tds && DbOk(db', all, bodies, genesis, block.header.hash)
    ensures Meet(Ancestry(all, genesis, current.header.hash), Ancestry(all, genesis, block.header.hash), meet)
    ensures block.header.parent == current.header.hash ==> meet == current.header.number
    ensures HeadsAfter(db, db', Ancestry(all, genesis, block.header.hash), meet + 1)
  {
    assert HasParent(all, block.header.hash) && ParentStored(db.blocks, all, block.header.hash);
    if block.header.parent != current.header.hash {
      db', ok, meet := SwitchHead(db, current, block, all, bodies, genesis);
    } else {
      db' := ExtendHead(db, block, all, bodies, genesis);
      meet, ok := current.header.number, true;
    }
  }

  method SwitchHead(db: Db, current: Block, block: Block, ghost all: Headers, ghost bodies: Bodies, ghost genesis: Hash)
    returns (db': Db, ok: bool, ghost meet: nat)
    requires DbOk(db, all, bodies, genesis, current.header.hash) && db.blocks[current.header.hash] == current
    requires block.header.hash in db.blocks && db.blocks[block.header.hash] == block
    requires NoRepeat(bodies, Ancestry(all, genesis, block.header.hash))
    ensures ok && db'.blocks == db.blocks && db'.tds == db.tds && DbOk(db', all, bodies, genesis, block.header.hash)
    ensures Meet(Ancestry(all, genesis, current.header.hash), Ancestry(all, genesis, block.header.hash), meet)
    ensures HeadsAfter(db, db', Ancestry(all, genesis, block.header.hash), meet + 1)
  {
    ghost var p := Ancestry(all, genesis, block.header.hash);
    db', ok, meet := Reorg(db, current, block, all, bodies, genesis);
    assert !Stale(db'.canon, p, block.header.number);
    db' := Insert(db', block);
    var lookup := WriteTransactions(db'.lookup, block);
    Refiled(db'.lookup, lookup, bodies, p, block);
    db' := db'.(lookup := lookup);
  }

  method ExtendHead(db: Db, block: Block, ghost all: Headers, ghost bodies: Bodies, ghost genesis: Hash) returns (db': Db)
    requires DbOk(db, all, bodies, genesis, block.header.parent)
    requires block.header.hash in db.blocks && db.blocks[block.header.hash] == block && block.header.number > 0
    requires NoRepeat(bodies, Ancestry(all, genesis, block.header.hash))
    ensures db'.blocks == db.blocks && db'.tds == db.tds && DbOk(db', all, bodies, genesis, block.header.hash)
    ensures HeadsAfter(db, db', Ancestry(all, genesis, block.header.hash), block.header.number)
  {
    ghost var p := Ancestry(all, genesis, block.header.hash);
    var lookup := FileBlock(db.lookup, block, db.lookup, bodies, p, block.header.number);
    ExtendOk(db, lookup, all, bodies, genesis, block);
    db' := Insert(db, block).(lookup := lookup);
  }

  /** The last number at which two ancestries agree. */
  ghost predicate Meet(c: seq<Hash>, p: seq<Hash>, meet: nat) {
    meet < |c| && meet < |p| && c[meet] == p[meet] && forall i :: meet < i < |c| && i < |p| ==> c[i] != p[i]
  }

  /** Both branches have blocks above where they meet. */
  ghost predicate Forked(c: seq<Hash>, p: seq<Hash>, meet: nat) {
    meet + 1 < |c| && meet + 1 < |p|
  }

  /** Filing the transactions of a block that the table already covers changes nothing. */
  lemma Refiled(lookup: Lookup, r: Lookup, bodies: Bodies, p: seq<Hash>, block: Block)
    requires LookupIs(lookup, bodies, p) && Filed(lookup, r, block, |block.txs|)
    requires block.header.number < |p| && p[block.header.number] == block.header.hash && block.header.hash in bodies && bodies[block.header.hash] == block.txs
    ensures LookupIs(r, bodies, p)
  {
    assert block.txs[..|block.txs|] == block.txs;
    forall t | t in block.txs
      ensures t in lookup && r[t] == lookup[t]
    {
      assert At(bodies, p, 0, t, r[t]);
    }
  }

  /** Writing a block, as a step on the database: see `BlockChain.InsertBlock`. */
  method Import(db: Db, current: Block, block: Block, coin: bool, ghost all: Headers, ghost bodies: Bodies, ghost genesis: Hash)
    returns (db': Db, status: WriteStatus, ghost meet: nat)
    requires DbOk(db, all, bodies, genesis, current.header.hash) && db.blocks[current.header.hash] == current
    requires block.header.parent in db.blocks ==>
               && block.header.hash in all && block == Block(all[block.header.hash], bodies[block.header.hash]) && block.header.number > 0
               && NoRepeat(bodies, Ancestry(all, genesis, block.header.hash))
    ensures DbOk(db', all, bodies, genesis, if status == Canon then block.header.hash else current.header.hash)
    ensures status == NonStat <==> block.header.parent !in db.blocks
    ensures status == NonStat ==> db' == db
    ensures status != NonStat ==>
              && db'.blocks == db.blocks[block.header.hash := block]
              && var td, cur := TotalDifficulty(all, genesis, block.header.hash), TotalDifficulty(all, genesis, current.header.hash);
                 status == if td > cur || (td == cur && coin) then Canon else Side
    ensures status == Side ==> db' == db.(blocks := db'.blocks, tds := db'.tds)
    ensures status == Canon ==>
              var c, p := Ancestry(all, genesis, current.header.hash), Ancestry(all, genesis, block.header.hash);
              Meet(c, p, meet) && HeadsAfter(db, db', p, meet + 1) && (block.header.parent == current.header.hash ==> meet == current.header.number)
    ensures Heaviest(db, current.header.hash) ==> Heaviest(db', if status == Canon then block.header.hash else current.header.hash)
  {
    meet := 0;
    if block.header.parent !in db.blocks { return db, NonStat, 0; }
    assert HasParent(all, block.header.hash);
    var localTd := db.tds[current.header.hash];
    var externTd := block.header.difficulty + db.tds[block.header.parent];
    StoreBlockOk(db, all, bodies, genesis, current.header.hash, block, externTd);
    db' := StoreBlock(db, block, externTd);
    assert HeadsOf(db') == HeadsOf(db) && db'.canon == db.canon;
    HeavierStaysHeaviest(db, db', all, bodies, genesis, current.header.hash, block.header.hash);
    if externTd > localTd || (externTd == localTd && coin) {
      assert db'.blocks[current.header.hash] == current;
      var ok;
      db', ok, meet := MakeHead(db', current, block, all, bodies, genesis);
      status := Canon;
    } else {
      status := Side;
    }
  }

  /** Of a new block and the old head the heavier one is the heaviest. */
  lemma HeavierStaysHeaviest(db: Db, db': Db, all: Headers, bodies: Bodies, genesis: Hash, head: Hash, h: Hash)
    requires BlocksOk(db', all, bodies, genesis) && head in db.tds && head in db'.tds && h in db'.tds
    requires db.tds.Keys <= db'.tds.Keys && db'.tds == db.tds[h := db'.tds[h]] && db.tds[head] == db'.tds[head]
    ensures Heaviest(db, head) && db'.tds[h] >= db'.tds[head] ==> Heaviest(db', h)
    ensures Heaviest(db, head) && db'.tds[h] <= db'.tds[head] ==> Heaviest(db', head)
  {
  }

  /** What the place of the head header means for the cases that occur. */
  lemma HeadsMeet(db: Db, db': Db, all: Headers, bodies: Bodies, genesis: Hash, current: Block, block: Block, meet: nat)
    requires DbOk(db, all, bodies, genesis, current.header.hash) && db.blocks[current.header.hash] == current
    requires block.header.hash in all && all[block.header.hash] == block.header
    requires Meet(Ancestry(all, genesis, current.header.hash), Ancestry(all, genesis, block.header.hash), meet)
    requires HeadsAfter(db, db', Ancestry(all, genesis, block.header.hash), meet + 1)
    ensures var c, p := Ancestry(all, genesis, current.header.hash), Ancestry(all, genesis, block.header.hash);
            var m := LowestStale(db.canon, p, meet + 1);
            && (db'.headHeader == block.header.hash <==> m == block.header.number || (m == |p| && db.headHeader == block.header.hash))
            && (Forked(c, p, meet) ==>
                  && db'.headHeader == db'.headFast == p[meet + 1]
                  && (db'.headHeader == block.header.hash <==> block.header.number == meet + 1))
            && (meet + 1 == block.header.number ==>
                  if Stale(db.canon, p, block.header.number) then db'.headHeader == db'.headFast == block.header.hash
                  else db'.headHeader == db.headHeader && db'.headFast == db.headFast)
  {
    var c, p := Ancestry(all, genesis, current.header.hash), Ancestry(all, genesis, block.header.hash);
    var m := LowestStale(db.canon, p, meet + 1);
    if m < |p| { assert all[p[m]].number == m; }
    if Forked(c, p, meet) { assert Stale(db.canon, p, meet + 1); }
  }

  class BlockChain {
    var db: Db
    var currentBlock: Block
    const genesis: Hash
    ghost const all: Headers     // what block hashes stand for: any finite set of
    ghost const bodies: Bodies   // blocks closed under parents

    /** Holds between calls: the index up to the head is the head's ancestry, and the
        lookup table maps exactly that ancestry's transactions to their positions. */
    ghost predicate Valid()
      reads this
    {
      && DbOk(db, all, bodies, genesis, currentBlock.header.hash)
      && db.blocks[currentBlock.header.hash] == currentBlock
    }

    /** A chain that holds only an empty genesis block. */
    constructor (block: Block, ghost all: Headers, ghost bodies: Bodies)
      requires Closed(all, block.header.hash) && all.Keys == bodies.Keys
      requires block == Block(all[block.header.hash], bodies[block.header.hash]) && block.txs == []
      ensures Valid() && currentBlock == block && Heaviest(db, block.header.hash)
      ensures this.all == all && this.bodies == bodies && genesis == block.header.hash && db.blocks == map[block.header.hash := block]
      ensures db.headHeader == db.headFast == block.header.hash
    {
      var h := block.header.hash;
      db := Db(map[h := block], map[h := block.header.difficulty], map[0 := h], map[], h, h, h);
      currentBlock, genesis := block, h;
      this.all, this.bodies := all, bodies;
    }

    /** Writes a processed block and, if it becomes canonical, its transactions. `coin` is the
        random choice made when total difficulties tie. The block's header is valid above
        its parent, and no transaction repeats along its chain.

        The blocks above the old ancestry are inserted from the top down, and the final
        insertion finds the block already indexed. So head header and fast head end at the
        lowest of them that the index did not hold, and equal the new head exactly when that
        is the block itself, or there is none and they did before. Leaving the old head for
        another branch, that is when the new branch has one block. */
    method InsertBlock(block: Block, coin: bool) returns (status: WriteStatus, ghost meet: nat)
      requires Valid()
      requires block.header.parent in db.blocks ==>
                 && block.header.hash in all && block == Block(all[block.header.hash], bodies[block.header.hash]) && block.header.number > 0
                 && NoRepeat(bodies, Ancestry(all, genesis, block.header.hash))
      modifies this
      ensures Valid()
      ensures status == NonStat <==> block.header.parent !in old(db).blocks
      ensures status == NonStat ==> db == old(db)
      ensures status != NonStat ==>
                && db.blocks == old(db).blocks[block.header.hash := block]
                && var td, cur := TotalDifficulty(all, genesis, block.header.hash), TotalDifficulty(all, genesis, old(currentBlock).header.hash);
                   status == if td > cur || (td == cur && coin) then Canon else Side
      ensures currentBlock == if status == Canon then block else old(currentBlock)
      ensures status == Side ==> db == old(db).(blocks := db.blocks, tds := db.tds)
      ensures status == Canon ==>
                var c, p := Ancestry(all, genesis, old(currentBlock).header.hash), Ancestry(all, genesis, block.header.hash);
                && Meet(c, p, meet) && HeadsAfter(old(db), db, p, meet + 1)
                && (db.headHeader == block.header.hash <==>
                      var m := LowestStale(old(db).canon, p, meet + 1);
                      m == block.header.number || (m == |p| && old(db).headHeader == block.header.hash))
                && (Forked(c, p, meet) ==>
                      && db.headHeader == db.headFast == p[meet + 1]
                      && (db.headHeader == block.header.hash <==> block.header.number == meet + 1))
                && (block.header.parent == old(currentBlock).header.hash ==>
                      if Stale(old(db).canon, p, block.header.number) then db.headHeader == db.headFast == block.header.hash
                      else db.headHeader == old(db).headHeader && db.headFast == old(db).headFast)
      ensures old(Heaviest(db, currentBlock.header.hash)) ==> Heaviest(db, currentBlock.header.hash)
    {
      var newDb;
      newDb, status, meet := Import(db, currentBlock, block, coin, all, bodies, genesis);
      if status == Canon { HeadsMeet(db, newDb, all, bodies, genesis, currentBlock, block, meet); }
      db := newDb;
      if status == Canon { currentBlock := block; }
    }
  }

  // A branch of two blocks

  /** Genesis, block 1 on it, and a branch of blocks 11 and 12 beside it, all without transactions. */
  ghost predicate HasBranch(all: Headers, bodies: Bodies) {
    && Closed(all, 0) && all.Keys == bodies.Keys && 0 in all && 1 in all && 11 in all && 12 in all
    && all[0] == Header(0, -1, 0, 1) && all[1] == Header(1, 0, 1, 1) && all[11] == Header(11, 0, 1, 1) && all[12] == Header(12, 11, 2, 1)
    && forall h :: h in bodies ==> bodies[h] == []
  }

  lemma BranchExists() returns (all: Headers, bodies: Bodies)
    ensures HasBranch(all, bodies)
  {
    all := map[0 := Header(0, -1, 0, 1), 1 := Header(1, 0, 1, 1), 11 := Header(11, 0, 1, 1), 12 := Header(12, 11, 2, 1)];
    bodies := map h | h in all :: [];
    assert HasParent(all, 1) && HasParent(all, 11) && HasParent(all, 12);
  }

  lemma BranchWeights(all: Headers, bodies: Bodies)
    requires HasBranch(all, bodies)
    ensures TotalDifficulty(all, 0, 0) == 1 && TotalDifficulty(all, 0, 1) == TotalDifficulty(all, 0, 11) == 2 && TotalDifficulty(all, 0, 12) == 3
    ensures Ancestry(all, 0, 1) == [0, 1] && Ancestry(all, 0, 12) == [0, 11, 12]
    ensures forall c :: NoRepeat(bodies, c)
  {
    assert Ancestry(all, 0, 0) == [0];
    assert Ancestry(all, 0, 1) == [0] + [1] && Ancestry(all, 0, 11) == [0] + [11];
    assert Ancestry(all, 0, 12) == Ancestry(all, 0, 11) + [12];
    forall c
      ensures NoRepeat(bodies, c)
    {
      assert forall t, p :: !At(bodies, c, 0, t, p);
    }
  }

  /** Block 1 is written, then block 11, which loses the toss, then block 12, which is heavier: the head is
      block 12, but head header and fast head stay at block 11. */
  method HeadHeaderStaysLow(ghost all: Headers, ghost bodies: Bodies) returns (chain: BlockChain)
    requires HasBranch(all, bodies)
    ensures chain.Valid() && chain.currentBlock.header.hash == 12 && chain.db.headHeader == chain.db.headFast == 11
  {
    BranchWeights(all, bodies);
    chain := TwoBranches(all, bodies);
    var status;
    ghost var meet;
    status, meet := chain.InsertBlock(Block(Header(12, 11, 2, 1), []), false);
    ghost var c, p := [0, 1], [0, 11, 12];
    assert c[1] != p[1];
  }

  method TwoBranches(ghost all: Headers, ghost bodies: Bodies) returns (chain: BlockChain)
    requires HasBranch(all, bodies)
    ensures fresh(chain) && chain.Valid() && chain.all == all && chain.bodies == bodies && chain.genesis == 0
    ensures chain.currentBlock.header.hash == 1 && 11 in chain.db.blocks
  {
    BranchWeights(all, bodies);
    chain := new BlockChain(Block(Header(0, -1, 0, 1), []), all, bodies);
    var status;
    ghost var meet;
    status, meet := chain.InsertBlock(Block(Header(1, 0, 1, 1), []), false);
    status, meet := chain.InsertBlock(Block(Header(11, 0, 1, 1), []), false);
  }
}
