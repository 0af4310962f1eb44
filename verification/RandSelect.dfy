/** Weighted random selection: an 8-ary tree of nodes that is updated in place, against
    the flat table of slots it stands for. */
module RandSelect {
  import opened Wrappers

  const BRANCHES: nat := 8

  /** Items are compared by identity only. */
  type Item = int

  /** A slot of the flat table. */
  datatype Slot = Empty | Full(item: Item, weight: int)

  function W(s: Slot): int {
    if s.Full? then s.weight else 0
  }

  /** The total weight of a table. */
  ghost function Weight(t: seq<Slot>): int {
    if t == [] then 0 else Weight(t[..|t| - 1]) + W(t[|t| - 1])
  }

  /** The number of items in a table. */
  ghost function Count(t: seq<Slot>): nat {
    if t == [] then 0 else Count(t[..|t| - 1]) + if t[|t| - 1].Full? then 1 else 0
  }

  ghost function Empties(n: nat): (t: seq<Slot>)
    ensures |t| == n && forall i :: 0 <= i < n ==> t[i] == Empty
  {
    seq(n, _ => Empty)
  }

  /** Slots of weight zero are the empty ones. */
  ghost predicate Proper(t: seq<Slot>) {
    forall i :: 0 <= i < |t| && t[i].Full? ==> t[i].weight != 0
  }

  ghost predicate NonNegative(t: seq<Slot>) {
    forall i :: 0 <= i < |t| ==> W(t[i]) >= 0
  }

  ghost predicate NoRoom(t: seq<Slot>) {
    forall i :: 0 <= i < |t| ==> t[i].Full?
  }

  lemma {:induction false} Additive(a: seq<Slot>, b: seq<Slot>)
    ensures Weight(a + b) == Weight(a) + Weight(b)
    ensures Count(a + b) == Count(a) + Count(b)
  {
    if b == [] {
      assert a + b == a;
    } else {
      assert (a + b)[..|a + b| - 1] == a + b[..|b| - 1];
      Additive(a, b[..|b| - 1]);
    }
  }

  lemma {:induction false} Updated(t: seq<Slot>, k: nat, s: Slot)
    requires k < |t|
    ensures Weight(t[k := s]) == Weight(t) - W(t[k]) + W(s)
    ensures Count(t[k := s]) == Count(t) - (if t[k].Full? then 1 else 0) + (if s.Full? then 1 else 0)
  {
    var t', n := t[k := s], |t| - 1;
    if k == n {
      assert t'[..n] == t[..n];
    } else {
      assert t'[..n] == t[..n][k := s];
      Updated(t[..n], k, s);
    }
  }

  lemma {:induction false} EmptiesWeigh(n: nat)
    ensures Weight(Empties(n)) == 0 && Count(Empties(n)) == 0
  {
    if n > 0 {
      assert Empties(n)[..n - 1] == Empties(n - 1);
      EmptiesWeigh(n - 1);
    }
  }

  lemma {:induction false} CountBound(t: seq<Slot>)
    ensures Count(t) <= |t|
    ensures Count(t) == |t| <==> NoRoom(t)
  {
    if t != [] {
      var n := |t| - 1;
      CountBound(t[..n]);
      if Count(t) == |t| {
        forall i | 0 <= i < |t|
          ensures t[i].Full?
        {
          if i < n { assert t[..n][i] == t[i]; }
        }
      }
      if NoRoom(t) { assert forall i :: 0 <= i < n ==> t[..n][i] == t[i]; }
    }
  }

  lemma {:induction false} WeightNonNegative(t: seq<Slot>)
    requires NonNegative(t)
    ensures Weight(t) >= 0
  {
    if t != [] { WeightNonNegative(t[..|t| - 1]); }
  }

  /** The value `v` falls into the interval of prefix sums that belongs to slot `k`. */
  ghost predicate Selects(t: seq<Slot>, v: int, k: nat) {
    k < |t| && Weight(t[..k]) <= v < Weight(t[..k + 1])
  }

  // ----- the part of a table that belongs to one branch -----

  ghost function Part(t: seq<Slot>, o: nat, m: nat): (p: seq<Slot>)
    requires o + m <= |t|
    ensures |p| == m
  {
    t[o..o + m]
  }

  /** The slots of branch `i`. */
  ghost function Branch(t: seq<Slot>, i: nat, m: nat): (p: seq<Slot>)
    requires i < BRANCHES && |t| == BRANCHES * m
    ensures |p| == m
  {
    BaseFits(i, m);
    Part(t, Base(i, m), m)
  }

  /** The first slot of branch `i`, where a branch has `m` slots. */
  ghost function Base(i: nat, m: nat): (o: nat) {
    if i == 0 then 0 else Base(i - 1, m) + m
  }

  lemma {:induction false} BaseIsProduct(i: nat, m: nat)
    ensures Base(i, m) == i * m
  {
    if i > 0 {
      BaseIsProduct(i - 1, m);
      assert i * m == (i - 1) * m + m;
    }
  }

  /** Branches lie side by side. */
  lemma {:induction false} BasesApart(i: nat, j: nat, m: nat)
    requires i < j
    ensures Base(i, m) + m <= Base(j, m)
  {
    if i < j - 1 { BasesApart(i, j - 1, m); }
  }

  lemma BaseFits(i: nat, m: nat)
    requires i < BRANCHES
    ensures Base(i, m) + m <= BRANCHES * m
  {
    BasesApart(i, BRANCHES, m);
    BaseIsProduct(BRANCHES, m);
  }

  lemma EmptiesPart(i: nat, m: nat)
    requires i < BRANCHES
    ensures Branch(Empties(BRANCHES * m), i, m) == Empties(m)
  {
    BaseFits(i, m);
  }

  lemma PartUpdate(t: seq<Slot>, o: nat, m: nat, r: nat, s: Slot)
    requires o + m <= |t| && r < m
    ensures t[o + r] == Part(t, o, m)[r]
    ensures Part(t[o + r := s], o, m) == Part(t, o, m)[r := s]
  {
  }

  lemma PartOther(t: seq<Slot>, o: nat, m: nat, k: nat, s: Slot)
    requires o + m <= |t| && k < |t| && !(o <= k < o + m)
    ensures Part(t[k := s], o, m) == Part(t, o, m)
  {
  }

  /** Where an index falls. */
  lemma Split(k: nat, m: nat)
    requires m > 0 && k < BRANCHES * m
    ensures k / m < BRANCHES && 0 <= k - k / m * m < m
  {
    assert k / m * m + k % m == k;
  }

  lemma Locate(t: seq<Slot>, k: nat, m: nat)
    requires |t| == BRANCHES * m && k < |t|
    ensures k / m < BRANCHES && 0 <= k - k / m * m < m
    ensures Base(k / m, m) + (k - k / m * m) == k && Branch(t, k / m, m)[k - k / m * m] == t[k]
  {
    Split(k, m);
    BaseIsProduct(k / m, m);
    BaseFits(k / m, m);
  }

  function Reweighted(s: Slot, weight: int): Slot
    requires s.Full?
  {
    if weight == 0 then Empty else Full(s.item, weight)
  }

  lemma PartPrefix(t: seq<Slot>, o: nat, m: nat, r: nat)
    requires o + m <= |t| && r <= m
    ensures Weight(t[..o + r]) == Weight(t[..o]) + Weight(Part(t, o, m)[..r])
  {
    assert t[..o + r] == t[..o] + Part(t, o, m)[..r];
    Additive(t[..o], Part(t, o, m)[..r]);
  }

  /** The index in the whole table of slot `r` of a branch. */
  method Global(branch: nat, m: nat, r: nat) returns (k: nat)
    ensures k == Base(branch, m) + r
  {
    BaseIsProduct(branch, m);
    k := m * branch + r;
  }

  ghost predicate BranchFull(t: seq<Slot>, i: nat, m: nat)
    requires i < BRANCHES && |t| == BRANCHES * m
  {
    NoRoom(Branch(t, i, m))
  }

  /** `k` is the lowest empty slot. */
  ghost predicate FirstEmpty(t: seq<Slot>, k: nat) {
    k < |t| && t[k].Empty? && forall i :: 0 <= i < k ==> t[i].Full?
  }

  lemma FirstEmptyBranch(t: seq<Slot>, b: nat, m: nat, r: nat)
    requires b < BRANCHES && |t| == BRANCHES * m && FirstEmpty(Branch(t, b, m), r)
    requires forall j: nat :: j < b ==> BranchFull(t, j, m)
    ensures FirstEmpty(t, Base(b, m) + r)
  {
    BaseFits(b, m);
    var k := Base(b, m) + r;
    forall i: nat | i < k
      ensures t[i].Full?
    {
      var j, x := Place(t, i, m);
      if j > b { BasesApart(b, j, m); }
      if j < b { assert BranchFull(t, j, m); }
    }
  }

  /** The branch and the slot of it where an index falls. */
  lemma Place(t: seq<Slot>, i: nat, m: nat) returns (j: nat, x: nat)
    requires |t| == BRANCHES * m && i < |t|
    ensures j < BRANCHES && x < m && i == Base(j, m) + x && Branch(t, j, m)[x] == t[i]
  {
    Locate(t, i, m);
    j, x := i / m, i - i / m * m;
  }

  lemma AllBranchesFull(t: seq<Slot>, m: nat)
    requires |t| == BRANCHES * m && forall j: nat :: j < BRANCHES ==> BranchFull(t, j, m)
    ensures NoRoom(t)
  {
    forall i: nat | i < |t|
      ensures t[i].Full?
    {
      var j, x := Place(t, i, m);
      assert BranchFull(t, j, m);
    }
  }

  lemma BranchNonNegative(t: seq<Slot>, i: nat, m: nat)
    requires i < BRANCHES && |t| == BRANCHES * m && NonNegative(t)
    ensures NonNegative(Branch(t, i, m))
  {
    BaseFits(i, m);
    forall j | 0 <= j < m
      ensures W(Branch(t, i, m)[j]) >= 0
    {
      assert Branch(t, i, m)[j] == t[Base(i, m) + j];
    }
  }

  lemma BaseStep(t: seq<Slot>, i: nat, m: nat)
    requires i < BRANCHES && |t| == BRANCHES * m && NonNegative(t)
    ensures Base(i, m) <= Base(i + 1, m) <= |t| && Weight(Branch(t, i, m)) >= 0
    ensures Weight(t[..Base(i + 1, m)]) == Weight(t[..Base(i, m)]) + Weight(Branch(t, i, m))
    ensures Base(BRANCHES, m) == |t| && t[..Base(BRANCHES, m)] == t
  {
    BaseFits(i, m);
    BaseIsProduct(BRANCHES, m);
    PartPrefix(t, Base(i, m), m, m);
    assert Branch(t, i, m)[..m] == Branch(t, i, m);
    BranchNonNegative(t, i, m);
    WeightNonNegative(Branch(t, i, m));
  }

  lemma SelectsBranch(t: seq<Slot>, i: nat, m: nat, v: int, k: nat)
    requires i < BRANCHES && |t| == BRANCHES * m && Selects(Branch(t, i, m), v, k)
    ensures Base(i, m) + k < |t| && t[Base(i, m) + k] == Branch(t, i, m)[k]
    ensures Selects(t, Weight(t[..Base(i, m)]) + v, Base(i, m) + k)
  {
    BaseFits(i, m);
    PartPrefix(t, Base(i, m), m, k);
    PartPrefix(t, Base(i, m), m, k + 1);
  }

  /** What is selected in a branch, as a slot of the whole table. */
  lemma InBranch(t: seq<Slot>, i: nat, m: nat, v: int, r: nat) returns (k: nat)
    requires i < BRANCHES && |t| == BRANCHES * m && Selects(Branch(t, i, m), v, r)
    ensures Base(i, m) <= |t| && Selects(t, Weight(t[..Base(i, m)]) + v, k) && t[k] == Branch(t, i, m)[r]
  {
    SelectsBranch(t, i, m, v, r);
    k := Base(i, m) + r;
  }

  /** Changing one slot of branch `b`. */
  lemma TableStep(t: seq<Slot>, b: nat, m: nat, r: nat, slot: Slot)
    requires b < BRANCHES && |t| == BRANCHES * m && r < m && Proper(t) && (slot.Full? ==> slot.weight != 0)
    ensures Base(b, m) + r < |t|
    ensures var t', was := t[Base(b, m) + r := slot], t[Base(b, m) + r];
            && Proper(t')
            && Weight(t') == Weight(t) + W(slot) - W(was)
            && Count(t') == Count(t) + (if slot.Full? then 1 else 0) - (if was.Full? then 1 else 0)
            && Branch(t', b, m) == Branch(t, b, m)[r := slot]
            && Branch(t, b, m)[r] == was
            && Weight(Branch(t', b, m)) == Weight(Branch(t, b, m)) + W(slot) - W(was)
            && forall i: nat {:trigger Branch(t', i, m)} :: i < BRANCHES && i != b ==> Branch(t', i, m) == Branch(t, i, m)
  {
    var o := Base(b, m);
    BaseFits(b, m);
    Updated(t, o + r, slot);
    PartUpdate(t, o, m, r, slot);
    Updated(Part(t, o, m), r, slot);
    forall i: nat | i < BRANCHES && i != b
      ensures Branch(t[o + r := slot], i, m) == Branch(t, i, m)
    {
      BaseFits(i, m);
      if i < b { BasesApart(i, b, m); } else { BasesApart(b, i, m); }
      PartOther(t, Base(i, m), m, o + r, slot);
    }
  }

  ghost function Capacity(level: nat): (n: nat)
    ensures n >= BRANCHES
  {
    if level == 0 then BRANCHES else BRANCHES * Capacity(level - 1)
  }

  ghost function Grown(t: seq<Slot>): (t': seq<Slot>)
    ensures |t'| == BRANCHES * |t|
  {
    t + Empties((BRANCHES - 1) * |t|)
  }

  lemma GrownBranches(t: seq<Slot>)
    ensures Branch(Grown(t), 0, |t|) == t
    ensures forall i: nat :: 0 < i < BRANCHES ==> Branch(Grown(t), i, |t|) == Empties(|t|)
    ensures Weight(Grown(t)) == Weight(t) && Count(Grown(t)) == Count(t) && (Proper(t) ==> Proper(Grown(t)))
  {
    var m := |t|;
    Additive(t, Empties((BRANCHES - 1) * m));
    EmptiesWeigh((BRANCHES - 1) * m);
    forall i: nat | 0 < i < BRANCHES
      ensures Branch(Grown(t), i, m) == Empties(m)
    {
      GrownBranch(t, i);
    }
  }

  lemma GrownBranch(t: seq<Slot>, i: nat)
    requires 0 < i < BRANCHES
    ensures Branch(Grown(t), i, |t|) == Empties(|t|)
  {
    var m := |t|;
    BaseFits(i, m);
    BasesApart(0, i, m);
    forall j | 0 <= j < m
      ensures Branch(Grown(t), i, m)[j] == Empty
    {
      assert Grown(t)[Base(i, m) + j] == Empties((BRANCHES - 1) * m)[Base(i, m) + j - m];
    }
  }

  /** A node holds items at level zero and further nodes above it. */
  class WrsNode {
    var items: seq<Option<Item>>
    var nodes: seq<WrsNode?>
    var weights: seq<int>
    var sumWeight: int
    var itemCnt: nat
    const level: nat
    const maxItems: nat
    ghost var table: seq<Slot>      // the slots below this node
    ghost var Repr: set<WrsNode>

    /** The weights, sum and count of this node and of every node below it agree with the table. */
    ghost predicate Valid()
      reads this, Repr
      decreases level
    {
      && this in Repr
      && maxItems == Capacity(level) && |table| == maxItems && Proper(table)
      && |weights| == BRANCHES && |items| == BRANCHES && |nodes| == BRANCHES
      && sumWeight == Weight(table) && itemCnt == Count(table)
      && (level == 0 ==> forall i :: 0 <= i < BRANCHES ==> LeafOk(i))
      && (level > 0 ==>
            && (forall i :: 0 <= i < BRANCHES ==> BranchOk(i))
            && Apart())
    }

    ghost predicate LeafOk(i: nat)
      requires i < BRANCHES && |weights| == BRANCHES && |items| == BRANCHES && |table| >= BRANCHES
      reads this
    {
      weights[i] == W(table[i]) && items[i] == if table[i].Full? then Some(table[i].item) else None
    }

    ghost predicate BranchOk(i: nat)
      requires i < BRANCHES && level > 0 && |weights| == BRANCHES && |nodes| == BRANCHES && |table| == Capacity(level) && this in Repr
      reads this, Repr
      decreases level, 0
    {
      var m := Capacity(level - 1);
      var part := Branch(table, i, m);
      if nodes[i] == null then part == Empties(m) && weights[i] == 0
      else
        && nodes[i] in Repr && nodes[i].Repr <= Repr && this !in nodes[i].Repr && nodes[i].level == level - 1
        && nodes[i].Valid() && nodes[i].table == part && weights[i] == nodes[i].sumWeight
    }

    /** An empty node. */
    constructor (level: nat, maxItems: nat)
      requires maxItems == Capacity(level)
      ensures Valid() && Repr == {this} && this.level == level && this.maxItems == maxItems && table == Empties(maxItems)
      ensures forall i :: 0 <= i < BRANCHES ==> nodes[i] == null
    {
      this.level, this.maxItems := level, maxItems;
      items, nodes, weights := seq(BRANCHES, _ => None), seq(BRANCHES, _ => null), seq(BRANCHES, _ => 0);
      sumWeight, itemCnt := 0, 0;
      table := Empties(maxItems);
      Repr := {this};
      new;
      EmptiesWeigh(maxItems);
      if level > 0 {
        forall i: nat | i < BRANCHES
          ensures BranchOk(i)
        {
          EmptiesPart(i, Capacity(level - 1));
        }
      }
    }

    /** Makes an empty node the new root above `child`. */
    method Adopt(child: WrsNode)
      requires Valid() && level > 0 && table == Empties(maxItems) && Repr == {this} && (forall i :: 0 <= i < BRANCHES ==> nodes[i] == null)
      requires child.Valid() && child.level == level - 1 && this !in child.Repr
      modifies this
      ensures Valid() && Repr == {this} + child.Repr && table == Grown(child.table)
    {
      child.Counted();
      GrownBranches(child.table);
      EmptiesWeigh(maxItems);
      forall i: nat | i < BRANCHES
        ensures weights[i] == 0
      {
        assert BranchOk(i);
      }
      Hang(0, child);
      Bump(0, child.sumWeight, child.itemCnt, Grown(child.table));
      forall i: nat | i < BRANCHES
        ensures BranchOk(i)
      {
      }
    }

    /** The disjointness of the branches. */
    ghost predicate Apart()
      requires |nodes| == BRANCHES
      reads this, Repr
    {
      forall i, j :: 0 <= i < BRANCHES && 0 <= j < BRANCHES && i != j && nodes[i] != null && nodes[j] != null && nodes[i] in Repr && nodes[j] in Repr ==>
        nodes[i].Repr !! nodes[j].Repr
    }

    /** An inner node that is valid but for branch `b`, which has moved on from `table`: there
        slot `r` has become `slot`. */
    ghost predicate Pending(b: nat, r: nat, slot: Slot)
      requires level > 0 && b < BRANCHES && r < Capacity(level - 1)
      reads this, Repr
    {
      && this in Repr
      && maxItems == Capacity(level) && |table| == maxItems && Proper(table)
      && |weights| == BRANCHES && |items| == BRANCHES && |nodes| == BRANCHES
      && sumWeight == Weight(table) && itemCnt == Count(table)
      && (forall i :: 0 <= i < BRANCHES && i != b ==> BranchOk(i))
      && Apart()
      && nodes[b] != null && nodes[b] in Repr && nodes[b].Repr <= Repr && this !in nodes[b].Repr && nodes[b].level == level - 1
      && nodes[b].Valid()
      && var part := Branch(table, b, Capacity(level - 1));
         weights[b] == Weight(part) && nodes[b].table == part[r := slot]
    }

    /** Adds to the weight of a branch and to the sum and count. */
    method Bump(b: nat, diff: int, cnt: int, ghost table': seq<Slot>)
      requires b < |weights| && itemCnt + cnt >= 0
      modifies this`weights, this`sumWeight, this`itemCnt, this`table
      ensures weights == old(weights)[b := old(weights)[b] + diff] && sumWeight == old(sumWeight) + diff
      ensures itemCnt == old(itemCnt) + cnt && table == table'
    {
      weights := weights[b := weights[b] + diff];
      sumWeight, itemCnt, table := sumWeight + diff, itemCnt + cnt, table';
    }

    /** Brings an inner node up to date with a branch that has changed. */
    method Settle(b: nat, r: nat, diff: int, cnt: int, ghost slot: Slot)
      requires level > 0 && b < BRANCHES && r < Capacity(level - 1) && Pending(b, r, slot)
      requires slot.Full? ==> slot.weight != 0
      requires diff == W(slot) - W(Branch(table, b, Capacity(level - 1))[r])
      requires cnt == (if slot.Full? then 1 else 0) - (if Branch(table, b, Capacity(level - 1))[r].Full? then 1 else 0)
      modifies this`weights, this`sumWeight, this`itemCnt, this`table
      ensures Valid()
      ensures Base(b, Capacity(level - 1)) + r < |old(table)| && table == old(table)[Base(b, Capacity(level - 1)) + r := slot]
    {
      ghost var m := Capacity(level - 1);
      TableStep(table, b, m, r, slot);
      Bump(b, diff, cnt, table[Base(b, m) + r := slot]);
      forall i: nat | i < BRANCHES
        ensures BranchOk(i)
      {
        assert i != b ==> old(BranchOk(i));
      }
    }

    /** Sets the weight of the item in slot `idx`, removing it if the weight is zero, and
        returns the change. */
    method SetWeight(idx: nat, weight: int) returns (diff: int)
      requires Valid() && idx < |table| && table[idx].Full?
      modifies Repr
      ensures Valid() && Repr == old(Repr)
      ensures diff == weight - old(table)[idx].weight
      ensures table == old(table)[idx := Reweighted(old(table)[idx], weight)]
      decreases level, 1
    {
      if level == 0 {
        diff := SetLeaf(idx, weight);
        return;
      }
      ghost var slot := Reweighted(table[idx], weight);
      var branchItems := maxItems / BRANCHES;
      var branch := idx / branchItems;
      Locate(table, idx, branchItems);
      var r := idx - branch * branchItems;
      diff := SetBranch(branch, r, weight);
      Settle(branch, r, diff, if weight == 0 then -1 else 0, slot);
    }

    /** The recursive step of `SetWeight`. */
    method SetBranch(branch: nat, r: nat, weight: int) returns (diff: int)
      requires Valid() && level > 0 && branch < BRANCHES && r < Capacity(level - 1)
      requires Branch(table, branch, Capacity(level - 1))[r].Full?
      modifies Repr - {this}
      ensures var slot := Reweighted(Branch(table, branch, Capacity(level - 1))[r], weight);
              Pending(branch, r, slot)
      ensures Repr == old(Repr) && diff == weight - Branch(table, branch, Capacity(level - 1))[r].weight
      decreases level, 0
    {
      assert BranchOk(branch);
      var node := nodes[branch];
      Rooted();
      diff := node.SetWeight(r, weight);
      forall i: nat | i < BRANCHES && i != branch
        ensures BranchOk(i)
      {
        assert old(BranchOk(i));
      }
    }

    method SetLeaf(idx: nat, weight: int) returns (diff: int)
      requires level == 0 && Valid() && idx < |table| && table[idx].Full?
      modifies this
      ensures Valid() && Repr == old(Repr)
      ensures diff == weight - old(table)[idx].weight
      ensures table == old(table)[idx := Reweighted(old(table)[idx], weight)]
    {
      ghost var slot := Reweighted(table[idx], weight);
      Updated(table, idx, slot);
      assert LeafOk(idx);
      diff := weight - weights[idx];
      weights, sumWeight := weights[idx := weight], sumWeight + diff;
      if weight == 0 {
        items, itemCnt := items[idx := None], itemCnt - 1;
      }
      table := table[idx := slot];
      forall i: nat | i < BRANCHES
        ensures LeafOk(i)
      {
        assert i != idx ==> old(LeafOk(i));
      }
    }

    /** Puts an item of non-zero weight into the lowest empty slot and returns its index. */
    method Insert(item: Item, weight: int) returns (k: nat)
      requires Valid() && itemCnt < maxItems && weight != 0
      modifies Repr
      ensures Valid() && fresh(Repr - old(Repr))
      ensures FirstEmpty(old(table), k) && table == old(table)[k := Full(item, weight)]
      decreases level, 1
    {
      var branch := FindBranch();
      if level == 0 {
        InsertLeaf(branch, item, weight);
        return branch;
      }
      EnsureBranch(branch);
      k := InsertInner(branch, item, weight);
    }

    /** Inserts below an existing branch. */
    method InsertInner(branch: nat, item: Item, weight: int) returns (k: nat)
      requires Valid() && level > 0 && branch < BRANCHES && nodes[branch] != null && weight != 0
      requires forall j: nat :: j < branch ==> BranchFull(table, j, maxItems / BRANCHES)
      requires !BranchFull(table, branch, maxItems / BRANCHES)
      modifies Repr
      ensures Valid() && fresh(Repr - old(Repr))
      ensures FirstEmpty(old(table), k) && table == old(table)[k := Full(item, weight)]
      decreases level, 0, 1
    {
      ghost var t := table;
      var subIdx := InsertBranch(branch, item, weight);
      var branchItems := nodes[branch].maxItems;
      FirstEmptyBranch(t, branch, branchItems, subIdx);
      Settle(branch, subIdx, weight, 1, Full(item, weight));
      k := Global(branch, branchItems, subIdx);
      assert FirstEmpty(t, k);
    }

    method EnsureBranch(branch: nat)
      requires level > 0 && Valid() && branch < BRANCHES
      modifies this
      ensures Valid() && fresh(Repr - old(Repr)) && table == old(table) && nodes[branch] != null
    {
      if nodes[branch] == null { AddBranch(branch); }
    }

    /** The first branch with room; the search never runs past the last one. */
    method FindBranch() returns (branch: nat)
      requires Valid() && itemCnt < maxItems
      ensures branch < BRANCHES
      ensures level == 0 ==> FirstEmpty(table, branch)
      ensures level > 0 ==>
                && (forall j: nat :: j < branch ==> BranchFull(table, j, maxItems / BRANCHES))
                && !BranchFull(table, branch, maxItems / BRANCHES)
    {
      branch := 0;
      CountBound(table);
      while (level == 0 && items[branch] != None) || (level > 0 && nodes[branch] != null && nodes[branch].itemCnt == nodes[branch].maxItems)
        invariant branch < BRANCHES
        invariant level == 0 ==> forall j: nat :: j < branch ==> table[j].Full?
        invariant level > 0 ==> forall j: nat :: j < branch ==> BranchFull(table, j, maxItems / BRANCHES)
        decreases BRANCHES - branch
      {
        if level == 0 { assert LeafOk(branch); } else { BranchFullIff(branch); }
        branch := branch + 1;
        if branch == BRANCHES {
          if level > 0 { AllBranchesFull(table, maxItems / BRANCHES); }
          assert false;
        }
      }
      if level == 0 { assert LeafOk(branch); } else { BranchFullIff(branch); }
    }

    lemma BranchFullIff(b: nat)
      requires Valid() && level > 0 && b < BRANCHES
      ensures BranchFull(table, b, maxItems / BRANCHES) <==> nodes[b] != null && nodes[b].itemCnt == nodes[b].maxItems
    {
      assert BranchOk(b);
      if nodes[b] == null {
        assert Branch(table, b, maxItems / BRANCHES)[0].Empty?;
      } else {
        nodes[b].Counted();
      }
    }

    /** Where the branches live. */
    lemma Rooted()
      requires Valid() && level > 0
      ensures forall i :: 0 <= i < BRANCHES && nodes[i] != null ==>
                nodes[i] in Repr && nodes[i].Repr <= Repr && this !in nodes[i].Repr && nodes[i] in nodes[i].Repr && nodes[i] != this
    {
      forall i: nat | i < BRANCHES && nodes[i] != null
        ensures nodes[i] in Repr && nodes[i].Repr <= Repr && this !in nodes[i].Repr && nodes[i] in nodes[i].Repr
      {
        assert BranchOk(i);
        nodes[i].Counted();
      }
    }

    lemma Counted()
      requires Valid()
      ensures this in Repr && (itemCnt == maxItems <==> NoRoom(table)) && itemCnt <= maxItems == |table|
      ensures sumWeight == Weight(table) && itemCnt == Count(table) && Proper(table) && maxItems == Capacity(level)
    {
      CountBound(table);
    }

    method InsertLeaf(branch: nat, item: Item, weight: int)
      requires level == 0 && Valid() && branch < BRANCHES && table[branch].Empty? && weight != 0
      modifies this
      ensures Valid() && Repr == old(Repr)
      ensures table == old(table)[branch := Full(item, weight)]
    {
      assert LeafOk(branch);
      Updated(table, branch, Full(item, weight));
      Bump(branch, weight, 1, table[branch := Full(item, weight)]);
      items := items[branch := Some(item)];
      forall i: nat | i < BRANCHES
        ensures LeafOk(i)
      {
        assert i != branch ==> old(LeafOk(i));
      }
    }

    /** Hangs a new, empty node under an empty branch. */
    method AddBranch(branch: nat)
      requires level > 0 && Valid() && branch < BRANCHES && nodes[branch] == null
      modifies this
      ensures Valid() && fresh(Repr - old(Repr)) && table == old(table) && nodes[branch] != null
    {
      EmptiesWeigh(Capacity(level - 1));
      Rooted();
      var subNode := new WrsNode(level - 1, maxItems / BRANCHES);
      assert subNode.Repr !! Repr;
      Hang(branch, subNode);
      assert forall i :: 0 <= i < BRANCHES && i != branch && nodes[i] != null ==> nodes[i].Repr <= old(Repr);
      forall i: nat | i < BRANCHES
        ensures BranchOk(i)
      {
        assert old(BranchOk(i));
      }
    }

    method Hang(branch: nat, node: WrsNode)
      requires branch < |nodes|
      modifies this`nodes, this`Repr
      ensures nodes == old(nodes)[branch := node] && Repr == old(Repr) + node.Repr
    {
      nodes, Repr := nodes[branch := node], Repr + node.Repr;
    }

    /** The recursive step of `Insert`. */
    method InsertBranch(branch: nat, item: Item, weight: int) returns (r: nat)
      requires Valid() && level > 0 && branch < BRANCHES && nodes[branch] != null && weight != 0
      requires !BranchFull(table, branch, Capacity(level - 1))
      modifies Repr - {this}, this`Repr
      ensures fresh(Repr - old(Repr)) && r < Capacity(level - 1) && FirstEmpty(Branch(table, branch, Capacity(level - 1)), r)
      ensures Pending(branch, r, Full(item, weight))
      ensures nodes[branch].maxItems == Capacity(level - 1)
      decreases level, 0, 0
    {
      assert BranchOk(branch);
      var node := nodes[branch];
      Rooted();
      CountBound(node.table);
      r := node.Insert(item, weight);
      Repr := Repr + node.Repr;
      forall i: nat | i < BRANCHES && i != branch
        ensures BranchOk(i)
      {
        assert old(BranchOk(i));
      }
    }

    /** The first slot of branch or leaf `i` in the table. */
    ghost function Start(i: nat): nat
    {
      if level == 0 then i else Base(i, Capacity(level - 1))
    }

    lemma StartStep(i: nat)
      requires Valid() && i < BRANCHES && NonNegative(table)
      ensures Start(i) <= Start(i + 1) <= |table| && weights[i] >= 0
      ensures Weight(table[..Start(i + 1)]) == Weight(table[..Start(i)]) + weights[i]
      ensures Start(BRANCHES) == |table| && table[..Start(BRANCHES)] == table
    {
      if level == 0 {
        assert LeafOk(i);
        assert table[..i + 1][..i] == table[..i];
      } else {
        BaseStep(table, i, Capacity(level - 1));
        EmptiesWeigh(Capacity(level - 1));
        assert BranchOk(i);
        if nodes[i] != null { nodes[i].Counted(); }
      }
    }

    /** The slot whose interval of prefix sums contains `val`. */
    method Choose(val: int) returns (item: Item, weight: int, ghost k: nat)
      requires Valid() && NonNegative(table) && 0 <= val < sumWeight
      ensures Selects(table, val, k) && table[k] == Full(item, weight)
      decreases level
    {
      var v, i := val, 0;
      while i < BRANCHES
        invariant i <= BRANCHES && Start(i) <= |table| && v >= 0 && v == val - Weight(table[..Start(i)])
      {
        StartStep(i);
        if v < weights[i] {
          if level == 0 {
            assert LeafOk(i);
            assert table[..i + 1][..i] == table[..i];
            return items[i].value, weights[i], i;
          }
          item, weight, k := ChooseBranch(i, v);
          return;
        }
        v := v - weights[i];
        i := i + 1;
      }
      StartStep(0);
      assert false;
    }

    method ChooseBranch(i: nat, v: int) returns (item: Item, weight: int, ghost k: nat)
      requires Valid() && level > 0 && i < BRANCHES && NonNegative(table) && 0 <= v < weights[i]
      ensures Start(i) <= |table| && Selects(table, Weight(table[..Start(i)]) + v, k) && table[k] == Full(item, weight)
      decreases level, 0
    {
      ghost var m, t := Capacity(level - 1), table;
      assert BranchOk(i);
      nodes[i].Counted();
      BranchNonNegative(t, i, m);
      ghost var r;
      item, weight, r := nodes[i].Choose(v);
      k := InBranch(t, i, m, v, r);
      assert Start(i) == Base(i, m);
    }
  }

  /** `idx` knows exactly the items in the table, each by its slot. */
  ghost predicate Indexed(idx: map<Item, nat>, t: seq<Slot>) {
    && (forall x :: x in idx ==> idx[x] < |t| && t[idx[x]].Full? && t[idx[x]].item == x)
    && (forall k :: 0 <= k < |t| && t[k].Full? ==> t[k].item in idx && idx[t[k].item] == k)
  }

  /** The weights of the items in the table. */
  ghost function WeightsOf(idx: map<Item, nat>, t: seq<Slot>): map<Item, int>
    requires Indexed(idx, t)
  {
    map x | x in idx :: t[idx[x]].weight
  }

  lemma IndexedReweighted(idx: map<Item, nat>, t: seq<Slot>, x: Item, weight: int)
    requires Indexed(idx, t) && x in idx
    ensures var t', idx' := t[idx[x] := Reweighted(t[idx[x]], weight)], if weight == 0 then idx - {x} else idx;
            Indexed(idx', t') && WeightsOf(idx', t') == Changed(WeightsOf(idx, t), x, weight)
  {
    var t', idx' := t[idx[x] := Reweighted(t[idx[x]], weight)], if weight == 0 then idx - {x} else idx;
    var a, b := WeightsOf(idx', t'), Changed(WeightsOf(idx, t), x, weight);
    assert forall y :: y in a <==> y in b;
    assert forall y :: y in a ==> a[y] == b[y];
    assert a == b;
  }

  lemma IndexedInserted(idx: map<Item, nat>, t: seq<Slot>, x: Item, weight: int, k: nat)
    requires Indexed(idx, t) && x !in idx && k < |t| && t[k].Empty? && weight != 0
    ensures var t', idx' := t[k := Full(x, weight)], idx[x := k];
            Indexed(idx', t') && WeightsOf(idx', t') == Changed(WeightsOf(idx, t), x, weight)
  {
    var t', idx' := t[k := Full(x, weight)], idx[x := k];
    var a, b := WeightsOf(idx', t'), Changed(WeightsOf(idx, t), x, weight);
    assert forall y :: y in a <==> y in b;
    assert forall y :: y in a ==> a[y] == b[y];
    assert a == b;
  }

  lemma IndexedGrown(idx: map<Item, nat>, t: seq<Slot>)
    requires Indexed(idx, t)
    ensures Indexed(idx, Grown(t)) && WeightsOf(idx, Grown(t)) == WeightsOf(idx, t)
  {
    assert forall k :: 0 <= k < |t| ==> Grown(t)[k] == t[k];
    var a, b := WeightsOf(idx, Grown(t)), WeightsOf(idx, t);
    assert forall y :: y in a <==> y in b;
    assert forall y :: y in a ==> a[y] == b[y];
    assert a == b;
  }

  /** What setting a weight does to a plain table of weights. */
  ghost function Changed(ws: map<Item, int>, x: Item, weight: int): map<Item, int> {
    if weight == 0 then ws - {x} else ws[x := weight]
  }

  /** The weight of an item at each draw. */
  type Current = (nat, Item) -> nat

  /** The random number below a limit that is drawn at each turn. */
  type Random = (nat, int) -> int

  ghost predicate Below(random: Random) {
    forall n: nat, limit: int :: limit > 0 ==> 0 <= random(n, limit) < limit
  }

  ghost predicate Steady(current: Current) {
    forall k: nat, x: Item :: current(k, x) == current(0, x)
  }

  ghost predicate Had(current: Current, n: nat, x: Item, weight: int) {
    exists k: nat :: k < n && current(k, x) == weight
  }

  /** After `n` draws each item has the weight it had before or one that it had at some draw, and is gone only
      if that was zero. */
  ghost predicate Stored(ws: map<Item, int>, ws': map<Item, int>, current: Current, n: nat) {
    forall x :: (x in ws' ==> x in ws && (ws'[x] == ws[x] || Had(current, n, x, ws'[x]))) && (x in ws && x !in ws' ==> Had(current, n, x, 0))
  }

  /** No weight has gone up and no item has come in. */
  ghost predicate NoHigher(ws: map<Item, int>, ws': map<Item, int>) {
    forall x :: x in ws' ==> x in ws && ws'[x] <= ws[x]
  }

  lemma StoredNext(ws: map<Item, int>, ws': map<Item, int>, current: Current, n: nat)
    requires Stored(ws, ws', current, n)
    ensures forall x :: x in ws' ==> Stored(ws, Changed(ws', x, current(n, x)), current, n + 1)
  {
    forall y, w | Had(current, n, y, w)
      ensures Had(current, n + 1, y, w)
    {
      var k: nat :| k < n && current(k, y) == w;
    }
    forall y
      ensures Had(current, n + 1, y, current(n, y))
    {
    }
  }

  lemma NothingLeft(ws: map<Item, int>, ws': map<Item, int>, current: Current, n: nat)
    requires Stored(ws, ws', current, n) && ws' == map[]
    ensures Steady(current) ==> forall x :: x in ws ==> current(0, x) == 0
  {
    if Steady(current) {
      forall x | x in ws
        ensures current(0, x) == 0
      {
        var k: nat :| k < n && current(k, x) == 0;
      }
    }
  }

  class WeightedRandomSelect {
    var root: WrsNode
    var idx: map<Item, nat>

    ghost predicate Valid()
      reads this, root, root.Repr
    {
      root.Valid() && Indexed(idx, root.table)
    }

    /** The set as a plain table of weights. */
    ghost function Weights(): map<Item, int>
      requires Valid()
      reads this, root, root.Repr
    {
      WeightsOf(idx, root.table)
    }

    constructor ()
      ensures Valid() && fresh(root.Repr) && Weights() == map[]
    {
      root := new WrsNode(0, BRANCHES);
      idx := map[];
    }

    /** Sets the weight of an item: adds it if it is new, removes it if the weight is zero. */
    method SetWeight(item: Item, weight: int)
      requires Valid()
      modifies this, root.Repr
      ensures Valid() && fresh(root.Repr - old(root.Repr)) && Weights() == Changed(old(Weights()), item, weight)
    {
      if item in idx {
        Reweigh(item, weight);
      } else if weight != 0 {
        root.Counted();
        if root.itemCnt == root.maxItems { Grow(); }
        Add(item, weight);
      } else {
        assert Weights() - {item} == Weights();
      }
    }

    method Reweigh(item: Item, weight: int)
      requires Valid() && item in idx
      modifies this, root.Repr
      ensures Valid() && root == old(root) && root.Repr == old(root.Repr) && Weights() == Changed(old(Weights()), item, weight)
      ensures root.table == old(root.table)[old(idx)[item] := Reweighted(old(root.table)[old(idx)[item]], weight)]
    {
      IndexedReweighted(idx, root.table, item, weight);
      var diff := root.SetWeight(idx[item], weight);
      if weight == 0 { idx := idx - {item}; }
    }

    /** Puts a new level above a full root. */
    method Grow()
      requires Valid()
      modifies this`root
      ensures Valid() && fresh(root.Repr - old(root.Repr)) && Weights() == old(Weights()) && root.itemCnt < root.maxItems
    {
      root.Counted();
      IndexedGrown(idx, root.table);
      GrownBranches(root.table);
      var newRoot := new WrsNode(root.level + 1, root.maxItems * BRANCHES);
      newRoot.Adopt(root);
      CountBound(root.table);
      root := newRoot;
    }

    method Add(item: Item, weight: int)
      requires Valid() && item !in idx && weight != 0 && root.itemCnt < root.maxItems
      modifies this`idx, root.Repr
      ensures Valid() && fresh(root.Repr - old(root.Repr)) && Weights() == Changed(old(Weights()), item, weight)
    {
      ghost var t := root.table;
      var k := root.Insert(item, weight);
      IndexedInserted(idx, t, item, weight, k);
      idx := idx[item := k];
    }

    /** Selects an item with a chance proportional to its current weight, which is never negative
        and may differ from draw to draw. `pick` are the values drawn, and `keep` the ones that decide
        whether an item whose weight has gone down is accepted: any will do, since a rejected draw stores a
        smaller weight, so the loop ends. What is stored for an item is the old weight or one that it had
        at some draw, and if weights do not change meanwhile, nothing is selected exactly if all
        are zero. */
    method Choose(current: Current, pick: Random, keep: Random) returns (choice: Option<Item>, draws: nat, ghost last: int)
      requires Valid() && NonNegative(root.table) && Below(pick) && Below(keep)
      modifies this, root.Repr
      ensures Valid() && NonNegative(root.table) && root == old(root) && root.Repr == old(root.Repr)
      ensures choice.None? <==> Weights() == map[]
      ensures choice.Some? ==> draws > 0 && choice.value in Weights() && Weights()[choice.value] == current(draws - 1, choice.value) > 0
      ensures choice.Some? ==> current(draws - 1, choice.value) >= last || keep(draws - 1, last) < current(draws - 1, choice.value)
      ensures choice.Some? ==> choice.value in old(Weights()) && (last == old(Weights())[choice.value] || Had(current, draws - 1, choice.value, last))
      ensures forall x :: x in Weights() ==> x in old(Weights()) && (Some(x) == choice || Weights()[x] <= old(Weights())[x])
      ensures Stored(old(Weights()), Weights(), current, draws)
      ensures Steady(current) ==> (choice.None? <==> forall x :: x in old(Weights()) ==> current(0, x) == 0)
    {
      draws := 0;
      ghost var ws := Weights();
      while root.sumWeight != 0
        invariant Valid() && NonNegative(root.table) && root == old(root) && root.Repr == old(root.Repr)
        invariant NoHigher(ws, Weights()) && Stored(ws, Weights(), current, draws)
        decreases root.sumWeight
      {
        ghost var stored := Weights();
        var item, accepted := Try(current, pick, keep, draws, ws);
        draws := draws + 1;
        if accepted { return Some(item), draws, stored[item]; }
      }
      root.Counted();
      NoWeightNoItem(idx, root.table);
      NothingLeft(ws, Weights(), current, draws);
      return None, draws, 0;
    }

    /** One draw: the item drawn is accepted if its weight has not gone down, or else with a chance of what is
        left of it. */
    method Try(current: Current, pick: Random, keep: Random, n: nat, ghost ws: map<Item, int>) returns (item: Item, accepted: bool)
      requires Valid() && NonNegative(root.table) && root.sumWeight != 0 && Below(pick) && Below(keep)
      requires NoHigher(ws, Weights()) && Stored(ws, Weights(), current, n)
      modifies this, root.Repr
      ensures Valid() && NonNegative(root.table) && root == old(root) && root.Repr == old(root.Repr)
      ensures Stored(ws, Weights(), current, n + 1) && 0 <= root.sumWeight
      ensures forall x :: x in Weights() ==> x in ws && (x == item || Weights()[x] <= ws[x])
      ensures item in old(Weights())
      ensures exists k: nat :: Selects(old(root.table), pick(n, old(root.sumWeight)), k) && old(root.table)[k] == Full(item, old(Weights())[item])
      ensures accepted <==> current(n, item) >= old(Weights())[item] || keep(n, old(Weights())[item]) < current(n, item)
      ensures accepted ==> item in Weights() && Weights()[item] == current(n, item) > 0
      ensures !accepted ==> root.sumWeight < old(root.sumWeight) && NoHigher(ws, Weights())
    {
      StoredNext(ws, Weights(), current, n);
      var lastWeight, weight;
      item, lastWeight, weight := Draw(current, pick, n);
      accepted := weight >= lastWeight || keep(n, lastWeight) < weight;
    }

    /** Draws an item, asks for its current weight and stores that if it has changed. */
    method Draw(current: Current, pick: Random, n: nat) returns (item: Item, lastWeight: int, weight: int)
      requires Valid() && NonNegative(root.table) && root.sumWeight != 0 && Below(pick)
      modifies this, root.Repr
      ensures Valid() && NonNegative(root.table) && root == old(root) && root.Repr == old(root.Repr)
      ensures item in old(Weights()) && lastWeight == old(Weights())[item] > 0 && weight == current(n, item)
      ensures exists k: nat :: Selects(old(root.table), pick(n, old(root.sumWeight)), k) && old(root.table)[k] == Full(item, lastWeight)
      ensures Weights() == Changed(old(Weights()), item, weight)
      ensures 0 <= root.sumWeight == old(root.sumWeight) + weight - lastWeight
    {
      root.Counted();
      WeightNonNegative(root.table);
      var val := pick(n, root.sumWeight);
      ghost var k;
      item, lastWeight, k := root.Choose(val);
      weight := current(n, item);
      ghost var t := root.table;
      Updated(t, k, Reweighted(t[k], weight));
      assert Weights()[item] == lastWeight && W(t[k]) > 0;
      if weight != lastWeight {
        Reweigh(item, weight);
      } else {
        assert Changed(Weights(), item, weight) == Weights();
      }
      root.Counted();
      WeightNonNegative(root.table);
    }
  }

  lemma {:induction false} NoWeightNoItem(idx: map<Item, nat>, t: seq<Slot>)
    requires Indexed(idx, t) && Proper(t) && NonNegative(t) && Weight(t) == 0
    ensures WeightsOf(idx, t) == map[]
  {
    forall k: nat | k < |t|
      ensures t[k].Empty?
    {
      assert t[..|t|] == t && t[..k + 1][..k] == t[..k];
      PrefixMonotone(t, k + 1, |t|);
      WeightNonNegative(t[..k]);
    }
    assert forall x :: x !in idx;
    assert WeightsOf(idx, t).Keys == {};
  }

  /** Values select at most one slot, and every value below the total weight selects one. */
  lemma {:induction false} SelectsOne(t: seq<Slot>, v: int)
    requires NonNegative(t) && 0 <= v < Weight(t)
    ensures exists k: nat :: Selects(t, v, k) && forall j: nat :: Selects(t, v, j) ==> j == k
  {
    var n := |t| - 1;
    assert t[..n + 1] == t;
    if v >= Weight(t[..n]) {
      assert Selects(t, v, n);
      forall j: nat | Selects(t, v, j)
        ensures j == n
      {
        if j < n { PrefixMonotone(t, j + 1, n); }
      }
    } else {
      SelectsOne(t[..n], v);
      var k: nat :| Selects(t[..n], v, k) && forall j: nat :: Selects(t[..n], v, j) ==> j == k;
      assert t[..n][..k] == t[..k] && t[..n][..k + 1] == t[..k + 1];
      assert Selects(t, v, k);
      forall j: nat | Selects(t, v, j)
        ensures j == k
      {
        if j < n {
          assert t[..n][..j] == t[..j] && t[..n][..j + 1] == t[..j + 1];
          assert Selects(t[..n], v, j);
        }
      }
    }
  }

  lemma {:induction false} PrefixMonotone(t: seq<Slot>, i: nat, j: nat)
    requires NonNegative(t) && i <= j <= |t|
    ensures Weight(t[..i]) <= Weight(t[..j])
    decreases j
  {
    if i < j {
      assert t[..j][..j - 1] == t[..j - 1];
      PrefixMonotone(t, i, j - 1);
    }
  }

  ghost function Interval(lo: int, hi: int): (s: set<int>)
    ensures forall v :: v in s <==> lo <= v < hi
    ensures |s| == if lo <= hi then hi - lo else 0
    decreases hi - lo
  {
    if hi <= lo then {} else Interval(lo, hi - 1) + {hi - 1}
  }

  /** Each slot is selected by exactly as many of the values 0..total-1 as its weight. */
  lemma HitCount(t: seq<Slot>, k: nat)
    requires NonNegative(t) && k < |t|
    ensures exists hits: set<int> :: |hits| == W(t[k]) && forall v :: v in hits <==> 0 <= v < Weight(t) && Selects(t, v, k)
  {
    var hits := Interval(Weight(t[..k]), Weight(t[..k + 1]));
    assert t[..k + 1][..k] == t[..k];
    assert t[..|t|] == t;
    WeightNonNegative(t[..k]);
    PrefixMonotone(t, k + 1, |t|);
    assert |hits| == W(t[k]) && forall v :: v in hits <==> 0 <= v < Weight(t) && Selects(t, v, k);
  }
}
