/** Block headers, their ancestry back to genesis, and the facts about ancestries
    that the header chain, the block chain and the light transaction pool share. */
module Chain {
  import opened Wrappers

  type Hash = int

  /** The part of a block header that chain maintenance looks at. `hash` is the
      header's own hash; two headers with the same hash are the same header. */
  datatype Header = Header(hash: Hash, parent: Hash, number: nat, difficulty: int)

  type Headers = map<Hash, Header>

  /** Every header of `hs` is filed under its hash, only genesis has number zero and
      every other header has its parent, numbered one below it, in `hs` too. */
  ghost predicate Closed(hs: Headers, genesis: Hash) {
    && genesis in hs && hs[genesis].number == 0
    && (forall h :: h in hs ==> hs[h].hash == h)
    && (forall h :: h in hs && hs[h].number == 0 ==> h == genesis)
    && (forall h {:trigger HasParent(hs, h)} :: h in hs && hs[h].number > 0 ==> HasParent(hs, h))
  }

  ghost predicate HasParent(hs: Headers, h: Hash)
    requires h in hs
  {
    hs[h].parent in hs && hs[hs[h].parent].number == hs[h].number - 1
  }

  /** Member `i` of `c` is the child of the member before it. */
  ghost predicate Linked(hs: Headers, c: seq<Hash>, i: nat)
    requires 0 < i < |c| && c[i] in hs
  {
    hs[c[i]].parent == c[i - 1]
  }

  /** The hashes from genesis up to and including `h`, indexed by block number. */
  ghost function Ancestry(hs: Headers, genesis: Hash, h: Hash): (c: seq<Hash>)
    requires Closed(hs, genesis) && h in hs
    ensures |c| == hs[h].number + 1 && c[0] == genesis && c[|c| - 1] == h
    ensures forall i :: 0 <= i < |c| ==> c[i] in hs && hs[c[i]].number == i
    ensures forall i {:trigger Linked(hs, c, i)} :: 0 < i < |c| ==> Linked(hs, c, i)
    decreases hs[h].number
  {
    if hs[h].number == 0 then [h]
    else
      assert HasParent(hs, h);
      var p := Ancestry(hs, genesis, hs[h].parent);
      assert forall i {:trigger Linked(hs, p + [h], i)} :: 0 < i < |p| && Linked(hs, p, i) ==> Linked(hs, p + [h], i);
      p + [h]
  }

  /** Total difficulty: the sum of the difficulties from genesis to `h`. */
  ghost function TotalDifficulty(hs: Headers, genesis: Hash, h: Hash): int
    requires Closed(hs, genesis) && h in hs
    decreases hs[h].number
  {
    hs[h].difficulty +
    if hs[h].number == 0 then 0
    else
      assert HasParent(hs, h);
      TotalDifficulty(hs, genesis, hs[h].parent)
  }

  /** Cutting an ancestry at any of its members gives that member's ancestry. */
  lemma {:induction false} AncestryPrefix(hs: Headers, genesis: Hash, h: Hash, i: nat)
    requires Closed(hs, genesis) && h in hs && i <= hs[h].number
    ensures Ancestry(hs, genesis, Ancestry(hs, genesis, h)[i]) == Ancestry(hs, genesis, h)[..i + 1]
    decreases hs[h].number
  {
    var c := Ancestry(hs, genesis, h);
    if i == hs[h].number {
      assert c[..i + 1] == c;
    } else {
      assert HasParent(hs, h);
      AncestryPrefix(hs, genesis, hs[h].parent, i);
      assert c[..i + 1] == Ancestry(hs, genesis, hs[h].parent)[..i + 1];
    }
  }

  /** Two ancestries that meet at a number agree at every number below it. */
  lemma AncestriesMeet(hs: Headers, genesis: Hash, a: Hash, b: Hash, i: nat)
    requires Closed(hs, genesis) && a in hs && b in hs
    requires i <= hs[a].number && i <= hs[b].number
    requires Ancestry(hs, genesis, a)[i] == Ancestry(hs, genesis, b)[i]
    ensures Ancestry(hs, genesis, a)[..i + 1] == Ancestry(hs, genesis, b)[..i + 1]
  {
    AncestryPrefix(hs, genesis, a, i);
    AncestryPrefix(hs, genesis, b, i);
  }

  lemma AgreeBelow(hs: Headers, genesis: Hash, a: Hash, b: Hash, i: nat, j: nat)
    requires Closed(hs, genesis) && a in hs && b in hs
    requires j <= i <= hs[a].number && i <= hs[b].number
    requires Ancestry(hs, genesis, a)[i] == Ancestry(hs, genesis, b)[i]
    ensures Ancestry(hs, genesis, a)[j] == Ancestry(hs, genesis, b)[j]
  {
    AncestriesMeet(hs, genesis, a, b, i);
    var ca, cb := Ancestry(hs, genesis, a), Ancestry(hs, genesis, b);
    assert ca[j] == ca[..i + 1][j] && cb[j] == cb[..i + 1][j];
  }

  /** The last header two ancestries share: the highest number at which they agree. */
  ghost predicate LastCommon(hs: Headers, genesis: Hash, a: Hash, b: Hash, common: Hash)
    requires Closed(hs, genesis) && a in hs && b in hs
  {
    && common in hs
    && var n := hs[common].number;
       var ca, cb := Ancestry(hs, genesis, a), Ancestry(hs, genesis, b);
       && n < |ca| && n < |cb| && ca[n] == common == cb[n]
       && forall i :: n < i < |ca| && i < |cb| ==> ca[i] != cb[i]
  }

  /** An ancestor of `h` as a step on the walk towards genesis. */
  ghost predicate OnAncestry(hs: Headers, genesis: Hash, h: Hash, x: Header)
    requires Closed(hs, genesis) && h in hs
  {
    x.hash in hs && hs[x.hash] == x && x.number <= hs[h].number && Ancestry(hs, genesis, h)[x.number] == x.hash
  }

  lemma ParentOnAncestry(hs: Headers, genesis: Hash, h: Hash, x: Header)
    requires Closed(hs, genesis) && h in hs && OnAncestry(hs, genesis, h, x) && x.number > 0
    ensures x.parent in hs && OnAncestry(hs, genesis, h, hs[x.parent])
    ensures x.parent in Ancestry(hs, genesis, h)
    ensures hs[x.parent].number == x.number - 1
  {
    assert HasParent(hs, x.hash) && Linked(hs, Ancestry(hs, genesis, h), x.number);
  }

  /** Walks both headers back until they meet. `headers` is the header table of the
      database; a header that is missing from it on the way makes the result None. */
  method FindCommonAncestor(headers: Headers, ghost hs: Headers, ghost genesis: Hash, a0: Header, b0: Header) returns (r: Option<Header>)
    requires Closed(hs, genesis) && a0.hash in hs && hs[a0.hash] == a0 && b0.hash in hs && hs[b0.hash] == b0
    requires forall h :: h in headers ==> h in hs && hs[h] == headers[h]
    ensures r.Some? ==> LastCommon(hs, genesis, a0.hash, b0.hash, r.value.hash) && hs[r.value.hash] == r.value
    ensures r.None? ==> exists h :: h !in headers && (h in Ancestry(hs, genesis, a0.hash) || h in Ancestry(hs, genesis, b0.hash))
  {
    var a, b := a0, b0;
    while a.number > b0.number
      invariant OnAncestry(hs, genesis, a0.hash, a) && (a == a0 || a.number >= b0.number)
      decreases a.number
    {
      ParentOnAncestry(hs, genesis, a0.hash, a);
      if a.parent !in headers { return None; }
      a := headers[a.parent];
    }
    while a.number < b.number
      invariant OnAncestry(hs, genesis, b0.hash, b) && b.number >= a.number
      decreases b.number
    {
      ParentOnAncestry(hs, genesis, b0.hash, b);
      if b.parent !in headers { return None; }
      b := headers[b.parent];
    }
    while a.hash != b.hash
      invariant OnAncestry(hs, genesis, a0.hash, a) && OnAncestry(hs, genesis, b0.hash, b) && a.number == b.number
      invariant forall i :: a.number < i <= a0.number && i <= b0.number ==>
                  Ancestry(hs, genesis, a0.hash)[i] != Ancestry(hs, genesis, b0.hash)[i]
      decreases a.number
    {
      ParentOnAncestry(hs, genesis, a0.hash, a);
      ParentOnAncestry(hs, genesis, b0.hash, b);
      if a.parent !in headers { return None; }
      a := headers[a.parent];
      if b.parent !in headers { return None; }
      b := headers[b.parent];
    }
    r := Some(a);
  }
}
