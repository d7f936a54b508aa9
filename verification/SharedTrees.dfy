/** Two nodes' trees agree on what they share, so a header that passed one node's checks passes the other's. */
module SharedTrees {
  import opened Types
  import opened BlockTree
  import opened Consensus
  import opened MedianTime
  import opened ConsensusState
  import opened RunTheorems

  ghost predicate Comparable(P: Params, ix1: Index, ix2: Index)
  {
    Injective(P.hash) && Tree(P.hash, P.genesisHash, ix1) && Tree(P.hash, P.genesisHash, ix2)
  }

  lemma {:induction false} SharedAncestors(P: Params, ix1: Index, ix2: Index, h: Hash, k: nat)
    requires Comparable(P, ix1, ix2) && h in ix1 && h in ix2 && k <= ix1[h].height
    ensures ix2[h].height == ix1[h].height && AncestorAt(ix2, h, k) == AncestorAt(ix1, h, k)
    decreases ix1[h].height
  {
    SharedBlocksAgree(P, ix1, ix2, h);
    if k < ix1[h].height {
      assert LinkedAt(ix1, h);
      SharedParent(P, ix1, ix2, h);
      SharedAncestors(P, ix1, ix2, ix1[h].prev.value, k);
    }
  }

  lemma SharedPaths(P: Params, ix1: Index, ix2: Index, h: Hash)
    requires Comparable(P, ix1, ix2) && h in ix1 && h in ix2
    ensures Path(ix1, h) == Path(ix2, h)
  {
    SharedBlocksAgree(P, ix1, ix2, h);
    forall k | 0 <= k <= ix1[h].height ensures Path(ix1, h)[k] == Path(ix2, h)[k] {
      SharedAncestors(P, ix1, ix2, h, k);
    }
  }

  lemma {:induction false} SharedTimes(P: Params, ix1: Index, ix2: Index, h: Hash, n: nat)
    requires Comparable(P, ix1, ix2) && h in ix1 && h in ix2
    ensures Times(ix1, h, n) == Times(ix2, h, n)
    decreases ix1[h].height
  {
    SharedBlocksAgree(P, ix1, ix2, h);
    assert LinkedAt(ix1, h);
    if n > 0 && ix1[h].prev.Some? {
      SharedParent(P, ix1, ix2, h);
      SharedTimes(P, ix1, ix2, ix1[h].prev.value, n - 1);
    }
  }

  lemma SharedExpectedBits(P: Params, ix1: Index, ix2: Index, h: Hash)
    requires Comparable(P, ix1, ix2) && h in ix1 && h in ix2
    ensures ExpectedBits(P, ix1, Some(h)) == ExpectedBits(P, ix2, Some(h))
  {
    SharedBlocksAgree(P, ix1, ix2, h);
    if P.anchorHeight <= ix1[h].height {
      SharedAncestors(P, ix1, ix2, h, P.anchorHeight);
      var a := AncestorAt(ix1, h, P.anchorHeight);
      SharedBlocksAgree(P, ix1, ix2, a);
      SameAsertBits(P, ix1[a], ix2[a], ix1[h], ix2[h]);
    }
  }

  lemma SameAsertBits(P: Params, a1: BlockIndex, a2: BlockIndex, b1: BlockIndex, b2: BlockIndex)
    requires a1.header == a2.header && b1.header == b2.header && b1.height == b2.height
    ensures AsertBits(P, a1, b1) == AsertBits(P, a2, b2)
  {
  }

  /** What the clock and the proof of work say about a header, apart from its place in the tree. */
  predicate Timely(P: Params, header: Header, now: int)
  {
    && P.commitmentOk(header) && P.fullOk(header) && header.prev != NULL_HASH
    && header.time <= now + MAX_FUTURE_BLOCK_TIME
  }

  /** A block checked in one tree is acceptable in another that has its parent and has not failed it. */
  lemma {:induction false} AcceptableElsewhere(P: Params, ix: Index, other: Index, y: Hash, now: int)
    requires Comparable(P, ix, other) && Checked(P, other) && y in other && other[y].prev.Some? && y !in ix
    requires other[y].prev.value in ix && !IsFailed(ix, other[y].prev.value)
    requires Timely(P, other[y].header, now)
    ensures Acceptable(P, ix, other[y].header, now)
  {
    assert BuiltAt(P.hash, other, y) && CheckedAt(P, other, y);
    var x := other[y].prev.value;
    SharedExpectedBits(P, ix, other, x);
    SharedTimes(P, ix, other, x, MEDIAN_TIME_SPAN);
    PassesContext(P, ix, other, other[y].header, x, now);
  }

  lemma PassesContext(P: Params, ix: Index, other: Index, header: Header, x: Hash, now: int)
    requires Linked(ix) && Linked(other) && x in ix && x in other
    requires ExpectedBits(P, ix, Some(x)) == ExpectedBits(P, other, Some(x))
    requires Times(ix, x, MEDIAN_TIME_SPAN) == Times(other, x, MEDIAN_TIME_SPAN)
    requires header.bits == ExpectedBits(P, other, Some(x)) && header.time > MedianTimePast(other, x)
    requires header.version >= 1 && header.time <= now + MAX_FUTURE_BLOCK_TIME
    ensures ContextualError(P, ix, header, x, now) == None
  {
  }
}
