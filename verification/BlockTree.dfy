/**
 The block tree: BlockManager::m_block_index as a map from hashes to records. A
 `CBlockIndex*` is the key of the record it points to, a null pointer is `None`. The
 reference notion of ancestry is the walk along `prev`; everything faster is proved
 equal to it.
 */
module BlockTree {
  import opened Types
  import opened Bits
  import Compact

  datatype ValidationLevel = UNKNOWN | HEADER | TREE
  datatype FailureState = NOT_FAILED | VALIDATION_FAILED | ANCESTOR_FAILED

  /** BlockStatus, include/chain/block_index.hpp:29-70. */
  datatype BlockStatus = BlockStatus(validation: ValidationLevel, failure: FailureState)
  {
    predicate IsFailed() { failure != NOT_FAILED }

    /** IsValid(TREE) */
    predicate IsValidTree() { !IsFailed() && validation == TREE }
  }

  /** CBlockIndex, with the header fields kept as one header. */
  datatype BlockIndex = BlockIndex(
    header: Header,
    prev: Option<Hash>,
    skip: Option<Hash>,
    height: nat,
    chainWork: nat,
    timeMax: nat,
    status: BlockStatus)

  type Index = map<Hash, BlockIndex>

  // ---------- shape ----------

  predicate LinkedAt(ix: Index, h: Hash)
    requires h in ix
  {
    match ix[h].prev
    case None => ix[h].height == 0
    case Some(p) => p in ix && ix[h].height == ix[p].height + 1
  }

  /** Every parent is indexed, and heights count the steps from a root. */
  ghost predicate Linked(ix: Index)
  {
    forall h {:trigger LinkedAt(ix, h)} :: h in ix ==> LinkedAt(ix, h)
  }

  /** The block reached from h by `height(h) - k` steps along prev. */
  ghost function AncestorAt(ix: Index, h: Hash, k: nat): (a: Hash)
    requires Linked(ix) && h in ix && k <= ix[h].height
    ensures a in ix && ix[a].height == k
    decreases ix[h].height
  {
    assert LinkedAt(ix, h);
    if ix[h].height == k then h else AncestorAt(ix, ix[h].prev.value, k)
  }

  ghost predicate IsAncestor(ix: Index, a: Hash, h: Hash)
    requires Linked(ix) && h in ix && a in ix
  {
    ix[a].height <= ix[h].height && AncestorAt(ix, h, ix[a].height) == a
  }

  /** The blocks from the root to h, by height. */
  ghost function Path(ix: Index, h: Hash): (p: seq<Hash>)
    requires Linked(ix) && h in ix
    ensures |p| == ix[h].height + 1
    ensures forall k :: 0 <= k < |p| ==> p[k] == AncestorAt(ix, h, k)
    ensures Last(p) == h
  {
    seq(ix[h].height + 1, k requires 0 <= k <= ix[h].height => AncestorAt(ix, h, k))
  }

  lemma {:induction false} AncestorOfAncestor(ix: Index, h: Hash, m: nat, k: nat)
    requires Linked(ix) && h in ix && k <= m <= ix[h].height
    ensures AncestorAt(ix, AncestorAt(ix, h, m), k) == AncestorAt(ix, h, k)
    decreases ix[h].height
  {
    if m < ix[h].height {
      assert LinkedAt(ix, h);
      AncestorOfAncestor(ix, ix[h].prev.value, m, k);
    }
  }

  /** The path to an ancestor is a prefix of the path. */
  lemma PathOfAncestor(ix: Index, h: Hash, m: nat)
    requires Linked(ix) && h in ix && m <= ix[h].height
    ensures Path(ix, AncestorAt(ix, h, m)) == Path(ix, h)[..m + 1]
  {
    forall k | 0 <= k <= m
      ensures Path(ix, AncestorAt(ix, h, m))[k] == Path(ix, h)[k]
    {
      AncestorOfAncestor(ix, h, m, k);
    }
  }

  // ---------- change ----------

  /** ix2 keeps every record of ix1 up to its status. */
  ghost predicate Extends(ix1: Index, ix2: Index)
  {
    forall h :: h in ix1 ==> h in ix2 && ix2[h].(status := ix1[h].status) == ix1[h]
  }

  lemma {:induction false} AncestorExtends(ix1: Index, ix2: Index, h: Hash, k: nat)
    requires Linked(ix1) && Linked(ix2) && Extends(ix1, ix2) && h in ix1 && k <= ix1[h].height
    ensures AncestorAt(ix2, h, k) == AncestorAt(ix1, h, k)
    decreases ix1[h].height
  {
    if k < ix1[h].height {
      assert LinkedAt(ix1, h);
      AncestorExtends(ix1, ix2, ix1[h].prev.value, k);
    }
  }

  lemma PathExtends(ix1: Index, ix2: Index, h: Hash)
    requires Linked(ix1) && Linked(ix2) && Extends(ix1, ix2) && h in ix1
    ensures Path(ix2, h) == Path(ix1, h)
  {
    forall k | 0 <= k <= ix1[h].height
      ensures Path(ix2, h)[k] == Path(ix1, h)[k]
    {
      AncestorExtends(ix1, ix2, h, k);
    }
  }

  // ---------- skip heights ----------

  /** n & (n - 1) */
  function InvertLowestOne(n: nat): (r: nat)
    ensures r <= n && (n > 0 ==> r < n)
  {
    if n == 0 then 0 else And(n, n - 1)
  }

  /** GetSkipHeight, src/chain/block_index.cpp:20-30: always below a positive height. */
  function SkipHeight(height: nat): (s: nat)
    ensures height > 0 ==> s < height
  {
    if height < 2 then 0
    else if height % 2 == 1 then InvertLowestOne(InvertLowestOne(height - 1)) + 1
    else InvertLowestOne(height)
  }

  /** A skip pointer, where one is set, names the ancestor at the skip height. */
  ghost predicate SkipSound(ix: Index)
    requires Linked(ix)
  {
    forall h :: h in ix && ix[h].skip.Some? ==>
      ix[h].height > 0 && ix[h].skip.value == AncestorAt(ix, h, SkipHeight(ix[h].height))
  }

  /** Every block above a root has its skip pointer. */
  ghost predicate SkipsSet(ix: Index)
  {
    forall h :: h in ix && ix[h].height > 0 ==> ix[h].skip.Some?
  }

  // ---------- trees built from headers ----------

  /** The record AddToBlockIndex creates for a header whose parent is indexed. */
  ghost function ChildRecord(ix: Index, header: Header): BlockIndex
    requires Linked(ix) && header.prev in ix
  {
    var parent := ix[header.prev];
    BlockIndex(header, Some(header.prev),
               Some(AncestorAt(ix, header.prev, SkipHeight(parent.height + 1))),
               parent.height + 1,
               parent.chainWork + Compact.BlockProof(header.bits),
               Max(parent.timeMax, header.time),
               BlockStatus(UNKNOWN, NOT_FAILED))
  }

  function RootRecord(header: Header): BlockIndex
  {
    BlockIndex(header, None, None, 0, Compact.BlockProof(header.bits), header.time, BlockStatus(UNKNOWN, NOT_FAILED))
  }

  /** The record of h is what AddToBlockIndex computes from its header and its parent's record. */
  ghost predicate BuiltAt(hash: Header -> Hash, ix: Index, h: Hash)
    requires Linked(ix) && h in ix
  {
    var b := ix[h];
    && LinkedAt(ix, h)
    && hash(b.header) == h
    && match b.prev
       case None =>
         && b.header.prev == NULL_HASH && b.skip == None
         && b.chainWork == Compact.BlockProof(b.header.bits) && b.timeMax == b.header.time
       case Some(p) =>
         && b.header.prev == p && b.skip == Some(AncestorAt(ix, p, SkipHeight(b.height)))
         && b.chainWork == ix[p].chainWork + Compact.BlockProof(b.header.bits)
         && b.timeMax == Max(ix[p].timeMax, b.header.time)
  }

  /** A tree with the single root `genesis`, built by AddToBlockIndex. */
  ghost predicate Tree(hash: Header -> Hash, genesis: Hash, ix: Index)
  {
    && Linked(ix)
    && genesis in ix && ix[genesis].prev == None
    && (forall h {:trigger ix[h].prev} :: h in ix && ix[h].prev == None ==> h == genesis)
    && (forall h {:trigger BuiltAt(hash, ix, h)} :: h in ix ==> BuiltAt(hash, ix, h))
  }

  lemma TreeSkipSound(hash: Header -> Hash, genesis: Hash, ix: Index)
    requires Tree(hash, genesis, ix)
    ensures SkipSound(ix)
  {
    forall h | h in ix && ix[h].skip.Some?
      ensures ix[h].height > 0 && ix[h].skip.value == AncestorAt(ix, h, SkipHeight(ix[h].height))
    {
      assert BuiltAt(hash, ix, h);
    }
  }

  lemma TreeSkipsSet(hash: Header -> Hash, genesis: Hash, ix: Index)
    requires Tree(hash, genesis, ix)
    ensures SkipsSet(ix)
  {
    forall h | h in ix && ix[h].height > 0
      ensures ix[h].skip.Some?
    {
      assert BuiltAt(hash, ix, h);
    }
  }

  /** All paths start at genesis. */
  lemma PathStart(hash: Header -> Hash, genesis: Hash, ix: Index, h: Hash)
    requires Tree(hash, genesis, ix) && h in ix
    ensures Path(ix, h)[0] == genesis
  {
    assert LinkedAt(ix, AncestorAt(ix, h, 0));
  }

  /** Work and maximal time do not decrease from an ancestor to a descendant. */
  lemma {:induction false} WorkMonotone(hash: Header -> Hash, genesis: Hash, ix: Index, h: Hash, k: nat)
    requires Tree(hash, genesis, ix) && h in ix && k <= ix[h].height
    ensures ix[AncestorAt(ix, h, k)].chainWork <= ix[h].chainWork
    ensures ix[AncestorAt(ix, h, k)].timeMax <= ix[h].timeMax
    decreases ix[h].height
  {
    if k < ix[h].height {
      assert BuiltAt(hash, ix, h);
      WorkMonotone(hash, genesis, ix, ix[h].prev.value, k);
    }
  }
}
