/** Saving and loading the header tree, with records in place of JSON (src/chain/block_manager.cpp:30-74, 215-601). */
module Loader {
  import opened Types
  import opened BlockTree
  import opened Ancestry
  import opened ActiveChain
  import BlockStore
  import Compact

  const MAX_WALK := 1_000_000

  /** One entry of "blocks". */
  datatype Record = Record(hash: Hash, header: Header, height: int, chainWork: nat, status: BlockStatus)

  datatype File = File(version: int, genesisHash: Hash, tipHash: Option<Hash>, blocks: seq<Record>)

  // ---------- what a loadable file is ----------

  function RecordsOf(blocks: seq<Record>): map<Hash, Record>
  {
    if blocks == [] then map[] else RecordsOf(blocks[..|blocks| - 1])[Last(blocks).hash := Last(blocks)]
  }

  /** Every stored hash is the hash of the stored header, and none is stored twice. */
  ghost predicate Sound(hash: Header -> Hash, blocks: seq<Record>)
  {
    forall i {:trigger blocks[i]} :: 0 <= i < |blocks| ==>
      hash(blocks[i].header) == blocks[i].hash && blocks[i].hash !in RecordsOf(blocks[..i])
  }

  ghost predicate ParentsPresent(recs: map<Hash, Record>)
  {
    forall h {:trigger recs[h]} :: h in recs ==> recs[h].header.prev == NULL_HASH || recs[h].header.prev in recs
  }

  /** Exactly one record names no parent, and it is the expected genesis. */
  ghost predicate OneGenesis(recs: map<Hash, Record>, genesis: Hash)
  {
    && genesis in recs && recs[genesis].header.prev == NULL_HASH
    && forall h {:trigger recs[h]} :: h in recs && recs[h].header.prev == NULL_HASH ==> h == genesis
  }

  ghost predicate HeightAt(recs: map<Hash, Record>, h: Hash)
    requires h in recs
  {
    && recs[h].height >= 0
    && (if recs[h].header.prev == NULL_HASH then recs[h].height == 0
        else recs[h].header.prev in recs && recs[recs[h].header.prev].height + 1 == recs[h].height)
  }

  ghost predicate HeightsRight(recs: map<Hash, Record>)
  {
    forall h {:trigger HeightAt(recs, h)} :: h in recs ==> HeightAt(recs, h)
  }

  ghost predicate TipRight(recs: map<Hash, Record>, tip: Option<Hash>)
  {
    tip.Some? && tip.value in recs && !recs[tip.value].status.IsFailed() && recs[tip.value].height <= MAX_WALK
  }

  ghost predicate Loadable(hash: Header -> Hash, file: File, genesis: Hash)
  {
    var recs := RecordsOf(file.blocks);
    && file.version == 1 && file.genesisHash == genesis && Sound(hash, file.blocks)
    && ParentsPresent(recs) && OneGenesis(recs, genesis) && HeightsRight(recs) && TipRight(recs, file.tipHash)
  }

  // ---------- what is loaded ----------

  function ParentOf(r: Record): Option<Hash>
  {
    if r.header.prev == NULL_HASH then None else Some(r.header.prev)
  }

  /** The entry holds what the record says; skip pointer and maximal time are recomputed. */
  ghost predicate LoadedAt(recs: map<Hash, Record>, ix: Index, h: Hash)
    requires Linked(ix) && h in ix && h in recs
  {
    var b, r := ix[h], recs[h];
    && LinkedAt(ix, h)
    && b.header == r.header && b.height == r.height && b.chainWork == r.chainWork && b.status == r.status
    && b.prev == ParentOf(r)
    && (match b.prev
        case None => b.skip == None && b.timeMax == r.header.time
        case Some(p) =>
          && b.skip == Some(AncestorAt(ix, p, SkipHeight(b.height)))
          && b.timeMax == Max(ix[p].timeMax, r.header.time))
  }

  ghost predicate Loaded(recs: map<Hash, Record>, ix: Index)
  {
    && Linked(ix) && ix.Keys <= recs.Keys
    && forall h {:trigger LoadedAt(recs, ix, h)} :: h in ix ==> LoadedAt(recs, ix, h)
  }

  lemma LoadedSkips(recs: map<Hash, Record>, ix: Index)
    requires Loaded(recs, ix)
    ensures SkipSound(ix)
  {
    forall h | h in ix && ix[h].skip.Some?
      ensures ix[h].height > 0 && ix[h].skip.value == AncestorAt(ix, h, SkipHeight(ix[h].height))
    {
      assert LoadedAt(recs, ix, h);
    }
  }

  /** A further entry whose parent is already there. */
  lemma LoadedGrows(recs: map<Hash, Record>, ix: Index, h: Hash, b: BlockIndex)
    requires Loaded(recs, ix) && h !in ix && h in recs && HeightAt(recs, h)
    requires b.header == recs[h].header && b.height == recs[h].height && b.chainWork == recs[h].chainWork
    requires b.status == recs[h].status && b.prev == ParentOf(recs[h])
    requires b.prev.None? ==> b.skip == None && b.timeMax == b.header.time
    requires b.prev.Some? ==> && b.prev.value in ix
                              && b.skip == Some(AncestorAt(ix, b.prev.value, Min(SkipHeight(b.height),
                                                                                 ix[b.prev.value].height)))
                              && b.timeMax == Max(ix[b.prev.value].timeMax, b.header.time)
    ensures Loaded(recs, ix[h := b])
  {
    var ix2 := ix[h := b];
    if b.prev.Some? {
      assert LoadedAt(recs, ix, b.prev.value);
    }
    forall g | g in ix2 ensures LinkedAt(ix2, g) {
      if g != h {
        assert LinkedAt(ix, g);
      }
    }
    forall g | g in ix2 ensures LoadedAt(recs, ix2, g) {
      assert LinkedAt(ix2, g);
      if g != h {
        assert LoadedAt(recs, ix, g);
        if ix[g].prev.Some? {
          AncestorExtends(ix, ix2, ix[g].prev.value, SkipHeight(ix[g].height));
        }
      } else if b.prev.Some? {
        AncestorExtends(ix, ix2, b.prev.value, SkipHeight(b.height));
      }
    }
  }

  /** The file determines the tree. */
  lemma {:induction false} LoadedUnique(recs: map<Hash, Record>, ix1: Index, ix2: Index, h: Hash)
    requires Loaded(recs, ix1) && Loaded(recs, ix2) && ix1.Keys == ix2.Keys && h in ix1
    ensures ix1[h] == ix2[h]
    decreases ix1[h].height
  {
    assert LoadedAt(recs, ix1, h) && LoadedAt(recs, ix2, h);
    if ix1[h].prev.Some? {
      LoadedUnique(recs, ix1, ix2, ix1[h].prev.value);
      SameAncestors(recs, ix1, ix2, ix1[h].prev.value, SkipHeight(ix1[h].height));
    }
  }

  lemma {:induction false} SameAncestors(recs: map<Hash, Record>, ix1: Index, ix2: Index, h: Hash, k: nat)
    requires Loaded(recs, ix1) && Loaded(recs, ix2) && ix1.Keys == ix2.Keys && h in ix1 && k <= ix1[h].height
    ensures ix2[h].height == ix1[h].height && AncestorAt(ix1, h, k) == AncestorAt(ix2, h, k)
    decreases ix1[h].height
  {
    assert LoadedAt(recs, ix1, h) && LoadedAt(recs, ix2, h);
    if k < ix1[h].height {
      SameAncestors(recs, ix1, ix2, ix1[h].prev.value, k);
    }
  }

  // ---------- the passes of Load ----------

  /** First pass: create the entries. */
  method ReadRecords(hash: Header -> Hash, blocks: seq<Record>) returns (ok: bool, recs: map<Hash, Record>)
    ensures ok == Sound(hash, blocks)
    ensures ok ==> recs == RecordsOf(blocks)
  {
    recs := map[];
    for i := 0 to |blocks|
      invariant recs == RecordsOf(blocks[..i])
      invariant forall j {:trigger blocks[j]} :: 0 <= j < i ==>
                  hash(blocks[j].header) == blocks[j].hash && blocks[j].hash !in RecordsOf(blocks[..j])
    {
      assert blocks[..i + 1][..i] == blocks[..i];
      if hash(blocks[i].header) != blocks[i].hash || blocks[i].hash in recs {
        return false, recs;
      }
      recs := recs[blocks[i].hash := blocks[i]];
    }
    assert blocks[..|blocks|] == blocks;
    ok := true;
  }

  /** Second pass: every parent that is named exists. */
  method CheckParents(recs: map<Hash, Record>) returns (ok: bool)
    ensures ok == ParentsPresent(recs)
  {
    var todo := recs.Keys;
    while todo != {}
      invariant todo <= recs.Keys
      invariant forall h {:trigger recs[h]} :: h in recs && h !in todo ==>
                  recs[h].header.prev == NULL_HASH || recs[h].header.prev in recs
      decreases todo
    {
      var h :| h in todo;
      if recs[h].header.prev != NULL_HASH && recs[h].header.prev !in recs {
        return false;
      }
      todo := todo - {h};
    }
    ok := true;
  }

  /** Exactly one entry has no parent, and it is the expected one. */
  method CheckGenesis(recs: map<Hash, Record>, genesis: Hash) returns (ok: bool)
    ensures ok == OneGenesis(recs, genesis)
  {
    var roots := set h | h in recs && recs[h].header.prev == NULL_HASH;
    ok := roots == {genesis};
    GenesisIsRoots(recs, genesis, roots);
  }

  lemma GenesisIsRoots(recs: map<Hash, Record>, genesis: Hash, roots: set<Hash>)
    requires roots == set h | h in recs && recs[h].header.prev == NULL_HASH
    ensures OneGenesis(recs, genesis) <==> roots == {genesis}
  {
    assert OneGenesis(recs, genesis) ==> genesis in roots && forall h :: h in roots ==> h == genesis;
    assert roots == {genesis} ==> genesis in roots && forall h {:trigger recs[h]} :: h in recs && h != genesis ==>
           h !in roots;
  }

  ghost predicate Lowest(recs: map<Hash, Record>, todo: set<Hash>, h: Hash)
    requires todo <= recs.Keys
  {
    h in todo && forall g {:trigger g in todo} :: g in todo ==> recs[h].height <= recs[g].height
  }

  /** Entries whose parent has been handled: all of them are below what is left. */
  lemma ParentIsDone(recs: map<Hash, Record>, todo: set<Hash>, h: Hash)
    requires todo <= recs.Keys && Lowest(recs, todo, h) && HeightAt(recs, h) && recs[h].header.prev != NULL_HASH
    ensures recs[h].header.prev in recs && recs[h].header.prev !in todo
  {
  }

  /** Third pass, in height order: check heights, compute the maximal times, build the skip pointers. */
  method BuildIndex(recs: map<Hash, Record>) returns (ok: bool, ix: Index)
    requires ParentsPresent(recs)
    ensures ok == HeightsRight(recs)
    ensures ok ==> Loaded(recs, ix) && ix.Keys == recs.Keys
  {
    ix := map[];
    var todo := recs.Keys;
    while todo != {}
      invariant todo <= recs.Keys && ix.Keys == recs.Keys - todo && Loaded(recs, ix)
      decreases todo
    {
      ghost var lowest := LeastExists(todo, h => if h in recs then recs[h].height else 0);
      var h :| h in todo && forall g {:trigger g in todo} :: g in todo ==> recs[h].height <= recs[g].height;
      if recs[h].height < 0 {
        assert !HeightAt(recs, h);
        return false, ix;
      }
      var right := CheckHeight(recs, h);
      if !right {
        return false, ix;
      }
      var b := BuildEntry(recs, todo, ix, h);
      LoadedGrows(recs, ix, h, b);
      ix := ix[h := b];
      todo := todo - {h};
    }
    AllHeightsRight(recs, ix);
    ok := true;
  }

  lemma AllHeightsRight(recs: map<Hash, Record>, ix: Index)
    requires Loaded(recs, ix) && ix.Keys == recs.Keys
    ensures HeightsRight(recs)
  {
    forall h | h in recs ensures HeightAt(recs, h) {
      assert LoadedAt(recs, ix, h);
      if ix[h].prev.Some? {
        assert LoadedAt(recs, ix, ix[h].prev.value);
      }
    }
  }

  method CheckHeight(recs: map<Hash, Record>, h: Hash) returns (ok: bool)
    requires ParentsPresent(recs) && h in recs && recs[h].height >= 0
    ensures ok == HeightAt(recs, h)
  {
    var prev := recs[h].header.prev;
    ok := if prev == NULL_HASH then recs[h].height == 0 else recs[prev].height + 1 == recs[h].height;
  }

  /** The entry of h, once its parent's entry is complete. */
  method BuildEntry(recs: map<Hash, Record>, ghost todo: set<Hash>, ix: Index, h: Hash) returns (b: BlockIndex)
    requires Loaded(recs, ix) && todo <= recs.Keys && ix.Keys == recs.Keys - todo
    requires Lowest(recs, todo, h) && HeightAt(recs, h)
    ensures b.header == recs[h].header && b.height == recs[h].height && b.chainWork == recs[h].chainWork
    ensures b.status == recs[h].status && b.prev == ParentOf(recs[h])
    ensures b.prev.None? ==> b.skip == None && b.timeMax == b.header.time
    ensures b.prev.Some? ==> && b.prev.value in ix
                             && b.skip == Some(AncestorAt(ix, b.prev.value, Min(SkipHeight(b.height),
                                                                                ix[b.prev.value].height)))
                             && b.timeMax == Max(ix[b.prev.value].timeMax, b.header.time)
  {
    var r := recs[h];
    var prev := r.header.prev;
    if prev == NULL_HASH {
      return BlockIndex(r.header, None, None, r.height, r.chainWork, r.header.time, r.status);
    }
    ParentIsDone(recs, todo, h);
    assert LoadedAt(recs, ix, prev);
    LoadedSkips(recs, ix);
    var skip, _ := GetAncestor(ix, prev, SkipHeight(r.height));
    b := BlockIndex(r.header, Some(prev), skip, r.height, r.chainWork, Max(ix[prev].timeMax, r.header.time), r.status);
  }

  /** VerifyChainContinuity: the walk to the root takes as many steps as the height says, at most a million. */
  method VerifyChainContinuity(ix: Index, pindex: Option<Hash>, genesis: Hash) returns (ok: bool)
    requires Linked(ix) && (pindex.Some? ==> pindex.value in ix)
    ensures pindex.None? ==> !ok
    ensures pindex.Some? ==>
              (ok <==> AncestorAt(ix, pindex.value, 0) == genesis && ix[pindex.value].height <= MAX_WALK)
  {
    if pindex.None? {
      return false;
    }
    var walk, walked := pindex.value, 0;
    assert LinkedAt(ix, walk);
    while ix[walk].prev.Some?
      invariant walk in ix && LinkedAt(ix, walk) && ix[walk].height + walked == ix[pindex.value].height
      invariant walked <= MAX_WALK && AncestorAt(ix, walk, 0) == AncestorAt(ix, pindex.value, 0)
      decreases ix[walk].height
    {
      walk := ix[walk].prev.value;
      assert LinkedAt(ix, walk);
      walked := walked + 1;
      if walked > MAX_WALK {
        return false;
      }
    }
    ok := walk == genesis && ix[walk].height == 0 && ix[pindex.value].height == walked;
  }

  // ---------- Load and Save ----------

  /** All blocks descend from the one block without a parent. */
  lemma RootIsGenesis(recs: map<Hash, Record>, ix: Index, genesis: Hash, h: Hash)
    requires Loaded(recs, ix) && ix.Keys == recs.Keys && OneGenesis(recs, genesis) && h in ix
    ensures AncestorAt(ix, h, 0) == genesis
  {
    var root := AncestorAt(ix, h, 0);
    assert LoadedAt(recs, ix, root);
    assert recs[root].header.prev == NULL_HASH;
  }

  /**
   BlockManager::Load. It succeeds exactly on loadable files; then the index is the tree the
   file describes, with one root, and the active chain is the path to the saved tip.
   */
  method Load(bm: BlockStore.BlockManager, hash: Header -> Hash, file: File, genesis: Hash) returns (ok: bool)
    modifies bm, bm.activeChain
    ensures ok == Loadable(hash, file, genesis)
    ensures ok ==> && bm.initialized && bm.genesisHash == genesis && bm.index.Keys == RecordsOf(file.blocks).Keys
                   && Loaded(RecordsOf(file.blocks), bm.index)
                   && file.tipHash.value in bm.index && bm.activeChain.Holds(bm.index, file.tipHash.value)
  {
    if file.version != 1 || file.genesisHash != genesis {
      return false;
    }
    bm.index := map[];
    bm.activeChain.Clear();
    var recs;
    ok, recs := ReadRecords(hash, file.blocks);
    if !ok {
      return;
    }
    ok := CheckParents(recs);
    if !ok {
      return;
    }
    ok := CheckGenesis(recs, genesis);
    if !ok {
      return;
    }
    var ix;
    ok, ix := BuildIndex(recs);
    bm.index := ix;
    if !ok {
      return;
    }
    bm.genesisHash := file.genesisHash;
    if file.tipHash.None? || file.tipHash.value !in ix {
      return false;
    }
    var tip := file.tipHash.value;
    assert LoadedAt(recs, ix, tip);
    if ix[tip].status.IsFailed() {
      return false;
    }
    bm.activeChain.SetTip(ix, tip);
    RootIsGenesis(recs, ix, genesis, tip);
    ok := VerifyChainContinuity(ix, Some(tip), genesis);
    if ok {
      bm.initialized := true;
    }
  }

  function RecordOf(ix: Index, h: Hash): Record
    requires h in ix
  {
    var b := ix[h];
    Record(h, b.header.(prev := if b.prev.Some? then b.prev.value else NULL_HASH), b.height, b.chainWork, b.status)
  }

  /** The blocks saved so far: each is the record of an indexed block, and no block is saved twice. */
  ghost predicate SavedFrom(ix: Index, blocks: seq<Record>, done: set<Hash>)
    requires done <= ix.Keys
  {
    && (forall i {:trigger blocks[i]} :: 0 <= i < |blocks| ==>
          blocks[i].hash in done && blocks[i] == RecordOf(ix, blocks[i].hash)
            && blocks[i].hash !in RecordsOf(blocks[..i]))
    && RecordsOf(blocks).Keys == done
  }

  predicate ByHeight(blocks: seq<Record>)
  {
    forall i, j :: 0 <= i < j < |blocks| ==> blocks[i].height <= blocks[j].height
  }

  lemma SavedOneMore(ix: Index, blocks: seq<Record>, done: set<Hash>, h: Hash)
    requires done <= ix.Keys && SavedFrom(ix, blocks, done) && h in ix && h !in done
    ensures SavedFrom(ix, blocks + [RecordOf(ix, h)], done + {h})
  {
    var more := blocks + [RecordOf(ix, h)];
    assert more[..|blocks|] == blocks;
    forall i {:trigger more[i]} | 0 <= i < |more|
      ensures more[i].hash in done + {h} && more[i] == RecordOf(ix, more[i].hash)
              && more[i].hash !in RecordsOf(more[..i])
    {
      if i < |blocks| {
        assert more[..i] == blocks[..i] && more[i] == blocks[i];
      }
    }
  }

  /** The blocks written so far are those outside todo, none of them higher than what is left. */
  ghost predicate Saving(ix: Index, blocks: seq<Record>, todo: set<Hash>)
  {
    && todo <= ix.Keys && SavedFrom(ix, blocks, ix.Keys - todo) && ByHeight(blocks)
    && forall i, g {:trigger blocks[i], g in todo} :: 0 <= i < |blocks| && g in todo ==>
      blocks[i].height <= ix[g].height
  }

  lemma SavingStep(ix: Index, blocks: seq<Record>, todo: set<Hash>, h: Hash)
    requires Saving(ix, blocks, todo) && h in todo
    requires forall g {:trigger g in todo} :: g in todo ==> ix[h].height <= ix[g].height
    ensures Saving(ix, blocks + [RecordOf(ix, h)], todo - {h})
  {
    SavedOneMore(ix, blocks, ix.Keys - todo, h);
    assert (ix.Keys - todo) + {h} == ix.Keys - (todo - {h});
  }

  lemma SavingStarts(ix: Index)
    ensures Saving(ix, [], ix.Keys)
  {
    assert ix.Keys - ix.Keys == {};
  }

  /** BlockManager::Save: every block once, in height order, with the tip and genesis hashes. */
  method Save(bm: BlockStore.BlockManager) returns (file: File)
    ensures file.version == 1 && file.genesisHash == bm.genesisHash && file.tipHash == bm.GetTip()
    ensures SavedFrom(bm.index, file.blocks, bm.index.Keys) && ByHeight(file.blocks)
  {
    var ix := bm.index;
    var blocks, todo := [], ix.Keys;
    SavingStarts(ix);
    while todo != {}
      invariant Saving(ix, blocks, todo)
      decreases todo
    {
      ghost var lowest := LeastExists(todo, h => if h in ix then ix[h].height else 0);
      var h :| h in todo && forall g {:trigger g in todo} :: g in todo ==> ix[h].height <= ix[g].height;
      SavingStep(ix, blocks, todo, h);
      blocks := blocks + [RecordOf(ix, h)];
      todo := todo - {h};
    }
    assert ix.Keys - todo == ix.Keys;
    file := File(1, bm.genesisHash, bm.GetTip(), blocks);
  }

  // ---------- round trip ----------

  lemma {:induction false} SavedRecords(ix: Index, blocks: seq<Record>, done: set<Hash>, n: nat, h: Hash)
    requires done <= ix.Keys && SavedFrom(ix, blocks, done) && n <= |blocks| && h in RecordsOf(blocks[..n])
    ensures h in ix && RecordsOf(blocks[..n])[h] == RecordOf(ix, h)
    decreases n
  {
    if n > 0 {
      assert blocks[..n][..n - 1] == blocks[..n - 1];
      assert blocks[..n][n - 1] == blocks[n - 1];
      if h != blocks[n - 1].hash {
        SavedRecords(ix, blocks, done, n - 1, h);
      }
    }
  }

  /** A tree built by AddToBlockIndex in which no block has the null hash. */
  ghost predicate Storable(hash: Header -> Hash, genesis: Hash, ix: Index)
  {
    Tree(hash, genesis, ix) && NULL_HASH !in ix
  }

  lemma TreeIsLoaded(hash: Header -> Hash, genesis: Hash, ix: Index, recs: map<Hash, Record>)
    requires Storable(hash, genesis, ix) && recs.Keys == ix.Keys
    requires forall h {:trigger recs[h]} :: h in recs ==> recs[h] == RecordOf(ix, h)
    ensures Loaded(recs, ix) && ParentsPresent(recs) && OneGenesis(recs, genesis) && HeightsRight(recs)
  {
    forall h | h in ix
      ensures LoadedAt(recs, ix, h) && HeightAt(recs, h) && recs[h].header == ix[h].header
              && ParentOf(recs[h]) == ix[h].prev
    {
      assert BuiltAt(hash, ix, h) && recs[h] == RecordOf(ix, h);
      if ix[h].prev.Some? {
        assert recs[ix[h].prev.value] == RecordOf(ix, ix[h].prev.value);
      }
    }
    forall h {:trigger recs[h]} | h in recs ensures recs[h].header.prev == NULL_HASH || recs[h].header.prev in recs {
      assert LoadedAt(recs, ix, h) && LinkedAt(ix, h);
    }
    assert LoadedAt(recs, ix, genesis);
    forall h {:trigger recs[h]} | h in recs && recs[h].header.prev == NULL_HASH ensures h == genesis {
      assert LoadedAt(recs, ix, h);
      assert ix[h].prev == None;
    }
  }

  /**
   Loading what Save wrote succeeds exactly when the tip has not failed and is at most a million
   blocks high, and it rebuilds exactly the saved tree.
   */
  lemma {:induction false} SaveThenLoad(hash: Header -> Hash, genesis: Hash, ix: Index, tip: Hash, file: File,
                                        loaded: Index)
    requires Storable(hash, genesis, ix) && tip in ix
    requires file.version == 1 && file.genesisHash == genesis && file.tipHash == Some(tip)
    requires SavedFrom(ix, file.blocks, ix.Keys)
    ensures Loadable(hash, file, genesis) <==> !ix[tip].status.IsFailed() && ix[tip].height <= MAX_WALK
    ensures loaded.Keys == ix.Keys && Loaded(RecordsOf(file.blocks), loaded) ==> loaded == ix
  {
    var recs := RecordsOf(file.blocks);
    assert file.blocks[..|file.blocks|] == file.blocks;
    forall h {:trigger recs[h]} | h in recs ensures recs[h] == RecordOf(ix, h) {
      SavedRecords(ix, file.blocks, ix.Keys, |file.blocks|, h);
    }
    TreeIsLoaded(hash, genesis, ix, recs);
    SavedIsSound(hash, genesis, ix, file.blocks);
    assert recs[tip] == RecordOf(ix, tip);
    if loaded.Keys == ix.Keys && Loaded(recs, loaded) {
      forall h | h in ix ensures loaded[h] == ix[h] {
        LoadedUnique(recs, loaded, ix, h);
      }
    }
  }

  lemma SavedIsSound(hash: Header -> Hash, genesis: Hash, ix: Index, blocks: seq<Record>)
    requires Storable(hash, genesis, ix) && SavedFrom(ix, blocks, ix.Keys)
    ensures Sound(hash, blocks)
  {
    forall i {:trigger blocks[i]} | 0 <= i < |blocks|
      ensures hash(blocks[i].header) == blocks[i].hash && blocks[i].hash !in RecordsOf(blocks[..i])
    {
      assert BuiltAt(hash, ix, blocks[i].hash);
    }
  }

  /** The stored work of h is its parent's plus the proof of its own bits. */
  ghost predicate WorkRight(ix: Index, h: Hash)
    requires Linked(ix) && h in ix
  {
    && LinkedAt(ix, h)
    && ix[h].chainWork == Compact.BlockProof(ix[h].header.bits)
                          + (if ix[h].prev.Some? then ix[ix[h].prev.value].chainWork else 0)
  }

  /**
   Whatever is loaded is a tree with the one root `genesis` and sound skip pointers. It is a tree
   AddToBlockIndex could have built if and only if the work stored in the file is right, which
   this loader does not check.
   */
  lemma {:induction false} LoadedIsTree(hash: Header -> Hash, file: File, genesis: Hash, ix: Index)
    requires Loadable(hash, file, genesis) && Loaded(RecordsOf(file.blocks), ix)
             && ix.Keys == RecordsOf(file.blocks).Keys
    ensures Linked(ix) && SkipSound(ix) && genesis in ix
    ensures forall h :: h in ix ==> AncestorAt(ix, h, 0) == genesis
    ensures Tree(hash, genesis, ix) <==> forall h {:trigger WorkRight(ix, h)} :: h in ix ==> WorkRight(ix, h)
  {
    var recs := RecordsOf(file.blocks);
    LoadedSkips(recs, ix);
    forall h | h in ix ensures AncestorAt(ix, h, 0) == genesis && (ix[h].prev == None <==> h == genesis) {
      RootIsGenesis(recs, ix, genesis, h);
      assert LoadedAt(recs, ix, h) && recs[h] == recs[h];
    }
    forall h | h in ix ensures BuiltAt(hash, ix, h) <==> WorkRight(ix, h) {
      assert LoadedAt(recs, ix, h) && LinkedAt(ix, h);
      assert file.blocks[..|file.blocks|] == file.blocks;
      HashIsKey(hash, file.blocks, |file.blocks|, h);
    }
  }

  lemma {:induction false} HashIsKey(hash: Header -> Hash, blocks: seq<Record>, n: nat, h: Hash)
    requires Sound(hash, blocks) && n <= |blocks| && h in RecordsOf(blocks[..n])
    ensures hash(RecordsOf(blocks[..n])[h].header) == h
    decreases n
  {
    if n > 0 {
      assert blocks[..n][..n - 1] == blocks[..n - 1];
      assert blocks[..n][n - 1] == blocks[n - 1];
      if h != blocks[n - 1].hash {
        HashIsKey(hash, blocks, n - 1, h);
      }
    }
  }
}
