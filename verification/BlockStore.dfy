/** BlockManager: owner of the block index and of the active chain (src/chain/block_manager.cpp). */
module BlockStore {
  import opened Types
  import opened BlockTree
  import opened ActiveChain
  import Ancestry
  import Compact

  class BlockManager {
    var index: Index
    var genesisHash: Hash
    var initialized: bool
    const activeChain: CChain

    constructor ()
      ensures index == map[] && !initialized && activeChain.vChain == [] && fresh(activeChain)
    {
      index := map[];
      genesisHash := NULL_HASH;
      initialized := false;
      activeChain := new CChain();
    }

    function GetTip(): Option<Hash>
      reads this, activeChain
    {
      activeChain.Tip()
    }

    method SetActiveTip(h: Hash)
      requires Linked(index) && h in index && activeChain.Coherent(index)
      modifies activeChain
      ensures activeChain.Holds(index, h) && activeChain.Coherent(index) && GetTip() == Some(h)
    {
      activeChain.SetTip(index, h);
    }

    /**
     AddToBlockIndex: an existing entry is returned as it is; a header whose parent is not
     indexed is refused unless it names no parent, and leaves no trace.
     */
    method AddToBlockIndex(hash: Header -> Hash, header: Header) returns (r: Option<Hash>)
      requires Linked(index) && SkipSound(index)
      modifies this`index
      ensures hash(header) in old(index) ==> r == Some(hash(header)) && index == old(index)
      ensures hash(header) !in old(index) && header.prev in old(index) ==>
                r == Some(hash(header)) && index == old(index)[hash(header) := ChildRecord(old(index), header)]
      ensures hash(header) !in old(index) && header.prev !in old(index) && header.prev == NULL_HASH ==>
                r == Some(hash(header)) && index == old(index)[hash(header) := RootRecord(header)]
      ensures hash(header) !in old(index) && header.prev !in old(index) && header.prev != NULL_HASH ==>
                r == None && index == old(index)
    {
      var h := hash(header);
      if h in index {
        return Some(h);
      }
      if header.prev in index {
        var parent := index[header.prev];
        var height := parent.height + 1;
        var skip, _ := Ancestry.GetAncestor(index, header.prev, SkipHeight(height));
        index := index[h := BlockIndex(header, Some(header.prev), skip, height,
                                       parent.chainWork + Compact.BlockProof(header.bits),
                                       Max(parent.timeMax, header.time), BlockStatus(UNKNOWN, NOT_FAILED))];
      } else {
        if header.prev != NULL_HASH {
          return None;
        }
        index := index[h := RootRecord(header)];
      }
      r := Some(h);
    }

    /** RaiseValidity(TREE) on a block that has not failed. */
    method RaiseValidity(h: Hash)
      requires h in index
      modifies this`index
      ensures index == old(index)[h := old(index)[h].(status :=
                if old(index)[h].status.IsFailed() then old(index)[h].status
                else old(index)[h].status.(validation := TREE))]
    {
      if !index[h].status.IsFailed() && index[h].status.validation != TREE {
        index := index[h := index[h].(status := index[h].status.(validation := TREE))];
      }
    }

    /** Initialize, on an empty manager: a genesis that names a parent is refused. */
    method Initialize(hash: Header -> Hash, genesis: Header) returns (ok: bool)
      requires !initialized ==> index == map[] && activeChain.vChain == []
      modifies this, activeChain
      ensures ok == (!old(initialized) && genesis.prev == NULL_HASH)
      ensures !ok ==> && index == old(index) && activeChain.vChain == old(activeChain.vChain)
                      && genesisHash == old(genesisHash) && initialized == old(initialized)
      ensures ok ==> && index == map[hash(genesis) := RootRecord(genesis)]
                     && activeChain.vChain == [Some(hash(genesis))] && genesisHash == hash(genesis) && initialized
    {
      if initialized {
        return false;
      }
      var p := AddToBlockIndex(hash, genesis);
      if p.None? {
        return false;
      }
      assert LinkedAt(index, p.value);
      activeChain.SetTip(index, p.value);
      genesisHash := hash(genesis);
      initialized := true;
      ok := true;
    }
  }
}
