/** CChain: the active chain as a vector indexed by height (src/chain/chain.cpp, include/chain/chain.hpp). */
module ActiveChain {
  import opened Types
  import opened BlockTree
  import opened Ancestry

  /** std::vector::resize on a vector of pointers: new slots are null. */
  function Resize(v: seq<Option<Hash>>, n: nat): (r: seq<Option<Hash>>)
    ensures |r| == n
    ensures forall k :: 0 <= k < n ==> r[k] == if k < |v| then v[k] else None
  {
    if n <= |v| then v[..n] else v + seq(n - |v|, _ => None)
  }

  /** Slot k of v holds the ancestor of tip at height k. */
  ghost predicate HoldsBelow(ix: Index, v: seq<Option<Hash>>, tip: Hash, from: nat, to: nat)
    requires Linked(ix) && tip in ix
  {
    && from <= to <= |v| && to <= ix[tip].height + 1
    && forall k {:trigger v[k]} :: from <= k < to ==> v[k] == Some(AncestorAt(ix, tip, k))
  }

  /** v is empty, or filled with the path of its last slot. */
  ghost predicate CoherentSlots(ix: Index, v: seq<Option<Hash>>)
    requires Linked(ix)
  {
    v == [] || (Last(v).Some? && Last(v).value in ix && ix[Last(v).value].height == |v| - 1
                && HoldsBelow(ix, v, Last(v).value, 0, |v|))
  }

  /** A slot that already holds an ancestor of the new tip vouches for every slot below it. */
  lemma MatchVouches(ix: Index, v: seq<Option<Hash>>, n: nat, tip: Hash, k: nat)
    requires Linked(ix) && tip in ix && CoherentSlots(ix, v)
    requires n == ix[tip].height + 1 && k < n && Resize(v, n)[k] == Some(AncestorAt(ix, tip, k))
    ensures HoldsBelow(ix, Resize(v, n), tip, 0, k + 1)
  {
    var tip0 := Last(v).value;
    forall j | 0 <= j <= k
      ensures Resize(v, n)[j] == Some(AncestorAt(ix, tip, j))
    {
      assert v[k] == Some(AncestorAt(ix, tip0, k));
      assert v[j] == Some(AncestorAt(ix, tip0, j));
      AncestorOfAncestor(ix, tip0, k, j);
      AncestorOfAncestor(ix, tip, k, j);
    }
  }

  class CChain {
    var vChain: seq<Option<Hash>>

    constructor ()
      ensures vChain == []
    {
      vChain := [];
    }

    ghost predicate Coherent(ix: Index)
      requires Linked(ix)
      reads this
    {
      CoherentSlots(ix, vChain)
    }

    /** The active chain is exactly the path to `tip`. */
    ghost predicate Holds(ix: Index, tip: Hash)
      requires Linked(ix) && tip in ix
      reads this
    {
      |vChain| == ix[tip].height + 1 && HoldsBelow(ix, vChain, tip, 0, |vChain|)
    }

    function Tip(): Option<Hash>
      reads this
    {
      if |vChain| > 0 then Last(vChain) else None
    }

    function Height(): int
      reads this
    {
      |vChain| - 1
    }

    /** operator[] */
    function At(height: int): Option<Hash>
      reads this
    {
      if height < 0 || height >= |vChain| then None else vChain[height]
    }

    predicate Contains(ix: Index, p: Option<Hash>)
      requires p.Some? ==> p.value in ix
      reads this
    {
      p.Some? && ix[p.value].height < |vChain| && vChain[ix[p.value].height] == p
    }

    function Next(ix: Index, p: Option<Hash>): Option<Hash>
      requires p.Some? ==> p.value in ix
      reads this
    {
      if Contains(ix, p) then At(ix[p.value].height + 1) else None
    }

    method Clear()
      modifies this
      ensures vChain == []
    {
      vChain := [];
    }

    /** SetTip stops at the first slot that already matches; all slots are correct all the same. */
    method SetTip(ix: Index, block: Hash)
      requires Linked(ix) && block in ix && Coherent(ix)
      modifies this
      ensures Holds(ix, block) && Coherent(ix) && Tip() == Some(block)
    {
      var n := ix[block].height + 1;
      ghost var before := vChain;
      vChain := Resize(vChain, n);
      var p := Some(block);
      ghost var k := ix[block].height;
      while p.Some?
        invariant -1 <= k < n == |vChain| && (p.None? <==> k == -1)
        invariant p.Some? ==> p.value == AncestorAt(ix, block, k)
        invariant HoldsBelow(ix, vChain, block, k + 1, n)
        invariant forall j {:trigger vChain[j]} :: 0 <= j <= k ==> vChain[j] == Resize(before, n)[j]
        decreases k
      {
        var idx := ix[p.value].height;
        if vChain[idx] == p {
          MatchVouches(ix, before, n, block, k);
          break;
        }
        StepDown(ix, block, k);
        vChain := vChain[idx := p];
        p := ix[p.value].prev;
        k := k - 1;
      }
      assert HoldsBelow(ix, vChain, block, 0, n);
    }

    /** Membership by slot is exactly being an ancestor of the tip. */
    lemma ContainsIsAncestor(ix: Index, tip: Hash, p: Hash)
      requires Linked(ix) && tip in ix && p in ix && Holds(ix, tip)
      ensures Contains(ix, Some(p)) <==> IsAncestor(ix, p, tip)
    {
    }

    /** FindFork: the deepest common block of the chain and p, as LastCommonAncestor would find it. */
    method FindFork(ix: Index, pindex: Option<Hash>) returns (r: Option<Hash>)
      requires Linked(ix) && SkipSound(ix) && Coherent(ix) && (pindex.Some? ==> pindex.value in ix)
      ensures pindex.None? || vChain == [] ==> r == None
      ensures pindex.Some? && vChain != [] ==>
                var tip := Last(vChain).value;
                r == DeepestCommon(ix, pindex.value, tip)
    {
      if pindex.None? {
        return None;
      }
      var p := pindex;
      if ix[p.value].height > Height() {
        ghost var turns: nat;
        p, turns := GetAncestor(ix, p.value, Height());
      }
      ghost var k: int := if p.Some? then ix[p.value].height else -1;
      while p.Some? && !Contains(ix, p)
        invariant -1 <= k <= ix[pindex.value].height && k < |vChain| && (p.None? <==> k == -1)
        invariant p.Some? ==> p.value == AncestorAt(ix, pindex.value, k)
        invariant vChain != [] ==> ApartAbove(ix, pindex.value, Last(vChain).value, k)
        decreases k
      {
        StepDown(ix, pindex.value, k);
        p := ix[p.value].prev;
        k := k - 1;
      }
      r := p;
      if vChain != [] {
        DeepestIs(ix, pindex.value, Last(vChain).value, r);
      }
    }

    /** The comparison handed to std::lower_bound. */
    predicate Before(ix: Index, i: int, time: int, height: int)
      requires 0 <= i < |vChain| && vChain[i].Some? && vChain[i].value in ix
      reads this
    {
      ix[vChain[i].value].timeMax < time || ix[vChain[i].value].height < height
    }

    /** Slot i exists, and so does its record. */
    ghost predicate SlotOk(ix: Index, i: int)
      reads this
    {
      0 <= i < |vChain| && vChain[i].Some? && vChain[i].value in ix && ix[vChain[i].value].height == i
    }

    /** The block at height i is late enough and high enough. */
    ghost predicate AtLeast(ix: Index, i: int, time: int, height: int)
      requires SlotOk(ix, i)
      reads this
    {
      time <= ix[vChain[i].value].timeMax && height <= i
    }

    lemma SlotOkAt(ix: Index, i: int)
      requires Linked(ix) && Coherent(ix) && 0 <= i < |vChain|
      ensures SlotOk(ix, i)
    {
      assert vChain[i] == Some(AncestorAt(ix, Last(vChain).value, i));
    }

    lemma BeforeIsMonotone(hash: Header -> Hash, genesis: Hash, ix: Index, i: int, j: int, time: int, height: int)
      requires Tree(hash, genesis, ix) && Coherent(ix) && 0 <= i <= j < |vChain|
      ensures SlotOk(ix, i) && SlotOk(ix, j)
      ensures Before(ix, j, time, height) ==> Before(ix, i, time, height)
    {
      SlotOkAt(ix, i);
      SlotOkAt(ix, j);
      var tip := Last(vChain).value;
      AncestorOfAncestor(ix, tip, j, i);
      WorkMonotone(hash, genesis, ix, AncestorAt(ix, tip, j), i);
    }

    /** FindEarliestAtLeast: binary search for the first block with nTimeMax and height at or above the bounds. */
    method FindEarliestAtLeast(ix: Index, time: int, height: int, ghost hash: Header -> Hash, ghost genesis: Hash)
      returns (r: Option<Hash>)
      requires Tree(hash, genesis, ix) && Coherent(ix)
      ensures r.None? ==> forall i :: 0 <= i < |vChain| ==> SlotOk(ix, i) && !AtLeast(ix, i, time, height)
      ensures r.Some? ==>
                exists n ::
                  && SlotOk(ix, n) && vChain[n] == r && AtLeast(ix, n, time, height)
                  && (forall i :: 0 <= i < n ==> SlotOk(ix, i) && !AtLeast(ix, i, time, height))
    {
      var first, count := 0, |vChain|;
      while count > 0
        invariant 0 <= first && 0 <= count && first + count <= |vChain|
        invariant forall i :: 0 <= i < first ==> SlotOk(ix, i) && !AtLeast(ix, i, time, height)
        invariant first + count < |vChain| ==>
                    SlotOk(ix, first + count) && AtLeast(ix, first + count, time, height)
      {
        var step := count / 2;
        SlotOkAt(ix, first + step);
        if Before(ix, first + step, time, height) {
          forall i | 0 <= i <= first + step
            ensures SlotOk(ix, i) && !AtLeast(ix, i, time, height)
          {
            BeforeIsMonotone(hash, genesis, ix, i, first + step, time, height);
          }
          first := first + step + 1;
          count := count - (step + 1);
        } else {
          count := step;
        }
      }
      r := if first == |vChain| then None else vChain[first];
    }
  }
}
