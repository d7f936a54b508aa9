/** Candidate tips and their order (src/chain/chain_selector.cpp). */
module CandidateTips {
  import opened Types
  import opened BlockTree
  import opened ActiveChain

  /** CBlockIndexWorkComparator: more work, then greater height, then smaller hash. */
  predicate Better(ix: Index, a: Hash, b: Hash)
    requires a in ix && b in ix
  {
    if ix[a].chainWork != ix[b].chainWork then ix[a].chainWork > ix[b].chainWork
    else if ix[a].height != ix[b].height then ix[a].height > ix[b].height
    else a < b
  }

  /** The comparator is a strict total order on blocks, as std::set needs. */
  lemma BetterIsStrictTotalOrder(ix: Index, a: Hash, b: Hash, c: Hash)
    requires a in ix && b in ix && c in ix
    ensures !Better(ix, a, a)
    ensures Better(ix, a, b) && Better(ix, b, c) ==> Better(ix, a, c)
    ensures a == b || Better(ix, a, b) || Better(ix, b, a)
    ensures !(Better(ix, a, b) && Better(ix, b, a))
  {
  }

  /** c is the first element of the ordered set S. */
  predicate IsFirst(ix: Index, S: set<Hash>, c: Hash)
    requires S <= ix.Keys
  {
    c in S && forall d {:trigger d in S} :: d in S && d != c ==> Better(ix, c, d)
  }

  lemma {:induction false} FirstExists(ix: Index, S: set<Hash>) returns (c: Hash)
    requires S <= ix.Keys && S != {}
    ensures IsFirst(ix, S, c)
    decreases |S|
  {
    var x :| x in S;
    c := x;
    var rest := S - {x};
    if rest != {} {
      var y := FirstExists(ix, rest);
      c := if Better(ix, y, x) then y else x;
      forall d | d in S && d != c ensures Better(ix, c, d) {
        assert d == x || d in rest;
      }
    }
  }

  predicate Viable(ix: Index, h: Hash)
    requires h in ix
  {
    ix[h].status.IsValidTree()
  }

  /** The best candidate that is still viable. */
  ghost predicate IsBestViable(ix: Index, S: set<Hash>, r: Option<Hash>)
    requires S <= ix.Keys
  {
    match r
    case None => forall d {:trigger d in S} :: d in S ==> !Viable(ix, d)
    case Some(c) => c in S && Viable(ix, c)
                    && forall d {:trigger d in S} :: d in S && d != c && Viable(ix, d) ==> Better(ix, c, d)
  }

  lemma BestViableExists(ix: Index, S: set<Hash>)
    requires S <= ix.Keys
    ensures exists r :: IsBestViable(ix, S, r)
  {
    var V := set d | d in S && Viable(ix, d);
    if V == {} {
      forall d | d in S ensures !Viable(ix, d) {
        assert d !in V;
      }
      assert IsBestViable(ix, S, None);
    } else {
      var c := FirstExists(ix, V);
      forall d | d in S && d != c && Viable(ix, d) ensures Better(ix, c, d) {
        assert d in V;
      }
      assert IsBestViable(ix, S, Some(c));
    }
  }

  lemma BestViableUnique(ix: Index, S: set<Hash>, r1: Option<Hash>, r2: Option<Hash>)
    requires S <= ix.Keys && IsBestViable(ix, S, r1) && IsBestViable(ix, S, r2)
    ensures r1 == r2
  {
  }

  ghost function BestViable(ix: Index, S: set<Hash>): (r: Option<Hash>)
    requires S <= ix.Keys
    ensures IsBestViable(ix, S, r)
  {
    BestViableExists(ix, S);
    var r :| IsBestViable(ix, S, r);
    r
  }

  /** FindMostWorkChain erases the failed entries in front of the block it returns, and only those. */
  ghost function AfterFind(ix: Index, S: set<Hash>): set<Hash>
    requires S <= ix.Keys
  {
    match BestViable(ix, S)
    case None => {}
    case Some(c) => set d | d in S && !Better(ix, d, c)
  }

  /** Everything erased from S so far was not viable and stood before all that is left. */
  ghost predicate OnlyFailedInFront(ix: Index, S: set<Hash>, left: set<Hash>)
    requires left <= S <= ix.Keys
  {
    && (forall d {:trigger d in S} :: d in S && d !in left ==> !Viable(ix, d))
    && (forall d, c {:trigger d in S, c in left} :: d in S && d !in left && c in left ==> Better(ix, d, c))
  }

  lemma FailedFirstErased(ix: Index, S: set<Hash>, left: set<Hash>, c: Hash)
    requires left <= S <= ix.Keys && OnlyFailedInFront(ix, S, left) && IsFirst(ix, left, c) && !Viable(ix, c)
    ensures OnlyFailedInFront(ix, S, left - {c})
  {
    forall d, e | d in S && d !in left - {c} && e in left - {c} ensures Better(ix, d, e) {
      assert e in left;
    }
  }

  lemma FirstViableFound(ix: Index, S: set<Hash>, left: set<Hash>, c: Hash)
    requires left <= S <= ix.Keys && OnlyFailedInFront(ix, S, left) && IsFirst(ix, left, c) && Viable(ix, c)
    ensures BestViable(ix, S) == Some(c) && AfterFind(ix, S) == left
  {
    BestViableUnique(ix, S, Some(c), BestViable(ix, S));
    forall d | d in S ensures d in left <==> !Better(ix, d, c) {
    }
  }

  predicate HasChild(ix: Index, h: Hash)
  {
    exists g :: g in ix && ix[g].prev == Some(h)
  }

  /** The candidate set after TryAddBlockIndexCandidate(h). */
  function AfterTryAdd(ix: Index, S: set<Hash>, h: Hash): set<Hash>
    requires h in ix
  {
    if !Viable(ix, h) || HasChild(ix, h) then S
    else (if ix[h].prev.Some? then S - {ix[h].prev.value} else S) + {h}
  }

  /** None of the five rules of PruneBlockIndexCandidates removes c under the given tip. */
  predicate Survives(ix: Index, chain: seq<Hash>, c: Hash)
    requires c in ix && chain != [] && Last(chain) in ix
  {
    && ix[c].chainWork >= ix[Last(chain)].chainWork
    && c != Last(chain)
    && !(ix[c].height < |chain| && chain[ix[c].height] == c)
    && !HasChild(ix, c)
    && Viable(ix, c)
  }

  function AfterPrune(ix: Index, S: set<Hash>, chain: seq<Hash>): set<Hash>
    requires S <= ix.Keys && chain != [] && Last(chain) in ix
  {
    set c | c in S && Survives(ix, chain, c)
  }

  /** The slots of a filled chain, without the pointer wrapper. */
  ghost predicate SlotsAre(v: seq<Option<Hash>>, chain: seq<Hash>)
  {
    |v| == |chain| && forall k {:trigger v[k]} :: 0 <= k < |v| ==> v[k] == Some(chain[k])
  }

  class ChainSelector {
    var candidates: set<Hash>

    constructor ()
      ensures candidates == {}
    {
      candidates := {};
    }

    method FindMostWorkChain(ix: Index) returns (r: Option<Hash>)
      requires candidates <= ix.Keys
      modifies this
      ensures r == BestViable(ix, old(candidates)) && candidates == AfterFind(ix, old(candidates))
    {
      while candidates != {}
        invariant candidates <= old(candidates) <= ix.Keys
        invariant OnlyFailedInFront(ix, old(candidates), candidates)
        decreases candidates
      {
        ghost var first := FirstExists(ix, candidates);
        var c :| c in candidates && IsFirst(ix, candidates, c);
        if !Viable(ix, c) {
          FailedFirstErased(ix, old(candidates), candidates, c);
          candidates := candidates - {c};
        } else {
          FirstViableFound(ix, old(candidates), candidates, c);
          return Some(c);
        }
      }
      BestViableUnique(ix, old(candidates), None, BestViable(ix, old(candidates)));
      r := None;
    }

    method TryAddBlockIndexCandidate(ix: Index, h: Option<Hash>)
      requires h.Some? ==> h.value in ix && ix[h.value].chainWork > 0
      modifies this
      ensures candidates == if h.None? then old(candidates) else AfterTryAdd(ix, old(candidates), h.value)
    {
      if h.None? || !Viable(ix, h.value) || HasChild(ix, h.value) {
        return;
      }
      var parent := ix[h.value].prev;
      if parent.Some? && parent.value in candidates {
        candidates := candidates - {parent.value};
      }
      candidates := candidates + {h.value};
    }

    method PruneBlockIndexCandidates(ix: Index, chain: CChain, ghost path: seq<Hash>)
      requires candidates <= ix.Keys && (path != [] ==> Last(path) in ix) && SlotsAre(chain.vChain, path)
      modifies this
      ensures candidates == if path == [] then old(candidates) else AfterPrune(ix, old(candidates), path)
    {
      var tip := chain.Tip();
      if tip.None? {
        return;
      }
      var todo := candidates;
      while todo != {}
        invariant todo <= candidates <= old(candidates)
        invariant forall c {:trigger c in old(candidates)} :: c in old(candidates) && c !in todo ==>
                    (c in candidates <==> Survives(ix, path, c))
        decreases todo
      {
        var c :| c in todo;
        todo := todo - {c};
        if ix[c].chainWork < ix[tip.value].chainWork || c == tip.value || chain.Contains(ix, Some(c))
           || HasChild(ix, c) || !Viable(ix, c)
        {
          candidates := candidates - {c};
        }
      }
    }

    method AddCandidateUnchecked(h: Option<Hash>)
      modifies this
      ensures candidates == old(candidates) + (if h.Some? then {h.value} else {})
    {
      if h.Some? {
        candidates := candidates + {h.value};
      }
    }

    method RemoveCandidate(h: Option<Hash>)
      modifies this
      ensures candidates == old(candidates) - (if h.Some? then {h.value} else {})
    {
      if h.Some? {
        candidates := candidates - {h.value};
      }
    }
  }
}
