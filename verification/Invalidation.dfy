/** The three phases of InvalidateBlock (src/chain/chainstate_manager.cpp:1113-1303). */
module Invalidation {
  import opened Types
  import opened BlockTree
  import opened Ancestry
  import opened ActiveChain
  import opened ConsensusState
  import opened Activation
  import Selector = CandidateTips
  import BlockStore

  /** Blocks of the chain at or above x descend from x; the block below does not. */
  lemma ChainAgainstSubtree(ix: Index, chain: seq<Hash>, x: Hash, j: nat)
    requires Linked(ix) && chain != [] && Last(chain) in ix && chain == Path(ix, Last(chain))
    requires x in ix && OnChain(ix, chain, x) && j < |chain|
    ensures chain[j] in ix && (chain[j] in Subtree(ix, x) <==> ix[x].height <= j)
  {
    if ix[x].height <= j {
      AncestorOfAncestor(ix, Last(chain), j, ix[x].height);
    }
  }

  /** The candidates outside the subtree D, while the chain is being cut. */
  ghost predicate CutCandidates(cands: set<Hash>, start: set<Hash>, D: set<Hash>, last: set<Hash>,
                                offered: set<Hash>)
  {
    cands - D == (start + last + offered) - D
  }

  lemma CutStep(C: set<Hash>, start: set<Hash>, D: set<Hash>, offered: set<Hash>, tip: Hash, p: Hash, V: set<Hash>,
                last': set<Hash>)
    requires CutCandidates(C, start, D, {}, offered) && tip in D
    requires last' == if p in D then {} else {p}
    ensures CutCandidates(C - {tip} + {p} + V, start, D, last', offered + V)
  {
    forall h
      ensures h in (C - {tip} + {p} + V) - D <==> h in (start + last' + (offered + V)) - D
    {
      assert h in C - D <==> h in (start + {} + offered) - D;
    }
  }

  /** Insert into the candidate set every waiting fork with at least the given work. */
  method OfferForks(selector: Selector.ChainSelector, ix: Index, forks: set<Hash>, floor: nat) returns (rest: set<Hash>)
    requires forks <= ix.Keys
    modifies selector
    ensures rest == set h | h in forks && ix[h].chainWork < floor
    ensures selector.candidates == old(selector.candidates) + (forks - rest)
  {
    var todo := forks;
    rest := {};
    while todo != {}
      invariant todo <= forks && rest == set h | h in forks - todo && ix[h].chainWork < floor
      invariant selector.candidates == old(selector.candidates) + ((forks - todo) - rest)
      decreases todo
    {
      var h :| h in todo;
      todo := todo - {h};
      if ix[h].chainWork >= floor {
        selector.AddCandidateUnchecked(Some(h));
      } else {
        rest := rest + {h};
      }
    }
  }

  /** Where the cut stands: `left` is what remains of the chain, `forks` the forks not offered yet. */
  ghost predicate CutState(s: State, x: Hash, left: seq<Hash>, cands: set<Hash>, forks: set<Hash>, all: set<Hash>,
                           events: seq<Event>)
    requires Linked(s.index) && x in s.index
  {
    var hx := s.index[x].height;
    && hx <= |left| <= |s.chain| && left == s.chain[..|left|]
    && DisconnectEvents(s.chain, hx) == events + DisconnectEvents(left, hx)
    && cands <= s.index.Keys && forks <= all <= s.index.Keys
    && (|left| == hx ==> hx > 0 && forks == {})
    && CutCandidates(cands, s.cands, Subtree(s.index, x), if |left| == hx && hx > 0 then {Last(left)} else {},
                     all - forks)
  }

  ghost predicate Usable(s: State)
  {
    && Linked(s.index) && s.chain != [] && Last(s.chain) in s.index && s.chain == Path(s.index, Last(s.chain))
    && s.cands <= s.index.Keys
  }

  lemma CutAdvances(s: State, x: Hash, left: seq<Hash>, C: set<Hash>, forks: set<Hash>, all: set<Hash>,
                    events: seq<Event>, rest: set<Hash>)
    requires Usable(s) && x in s.index && OnChain(s.index, s.chain, x) && s.index[x].height > 0
    requires CutState(s, x, left, C, forks, all, events) && |left| > s.index[x].height
    requires left[|left| - 2] in s.index
    requires rest == set h | h in forks && s.index[h].chainWork < s.index[left[|left| - 2]].chainWork
    requires |left| == s.index[x].height + 1 ==> rest == {}
    ensures CutState(s, x, left[..|left| - 1], C - {Last(left)} + {left[|left| - 2]} + (forks - rest), rest, all,
                     events + [BlockDisconnected(Last(left))])
  {
    var hx, ix := s.index[x].height, s.index;
    var p := left[|left| - 2];
    DisconnectOne(left, hx, events, DisconnectEvents(s.chain, hx));
    ChainAgainstSubtree(ix, s.chain, x, |left| - 1);
    ChainAgainstSubtree(ix, s.chain, x, |left| - 2);
    CutStep(C, s.cands, Subtree(ix, x), all - forks, Last(left), p, forks - rest,
            if |left| == hx + 1 then {p} else {});
    assert all - rest == (all - forks) + (forks - rest);
    assert left[..|left| - 1] == s.chain[..|left| - 1];
  }

  /** The disconnect loop of InvalidateBlock, on a block of the active chain. */
  method DisconnectBelow(blocks: BlockStore.BlockManager, selector: Selector.ChainSelector, x: Hash, all: set<Hash>,
                         ghost s: State)
    returns (events: seq<Event>)
    requires Usable(s) && blocks.index == s.index && selector.candidates == s.cands
    requires Active(s.index, blocks.activeChain.vChain, s.chain)
    requires x in s.index && s.index[x].height > 0 && OnChain(s.index, s.chain, x)
    requires s.index[x].prev == Some(s.chain[s.index[x].height - 1])
    requires all <= s.index.Keys
    requires forall h {:trigger h in all} :: h in all ==>
               s.chain[s.index[x].height - 1] in s.index
               && s.index[h].chainWork >= s.index[s.chain[s.index[x].height - 1]].chainWork
    modifies blocks.activeChain, selector
    ensures Active(s.index, blocks.activeChain.vChain, s.chain[..s.index[x].height])
    ensures CutState(s, x, s.chain[..s.index[x].height], selector.candidates, {}, all, events)
  {
    events := [];
    var forks := all;
    ghost var left := s.chain;
    assert all - all == {};
    while blocks.activeChain.Contains(blocks.index, Some(x))
      invariant blocks.index == s.index
      invariant Active(s.index, blocks.activeChain.vChain, left)
      invariant CutState(s, x, left, selector.candidates, forks, all, events)
      decreases |left|
    {
      ActiveIsCoherent(s.index, blocks.activeChain.vChain, left);
      ParentOnPath(s.index, left);
      var tip := blocks.GetTip().value;
      ghost var C, ev := selector.candidates, events;
      var ok;
      ok, events := DisconnectTip(blocks, events, left);
      if !ok {
        assert false;
      }
      selector.RemoveCandidate(Some(tip));
      var parent := blocks.index[tip].prev;
      selector.AddCandidateUnchecked(parent);
      ghost var waiting := forks;
      forks := OfferForks(selector, blocks.index, forks, blocks.index[parent.value].chainWork);
      CutAdvances(s, x, left, C, waiting, all, ev, forks);
      left := left[..|left| - 1];
    }
    assert left == s.chain[..s.index[x].height];
  }

  // ---------- marking ----------

  /** Blocks outside `todo` are marked, the others still as they were. */
  ghost predicate MarkedExcept(ix: Index, now: Index, x: Hash, todo: set<Hash>)
    requires Linked(ix) && x in ix
  {
    && now.Keys == ix.Keys
    && forall h {:trigger now[h]} :: h in ix ==> now[h] == if h in todo && h != x then ix[h] else Marked(ix, x)[h]
  }

  lemma MarkedStep(ix: Index, now: Index, x: Hash, todo: set<Hash>, h: Hash, now': Index)
    requires Linked(ix) && x in ix && MarkedExcept(ix, now, x, todo) && h in todo && h in ix
    requires now' == if h != x && IsAncestor(ix, x, h) then now[h := Marked(ix, x)[h]] else now
    ensures MarkedExcept(ix, now', x, todo - {h})
  {
  }

  /** The part of the subtree that has been visited; x itself is visited from the start. */
  ghost function Visited(ix: Index, x: Hash, todo: set<Hash>): set<Hash>
    requires Linked(ix) && x in ix
  {
    Subtree(ix, x) - (todo - {x})
  }

  lemma VisitedStep(ix: Index, x: Hash, todo: set<Hash>, h: Hash)
    requires Linked(ix) && x in ix && h in todo && h in ix
    ensures Visited(ix, x, todo - {h}) == Visited(ix, x, todo) + (if IsAncestor(ix, x, h) then {h} else {})
  {
    assert IsAncestor(ix, x, x);
  }

  /** Mark one block when it descends from x. */
  method MarkOne(blocks: BlockStore.BlockManager, selector: Selector.ChainSelector, ix: Index, x: Hash, h: Hash,
                 failed: set<Hash>)
    returns (failed': set<Hash>)
    requires Linked(ix) && SkipSound(ix) && x in ix && h in ix && h != x
    requires h in blocks.index && blocks.index[h] == ix[h]
    modifies blocks`index, selector
    ensures blocks.index == if IsAncestor(ix, x, h) then old(blocks.index)[h := Marked(ix, x)[h]] else old(blocks.index)
    ensures selector.candidates == old(selector.candidates) - (if IsAncestor(ix, x, h) then {h} else {})
    ensures failed' == failed + (if IsAncestor(ix, x, h) then {h} else {})
  {
    var ancestor, _ := GetAncestor(ix, h, ix[x].height);
    failed' := failed;
    if ancestor == Some(x) {
      var status := blocks.index[h].status.(failure := ANCESTOR_FAILED);
      blocks.index := blocks.index[h := blocks.index[h].(status := status)];
      failed' := failed + {h};
      selector.RemoveCandidate(Some(h));
    }
  }

  lemma MarkingStarts(ix: Index, x: Hash)
    requires Linked(ix) && x in ix
    ensures MarkedExcept(ix, ix[x := ix[x].(status := ix[x].status.(failure := VALIDATION_FAILED))], x, ix.Keys)
    ensures Visited(ix, x, ix.Keys) == {x}
  {
    assert IsAncestor(ix, x, x);
  }

  lemma MarkingEnds(ix: Index, now: Index, x: Hash)
    requires Linked(ix) && x in ix && MarkedExcept(ix, now, x, {})
    ensures now == Marked(ix, x) && Visited(ix, x, {}) == Subtree(ix, x)
  {
    assert forall h :: h in ix ==> now[h] == Marked(ix, x)[h];
  }

  /** x fails validation, its descendants fail by ancestry; all leave the candidate set. */
  method MarkSubtree(blocks: BlockStore.BlockManager, selector: Selector.ChainSelector, x: Hash, failed: set<Hash>)
    returns (failed': set<Hash>)
    requires Linked(blocks.index) && SkipSound(blocks.index) && x in blocks.index
    modifies blocks`index, selector
    ensures blocks.index == Marked(old(blocks.index), x)
    ensures selector.candidates == old(selector.candidates) - Subtree(old(blocks.index), x)
    ensures failed' == failed + Subtree(old(blocks.index), x)
  {
    var ix := blocks.index;
    blocks.index := ix[x := ix[x].(status := ix[x].status.(failure := VALIDATION_FAILED))];
    failed' := failed + {x};
    selector.RemoveCandidate(Some(x));
    var todo := ix.Keys;
    MarkingStarts(ix, x);
    while todo != {}
      invariant todo <= ix.Keys && MarkedExcept(ix, blocks.index, x, todo)
      invariant failed' == failed + Visited(ix, x, todo)
      invariant selector.candidates == old(selector.candidates) - Visited(ix, x, todo)
      decreases todo
    {
      var h :| h in todo;
      ghost var now := blocks.index;
      if h != x {
        failed' := MarkOne(blocks, selector, ix, x, h, failed');
      }
      MarkedStep(ix, now, x, todo, h, blocks.index);
      VisitedStep(ix, x, todo, h);
      todo := todo - {h};
    }
    MarkingEnds(ix, blocks.index, x);
  }

  /** The final cleanup: every viable leaf with at least the tip's work becomes a candidate. */
  method AddViableLeaves(blocks: BlockStore.BlockManager, selector: Selector.ChainSelector)
    requires blocks.GetTip().Some? ==> blocks.GetTip().value in blocks.index
    modifies selector
    ensures selector.candidates == old(selector.candidates) +
              (if blocks.GetTip().None? then {}
               else ViableLeaves(blocks.index, blocks.index[blocks.GetTip().value].chainWork))
  {
    var tip := blocks.GetTip();
    if tip.None? {
      return;
    }
    var ix, floor := blocks.index, blocks.index[tip.value].chainWork;
    var todo := ix.Keys;
    while todo != {}
      invariant todo <= ix.Keys
      invariant selector.candidates == old(selector.candidates) + (ViableLeaves(ix, floor) - todo)
      decreases todo
    {
      var h :| h in todo;
      todo := todo - {h};
      if Selector.Viable(ix, h) && ix[h].chainWork >= floor && !Selector.HasChild(ix, h) {
        selector.AddCandidateUnchecked(Some(h));
      }
    }
  }
}
