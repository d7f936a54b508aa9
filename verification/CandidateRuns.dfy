/**
 What invalidation changes, and which blocks stay candidates over whole runs
 (src/chain/chain_selector.cpp:54-180, src/chain/chainstate_manager.cpp:1113-1290).
 */
module CandidateRuns {
  import opened Types
  import opened BlockTree
  import opened CandidateTips
  import opened Consensus
  import opened ConsensusState
  import opened ChainRuns
  import opened RunTheorems
  import opened TipChoice

  // ---------- invalidation ----------

  /**
   InvalidateBlock fails x and its descendants and nothing else, and cuts the chain just below x
   if x was active; it refuses unknown blocks and genesis.
   */
  lemma InvalidateExactly(P: Params, s: State, x: Hash, h: Hash)
    requires Inv(P, s) && h in s.index
    ensures Invalidate(s, x).ok <==> x in s.index && x != P.genesisHash
    ensures !Invalidate(s, x).ok ==> Invalidate(s, x).state == s
    ensures Invalidate(s, x).ok ==>
              var t := Invalidate(s, x).state;
              && t.index.Keys == s.index.Keys
              && t.index[h].(status := s.index[h].status) == s.index[h]
              && (IsFailed(t.index, h) <==> IsFailed(s.index, h) || IsAncestor(s.index, x, h))
              && t.chain == if x in s.chain then s.chain[..s.index[x].height] else s.chain
  {
    if x in s.index {
      assert LinkedAt(s.index, x) && LinkedAt(s.index, P.genesisHash);
      if x in s.chain {
        var k :| 0 <= k < |s.chain| && s.chain[k] == x;
        assert AncestorAt(s.index, Tip(s), k) == x;
      }
    }
  }

  // ---------- rivals of the tip ----------

  /** A leaf that could be the tip just as well, or better. */
  ghost predicate Rival(s: State, h: Hash)
    requires s.chain != [] && Tip(s) in s.index
  {
    && h in s.index && !IsFailed(s.index, h) && !HasChild(s.index, h)
    && s.index[h].chainWork >= s.index[Tip(s)].chainWork && h != Tip(s)
  }

  ghost predicate RivalsKept(s: State)
    requires s.chain != [] && Tip(s) in s.index
  {
    forall h {:trigger Rival(s, h)} :: Rival(s, h) ==> h in s.cands
  }

  /** Where the tip stays, no viable candidate is erased. */
  lemma StayingKeepsContenders(P: Params, s: State, h: Hash)
    requires Linked(s.index) && s.chain != [] && Tip(s) in s.index && s.cands <= s.index.Keys
    requires P.suspiciousReorgDepth <= 0 && Stayed(s, Activate(P, s)) && Contender(s, h)
    ensures h in Activate(P, s).state.cands
  {
    assert IsBestViable(s.index, s.cands, BestViable(s.index, s.cands));
    BetterIsStrictTotalOrder(s.index, h, BestViable(s.index, s.cands).value, h);
  }

  lemma MovingKeepsRival(P: Params, s: State, c: Hash, h: Hash)
    requires Inv(P, s) && RivalsKept(s) && P.suspiciousReorgDepth <= 0 && P.expirationInterval <= 0
    requires c in s.index && Moves(s, Activate(P, s), c)
    requires Tip(Activate(P, s).state) == c && Activate(P, s).state.index == s.index && Rival(Activate(P, s).state, h)
    ensures h in Activate(P, s).state.cands
  {
    MovesExactlyTo(P, s, c);
    ViableIsNotFailed(P, s, h);
    assert Rival(s, h);
    CandidatesAfterMove(P, s, c, h);
    assert !Precedes(s.index, h, c);
  }

  /** Activation keeps all rivals of the tip it ends with. */
  lemma {:induction false} ActivationKeepsRivals(P: Params, s: State)
    requires Inv(P, s) && RivalsKept(s) && P.suspiciousReorgDepth <= 0 && P.expirationInterval <= 0
    ensures Inv(P, Activate(P, s).state) && RivalsKept(Activate(P, s).state)
  {
    ActivateKeepsInv(P, s);
    ActivateShape(P, s);
    var o := Activate(P, s);
    forall h | Rival(o.state, h) ensures h in o.state.cands {
      if Stayed(s, o) {
        assert Rival(s, h);
        ViableIsNotFailed(P, s, h);
        StayingKeepsContenders(P, s, h);
      } else {
        var c :| MovedTo(P, s, o, c);
        MovingKeepsRival(P, s, c, h);
      }
    }
  }

  /** Offering a block erases its parent only, which is no leaf. */
  lemma OfferingKnownKeepsRivals(P: Params, s: State, b: Hash)
    requires Inv(P, s) && RivalsKept(s) && b in s.index
    ensures RivalsKept(s.(cands := AfterTryAdd(s.index, s.cands, b)))
  {
    var t := s.(cands := AfterTryAdd(s.index, s.cands, b));
    forall h | Rival(t, h) ensures h in t.cands {
      assert Rival(s, h);
    }
  }

  lemma AcceptedKeepsRivals(P: Params, s: State, header: Header, now: int)
    requires Inv(P, s) && RivalsKept(s) && Acceptable(P, s.index, header, now)
    ensures header.prev in s.index && Inv(P, AcceptedAndOffered(P, s, header))
    ensures RivalsKept(AcceptedAndOffered(P, s, header))
  {
    var t, b := AcceptedAndOffered(P, s, header), P.hash(header);
    AddKeepsInv(P, s, header, now);
    NewBlockIsLeaf(P, s.index, header);
    OfferedCandidates(P, s, header);
    assert t.index[b].prev == Some(header.prev);
    forall h | Rival(t, h) ensures h in t.cands {
      if h != b {
        OldLeaf(P, s.index, header, h);
        assert Rival(s, h);
      }
    }
  }

  lemma OldLeaf(P: Params, ix: Index, header: Header, h: Hash)
    requires Linked(ix) && header.prev in ix && P.hash(header) !in ix
    requires h in ix && !HasChild(WithBlock(P, ix, header), h)
    ensures !HasChild(ix, h)
  {
    forall g | g in ix ensures ix[g].prev != Some(h) {
      assert WithBlock(P, ix, header)[g] == ix[g];
    }
  }

  lemma InvalidationKeepsRivals(P: Params, s: State, x: Hash)
    requires Inv(P, s) && RivalsKept(s)
    ensures Inv(P, Invalidate(s, x).state) && RivalsKept(Invalidate(s, x).state)
  {
    InvalidateKeepsInv(P, s, x);
    var t := Invalidate(s, x).state;
    if x in s.index && s.index[x].height > 0 {
      forall h | Rival(t, h) ensures h in t.cands {
        ViableIsNotFailed(P, t, h);
      }
    }
  }

  lemma {:induction false} CallKeepsRivals(P: Params, s: State, c: Call)
    requires Inv(P, s) && RivalsKept(s) && P.suspiciousReorgDepth <= 0 && P.expirationInterval <= 0
    ensures Inv(P, CallStep(P, s, c)) && RivalsKept(CallStep(P, s, c))
  {
    match c
    case ProcessNewBlockHeader(header, now, minPowChecked) =>
      if AcceptError(P, s.index, header, now, minPowChecked).None? {
        var h := P.hash(header);
        AcceptedPointerLive(P, s, header, now, minPowChecked);
        if h in s.index {
          OfferingKnownKeepsRivals(P, s, h);
          ActivationKeepsRivals(P, s.(cands := AfterTryAdd(s.index, s.cands, h)));
        } else {
          AcceptedKeepsRivals(P, s, header, now);
          ActivationKeepsRivals(P, AcceptedAndOffered(P, s, header));
        }
      }
    case InvalidateThenActivate(x) =>
      InvalidationKeepsRivals(P, s, x);
      ActivationKeepsRivals(P, Invalidate(s, x).state);
  }

  /** From a state that keeps all rivals, every run does. */
  lemma {:induction false} RunKeepsRivals(P: Params, s: State, calls: seq<Call>)
    requires Inv(P, s) && Best(s) && RivalsKept(s) && P.suspiciousReorgDepth <= 0 && P.expirationInterval <= 0
    ensures RivalsKept(CallRun(P, s, calls))
    decreases |calls|
  {
    if calls != [] {
      CallKeepsBest(P, s, calls[0]);
      CallKeepsRivals(P, s, calls[0]);
      RunKeepsRivals(P, CallStep(P, s, calls[0]), calls[1..]);
    }
  }

  /**
   After every call of every run from Initialize, each leaf that has not failed, with at least the tip's
   work, is a candidate, unless it is the tip.
   */
  lemma {:induction false} RivalsAreCandidates(P: Params, g: Header, calls: seq<Call>, h: Hash)
    requires GenesisOk(P, g) && P.suspiciousReorgDepth <= 0 && P.expirationInterval <= 0
    ensures Inv(P, Initial(P, g)) && Best(Initial(P, g))
    ensures var t := CallRun(P, Initial(P, g), calls);
            && h in t.index && !IsFailed(t.index, h) && t.index[h].chainWork >= t.index[Tip(t)].chainWork && h != Tip(t)
            && (forall g {:trigger t.index[g].prev} :: g in t.index ==> t.index[g].prev != Some(h)) ==>
              h in t.cands
  {
    InitialOk(P, g);
    RunKeepsRivals(P, Initial(P, g), calls);
    var t := CallRun(P, Initial(P, g), calls);
    assert Rival(t, h) ==> h in t.cands;
  }
}
