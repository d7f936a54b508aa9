/**
 Which candidate ActivateBestChain ends on (src/chain/chainstate_manager.cpp:211-298), said without
 its loop: in raw numbers of work, height, hash and depth.
 */
module TipChoice {
  import opened Types
  import opened BlockTree
  import opened CandidateTips
  import opened Consensus
  import opened ConsensusState
  import opened ChainRuns

  ghost predicate Contender(s: State, c: Hash)
  {
    c in s.cands && c in s.index && s.index[c].status.IsValidTree()
  }

  /** More work; with equal work more height; with equal height too the smaller hash. */
  predicate Precedes(ix: Index, b: Hash, c: Hash)
    requires b in ix && c in ix
  {
    || ix[b].chainWork > ix[c].chainWork
    || (ix[b].chainWork == ix[c].chainWork && ix[b].height > ix[c].height)
    || (ix[b].chainWork == ix[c].chainWork && ix[b].height == ix[c].height && b < c)
  }

  /** With policy depth d, the way to c disconnects d blocks or more. */
  ghost predicate TooDeep(P: Params, s: State, c: Hash)
    requires Linked(s.index) && c in s.index
  {
    0 < P.suspiciousReorgDepth <= |s.chain| - CommonPrefix(s.chain, Path(s.index, c))
  }

  predicate WithinExpiry(P: Params, ix: Index, c: Hash)
    requires c in ix
  {
    P.expirationInterval <= 0 || ix[c].height <= P.expirationInterval
  }

  /** c would be a better tip. */
  predicate Improves(s: State, c: Hash)
    requires s.chain != [] && Tip(s) in s.index && c in s.index
  {
    c != Tip(s) && s.index[c].chainWork > s.index[Tip(s)].chainWork
  }

  /** Every contender in front of c is one that only the reorg policy refuses. */
  ghost predicate Reached(P: Params, s: State, c: Hash)
    requires Linked(s.index) && s.chain != [] && Tip(s) in s.index
  {
    && Contender(s, c)
    && forall b {:trigger Contender(s, b)} :: Contender(s, b) && Precedes(s.index, b, c) ==>
         Improves(s, b) && WithinExpiry(P, s.index, b) && TooDeep(P, s, b)
  }

  /** The first contender is reached, and nothing precedes it. */
  lemma FirstContender(s: State, c: Hash)
    requires s.cands <= s.index.Keys && BestViable(s.index, s.cands) == Some(c)
    ensures Contender(s, c)
    ensures forall b {:trigger Contender(s, b)} :: Contender(s, b) && b != c ==> Precedes(s.index, c, b)
    ensures forall b {:trigger Contender(s, b)} :: Contender(s, b) ==> !Precedes(s.index, b, c)
  {
    assert IsBestViable(s.index, s.cands, Some(c));
  }

  /** What the loop goes on with after it dropped its first choice. */
  ghost function Without(s: State, c: Hash): State
    requires s.cands <= s.index.Keys
  {
    s.(cands := AfterFind(s.index, s.cands) - {c})
  }

  lemma ContendersLeft(s: State, c: Hash, b: Hash)
    requires s.cands <= s.index.Keys && BestViable(s.index, s.cands) == Some(c)
    ensures Contender(Without(s, c), b) <==> Contender(s, b) && b != c
  {
    FirstContender(s, c);
  }

  lemma ReachedLater(P: Params, s: State, c: Hash, x: Hash)
    requires Linked(s.index) && s.chain != [] && Tip(s) in s.index && s.cands <= s.index.Keys
    requires BestViable(s.index, s.cands) == Some(c)
    requires Improves(s, c) && WithinExpiry(P, s.index, c) && TooDeep(P, s, c)
    ensures x != c ==> (Reached(P, s, x) <==> Reached(P, Without(s, c), x))
    ensures !Reached(P, Without(s, c), c)
  {
    FirstContender(s, c);
    forall b ensures Contender(Without(s, c), b) <==> Contender(s, b) && b != c {
      ContendersLeft(s, c, b);
    }
  }

  /** Where the loop stops at its first choice, nothing else is reached. */
  lemma ReachedFirst(P: Params, s: State, c: Hash, x: Hash)
    requires Linked(s.index) && s.chain != [] && Tip(s) in s.index && s.cands <= s.index.Keys
    requires BestViable(s.index, s.cands) == Some(c)
    ensures Reached(P, s, c)
    ensures !(Improves(s, c) && WithinExpiry(P, s.index, c) && TooDeep(P, s, c)) && x != c ==> !Reached(P, s, x)
  {
    FirstContender(s, c);
  }

  lemma NoneReached(P: Params, s: State, x: Hash)
    requires Linked(s.index) && s.chain != [] && Tip(s) in s.index && s.cands <= s.index.Keys
    requires BestViable(s.index, s.cands) == None
    ensures !Reached(P, s, x)
  {
    assert IsBestViable(s.index, s.cands, None);
  }

  ghost predicate Moves(s: State, o: Outcome, c: Hash)
    requires Linked(s.index) && c in s.index
  {
    o.ok && o.state.chain == Path(s.index, c) && o.events == SwitchEvents(s.chain, Path(s.index, c))
  }

  /**
   The choice, exactly: activation moves to c if and only if c is a better tip within expiry and
   policy, and every contender in front of it is refused by the policy alone.
   */
  lemma {:induction false} MovesExactlyTo(P: Params, s: State, c: Hash)
    requires Linked(s.index) && s.chain != [] && Tip(s) in s.index && s.cands <= s.index.Keys && c in s.index
    ensures Moves(s, Activate(P, s), c)
            <==> Reached(P, s, c) && Improves(s, c) && WithinExpiry(P, s.index, c) && !TooDeep(P, s, c)
    decreases |s.cands|
  {
    match BestViable(s.index, s.cands)
    case None =>
      NoneReached(P, s, c);
    case Some(first) =>
      ReachedFirst(P, s, first, c);
      CandidateDropped(s.index, s.cands, first);
      if Improves(s, first) && WithinExpiry(P, s.index, first) && TooDeep(P, s, first) {
        ReachedLater(P, s, first, c);
        MovesExactlyTo(P, Without(s, first), c);
      } else if Improves(s, first) && WithinExpiry(P, s.index, first) {
        SamePath(s.index, first, c);
      }
  }

  lemma SamePath(ix: Index, b: Hash, c: Hash)
    requires Linked(ix) && b in ix && c in ix
    ensures Path(ix, b) == Path(ix, c) ==> b == c
  {
    assert Last(Path(ix, b)) == b && Last(Path(ix, c)) == c;
  }

  /** Activation fails if and only if the first contender that the policy does not skip is beyond expiry. */
  lemma {:induction false} FailsExactlyOnExpiry(P: Params, s: State)
    requires Linked(s.index) && s.chain != [] && Tip(s) in s.index && s.cands <= s.index.Keys
    ensures !Activate(P, s).ok
            <==> exists c :: Reached(P, s, c) && c != Tip(s) && !WithinExpiry(P, s.index, c)
    decreases |s.cands|
  {
    match BestViable(s.index, s.cands)
    case None =>
      forall c ensures !Reached(P, s, c) {
        NoneReached(P, s, c);
      }
    case Some(first) =>
      CandidateDropped(s.index, s.cands, first);
      ReachedFirst(P, s, first, first);
      if Improves(s, first) && WithinExpiry(P, s.index, first) && TooDeep(P, s, first) {
        FailsExactlyOnExpiry(P, Without(s, first));
        forall c ensures c != first ==> (Reached(P, s, c) <==> Reached(P, Without(s, first), c)) {
          ReachedLater(P, s, first, c);
        }
        ReachedLater(P, s, first, first);
      } else {
        forall c ensures c != first ==> !Reached(P, s, c) {
          ReachedFirst(P, s, first, c);
        }
      }
  }

  /** The policy refuses no more than it must: no contender whose fork is less than d deep is left behind. */
  lemma {:induction false} ShallowContendersOutdone(P: Params, s: State, c: Hash)
    requires Linked(s.index) && s.chain != [] && Tip(s) in s.index && s.cands <= s.index.Keys
    requires P.expirationInterval <= 0 && Contender(s, c)
    requires P.suspiciousReorgDepth > 0 ==>
               |s.chain| - CommonPrefix(s.chain, Path(s.index, c)) < P.suspiciousReorgDepth
    ensures var t := Activate(P, s).state;
            t.chain != [] && Tip(t) in s.index && s.index[c].chainWork <= s.index[Tip(t)].chainWork
    decreases |s.cands|
  {
    var first := BestViable(s.index, s.cands);
    assert IsBestViable(s.index, s.cands, first);
    FirstContender(s, first.value);
    CandidateDropped(s.index, s.cands, first.value);
    if Improves(s, first.value) && TooDeep(P, s, first.value) {
      ContendersLeft(s, first.value, c);
      ShallowContendersOutdone(P, Without(s, first.value), c);
    }
  }

  /** With policy and expiry off, a new tip has maximal work, then maximal height, then the smallest hash. */
  lemma {:induction false} NewTipIsFirst(P: Params, s: State, d: Hash)
    requires Linked(s.index) && s.chain != [] && Tip(s) in s.index && s.cands <= s.index.Keys
    requires P.suspiciousReorgDepth <= 0 && P.expirationInterval <= 0
    requires Contender(s, d) && Activate(P, s).events != []
    ensures var t := Activate(P, s).state;
            && t.chain != [] && Tip(t) in s.index
            && s.index[d].chainWork <= s.index[Tip(t)].chainWork
            && (s.index[d].chainWork == s.index[Tip(t)].chainWork ==> s.index[d].height <= s.index[Tip(t)].height)
            && (s.index[d].chainWork == s.index[Tip(t)].chainWork && s.index[d].height == s.index[Tip(t)].height ==>
                  Tip(t) <= d)
  {
    ActivateShape(P, s);
    var c :| MovedTo(P, s, Activate(P, s), c);
    MovesExactlyTo(P, s, c);
  }

  // ---------- the candidates afterwards ----------

  /** What is left of the candidates when the tip moves to c. */
  ghost predicate StillCandidate(s: State, c: Hash, d: Hash)
    requires Linked(s.index) && c in s.index
  {
    && Contender(s, d) && d != c && !Precedes(s.index, d, c)
    && s.index[d].chainWork >= s.index[c].chainWork
    && (forall g {:trigger s.index[g].prev} :: g in s.index ==> s.index[g].prev != Some(d))
  }

  /** A block on the way to c, other than c, has a child. */
  lemma InnerBlockHasChild(ix: Index, c: Hash, d: Hash)
    requires Linked(ix) && c in ix && d in ix && d != c && IsAncestor(ix, d, c)
    ensures HasChild(ix, d)
  {
    var k := ix[d].height;
    var g := AncestorAt(ix, c, k + 1);
    assert LinkedAt(ix, g);
    AncestorOfAncestor(ix, c, k + 1, k);
    assert ix[g].prev == Some(d);
  }

  lemma SurvivesMeans(s: State, c: Hash, d: Hash)
    requires Linked(s.index) && c in s.index && d in s.index
    ensures Survives(s.index, Path(s.index, c), d)
            <==> && s.index[d].chainWork >= s.index[c].chainWork && d != c && s.index[d].status.IsValidTree()
                 && (forall g {:trigger s.index[g].prev} :: g in s.index ==> s.index[g].prev != Some(d))
  {
    var path := Path(s.index, c);
    if d != c && s.index[d].height < |path| && path[s.index[d].height] == d {
      InnerBlockHasChild(s.index, c, d);
    }
  }

  /** When the tip moves, the other leaves with as much work stay candidates, unless the policy skipped them. */
  lemma {:induction false} CandidatesAfterMove(P: Params, s: State, c: Hash, d: Hash)
    requires Linked(s.index) && s.chain != [] && Tip(s) in s.index && s.cands <= s.index.Keys && c in s.index
    requires Moves(s, Activate(P, s), c)
    ensures d in Activate(P, s).state.cands <==> StillCandidate(s, c, d)
    decreases |s.cands|
  {
    MovesExactlyTo(P, s, c);
    var first := BestViable(s.index, s.cands).value;
    CandidateDropped(s.index, s.cands, first);
    FirstContender(s, first);
    ReachedFirst(P, s, first, c);
    if TooDeep(P, s, first) {
      MovesExactlyTo(P, Without(s, first), c);
      ReachedLater(P, s, first, c);
      CandidatesAfterMove(P, Without(s, first), c, d);
      ContendersLeft(s, first, d);
    } else {
      if d in s.cands {
        SurvivesMeans(s, c, d);
      }
    }
  }
}
