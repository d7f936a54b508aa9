/** What every run of the consensus operations keeps. */
module ChainRuns {
  import opened Types
  import opened BlockTree
  import opened CandidateTips
  import opened Consensus
  import opened ConsensusState

  // ---------- activation ----------

  /** The activation moved the chain to c: a viable candidate with more work that policy and expiry admit. */
  ghost predicate MovedTo(P: Params, s: State, o: Outcome, c: Hash)
    requires Linked(s.index) && s.chain != [] && Tip(s) in s.index
  {
    && c in s.cands && c in s.index && Viable(s.index, c)
    && s.index[c].chainWork > s.index[Tip(s)].chainWork
    && !Refused(P, s, c) && !Expired(P, s.index[c].height)
    && o.ok && o.state.chain == Path(s.index, c) && o.events == SwitchEvents(s.chain, Path(s.index, c))
  }

  ghost predicate Stayed(s: State, o: Outcome)
  {
    o.state.chain == s.chain && o.events == []
  }

  /** An activation changes only the chain and the candidates; it stays silently or moves to one better candidate. */
  lemma {:induction false} ActivateShape(P: Params, s: State)
    requires Linked(s.index) && s.chain != [] && Tip(s) in s.index && s.cands <= s.index.Keys
    ensures var o := Activate(P, s);
            && o.state.index == s.index && o.state.failed == s.failed && o.state.cands <= s.cands
            && (Stayed(s, o) || exists c :: MovedTo(P, s, o, c))
    decreases |s.cands|
  {
    match BestViable(s.index, s.cands)
    case None =>
    case Some(c) =>
      CandidateDropped(s.index, s.cands, c);
      var o := Activate(P, s);
      if c != Tip(s) && !Expired(P, s.index[c].height) && s.index[c].chainWork > s.index[Tip(s)].chainWork {
        if Refused(P, s, c) {
          var s2 := s.(cands := AfterFind(s.index, s.cands) - {c});
          ActivateShape(P, s2);
          assert o == Activate(P, s2);
          if !Stayed(s2, o) {
            var d :| MovedTo(P, s2, o, d);
            assert MovedTo(P, s, o, d);
          }
        } else {
          assert MovedTo(P, s, o, c);
        }
      }
  }

  lemma {:induction false} ActivateKeepsInv(P: Params, s: State)
    requires Inv(P, s)
    ensures Inv(P, Activate(P, s).state)
  {
    ActivateShape(P, s);
  }

  /** When activation reports success, no remaining candidate has more work than the tip. */
  lemma {:induction false} NoBetterCandidateRemains(P: Params, s: State, d: Hash)
    requires Linked(s.index) && s.chain != [] && Tip(s) in s.index && s.cands <= s.index.Keys
    requires Activate(P, s).ok && d in Activate(P, s).state.cands
    ensures var t := Activate(P, s).state;
            t.index == s.index && t.chain != [] && d in s.index && Tip(t) in s.index
            && s.index[d].chainWork <= s.index[Tip(t)].chainWork
    decreases |s.cands|
  {
    match BestViable(s.index, s.cands)
    case None =>
    case Some(c) =>
      CandidateDropped(s.index, s.cands, c);
      if c != Tip(s) && !Expired(P, s.index[c].height) && s.index[c].chainWork > s.index[Tip(s)].chainWork
         && Refused(P, s, c)
      {
        NoBetterCandidateRemains(P, s.(cands := AfterFind(s.index, s.cands) - {c}), d);
      }
  }

  /** A listener that replays an activation's notifications holds the new chain. */
  lemma {:induction false} ActivateReplays(P: Params, s: State)
    requires Linked(s.index) && s.chain != [] && Tip(s) in s.index && s.cands <= s.index.Keys
    ensures Replay(Some(s.chain), Activate(P, s).events) == Some(Activate(P, s).state.chain)
  {
    ActivateShape(P, s);
    var o := Activate(P, s);
    if !Stayed(s, o) {
      var c :| MovedTo(P, s, o, c);
      ReplaySwitch(s.chain, Path(s.index, c));
    }
  }

  // ---------- reorg depth ----------

  function Disconnects(events: seq<Event>): nat
  {
    if events == [] then 0 else (if events[0].BlockDisconnected? then 1 else 0) + Disconnects(events[1..])
  }

  lemma {:induction false} DisconnectsAppend(a: seq<Event>, b: seq<Event>)
    ensures Disconnects(a + b) == Disconnects(a) + Disconnects(b)
  {
    if a == [] {
      assert a + b == b;
    } else {
      assert (a + b)[1..] == a[1..] + b;
      DisconnectsAppend(a[1..], b);
    }
  }

  lemma {:induction false} DisconnectsDown(chain: seq<Hash>, n: nat)
    requires n <= |chain|
    ensures Disconnects(DisconnectEvents(chain, n)) == |chain| - n
    decreases |chain|
  {
    if |chain| > n {
      var ev := DisconnectEvents(chain, n);
      assert ev[1..] == DisconnectEvents(chain[..|chain| - 1], n);
      DisconnectsDown(chain[..|chain| - 1], n);
    }
  }

  lemma {:induction false} ConnectsDisconnectNothing(path: seq<Hash>, n: nat)
    ensures Disconnects(ConnectEvents(path, n)) == 0
    decreases |path|
  {
    if |path| > n {
      ConnectsDisconnectNothing(path[..|path| - 1], n);
      DisconnectsAppend(ConnectEvents(path[..|path| - 1], n), [BlockConnected(Last(path))]);
    }
  }

  lemma SwitchDisconnects(chain: seq<Hash>, path: seq<Hash>)
    requires path != []
    ensures Disconnects(SwitchEvents(chain, path)) == |chain| - CommonPrefix(chain, path)
  {
    var n := CommonPrefix(chain, path);
    DisconnectsDown(chain, n);
    ConnectsDisconnectNothing(path, n);
    DisconnectsAppend(DisconnectEvents(chain, n), ConnectEvents(path, n));
    DisconnectsAppend(DisconnectEvents(chain, n) + ConnectEvents(path, n), [TipChanged(Last(path), |path| - 1)]);
  }

  /** With policy depth d > 0, one activation disconnects fewer than d blocks. */
  lemma {:induction false} ReorgIsBounded(P: Params, s: State)
    requires Linked(s.index) && s.chain != [] && Tip(s) in s.index && s.cands <= s.index.Keys
    requires P.suspiciousReorgDepth > 0
    ensures Disconnects(Activate(P, s).events) < P.suspiciousReorgDepth
  {
    ActivateShape(P, s);
    var o := Activate(P, s);
    if !Stayed(s, o) {
      var c :| MovedTo(P, s, o, c);
      SwitchDisconnects(s.chain, Path(s.index, c));
    }
  }

  // ---------- best chain ----------

  /** The tip has maximal work among all blocks that have not failed. */
  ghost predicate Best(s: State)
    requires s.chain != [] && Tip(s) in s.index
  {
    forall b {:trigger s.index[b].chainWork} :: b in s.index && !IsFailed(s.index, b) ==>
      s.index[b].chainWork <= s.index[Tip(s)].chainWork
  }

  ghost predicate CoveredBy(s: State, b: Hash, c: Hash)
    requires b in s.index
  {
    c in s.cands && c in s.index && Viable(s.index, c) && s.index[c].chainWork >= s.index[b].chainWork
  }

  /** Every viable block that would beat the tip is outdone by some viable candidate. */
  ghost predicate Cover(s: State)
    requires s.chain != [] && Tip(s) in s.index
  {
    forall b {:trigger s.index[b].chainWork} ::
      b in s.index && !IsFailed(s.index, b) && s.index[b].chainWork > s.index[Tip(s)].chainWork ==>
        exists c :: CoveredBy(s, b, c)
  }

  lemma ViableIsNotFailed(P: Params, s: State, b: Hash)
    requires Inv(P, s) && b in s.index
    ensures Viable(s.index, b) <==> !IsFailed(s.index, b)
  {
    assert s.index[b].status.validation == TREE;
  }

  lemma TipWorkGrows(P: Params, s: State)
    requires Linked(s.index) && s.chain != [] && Tip(s) in s.index && s.cands <= s.index.Keys
    ensures var t := Activate(P, s).state;
            t.index == s.index && t.chain != [] && Tip(t) in s.index
            && s.index[Tip(s)].chainWork <= s.index[Tip(t)].chainWork
  {
    ActivateShape(P, s);
  }

  /** Without policy and expiry, activation ends at least as high as any viable candidate. */
  lemma CandidatesOutdone(P: Params, s: State, c: Hash)
    requires Linked(s.index) && s.chain != [] && Tip(s) in s.index && s.cands <= s.index.Keys
    requires P.suspiciousReorgDepth <= 0 && P.expirationInterval <= 0
    requires c in s.cands && Viable(s.index, c)
    ensures var t := Activate(P, s).state;
            t.chain != [] && Tip(t) in s.index && s.index[c].chainWork <= s.index[Tip(t)].chainWork
  {
    assert IsBestViable(s.index, s.cands, BestViable(s.index, s.cands));
  }

  lemma NeverFails(P: Params, s: State)
    requires Linked(s.index) && s.chain != [] && Tip(s) in s.index && s.cands <= s.index.Keys
    requires P.suspiciousReorgDepth <= 0 && P.expirationInterval <= 0
    ensures Activate(P, s).ok
  {
  }

  /** With reorg policy and expiry off, activation from a covered state ends at a tip of maximal work. */
  lemma {:induction false} ActivateBest(P: Params, s: State)
    requires Inv(P, s) && Cover(s) && P.suspiciousReorgDepth <= 0 && P.expirationInterval <= 0
    ensures Inv(P, Activate(P, s).state) && Best(Activate(P, s).state) && Activate(P, s).ok
  {
    ActivateKeepsInv(P, s);
    TipWorkGrows(P, s);
    NeverFails(P, s);
    var t := Activate(P, s).state;
    forall b | b in t.index && !IsFailed(t.index, b)
      ensures t.index[b].chainWork <= t.index[Tip(t)].chainWork
    {
      if s.index[b].chainWork > s.index[Tip(s)].chainWork {
        var c :| CoveredBy(s, b, c);
        CandidatesOutdone(P, s, c);
      }
    }
  }

  /** Offering a block as a candidate keeps the cover: where it replaces its parent, it has at least its work. */
  lemma {:induction false} TryAddKeepsCover(P: Params, s: State, h: Hash)
    requires Inv(P, s) && Cover(s) && h in s.index
    ensures var t := s.(cands := AfterTryAdd(s.index, s.cands, h)); Inv(P, t) && Cover(t)
  {
    var t := s.(cands := AfterTryAdd(s.index, s.cands, h));
    assert BuiltAt(P.hash, s.index, h);
    forall b | b in t.index && !IsFailed(t.index, b) && t.index[b].chainWork > t.index[Tip(t)].chainWork
      ensures exists c :: CoveredBy(t, b, c)
    {
      var c :| CoveredBy(s, b, c);
      if c in t.cands {
        assert CoveredBy(t, b, c);
      } else {
        assert CoveredBy(t, b, h);
      }
    }
  }

  /** A new block, accepted and then offered as a candidate, is covered. */
  lemma {:induction false} AcceptThenTryAddKeepsCover(P: Params, s: State, header: Header, now: int)
    requires Inv(P, s) && Cover(s) && Acceptable(P, s.index, header, now)
    ensures var t := AcceptedAndOffered(P, s, header); Inv(P, t) && Cover(t)
  {
    var h := P.hash(header);
    AddKeepsInv(P, s, header, now);
    NewBlockIsLeaf(P, s.index, header);
    OfferedCovers(P, s, header);
  }

  ghost function AcceptedAndOffered(P: Params, s: State, header: Header): State
    requires Linked(s.index) && header.prev in s.index
  {
    var s1 := AddBlock(P, s, header);
    s1.(cands := AfterTryAdd(s1.index, s1.cands, P.hash(header)))
  }

  lemma OfferedCovers(P: Params, s: State, header: Header)
    requires Linked(s.index) && header.prev in s.index && P.hash(header) !in s.index
    requires s.chain != [] && Tip(s) in s.index && s.cands <= s.index.Keys && Cover(s)
    requires !HasChild(WithBlock(P, s.index, header), P.hash(header))
    ensures Cover(AcceptedAndOffered(P, s, header))
  {
    var t := AcceptedAndOffered(P, s, header);
    OfferedCandidates(P, s, header);
    forall b | b in t.index && !IsFailed(t.index, b) && t.index[b].chainWork > t.index[Tip(t)].chainWork
      ensures exists c :: CoveredBy(t, b, c)
    {
      var c := OfferedCovers1(P, s, header, t.cands, b);
    }
  }

  lemma OfferedCandidates(P: Params, s: State, header: Header)
    requires Linked(s.index) && header.prev in s.index && P.hash(header) !in s.index
    requires !HasChild(WithBlock(P, s.index, header), P.hash(header))
    ensures AcceptedAndOffered(P, s, header).cands == (s.cands - {header.prev}) + {P.hash(header)}
  {
  }

  lemma OfferedCovers1(P: Params, s: State, header: Header, cands: set<Hash>, b: Hash) returns (c: Hash)
    requires Linked(s.index) && header.prev in s.index && P.hash(header) !in s.index
    requires s.chain != [] && Tip(s) in s.index && Cover(s)
    requires cands == (s.cands - {header.prev}) + {P.hash(header)}
    requires b == P.hash(header) ||
             (b in s.index && !IsFailed(s.index, b) && s.index[b].chainWork > s.index[Tip(s)].chainWork)
    ensures b in WithBlock(P, s.index, header)
    ensures CoveredBy(AddBlock(P, s, header).(cands := cands), b, c)
  {
    c := P.hash(header);
    NewRecordKeepsWork(s.index, header);
    if b != c {
      var d :| CoveredBy(s, b, d);
      if d == header.prev {
        CoveredByNew(P, s, header, cands, b);
      } else {
        c := d;
        StillCovered(P, s, header, cands, b, d);
      }
    }
  }

  lemma CoveredByNew(P: Params, s: State, header: Header, cands: set<Hash>, b: Hash)
    requires Linked(s.index) && header.prev in s.index && P.hash(header) !in s.index && P.hash(header) in cands
    requires b in s.index && CoveredBy(s, b, header.prev)
    ensures CoveredBy(AddBlock(P, s, header).(cands := cands), b, P.hash(header))
  {
    NewRecordKeepsWork(s.index, header);
  }

  lemma StillCovered(P: Params, s: State, header: Header, cands: set<Hash>, b: Hash, c: Hash)
    requires Linked(s.index) && header.prev in s.index && P.hash(header) !in s.index && c in cands
    requires b in s.index && CoveredBy(s, b, c)
    ensures CoveredBy(AddBlock(P, s, header).(cands := cands), b, c)
  {
  }

  lemma NewRecordKeepsWork(ix: Index, header: Header)
    requires Linked(ix) && header.prev in ix
    ensures NewRecord(ix, header).chainWork >= ix[header.prev].chainWork && NewRecord(ix, header).status.IsValidTree()
  {
  }

  lemma NewBlockIsLeaf(P: Params, ix: Index, header: Header)
    requires Linked(ix) && header.prev in ix && P.hash(header) !in ix
    ensures !HasChild(WithBlock(P, ix, header), P.hash(header))
  {
    forall g | g in WithBlock(P, ix, header)
      ensures WithBlock(P, ix, header)[g].prev != Some(P.hash(header))
    {
      if g in ix {
        assert LinkedAt(ix, g);
      }
    }
  }

  // ---------- invalidation ----------

  lemma MarkedLinked(ix: Index, x: Hash)
    requires Linked(ix) && x in ix
    ensures Linked(Marked(ix, x)) && Marked(ix, x).Keys == ix.Keys
    ensures Extends(ix, Marked(ix, x)) && Extends(Marked(ix, x), ix)
  {
    forall h | h in Marked(ix, x) ensures LinkedAt(Marked(ix, x), h) {
      assert LinkedAt(ix, h);
    }
  }

  lemma MarkedTree(P: Params, ix: Index, x: Hash)
    requires Tree(P.hash, P.genesisHash, ix) && Checked(P, ix) && x in ix
    ensures Tree(P.hash, P.genesisHash, Marked(ix, x)) && Checked(P, Marked(ix, x))
  {
    MarkedLinked(ix, x);
    var ix2 := Marked(ix, x);
    forall h | h in ix2 ensures BuiltAt(P.hash, ix2, h) {
      assert BuiltAt(P.hash, ix, h) && LinkedAt(ix2, h);
      if ix[h].prev.Some? {
        AncestorExtends(ix, ix2, ix[h].prev.value, SkipHeight(ix[h].height));
      }
    }
    forall h | h in ix2 ensures CheckedAt(P, ix2, h) {
      assert CheckedAt(P, ix, h);
      CheckedExtends(P, ix, ix2, h);
    }
  }

  lemma SubtreeClosed(ix: Index, x: Hash, h: Hash)
    requires Linked(ix) && x in ix && h in ix && LinkedAt(ix, h) && ix[h].prev.Some?
    requires IsAncestor(ix, x, ix[h].prev.value)
    ensures IsAncestor(ix, x, h)
  {
  }

  lemma MarkedClosed(ix: Index, x: Hash)
    requires Linked(ix) && FailureClosed(ix) && x in ix
    ensures Linked(Marked(ix, x)) && FailureClosed(Marked(ix, x))
  {
    MarkedLinked(ix, x);
    var ix2 := Marked(ix, x);
    forall h | h in ix2 && LinkedAt(ix2, h) ensures ClosedAt(ix2, h) {
      assert LinkedAt(ix, h) && ClosedAt(ix, h);
      if ix[h].prev.Some? && IsAncestor(ix, x, ix[h].prev.value) {
        SubtreeClosed(ix, x, h);
      }
    }
  }

  /** The chain InvalidateBlock leaves. */
  ghost function CutChain(s: State, x: Hash): seq<Hash>
    requires x in s.index
  {
    if OnChain(s.index, s.chain, x) then s.chain[..s.index[x].height] else s.chain
  }

  lemma CutChainOk(P: Params, s: State, x: Hash)
    requires Inv(P, s) && x in s.index && s.index[x].height > 0
    ensures var c := CutChain(s, x);
            && c != [] && Last(c) in s.index && c == Path(s.index, Last(c))
            && !IsFailed(s.index, Last(c)) && !IsAncestor(s.index, x, Last(c))
  {
    var ix, tip, k := s.index, Tip(s), s.index[x].height;
    if OnChain(ix, s.chain, x) {
      PathOfAncestor(ix, tip, k - 1);
      NoActiveBlockFailed(P, s, k - 1);
    }
  }

  lemma MarkedChainOk(P: Params, s: State, x: Hash)
    requires Inv(P, s) && x in s.index && s.index[x].height > 0
    ensures Linked(Marked(s.index, x)) && ChainOk(Marked(s.index, x), CutChain(s, x))
  {
    CutChainOk(P, s, x);
    MarkedLinked(s.index, x);
    PathExtends(s.index, Marked(s.index, x), Last(CutChain(s, x)));
  }

  lemma MarkedOk(P: Params, s: State, x: Hash)
    requires Inv(P, s) && x in s.index && s.index[x].height > 0
    ensures IndexOk(P, Marked(s.index, x)) && ChainOk(Marked(s.index, x), CutChain(s, x))
  {
    MarkedTree(P, s.index, x);
    MarkedClosed(s.index, x);
    MarkedChainOk(P, s, x);
    forall h | h in Marked(s.index, x) ensures Marked(s.index, x)[h].status.validation == TREE {
      assert s.index[h].status.validation == TREE;
    }
  }

  lemma MarkedFailures(ix: Index, x: Hash, h: Hash)
    requires Linked(ix) && x in ix && h in ix
    ensures IsFailed(Marked(ix, x), h) <==> IsFailed(ix, h) || h in Subtree(ix, x)
  {
  }

  lemma InvalidateFields(s: State, x: Hash)
    requires Linked(s.index) && s.chain != [] && Tip(s) in s.index && s.cands <= s.index.Keys
    requires x in s.index && s.index[x].height > 0
    ensures var t := Invalidate(s, x).state;
            && t.index == Marked(s.index, x) && t.chain == CutChain(s, x) && t.failed == s.failed + Subtree(s.index, x)
            && t.cands <= t.index.Keys
  {
  }

  /** Invalidation keeps the invariant: in particular the failure mark stays closed under descendants. */
  lemma {:induction false} InvalidateKeepsInv(P: Params, s: State, x: Hash)
    requires Inv(P, s)
    ensures Inv(P, Invalidate(s, x).state)
  {
    if x in s.index && s.index[x].height > 0 {
      MarkedOk(P, s, x);
      InvalidateFields(s, x);
      FailedSetMarked(s, x);
    }
  }

  lemma FailedSetMarked(s: State, x: Hash)
    requires Linked(s.index) && x in s.index && s.failed == set h | h in s.index && IsFailed(s.index, h)
    ensures var m := Marked(s.index, x);
            s.failed + Subtree(s.index, x) == set h | h in m && IsFailed(m, h)
  {
    var m := Marked(s.index, x);
    forall h ensures h in s.failed + Subtree(s.index, x) <==> h in m && IsFailed(m, h) {
      if h in s.index {
        MarkedFailures(s.index, x, h);
      }
    }
  }

  lemma {:induction false} InvalidateReplays(P: Params, s: State, x: Hash)
    requires Inv(P, s)
    ensures Replay(Some(s.chain), Invalidate(s, x).events) == Some(Invalidate(s, x).state.chain)
  {
    if x in s.index && s.index[x].height > 0 && OnChain(s.index, s.chain, x) {
      ReplayDisconnect(s.chain, s.index[x].height);
    }
  }

  /** After an invalidation from a best state, the candidates cover every block that could replace the tip. */
  lemma {:induction false} InvalidateCovers(P: Params, s: State, x: Hash)
    requires Inv(P, s) && Best(s)
    ensures Inv(P, Invalidate(s, x).state) && Cover(Invalidate(s, x).state)
  {
    InvalidateKeepsInv(P, s, x);
    var t := Invalidate(s, x).state;
    if x in s.index && s.index[x].height > 0 {
      forall b | b in t.index && !IsFailed(t.index, b) && t.index[b].chainWork > t.index[Tip(t)].chainWork
        ensures exists c :: CoveredBy(t, b, c)
      {
        BeatsCutTip(P, s, x, b);
        assert CoveredBy(t, b, b);
      }
    }
  }

  /** A surviving block with more work than the new tip lies off the old chain and is offered as a candidate. */
  lemma BeatsCutTip(P: Params, s: State, x: Hash, b: Hash)
    requires Inv(P, s) && Best(s) && x in s.index && s.index[x].height > 0
    requires b in s.index && !IsFailed(s.index, b) && !IsAncestor(s.index, x, b)
    requires CutChain(s, x) != [] && Last(CutChain(s, x)) in s.index
    requires s.index[b].chainWork > s.index[Last(CutChain(s, x))].chainWork
    ensures OnChain(s.index, s.chain, x)
    ensures b in Competitors(s, s.index[Last(CutChain(s, x))].chainWork)
  {
    var ix, tip, k := s.index, Tip(s), s.index[x].height;
    ViableIsNotFailed(P, s, b);
    assert OnChain(ix, s.chain, x);
    if OnChain(ix, s.chain, b) {
      if ix[b].height >= k {
        AncestorOfAncestor(ix, tip, ix[b].height, k);
      } else {
        AncestorOfAncestor(ix, tip, k - 1, ix[b].height);
        WorkMonotone(P.hash, P.genesisHash, ix, AncestorAt(ix, tip, k - 1), ix[b].height);
      }
    }
  }
}
