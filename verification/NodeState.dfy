/**
 ChainstateManager (src/chain/chainstate_manager.cpp): the class, proved against the functions of
 `ConsensusState`.
 */
module NodeState {
  import opened Types
  import opened BlockTree
  import opened Ancestry
  import opened ActiveChain
  import opened Consensus
  import opened ConsensusState
  import opened ChainRuns
  import opened RunTheorems
  import opened Activation
  import opened Invalidation
  import Selector = CandidateTips
  import opened OrphanPool
  import opened PoolDrain
  import opened PoolTheorems
  import opened Steps
  import BlockStore

  datatype ActivateResult = OK | CONSENSUS_INVALID | POLICY_REFUSED | SYSTEM_ERROR

  /** The blocks in the slots; a null slot reads as the null hash. */
  function Values(v: seq<Option<Hash>>): (chain: seq<Hash>)
    ensures |chain| == |v|
  {
    seq(|v|, i requires 0 <= i < |v| => if v[i].Some? then v[i].value else NULL_HASH)
  }

  lemma ValuesOfSlots(v: seq<Option<Hash>>, chain: seq<Hash>)
    requires Selector.SlotsAre(v, chain)
    ensures Values(v) == chain
  {
  }

  /** All blocks descend from one root. */
  ghost predicate OneRoot(ix: Index, g: Hash)
    requires Linked(ix)
  {
    forall h {:trigger AncestorAt(ix, h, 0)} :: h in ix ==> AncestorAt(ix, h, 0) == g
  }

  /** What the activation code relies on. */
  ghost predicate Walkable(s: State)
  {
    && Linked(s.index) && SkipSound(s.index)
    && s.chain != [] && Last(s.chain) in s.index && s.chain == Path(s.index, Last(s.chain))
    && OneRoot(s.index, s.chain[0]) && s.cands <= s.index.Keys
  }

  lemma InvWalkable(P: Params, s: State)
    requires Inv(P, s)
    ensures Walkable(s)
  {
    TreeSkipSound(P.hash, P.genesisHash, s.index);
    forall h | h in s.index ensures AncestorAt(s.index, h, 0) == s.chain[0] {
      PathStart(P.hash, P.genesisHash, s.index, h);
      PathStart(P.hash, P.genesisHash, s.index, Last(s.chain));
    }
  }

  lemma WalkableAfter(s: State, cands: set<Hash>)
    requires Walkable(s) && cands <= s.index.Keys
    ensures Walkable(s.(cands := cands))
  {
  }

  /** The fork LastCommonAncestor finds is the common prefix of the two paths. */
  lemma ForkIsCommonPrefix(s: State, c: Hash, fork: Hash)
    requires Walkable(s) && c in s.index && fork in s.index
    requires IsFork(Path(s.index, Tip(s)), Path(s.index, c), s.index[fork].height + 1)
    ensures CommonPrefix(s.chain, Path(s.index, c)) == s.index[fork].height + 1
  {
    CommonPrefixIsFork(s.chain, Path(s.index, c));
    ForkUnique(s.chain, Path(s.index, c), CommonPrefix(s.chain, Path(s.index, c)), s.index[fork].height + 1);
  }

  class ChainstateManager {
    const P: Params
    const blocks: BlockStore.BlockManager
    const selector: Selector.ChainSelector
    var failedBlocks: set<Hash>
    var orphans: Pool
    var peerOrphanCount: map<int, int>
    /** Everything handed to the notification listeners so far. */
    var delivered: seq<Event>

    ghost function Model(): State
      reads this, blocks, blocks.activeChain, selector
    {
      State(blocks.index, Values(blocks.activeChain.vChain), selector.candidates, failedBlocks)
    }

    /** The consensus state is sound, the pool is within its limits, and every pooled header waits for its parent. */
    ghost predicate Valid()
      reads this, blocks, blocks.activeChain, selector
    {
      Settled() && AllWaiting(blocks.index, orphans)
    }

    /** What holds also while the pool is being drained. */
    ghost predicate Settled()
      reads this, blocks, blocks.activeChain, selector
    {
      Inv(P, Model()) && Filled() && PoolOk(P.hash, orphans, peerOrphanCount)
    }

    ghost predicate Filled()
      reads this, blocks, blocks.activeChain
    {
      Selector.SlotsAre(blocks.activeChain.vChain, Values(blocks.activeChain.vChain))
    }

    constructor (params: Params)
      ensures P == params && fresh(blocks) && fresh(blocks.activeChain) && fresh(selector)
      ensures blocks.index == map[] && !blocks.initialized && blocks.activeChain.vChain == []
      ensures selector.candidates == {} && failedBlocks == {} && delivered == []
      ensures orphans == map[] && peerOrphanCount == map[]
    {
      P := params;
      blocks := new BlockStore.BlockManager();
      selector := new Selector.ChainSelector();
      failedBlocks := {};
      delivered := [];
      orphans := map[];
      peerOrphanCount := map[];
    }

    /** Initialize with the network's genesis header. */
    method Initialize(genesis: Header) returns (ok: bool)
      requires GenesisOk(P, genesis)
      requires !blocks.initialized ==>
                 && blocks.index == map[] && blocks.activeChain.vChain == [] && selector.candidates == {}
                 && failedBlocks == {} && orphans == map[] && peerOrphanCount == map[]
      modifies blocks, blocks.activeChain, selector
      ensures ok == !old(blocks.initialized)
      ensures ok ==> Valid() && Model() == Initial(P, genesis)
      ensures !ok ==> Model() == old(Model())
    {
      ok := blocks.Initialize(P.hash, genesis);
      if !ok {
        return;
      }
      InitialOk(P, genesis);
      var tip := blocks.GetTip();
      blocks.RaiseValidity(tip.value);
      selector.AddCandidateUnchecked(tip);
      assert Model() == Initial(P, genesis);
      EmptyPoolOk(P.hash, blocks.index);
    }

    /** One activation attempt. CONSENSUS_INVALID and SYSTEM_ERROR are never returned. */
    method ActivateBestChainStep(c: Hash) returns (res: ActivateResult, events: seq<Event>)
      requires Walkable(Model()) && Filled() && c in blocks.index
      modifies blocks.activeChain, selector
      ensures Filled()
      ensures res == OK || res == POLICY_REFUSED
      ensures old(c == Tip(Model()) || blocks.index[c].chainWork <= blocks.index[Tip(Model())].chainWork) ==>
                res == OK && events == [] && Model() == old(Model())
      ensures old(c != Tip(Model()) && blocks.index[c].chainWork > blocks.index[Tip(Model())].chainWork) ==>
                if 0 < P.suspiciousReorgDepth
                       <= old(|Model().chain| - CommonPrefix(Model().chain, Path(blocks.index, c)))
                then res == POLICY_REFUSED && events == [] && Model() == old(Model())
                else && res == OK && events == SwitchEvents(old(Model()).chain, Path(blocks.index, c))
                     && Model() == SwitchTo(old(Model()), c)
    {
      ghost var s := Model();
      events := [];
      ActiveIsCoherent(blocks.index, blocks.activeChain.vChain, s.chain);
      var tip := blocks.GetTip();
      if tip == Some(c) {
        return OK, [];
      }
      if blocks.index[c].chainWork <= blocks.index[tip.value].chainWork {
        return OK, [];
      }
      var fork := LastCommonAncestor(blocks.index, tip, Some(c));
      if fork.None? {
        assert false;
      }
      ForkIsCommonPrefix(s, c, fork.value);
      var depth := blocks.index[tip.value].height - blocks.index[fork.value].height;
      if P.suspiciousReorgDepth > 0 && depth >= P.suspiciousReorgDepth {
        return POLICY_REFUSED, [];
      }
      events := MoveTip(c, fork.value, s);
      res := OK;
    }

    /** Disconnect to the fork, connect up to c, prune the candidates. */
    method MoveTip(c: Hash, fork: Hash, ghost s: State) returns (events: seq<Event>)
      requires Walkable(s) && s == Model() && Filled() && c in blocks.index && fork in blocks.index
      requires IsAncestor(s.index, fork, Tip(s)) && IsAncestor(s.index, fork, c)
      requires CommonPrefix(s.chain, Path(s.index, c)) == s.index[fork].height + 1
      modifies blocks.activeChain, selector
      ensures Filled() && Model() == SwitchTo(s, c)
      ensures events == SwitchEvents(s.chain, Path(s.index, c))
    {
      var moved := Reroute(blocks, c, fork, s.chain);
      events := moved + [TipChanged(c, blocks.index[c].height)];
      ghost var path := Path(s.index, c);
      selector.PruneBlockIndexCandidates(blocks.index, blocks.activeChain, path);
      ValuesOfSlots(blocks.activeChain.vChain, path);
    }

    /** One turn of ActivateBestChain's loop: pick the best candidate and try it. */
    method TryBestCandidate() returns (done: bool, ok: bool, events: seq<Event>)
      requires Walkable(Model()) && Filled()
      modifies blocks.activeChain, selector
      ensures Filled()
      ensures done ==> Outcome(Model(), events, ok) == Activate(P, old(Model()))
      ensures !done ==> && Walkable(Model()) && |selector.candidates| < old(|selector.candidates|)
                        && Activate(P, Model()) == Activate(P, old(Model()))
    {
      ghost var s := Model();
      ActiveIsCoherent(blocks.index, blocks.activeChain.vChain, s.chain);
      var best := selector.FindMostWorkChain(blocks.index);
      if best.None? {
        return true, true, [];
      }
      CandidateDropped(s.index, s.cands, best.value);
      if blocks.GetTip() == best {
        return true, true, [];
      }
      if P.expirationInterval > 0 && blocks.index[best.value].height > P.expirationInterval {
        return true, false, [];
      }
      done, events := StepOnBest(best.value, s);
      ok := true;
    }

    /** The attempt itself, on a best candidate that is neither the tip nor beyond expiry. */
    method StepOnBest(c: Hash, ghost s: State) returns (done: bool, events: seq<Event>)
      requires Walkable(s) && Filled() && c in s.cands && c != Tip(s) && !Expired(P, s.index[c].height)
      requires Selector.BestViable(s.index, s.cands) == Some(c)
      requires Model() == s.(cands := Selector.AfterFind(s.index, s.cands))
      modifies blocks.activeChain, selector
      ensures Filled()
      ensures done ==> Outcome(Model(), events, true) == Activate(P, s)
      ensures !done ==> && Walkable(Model()) && |selector.candidates| < |s.cands|
                        && Activate(P, Model()) == Activate(P, s)
    {
      CandidateDropped(s.index, s.cands, c);
      WalkableAfter(s, selector.candidates);
      var res;
      res, events := ActivateBestChainStep(c);
      if res == OK {
        return true, events;
      }
      selector.RemoveCandidate(Some(c));
      WalkableAfter(s, selector.candidates);
      done := false;
    }

    /** ActivateBestChain(nullptr): the queued notifications are delivered after the loop. */
    method ActivateBestChain() returns (ok: bool)
      requires Valid()
      modifies this`delivered, blocks.activeChain, selector
      ensures Valid()
      ensures Model() == Activate(P, old(Model())).state && ok == Activate(P, old(Model())).ok
      ensures delivered == old(delivered) + Activate(P, old(Model())).events
    {
      ghost var s := Model();
      InvWalkable(P, s);
      var done, events := false, [];
      ok := true;
      while !done
        invariant Filled() && delivered == old(delivered)
        invariant !done ==> Walkable(Model()) && Activate(P, Model()) == Activate(P, s)
        invariant done ==> Outcome(Model(), events, ok) == Activate(P, s)
        decreases !done, |selector.candidates|
      {
        done, ok, events := TryBestCandidate();
      }
      ActivateKeepsInv(P, s);
      delivered := delivered + events;
    }

    // ---------- accepting headers ----------

    /** Steps 1 to 9 of AcceptBlockHeader; the branch for insufficiently validated parents is never taken. */
    method CheckHeader(header: Header, now: int, minPowChecked: bool) returns (reason: Option<Reason>)
      requires Inv(P, Model())
      ensures reason == AcceptError(P, blocks.index, header, now, minPowChecked)
    {
      var h := P.hash(header);
      if h in blocks.index {
        return if blocks.index[h].status.IsFailed() then Some(Duplicate) else None;
      }
      if !P.commitmentOk(header) {
        return Some(HighHash);
      }
      if header.prev == NULL_HASH {
        return if h != P.genesisHash then Some(BadGenesis) else Some(GenesisViaAccept);
      }
      if header.prev !in blocks.index {
        return Some(PrevBlkNotFound);
      }
      if blocks.index[header.prev].status.IsFailed() {
        return Some(BadPrevBlk);
      }
      ViableIsNotFailed(P, Model(), header.prev);
      if !blocks.index[header.prev].status.IsValidTree() {
        assert false;
      }
      TreeSkipSound(P.hash, P.genesisHash, blocks.index);
      reason := ContextualCheckBlockHeader(P, blocks.index, header, header.prev, now);
      if reason.Some? {
        return;
      }
      reason := if !P.fullOk(header) then Some(HighHash) else if !minPowChecked then Some(TooLittleChainwork) else None;
    }

    /** Step 10: AddToBlockIndex and RaiseValidity. */
    method InsertHeader(header: Header)
      requires Linked(blocks.index) && SkipSound(blocks.index)
      requires P.hash(header) !in blocks.index && header.prev in blocks.index
      modifies blocks`index
      ensures blocks.index == WithBlock(P, old(blocks.index), header)
    {
      var h := blocks.AddToBlockIndex(P.hash, header);
      blocks.RaiseValidity(h.value);
    }

    /**
     AcceptBlockHeader. The header is judged on the index as it was; when it is new and
     passes, it is indexed and the pool is drained: exactly the entries whose parent thereby
     became indexed leave the pool, and those of them that pass their own checks are indexed.
     */
    method AcceptBlockHeader(header: Header, now: int, minPowChecked: bool)
      returns (r: Option<Hash>, reason: Option<Reason>, ghost added: seq<Header>)
      requires Settled()
      modifies this`orphans, this`peerOrphanCount, blocks`index
      ensures Settled() && Model() == old(Model()).(index := blocks.index)
      ensures reason == AcceptError(P, old(blocks.index), header, now, minPowChecked)
      ensures r == if reason.None? then Some(P.hash(header)) else None
      ensures r.Some? ==> r.value in blocks.index
      ensures Grows(old(blocks.index), blocks.index) && Adds(P, old(blocks.index), added, blocks.index, now)
      ensures added == [] <==> reason.Some? || P.hash(header) in old(blocks.index)
      ensures added != [] ==> added[0] == header && AllPooled(P.hash, old(orphans), added[1..])
      ensures |added| + |orphans| <= 1 + |old(orphans)|
      ensures orphans == StillWaiting(old(orphans), old(blocks.index), blocks.index)
      ensures Judged(Judge(P, now), old(orphans), orphans, blocks.index)
      decreases |orphans|, 2
    {
      added := [];
      NothingDrained(orphans, blocks.index);
      reason := CheckHeader(header, now, minPowChecked);
      if reason.Some? {
        return None, reason, [];
      }
      var h := P.hash(header);
      r := Some(h);
      if h in blocks.index {
        return;
      }
      ghost var s, pool := Model(), orphans;
      AddKeepsInv(P, s, header, now);
      AddLinked(P, s.index, header);
      AddsOne(P, s.index, header, now);
      TreeSkipSound(P.hash, P.genesisHash, blocks.index);
      InsertHeader(header);
      ghost var mid := blocks.index;
      added := ProcessOrphanHeaders(h, now);
      GrowsTransitive(s.index, mid, blocks.index);
      DrainOfNewBlock(pool, s.index, h, mid, blocks.index);
      LeadsAppend(Adder(P, now), s.index, [header], mid, added, blocks.index);
      ghost var rest := added;
      added := [header] + rest;
      assert added[1..] == rest;
    }

    /** Erase an orphan and decrement its peer's count. */
    method TakeOrphan(h: Hash) returns (header: Header)
      requires PoolOk(P.hash, orphans, peerOrphanCount) && h in orphans
      modifies this`orphans, this`peerOrphanCount
      ensures PoolOk(P.hash, orphans, peerOrphanCount)
      ensures header == old(orphans)[h].header && orphans == old(orphans) - {h} && |orphans| < old(|orphans|)
    {
      RemoveKeepsPool(P.hash, orphans, peerOrphanCount, h);
      header := orphans[h].header;
      var peer := orphans[h].peer;
      orphans := orphans - {h};
      if peer in peerOrphanCount {
        if peerOrphanCount[peer] == 1 {
          peerOrphanCount := peerOrphanCount - {peer};
        } else {
          peerOrphanCount := peerOrphanCount[peer := peerOrphanCount[peer] - 1];
        }
      }
    }

    /** ProcessOrphanHeaders: take the children of a block just indexed out of the pool, one by one, and accept them. */
    method ProcessOrphanHeaders(parent: Hash, now: int) returns (ghost added: seq<Header>)
      requires Settled() && parent in blocks.index
      modifies this`orphans, this`peerOrphanCount, blocks`index
      ensures Settled() && Model() == old(Model()).(index := blocks.index)
      ensures Draining(Adder(P, now), Judge(P, now), P.hash, old(blocks.index), old(orphans), Children(old(orphans),
                                                                                                       parent),
                       added, blocks.index, orphans)
      decreases |orphans|, 1
    {
      added := [];
      var todo := set h | h in orphans && orphans[h].header.prev == parent;
      ghost var s, pool := Model(), orphans;
      ghost var gone := {};
      DrainingStarts(Adder(P, now), Judge(P, now), P.hash, s.index, pool);
      while todo != {}
        invariant Split(gone, todo, Children(pool, parent))
        invariant Settled() && Model() == s.(index := blocks.index)
        invariant Draining(Adder(P, now), Judge(P, now), P.hash, s.index, pool, gone, added, blocks.index, orphans)
        decreases todo
      {
        var h :| h in todo;
        ChildStillWaits(Adder(P, now), Judge(P, now), P.hash, s.index, pool, gone, added, blocks.index, orphans, h,
                        parent);
        added := DrainOne(h, now, s, pool, gone, added);
        SplitStep(gone, todo, Children(pool, parent), h);
        todo, gone := todo - {h}, gone + {h};
      }
      assert gone == Children(pool, parent);
    }

    /** One round of the drain loop. */
    method DrainOne(h: Hash, now: int, ghost s: State, ghost pool: Pool, ghost gone: set<Hash>,
                    ghost added: seq<Header>)
      returns (ghost added': seq<Header>)
      requires Settled() && Model() == s.(index := blocks.index)
      requires Draining(Adder(P, now), Judge(P, now), P.hash, s.index, pool, gone, added, blocks.index, orphans)
      requires h in orphans && orphans[h].header.prev in blocks.index
      modifies this`orphans, this`peerOrphanCount, blocks`index
      ensures Settled() && Model() == s.(index := blocks.index)
      ensures Draining(Adder(P, now), Judge(P, now), P.hash, s.index, pool, gone + {h}, added', blocks.index, orphans)
      decreases |orphans|, 0
    {
      ghost var mid, waiting := blocks.index, orphans;
      var header := TakeOrphan(h);
      var r, reason, more := AcceptBlockHeader(header, now, true);
      added' := added + more;
      MorePooled(P.hash, waiting, h, header, more);
      if reason.Some? {
        RejectedIsJudged(P, mid, header, now);
      }
      JudgeLasts(P, now, mid, blocks.index);
      DrainingRound(Adder(P, now), Judge(P, now), P.hash, s.index, pool, gone, added, mid, waiting, h, more,
                    blocks.index, orphans);
    }

    // ---------- the orphan pool ----------

    /** EvictOrphanHeaders: all expired entries go, or else the oldest entry of a full pool. */
    method EvictOrphanHeaders(now: int) returns (evicted: nat)
      requires PoolOk(P.hash, orphans, peerOrphanCount)
      modifies this`orphans, this`peerOrphanCount
      ensures PoolOk(P.hash, orphans, peerOrphanCount)
      ensures Evicts(old(orphans), orphans, now, P.orphanExpireTime)
      ensures evicted == |old(orphans)| - |orphans|
      ensures |old(orphans)| >= MAX_ORPHAN_HEADERS ==> evicted > 0
    {
      if |orphans| == 0 {
        return 0;
      }
      evicted := EvictExpired(now);
      if evicted == 0 {
        NoneExpired(old(orphans), now, P.orphanExpireTime);
        if |orphans| >= MAX_ORPHAN_HEADERS {
          ghost var first := OldestExists(orphans);
          var oldest :| oldest in orphans && IsOldest(orphans, oldest);
          EvictsOldest(orphans, oldest, now, P.orphanExpireTime);
          var header := TakeOrphan(oldest);
          evicted := 1;
        }
      }
    }

    /** The first strategy: walk the pool and erase what is older than the expiry time. */
    method EvictExpired(now: int) returns (evicted: nat)
      requires PoolOk(P.hash, orphans, peerOrphanCount)
      modifies this`orphans, this`peerOrphanCount
      ensures PoolOk(P.hash, orphans, peerOrphanCount)
      ensures orphans == old(orphans) - ExpiredEntries(old(orphans), now, P.orphanExpireTime)
      ensures evicted == |old(orphans)| - |orphans|
      ensures evicted == 0 <==> ExpiredEntries(old(orphans), now, P.orphanExpireTime) == {}
    {
      var n := 0;
      var todo := orphans.Keys;
      ghost var pool, expired := orphans, ExpiredEntries(orphans, now, P.orphanExpireTime);
      SweptStart(pool, expired);
      while todo != {}
        invariant Swept(pool, expired, todo, orphans, n) && PoolOk(P.hash, orphans, peerOrphanCount)
        decreases todo
      {
        var h :| h in todo;
        SweptStep(pool, expired, todo, orphans, n, h);
        todo := todo - {h};
        if now - orphans[h].timeReceived > P.orphanExpireTime {
          var header := TakeOrphan(h);
          n := n + 1;
        }
      }
      SweptDone(pool, expired, orphans, n);
      evicted := n;
    }

    /**
     TryAddOrphanHeader. A known orphan is kept as it is; a peer at its limit is refused; a full
     pool makes room first. (The source's lookup also creates an empty count, which no path leaves behind.)
     */
    method TryAddOrphanHeader(header: Header, peer: int, now: int) returns (ok: bool, ghost room: Pool)
      requires PoolOk(P.hash, orphans, peerOrphanCount)
      modifies this`orphans, this`peerOrphanCount
      ensures PoolOk(P.hash, orphans, peerOrphanCount)
      ensures P.hash(header) in old(orphans) ==> ok && orphans == old(orphans)
      ensures P.hash(header) !in old(orphans) ==>
                ok == (CountOf(old(peerOrphanCount), peer) < MAX_ORPHAN_HEADERS_PER_PEER)
      ensures !ok ==> orphans == old(orphans) && peerOrphanCount == old(peerOrphanCount)
      ensures ok && P.hash(header) !in old(orphans) ==>
                && SubPool(room, old(orphans))
                && (if |old(orphans)| >= MAX_ORPHAN_HEADERS then Evicts(old(orphans), room, now, P.orphanExpireTime)
                    else room == old(orphans))
                && orphans == room[P.hash(header) := OrphanHeader(header, now, peer)]
    {
      room := orphans;
      var h := P.hash(header);
      if h in orphans {
        return true, room;
      }
      if CountOf(peerOrphanCount, peer) >= MAX_ORPHAN_HEADERS_PER_PEER {
        return false, room;
      }
      MakeRoom(peer, now);
      room := orphans;
      Insert(OrphanHeader(header, now, peer));
      ok := true;
    }

    method Insert(o: OrphanHeader)
      requires PoolOk(P.hash, orphans, peerOrphanCount) && P.hash(o.header) !in orphans
      requires |orphans| < MAX_ORPHAN_HEADERS && CountOf(peerOrphanCount, o.peer) < MAX_ORPHAN_HEADERS_PER_PEER
      modifies this`orphans, this`peerOrphanCount
      ensures PoolOk(P.hash, orphans, peerOrphanCount) && orphans == old(orphans)[P.hash(o.header) := o]
    {
      InsertKeepsPool(P.hash, orphans, peerOrphanCount, o);
      orphans := orphans[P.hash(o.header) := o];
      peerOrphanCount := peerOrphanCount[o.peer := CountOf(peerOrphanCount, o.peer) + 1];
    }

    /** A full pool evicts before it takes another header; eviction never comes back empty-handed. */
    method MakeRoom(peer: int, now: int)
      requires PoolOk(P.hash, orphans, peerOrphanCount)
      modifies this`orphans, this`peerOrphanCount
      ensures PoolOk(P.hash, orphans, peerOrphanCount) && |orphans| < MAX_ORPHAN_HEADERS
      ensures SubPool(orphans, old(orphans)) && CountOf(peerOrphanCount, peer) <= CountOf(old(peerOrphanCount), peer)
      ensures if |old(orphans)| >= MAX_ORPHAN_HEADERS then Evicts(old(orphans), orphans, now, P.orphanExpireTime)
              else orphans == old(orphans) && peerOrphanCount == old(peerOrphanCount)
    {
      ghost var full := orphans;
      if |orphans| >= MAX_ORPHAN_HEADERS {
        var evicted := EvictOrphanHeaders(now);
        if evicted == 0 {
          assert false;
        }
        EvictsShrinks(full, orphans, now, P.orphanExpireTime);
        FromShrinks(full, orphans, peer);
      }
    }

    /** AddOrphanHeader, which the network layer calls for a header whose parent was not found. */
    method AddOrphanHeader(header: Header, peer: int, now: int) returns (ok: bool, ghost room: Pool)
      requires Valid() && header.prev !in blocks.index
      modifies this`orphans, this`peerOrphanCount
      ensures Valid()
      ensures P.hash(header) in old(orphans) ==> ok && orphans == old(orphans)
      ensures P.hash(header) !in old(orphans) ==>
                ok == (CountOf(old(peerOrphanCount), peer) < MAX_ORPHAN_HEADERS_PER_PEER)
      ensures !ok ==> orphans == old(orphans)
      ensures ok && P.hash(header) !in old(orphans) ==>
                && SubPool(room, old(orphans))
                && (if |old(orphans)| >= MAX_ORPHAN_HEADERS then Evicts(old(orphans), room, now, P.orphanExpireTime)
                    else room == old(orphans))
                && orphans == room[P.hash(header) := OrphanHeader(header, now, peer)]
    {
      ghost var s, pool := Model(), orphans;
      ok, room := TryAddOrphanHeader(header, peer, now);
      assert Model() == s;
      if ok && P.hash(header) !in pool {
        WaitingWith(s.index, pool, room, P.hash(header), OrphanHeader(header, now, peer));
      }
    }

    // ---------- public calls ----------

    method TryAddBlockIndexCandidate(h: Option<Hash>)
      requires Valid() && (h.Some? ==> h.value in blocks.index)
      modifies selector
      ensures Valid()
      ensures Model() == if h.None? then old(Model())
                         else old(Model()).(cands := Selector.AfterTryAdd(blocks.index, old(Model()).cands, h.value))
    {
      if h.Some? {
        WorkPositive(P, blocks.index, h.value);
        assert LinkedAt(blocks.index, h.value);
      }
      selector.TryAddBlockIndexCandidate(blocks.index, h);
    }

    /** ProcessNewBlockHeader: accept, offer as candidate, activate. */
    method ProcessNewBlockHeader(header: Header, now: int, minPowChecked: bool)
      returns (ok: bool, reason: Option<Reason>, ghost added: seq<Header>)
      requires Valid()
      modifies this`orphans, this`peerOrphanCount, this`delivered, blocks`index, blocks.activeChain, selector
      ensures Valid()
      ensures reason == AcceptError(P, old(blocks.index), header, now, minPowChecked)
      ensures Adds(P, old(blocks.index), added, blocks.index, now) && |added| + |orphans| <= 1 + |old(orphans)|
      ensures NewAreInTime(old(blocks.index), blocks.index, now)
      ensures orphans == StillWaiting(old(orphans), old(blocks.index), blocks.index)
      ensures added == [] <==> reason.Some? || P.hash(header) in old(blocks.index)
      ensures reason.Some? ==> !ok && Model() == old(Model()) && delivered == old(delivered)
      ensures Grows(old(blocks.index), blocks.index)
      ensures reason.None? ==>
                && (added == [] || added[0] == header) && P.hash(header) in blocks.index
                && var o := ActivateOffered(P, old(Model()), blocks.index, P.hash(header));
                   Model() == o.state && ok == o.ok && delivered == old(delivered) + o.events
      ensures old(Best(Model())) && Injective(P.hash) && P.suspiciousReorgDepth <= 0 && P.expirationInterval <= 0 ==>
                (Best(Model()) <==> old(KeepsBest(P, Model(), orphans, header, now, minPowChecked)))
      ensures old(orphans) == map[] ==>
                orphans == map[] && Model() == ProcessHeader(P, old(Model()), header, now, minPowChecked)
    {
      var r;
      ghost var s, pool := Model(), orphans;
      r, reason, added := AcceptBlockHeader(header, now, minPowChecked);
      AddedInTime(P, s, added, blocks.index, now);
      DrainedAllWaiting(pool, s.index, blocks.index);
      if r.None? {
        return false, reason, added;
      }
      OfferedOutcome(P, s, pool, header, now, minPowChecked, added, blocks.index);
      TryAddBlockIndexCandidate(r);
      ok := ActivateBestChain();
    }

    /** InvalidateBlock does not activate another chain by itself. */
    method InvalidateBlock(x: Hash) returns (ok: bool)
      requires Valid()
      modifies this`failedBlocks, this`delivered, blocks`index, blocks.activeChain, selector
      ensures Valid()
      ensures Model() == Invalidate(old(Model()), x).state && ok == Invalidate(old(Model()), x).ok
      ensures delivered == old(delivered) + Invalidate(old(Model()), x).events
    {
      ghost var s := Model();
      if x !in blocks.index || blocks.index[x].height == 0 {
        return false;
      }
      InvWalkable(P, s);
      CutChainOk(P, s, x);
      InvalidateKeepsInv(P, s, x);
      var events := CutAndMark(x, s);
      WaitsForSameBlocks(s.index, blocks.index, orphans);
      delivered := delivered + events;
      assert Model() == Invalidate(s, x).state;
      ok := true;
    }

    /** The phases of InvalidateBlock on a block that can be invalidated. */
    method CutAndMark(x: Hash, ghost s: State) returns (events: seq<Event>)
      requires Walkable(s) && Filled() && s == Model() && x in s.index && s.index[x].height > 0
      requires CutChain(s, x) != [] && Last(CutChain(s, x)) in s.index
      modifies this`failedBlocks, blocks`index, blocks.activeChain, selector
      ensures Filled() && blocks.index.Keys == s.index.Keys
      ensures Outcome(Model(), events, true) == Invalidate(s, x)
    {
      events := CutBelow(x, s);
      failedBlocks := MarkSubtree(blocks, selector, x, failedBlocks);
      ActiveIsCoherent(s.index, blocks.activeChain.vChain, CutChain(s, x));
      AddViableLeaves(blocks, selector);
      ValuesOfSlots(blocks.activeChain.vChain, CutChain(s, x));
    }

    /** The blocks off the active chain with at least the parent's work. */
    method CompetingForks(parent: Hash, ghost s: State) returns (forks: set<Hash>)
      requires s == Model() && Filled() && parent in s.index
      ensures forks == Competitors(s, s.index[parent].chainWork)
    {
      forks := set h | h in blocks.index && !blocks.activeChain.Contains(blocks.index, Some(h))
                       && blocks.index[h].chainWork >= blocks.index[parent].chainWork
                       && Selector.Viable(blocks.index, h);
    }

    /** Steps 1 and 2 of InvalidateBlock: collect competing forks and disconnect from the tip down to x. */
    method CutBelow(x: Hash, ghost s: State) returns (events: seq<Event>)
      requires Walkable(s) && Filled() && s == Model() && x in s.index && s.index[x].height > 0
      modifies blocks.activeChain, selector
      ensures events == if OnChain(s.index, s.chain, x) then DisconnectEvents(s.chain, s.index[x].height) else []
      ensures Active(s.index, blocks.activeChain.vChain, CutChain(s, x))
      ensures selector.candidates <= s.index.Keys
      ensures selector.candidates - Subtree(s.index, x) == CandidatesAfterCut(s, x) - Subtree(s.index, x)
    {
      events := [];
      StepDown(s.index, if OnChain(s.index, s.chain, x) then Tip(s) else x, s.index[x].height);
      assert LinkedAt(blocks.index, x);
      var parent := blocks.index[x].prev.value;
      if blocks.activeChain.Contains(blocks.index, Some(x)) {
        var forks := CompetingForks(parent, s);
        events := DisconnectBelow(blocks, selector, x, forks, s);
        assert forks - {} == forks;
      }
    }
  }

  /** The candidates outside the invalidated subtree, once the chain has been cut. */
  ghost function CandidatesAfterCut(s: State, x: Hash): set<Hash>
    requires x in s.index && s.index[x].height > 0
  {
    var chain := CutChain(s, x);
    if OnChain(s.index, s.chain, x) && Last(chain) in s.index
    then s.cands + {Last(chain)} + Competitors(s, s.index[Last(chain)].chainWork)
    else s.cands
  }
}
