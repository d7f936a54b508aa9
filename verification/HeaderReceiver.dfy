/** HeaderSyncManager (src/network/header_sync_manager.cpp): the receiving side of the header exchange. */
module HeaderReceiver {
  import opened Types
  import opened BlockTree
  import opened Consensus
  import opened ConsensusState
  import opened ChainRuns
  import opened OrphanPool
  import opened NodeState
  import opened PoolDrain
  import opened PoolTheorems
  import opened Steps
  import opened Locator
  import opened HeaderServe
  import opened Protocol
  import opened HeaderSync
  import opened Batches
  import opened SyncTheorems
  import Selector = CandidateTips

  const MAX_UNSOLICITED_ANNOUNCEMENT := 2

  /** The message is dropped unread: a large batch from anyone but the sync peer during initial download. */
  ghost predicate Gated(ibd: bool, syncPeer: Option<int>, peer: int, size: nat)
  {
    ibd && size > MAX_UNSOLICITED_ANNOUNCEMENT && syncPeer != Some(peer)
  }

  class HeaderSyncManager {
    const chainstate: ChainstateManager
    var syncPeer: Option<int>
    var lastBatchSize: nat

    constructor (cs: ChainstateManager)
      ensures chainstate == cs && syncPeer == None && lastBatchSize == 0
    {
      chainstate := cs;
      syncPeer := None;
      lastBatchSize := 0;
    }

    /** The locator of the tip's parent, so that the answer repeats our tip. */
    method GetLocatorFromPrev() returns (have: seq<Hash>)
      requires chainstate.Valid()
      ensures RequestStart(chainstate.Model()) in chainstate.blocks.index
      ensures have == LocatorOf(chainstate.blocks.index, RequestStart(chainstate.Model()))
    {
      ghost var s := chainstate.Model();
      StartIndexed(chainstate.P, s);
      ActiveParent(chainstate.P, s);
      TreeSkipSound(chainstate.P.hash, chainstate.P.genesisHash, s.index);
      var tip := chainstate.blocks.GetTip();
      var prev := chainstate.blocks.index[tip.value].prev;
      have := LocatorEntries(chainstate.blocks.index, if prev.Some? then prev else tip);
      LocatorOfEntries(s.index, RequestStart(s));
    }

    predicate ShouldRequestMore()
      reads this
    {
      lastBatchSize == MAX_HEADERS_SIZE
    }

    method ClearSyncPeer()
      modifies this`syncPeer
      ensures syncPeer == None
    {
      syncPeer := None;
    }

    /** CheckHeadersPoW and CheckHeadersAreContinuous on a batch of acceptable size. */
    method BatchIsWellFormed(headers: seq<Header>) returns (ok: bool)
      ensures ok == WellFormedBatch(chainstate.P, headers)
    {
      if |headers| > MAX_HEADERS_SIZE {
        return false;
      }
      for i := 0 to |headers|
        invariant forall j {:trigger headers[j]} :: 0 <= j < i ==> chainstate.P.commitmentOk(headers[j])
      {
        if !chainstate.P.commitmentOk(headers[i]) {
          return false;
        }
      }
      ok := CheckHeadersAreContinuous(chainstate.P, headers);
    }

    /** The last header is not active yet, and the batch ends below the anti-DoS threshold. */
    method IsLowWork(headers: seq<Header>) returns (low: bool)
      requires chainstate.Valid() && headers != []
      ensures low == LowWork(chainstate.P, chainstate.Model(), headers)
    {
      var ix, last := chainstate.blocks.index, chainstate.P.hash(headers[|headers| - 1]);
      if last in ix && chainstate.blocks.activeChain.Contains(ix, Some(last)) {
        return false;
      }
      if headers[0].prev !in ix {
        return false;
      }
      var work := CalculateHeadersWork(headers);
      low := ix[headers[0].prev].chainWork + work < AntiDoSWorkThreshold(chainstate.P, ix, chainstate.blocks.GetTip());
    }

    /**
     HandleHeadersMessage. `ibd` says whether the node is in initial download, `knownInvalid` which
     invalid headers the peer has sent before. A request is the locator of a GETHEADERS message.
     When the orphan pool is empty and no header of the batch is rejected, this is exactly HandleBatch;
     `Succeeds` says when the message fails whatever the batch, and after a success no header of the batch is
     lost. A message that fails clears the sync peer and leaves the active chain alone.
     */
    method HandleHeadersMessage(peer: int, headers: seq<Header>, now: int, ibd: bool, knownInvalid: set<Hash>)
      returns (ok: bool, request: Option<seq<Hash>>)
      requires chainstate.Valid()
      modifies this, chainstate`orphans, chainstate`peerOrphanCount, chainstate`delivered,
               chainstate.blocks`index, chainstate.blocks.activeChain, chainstate.selector
      ensures chainstate.Valid() && Grows(old(chainstate.blocks.index), chainstate.blocks.index)
      ensures syncPeer == if ok then old(syncPeer) else None
      ensures !ok ==> && request == None && chainstate.delivered == old(chainstate.delivered)
                      && chainstate.Model().chain == old(chainstate.Model()).chain
      ensures request.Some? ==>
                && |headers| == MAX_HEADERS_SIZE && RequestStart(chainstate.Model()) in chainstate.blocks.index
                && request.value == LocatorOf(chainstate.blocks.index, RequestStart(chainstate.Model()))
      ensures Gated(ibd, old(syncPeer), peer, |headers|) ==>
                ok && request == None && chainstate.Model() == old(chainstate.Model())
      ensures !Gated(ibd, old(syncPeer), peer, |headers|) && old(chainstate.orphans) == map[] ==>
                match HandleBatch(chainstate.P, old(chainstate.Model()), headers, now)
                case None => true
                case Some(turn) => chainstate.Model() == turn.state && ok == turn.ok && request.Some? == turn.more
      ensures !Gated(ibd, old(syncPeer), peer, |headers|) && old(chainstate.orphans) == map[]
              && SoundHash(chainstate.P) ==>
                ok == old(Succeeds(chainstate.P, now, chainstate.Model(), headers, knownInvalid))
      ensures ok && !Gated(ibd, old(syncPeer), peer, |headers|) ==> (request.Some? <==> |headers| == MAX_HEADERS_SIZE)
      ensures !Gated(ibd, old(syncPeer), peer, |headers|) && old(chainstate.orphans) == map[]
              && SoundHash(chainstate.P) && old(LookedAt(chainstate.P, chainstate.Model(), headers)) ==>
                BatchOutcome(chainstate.P, now, old(chainstate.Model()), headers, knownInvalid, ok, chainstate.Model(),
                             chainstate.orphans)
      ensures !Gated(ibd, old(syncPeer), peer, |headers|) && old(chainstate.orphans) == map[]
              && SoundHash(chainstate.P) && ok && headers != [] ==>
                || old(LowWork(chainstate.P, chainstate.Model(), headers))
                || Accounted(chainstate.P, headers, chainstate.blocks.index, chainstate.orphans, knownInvalid)
    {
      if ibd && |headers| > MAX_UNSOLICITED_ANNOUNCEMENT && syncPeer != Some(peer) {
        return true, None;
      }
      ok, request := TakeBatch(peer, headers, now, knownInvalid);
    }

    /** HandleHeadersMessage behind the gate. */
    method TakeBatch(peer: int, headers: seq<Header>, now: int, knownInvalid: set<Hash>)
      returns (ok: bool, request: Option<seq<Hash>>)
      requires chainstate.Valid()
      modifies this, chainstate`orphans, chainstate`peerOrphanCount, chainstate`delivered,
               chainstate.blocks`index, chainstate.blocks.activeChain, chainstate.selector
      ensures chainstate.Valid() && Grows(old(chainstate.blocks.index), chainstate.blocks.index)
      ensures syncPeer == if ok then old(syncPeer) else None
      ensures !ok ==> && request == None && chainstate.delivered == old(chainstate.delivered)
                      && chainstate.Model().chain == old(chainstate.Model()).chain
      ensures request.Some? ==>
                && |headers| == MAX_HEADERS_SIZE && RequestStart(chainstate.Model()) in chainstate.blocks.index
                && request.value == LocatorOf(chainstate.blocks.index, RequestStart(chainstate.Model()))
      ensures old(chainstate.orphans) == map[] ==>
                match HandleBatch(chainstate.P, old(chainstate.Model()), headers, now)
                case None => true
                case Some(turn) => chainstate.Model() == turn.state && ok == turn.ok && request.Some? == turn.more
      ensures ok ==> (request.Some? <==> |headers| == MAX_HEADERS_SIZE)
      ensures old(chainstate.orphans) == map[] && SoundHash(chainstate.P) ==>
                ok == old(Succeeds(chainstate.P, now, chainstate.Model(), headers, knownInvalid))
      ensures old(chainstate.orphans) == map[] && SoundHash(chainstate.P)
              && old(LookedAt(chainstate.P, chainstate.Model(), headers)) ==>
                BatchOutcome(chainstate.P, now, old(chainstate.Model()), headers, knownInvalid, ok, chainstate.Model(),
                             chainstate.orphans)
      ensures old(chainstate.orphans) == map[] && SoundHash(chainstate.P) && ok && headers != [] ==>
                || old(LowWork(chainstate.P, chainstate.Model(), headers))
                || Accounted(chainstate.P, headers, chainstate.blocks.index, chainstate.orphans, knownInvalid)
    {
      request := None;
      if headers == [] {
        return true, None;
      }
      var wellFormed := BatchIsWellFormed(headers);
      if !wellFormed {
        ClearSyncPeer();
        return false, None;
      }
      var low := IsLowWork(headers);
      if low {
        if |headers| == MAX_HEADERS_SIZE {
          var have := GetLocatorFromPrev();
          request := Some(have);
        }
        return true, request;
      }
      lastBatchSize := |headers|;
      ghost var s, pool := chainstate.Model(), chainstate.orphans;
      ok := AcceptAndActivate(peer, headers, now, knownInvalid);
      if ok && pool == map[] && SoundHash(chainstate.P) {
        SuccessIsAccounted(chainstate.P, now, s, headers, knownInvalid, chainstate.Model(), chainstate.orphans);
      }
      if !ok {
        ClearSyncPeer();
        return;
      }
      if ShouldRequestMore() {
        var have := GetLocatorFromPrev();
        request := Some(have);
      }
    }

    /** The accept loop and the one activation at its end. */
    method AcceptAndActivate(peer: int, headers: seq<Header>, now: int, knownInvalid: set<Hash>) returns (ok: bool)
      requires chainstate.Valid() && headers != []
      modifies chainstate`orphans, chainstate`peerOrphanCount, chainstate`delivered,
               chainstate.blocks`index, chainstate.blocks.activeChain, chainstate.selector
      ensures chainstate.Valid() && Grows(old(chainstate.blocks.index), chainstate.blocks.index)
      ensures !ok ==> && chainstate.delivered == old(chainstate.delivered)
                      && chainstate.Model().chain == old(chainstate.Model()).chain
      ensures old(chainstate.orphans) == map[] ==>
                match Fold(Offering(chainstate.P, now), old(chainstate.Model()), headers)
                case None => true
                case Some(t) => Inv(chainstate.P, t) && chainstate.Model() == Activate(chainstate.P, t).state
                                && ok == Activate(chainstate.P, t).ok
      ensures old(chainstate.orphans) == map[] && SoundHash(chainstate.P) && WellFormedBatch(chainstate.P, headers) ==>
                BatchOutcome(chainstate.P, now, old(chainstate.Model()), headers, knownInvalid, ok, chainstate.Model(),
                             chainstate.orphans)
    {
      TakenKeepsInv(chainstate.P, now, chainstate.Model(), headers);
      ActiveIsOnChain(chainstate.P, chainstate.Model(), chainstate.P.hash(headers[|headers| - 1]));
      var ix, last := chainstate.blocks.index, chainstate.P.hash(headers[|headers| - 1]);
      var skipDosChecks := last in ix && chainstate.blocks.activeChain.Contains(ix, Some(last));
      ok := AcceptHeaders(chainstate, headers, peer, now, skipDosChecks, knownInvalid);
      if !ok {
        return;
      }
      ghost var t := chainstate.Model();
      ok := chainstate.ActivateBestChain();
      FailedActivationStays(chainstate.P, t);
    }
  }

  /** The batch gets as far as the accept loop. */
  ghost predicate LookedAt(P: Params, s: State, headers: seq<Header>)
    requires s.chain != [] && Tip(s) in s.index
  {
    headers != [] && WellFormedBatch(P, headers) && !LowWork(P, s, headers)
  }

  /** How accepting and activating a well-formed batch ends, and what it leaves. */
  ghost predicate BatchOutcome(P: Params, now: int, s: State, headers: seq<Header>, knownInvalid: set<Hash>, ok: bool,
                               t: State, pool: Pool)
    requires Inv(P, s) && headers != []
  {
    TakenKeepsInv(P, now, s, headers);
    var end, skip := AfterTaken(P, now, s, headers), P.hash(Last(headers)) in s.chain;
    var all := LoopEnds(P, now, s, headers, skip, knownInvalid);
    && ok == (all && Activate(P, end).ok) && t == (if all then Activate(P, end).state else end)
    && (all ==> pool.Keys == OrphansOf(P, end.index, headers, Taken(P, now, s, headers), |headers|))
  }

  /** Every header of the batch is indexed, pooled, or one the peer was blamed for before. */
  ghost predicate Accounted(P: Params, headers: seq<Header>, ix: Index, pool: Pool, knownInvalid: set<Hash>)
  {
    forall i {:trigger headers[i]} :: 0 <= i < |headers| ==>
      P.hash(headers[i]) in ix || P.hash(headers[i]) in pool || P.hash(headers[i]) in knownInvalid
  }

  lemma SuccessIsAccounted(P: Params, now: int, s: State, headers: seq<Header>, knownInvalid: set<Hash>, t: State,
                           pool: Pool)
    requires Inv(P, s) && headers != [] && BatchOutcome(P, now, s, headers, knownInvalid, true, t, pool)
    ensures Accounted(P, headers, t.index, pool, knownInvalid)
  {
    TakenKeepsInv(P, now, s, headers);
    FailedActivationStays(P, AfterTaken(P, now, s, headers));
    forall i {:trigger headers[i]} | 0 <= i < |headers|
      ensures P.hash(headers[i]) in t.index || P.hash(headers[i]) in pool || P.hash(headers[i]) in knownInvalid
    {
      NothingIsLost(P, now, s, headers, P.hash(Last(headers)) in s.chain, knownInvalid, i);
    }
  }

  lemma {:induction false} FailedActivationStays(P: Params, s: State)
    requires Inv(P, s)
    ensures Activate(P, s).state.index == s.index
    ensures !Activate(P, s).ok ==> Activate(P, s).state.chain == s.chain && Activate(P, s).events == []
  {
    ActivateShape(P, s);
  }

  lemma ActiveParent(P: Params, s: State)
    requires Inv(P, s)
    ensures Tip(s) in s.index
    ensures s.index[Tip(s)].prev == if |s.chain| > 1 then Some(RequestStart(s)) else None
  {
    if |s.chain| > 1 {
      ChainLink(P, s, |s.chain| - 1);
    } else {
      assert LinkedAt(s.index, Tip(s));
    }
  }

  /** With an empty pool, accepting and offering one header is one turn of the accept loop. */
  lemma OfferedExactly(P: Params, s: State, header: Header, now: int, added: seq<Header>, ix2: Index)
    requires Inv(P, s) && AcceptError(P, s.index, header, now, true).None?
    requires Adds(P, s.index, added, ix2, now) && |added| <= 1
    requires added == [] <==> P.hash(header) in s.index
    requires added != [] ==> added[0] == header
    requires P.hash(header) in ix2
    ensures Offering(P, now)(s, header)
            == Some(s.(index := ix2, cands := Selector.AfterTryAdd(ix2, s.cands, P.hash(header))))
  {
    AddsAtMostOne(P, s.index, added, ix2, now);
    if added == [] {
      OffersKnown(P, now, s, header);
    } else {
      OffersNew(P, now, s, header);
    }
  }

  /** AcceptBlockHeader and, if the header was accepted, TryAddBlockIndexCandidate. */
  method OfferHeader(cs: ChainstateManager, header: Header, now: int) returns (reason: Option<Reason>)
    requires cs.Valid()
    modifies cs`orphans, cs`peerOrphanCount, cs.blocks`index, cs.selector
    ensures cs.Valid() && Grows(old(cs.blocks.index), cs.blocks.index)
    ensures cs.Model().chain == old(cs.Model()).chain
    ensures reason == AcceptError(cs.P, old(cs.blocks.index), header, now, true)
    ensures reason.Some? ==> cs.Model() == old(cs.Model()) && cs.orphans == old(cs.orphans)
    ensures reason.None? && old(cs.orphans) == map[] ==>
              cs.orphans == map[] && Offering(cs.P, now)(old(cs.Model()), header) == Some(cs.Model())
  {
    ghost var s, pool := cs.Model(), cs.orphans;
    var r;
    ghost var added;
    r, reason, added := cs.AcceptBlockHeader(header, now, true);
    DrainedAllWaiting(pool, s.index, cs.blocks.index);
    if reason.Some? {
      NothingDrained(pool, s.index);
      return;
    }
    ghost var mid := cs.Model();
    cs.TryAddBlockIndexCandidate(r);
    if pool == map[] {
      OfferedExactly(cs.P, s, header, now, added, mid.index);
    }
  }

  lemma RejectedIsNotOffered(P: Params, now: int, s: State, header: Header)
    requires Linked(s.index)
    ensures Offering(P, now)(s, header).Some? <==> AcceptError(P, s.index, header, now, true).None?
  {
  }

  lemma MissingParent(P: Params, ix: Index, header: Header, now: int)
    requires Linked(ix) && AcceptError(P, ix, header, now, true) == Some(PrevBlkNotFound)
    ensures header.prev !in ix
  {
  }

  /** An accepted header takes the loop one step further. */
  lemma AcceptedTurn(P: Params, now: int, s: State, headers: seq<Header>, i: nat, t: State, t2: State, peer: int,
                     skip: bool, knownInvalid: set<Hash>, pool: Pool, pool2: Pool)
    requires i < |headers| && Inv(P, t) && AcceptError(P, t.index, headers[i], now, true).None?
    requires Progress(P, now, s, headers, i, t, pool, peer, skip, knownInvalid)
    requires pool == map[] ==> pool2 == map[] && Offering(P, now)(t, headers[i]) == Some(t2)
    ensures Progress(P, now, s, headers, i + 1, t2, pool2, peer, skip, knownInvalid)
  {
    if i < Taken(P, now, s, headers) {
      PrefixAccepted(P, now, s, headers, i, t);
    } else if SoundHash(P) && WellFormedBatch(P, headers) {
      StandsStill(P, now, s, headers, i, t, pool, peer, skip, knownInvalid);
      assert false;
    }
  }

  lemma TakenIsAccepted(P: Params, now: int, s: State, headers: seq<Header>, i: nat, t: State, peer: int, skip: bool,
                        knownInvalid: set<Hash>, pool: Pool)
    requires i < Taken(P, now, s, headers) && Linked(t.index)
    requires Progress(P, now, s, headers, i, t, pool, peer, skip, knownInvalid)
    ensures AcceptError(P, t.index, headers[i], now, true).None?
  {
    PrefixAccepted(P, now, s, headers, i, t);
    RejectedIsNotOffered(P, now, t, headers[i]);
  }

  /** The accept loop of HandleHeadersMessage. */
  method AcceptHeaders(cs: ChainstateManager, headers: seq<Header>, peer: int, now: int, skipDosChecks: bool,
                       knownInvalid: set<Hash>) returns (ok: bool)
    requires cs.Valid()
    modifies cs`orphans, cs`peerOrphanCount, cs.blocks`index, cs.selector
    ensures cs.Valid() && Grows(old(cs.blocks.index), cs.blocks.index)
    ensures cs.Model().chain == old(cs.Model()).chain
    ensures old(cs.orphans) == map[] && Fold(Offering(cs.P, now), old(cs.Model()), headers).Some? ==>
              ok && cs.orphans == map[] && Leads(Offering(cs.P, now), old(cs.Model()), headers, cs.Model())
    ensures old(cs.orphans) == map[] && SoundHash(cs.P) && WellFormedBatch(cs.P, headers) ==>
              LoopOutcome(cs.P, now, old(cs.Model()), headers, skipDosChecks, knownInvalid, ok, cs.Model(), cs.orphans)
  {
    ghost var s, pool := cs.Model(), cs.orphans;
    ProgressStarts(cs.P, now, s, headers, peer, skipDosChecks, knownInvalid);
    var i := 0;
    while i < |headers|
      invariant i <= |headers| && cs.Valid() && Grows(s.index, cs.blocks.index) && cs.Model().chain == s.chain
      invariant pool == map[] ==>
                  Progress(cs.P, now, s, headers, i, cs.Model(), cs.orphans, peer, skipDosChecks, knownInvalid)
    {
      var keep := AcceptOne(cs, headers, i, peer, now, skipDosChecks, knownInvalid, s, pool);
      if !keep {
        AllTaken(cs.P, now, s, headers);
        return false;
      }
      i := i + 1;
    }
    if pool == map[] {
      LoopDone(cs.P, now, s, headers, cs.Model(), cs.orphans, cs.peerOrphanCount, peer, skipDosChecks, knownInvalid);
    }
    ok := true;
  }

  lemma LoopDone(P: Params, now: int, s: State, headers: seq<Header>, t: State, pool: Pool, counts: map<int, int>,
                 peer: int, skip: bool, knownInvalid: set<Hash>)
    requires PoolOk(P.hash, pool, counts)
    requires Progress(P, now, s, headers, |headers|, t, pool, peer, skip, knownInvalid)
    ensures Fold(Offering(P, now), s, headers).Some? ==> pool == map[] && Leads(Offering(P, now), s, headers, t)
    ensures SoundHash(P) && WellFormedBatch(P, headers) ==>
              LoopOutcome(P, now, s, headers, skip, knownInvalid, true, t, pool)
  {
    AllTaken(P, now, s, headers);
    assert headers[..|headers|] == headers;
    if SoundHash(P) && WellFormedBatch(P, headers) {
      ProgressEnds(P, now, s, headers, t, pool, counts, peer, skip, knownInvalid);
    }
  }

  /** How the loop ends, and what it leaves. */
  ghost predicate LoopOutcome(P: Params, now: int, s: State, headers: seq<Header>, skip: bool, knownInvalid: set<Hash>,
                              ok: bool, t: State, pool: Pool)
  {
    && ok == LoopEnds(P, now, s, headers, skip, knownInvalid) && t == AfterTaken(P, now, s, headers)
    && (ok ==> pool.Keys == OrphansOf(P, t.index, headers, Taken(P, now, s, headers), |headers|))
  }

  /** One turn: false ends the loop and fails the message. */
  method AcceptOne(cs: ChainstateManager, headers: seq<Header>, i: nat, peer: int, now: int, skipDosChecks: bool,
                   knownInvalid: set<Hash>, ghost s: State, ghost pool: Pool) returns (keep: bool)
    requires cs.Valid() && i < |headers| && Grows(s.index, cs.blocks.index)
    requires pool == map[] ==>
               Progress(cs.P, now, s, headers, i, cs.Model(), cs.orphans, peer, skipDosChecks, knownInvalid)
    modifies cs`orphans, cs`peerOrphanCount, cs.blocks`index, cs.selector
    ensures cs.Valid() && Grows(s.index, cs.blocks.index) && cs.Model().chain == old(cs.Model()).chain
    ensures keep && pool == map[] ==>
              Progress(cs.P, now, s, headers, i + 1, cs.Model(), cs.orphans, peer, skipDosChecks, knownInvalid)
    ensures pool == map[] && i < Taken(cs.P, now, s, headers) ==> keep
    ensures !keep && pool == map[] && SoundHash(cs.P) && WellFormedBatch(cs.P, headers) ==>
              LoopOutcome(cs.P, now, s, headers, skipDosChecks, knownInvalid, false, cs.Model(), cs.orphans)
  {
    ghost var t, pool', mid := cs.Model(), cs.orphans, cs.blocks.index;
    var reason := OfferHeader(cs, headers[i], now);
    GrowsTransitive(s.index, mid, cs.blocks.index);
    if reason.None? {
      if pool == map[] {
        AcceptedTurn(cs.P, now, s, headers, i, t, cs.Model(), peer, skipDosChecks, knownInvalid, pool', cs.orphans);
      }
      return true;
    }
    ghost var counts := cs.peerOrphanCount;
    keep := Forgive(cs, headers[i], reason.value, peer, now, skipDosChecks, knownInvalid);
    if pool == map[] {
      if i < Taken(cs.P, now, s, headers) {
        TakenIsAccepted(cs.P, now, s, headers, i, t, peer, skipDosChecks, knownInvalid, pool');
      } else if SoundHash(cs.P) && WellFormedBatch(cs.P, headers) {
        RejectedTurn(cs.P, now, s, headers, i, t, pool', counts, peer, skipDosChecks, knownInvalid, keep, cs.orphans);
      }
    }
  }

  /** What the loop does about a rejected header. */
  ghost predicate Forgives(P: Params, pool: Pool, counts: map<int, int>, header: Header, reason: Reason, peer: int,
                           skip: bool, knownInvalid: set<Hash>, keep: bool, pool2: Pool)
  {
    var h := P.hash(header);
    if reason == PrevBlkNotFound then
      && keep == (h in pool || CountOf(counts, peer) < MAX_ORPHAN_HEADERS_PER_PEER)
      && (!keep || h in pool ==> pool2 == pool)
      && (keep && h !in pool && |pool| < MAX_ORPHAN_HEADERS ==>
            pool2.Keys == pool.Keys + {h} && (SentBy(pool, peer) ==> SentBy(pool2, peer)))
    else
      && keep == ((reason == Duplicate && skip) || (reason != TooLittleChainwork && h in knownInvalid))
      && pool2 == pool
  }

  lemma RejectedTurn(P: Params, now: int, s: State, headers: seq<Header>, i: nat, t: State, pool: Pool,
                     counts: map<int, int>, peer: int, skip: bool, knownInvalid: set<Hash>, keep: bool, pool2: Pool)
    requires Taken(P, now, s, headers) <= i < |headers| && Inv(P, t) && PoolOk(P.hash, pool, counts)
    requires SoundHash(P) && WellFormedBatch(P, headers)
    requires Progress(P, now, s, headers, i, t, pool, peer, skip, knownInvalid)
    requires AcceptError(P, t.index, headers[i], now, true).Some?
    requires Forgives(P, pool, counts, headers[i], AcceptError(P, t.index, headers[i], now, true).value, peer, skip,
                      knownInvalid, keep, pool2)
    ensures keep ==> Progress(P, now, s, headers, i + 1, t, pool2, peer, skip, knownInvalid)
    ensures !keep ==> LoopOutcome(P, now, s, headers, skip, knownInvalid, false, t, pool2)
  {
    StandsStill(P, now, s, headers, i, t, pool, peer, skip, knownInvalid);
    RejectedMeans(P, t.index, headers[i], now);
    RestTurn(P, t.index, headers, Taken(P, now, s, headers), i, pool, counts, peer, skip, knownInvalid,
             AcceptError(P, t.index, headers[i], now, true).value, keep, pool2);
  }

  lemma RestTurn(P: Params, ix: Index, headers: seq<Header>, k: nat, i: nat, pool: Pool, counts: map<int, int>,
                 peer: int, skip: bool, knownInvalid: set<Hash>, reason: Reason, keep: bool, pool2: Pool)
    requires k <= i < |headers| && PoolOk(P.hash, pool, counts)
    requires Passed(P, ix, headers, k, i, pool, peer, skip, knownInvalid)
    requires reason == PrevBlkNotFound <==> IsOrphan(P, ix, headers[i])
    requires reason == Duplicate <==> P.hash(headers[i]) in ix
    requires reason != TooLittleChainwork
    requires Forgives(P, pool, counts, headers[i], reason, peer, skip, knownInvalid, keep, pool2)
    ensures keep ==> Passed(P, ix, headers, k, i + 1, pool2, peer, skip, knownInvalid)
    ensures !keep ==> !RestPasses(P, ix, headers, k, skip, knownInvalid)
  {
    CountIsSize(P.hash, pool, counts, peer);
    assert |pool| == |pool.Keys| && CountOf(counts, peer) <= MAX_ORPHAN_HEADERS_PER_PEER;
    if keep {
      PassesOneMore(P, ix, headers, k, i, pool, peer, skip, knownInvalid, pool2);
    } else {
      PassesNoMore(P, ix, headers, k, i, pool, peer, skip, knownInvalid);
    }
  }

  /**
   A rejected header does not end the batch when it becomes an orphan, or its rejection is not held against
   the peer. A duplicate is rejected only when the known block is failed, so the source's branch for
   duplicates of valid blocks is never taken.
   */
  method Forgive(cs: ChainstateManager, header: Header, reason: Reason, peer: int, now: int, skipDosChecks: bool,
                 knownInvalid: set<Hash>) returns (keep: bool)
    requires cs.Valid() && AcceptError(cs.P, cs.blocks.index, header, now, true) == Some(reason)
    modifies cs`orphans, cs`peerOrphanCount
    ensures cs.Valid()
    ensures Forgives(cs.P, old(cs.orphans), old(cs.peerOrphanCount), header, reason, peer, skipDosChecks, knownInvalid,
                     keep, cs.orphans)
  {
    match reason
    case PrevBlkNotFound =>
      MissingParent(cs.P, cs.blocks.index, header, now);
      ghost var room;
      keep, room := cs.AddOrphanHeader(header, peer, now);
    case Duplicate =>
      keep := skipDosChecks || cs.P.hash(header) in knownInvalid;
    case TooLittleChainwork =>
      keep := false;
    case _ =>
      keep := cs.P.hash(header) in knownInvalid;
  }
}
