/**
 The GETHEADERS/HEADERS exchange (src/network/header_sync_manager.cpp) as functions of two
 nodes' states, and the theorem about repeating it against a static honest peer.
 */
module HeaderSync {
  import opened Types
  import opened Bits
  import opened BlockTree
  import opened CandidateTips
  import opened Consensus
  import opened ConsensusState
  import opened ChainRuns
  import opened RunTheorems
  import opened SharedTrees
  import opened Steps
  import opened HeaderServe
  import opened Protocol
  import Compact

  // ---------- one message ----------

  ghost function OfferKnown(s: State, h: Hash): State
    requires h in s.index
  {
    s.(cands := AfterTryAdd(s.index, s.cands, h))
  }

  /**
   One turn of the accept loop: AcceptBlockHeader, then TryAddBlockIndexCandidate; None when the header is
   rejected.
   */
  ghost function Offering(P: Params, now: int): (State, Header) -> Option<State>
  {
    (s: State, header: Header) =>
      if !Linked(s.index) || AcceptError(P, s.index, header, now, true).Some? then None
      else if P.hash(header) in s.index then Some(OfferKnown(s, P.hash(header)))
      else Some(AcceptedAndOffered(P, s, header))
  }

  lemma OffersKnown(P: Params, now: int, s: State, header: Header)
    requires Linked(s.index) && P.hash(header) in s.index && !IsFailed(s.index, P.hash(header))
    ensures Offering(P, now)(s, header) == Some(OfferKnown(s, P.hash(header)))
  {
    assert AcceptError(P, s.index, header, now, true) == None;
  }

  lemma OffersNew(P: Params, now: int, s: State, header: Header)
    requires Linked(s.index) && Acceptable(P, s.index, header, now)
    ensures header.prev in s.index && Offering(P, now)(s, header) == Some(AcceptedAndOffered(P, s, header))
  {
  }

  lemma OfferingIs(P: Params, now: int, s: State, header: Header, t: State)
    requires Linked(s.index) && Offering(P, now)(s, header) == Some(t)
    ensures P.hash(header) in s.index ==> t == OfferKnown(s, P.hash(header))
    ensures P.hash(header) !in s.index ==>
              Acceptable(P, s.index, header, now) && header.prev in s.index && t == AcceptedAndOffered(P, s, header)
  {
    assert AcceptError(P, s.index, header, now, true) == None;
  }

  /** The batch passes the checks made before any header is looked at in context. */
  ghost predicate WellFormedBatch(P: Params, headers: seq<Header>)
  {
    && |headers| <= MAX_HEADERS_SIZE && Continuous(P, headers)
    && forall i {:trigger headers[i]} :: 0 <= i < |headers| ==> P.commitmentOk(headers[i])
  }

  /** The anti-DoS rule: the batch is not already active, and ends with too little work. */
  ghost predicate LowWork(P: Params, s: State, headers: seq<Header>)
    requires headers != [] && s.chain != [] && Tip(s) in s.index
  {
    && !Active(s.index, s.chain, P.hash(Last(headers)))
    && headers[0].prev in s.index
    && s.index[headers[0].prev].chainWork + SumWork(headers) < AntiDoSWorkThreshold(P, s.index, Some(Tip(s)))
  }

  lemma ActiveIsOnChain(P: Params, s: State, h: Hash)
    requires Inv(P, s)
    ensures Active(s.index, s.chain, h) <==> h in s.chain
  {
    if h in s.chain {
      var k :| 0 <= k < |s.chain| && s.chain[k] == h;
      assert AncestorAt(s.index, Tip(s), k) == h;
    }
  }

  /**
   The anti-DoS rule in numbers: a batch is ignored if and only if its last header is not on the active
   chain, its start is known, and it ends below the configured minimum or by more than the buffer below the tip.
   */
  lemma LowWorkExactly(P: Params, s: State, headers: seq<Header>)
    requires Inv(P, s) && headers != []
    ensures var buffer := Compact.BlockProof(s.index[Tip(s)].header.bits) * P.antiDosWorkBufferBlocks % TWO_256;
            LowWork(P, s, headers)
            <==> && P.hash(Last(headers)) !in s.chain && headers[0].prev in s.index
                 && var end := s.index[headers[0].prev].chainWork + SumWork(headers);
                    end < P.minimumChainWork || end + buffer < s.index[Tip(s)].chainWork
  {
    ActiveIsOnChain(P, s, P.hash(Last(headers)));
  }

  /** A HEADERS message from the sync peer; None when some header is rejected. */
  ghost function HandleBatch(P: Params, s: State, headers: seq<Header>, now: int): Option<Turn<State>>
    requires Inv(P, s)
  {
    if headers == [] then Some(Turn(s, true, false))
    else if !WellFormedBatch(P, headers) then Some(Turn(s, false, false))
    else if LowWork(P, s, headers) then Some(Turn(s, true, |headers| == MAX_HEADERS_SIZE))
    else
      match Fold(Offering(P, now), s, headers)
      case None => None
      case Some(t) => if Inv(P, t) then Some(Activated(P, t, |headers|)) else None
  }

  ghost function Activated(P: Params, t: State, size: nat): Turn<State>
    requires Inv(P, t)
  {
    var o := Activate(P, t);
    Turn(o.state, o.ok, o.ok && size == MAX_HEADERS_SIZE)
  }

  lemma AcceptedBatch(P: Params, s: State, headers: seq<Header>, now: int, t: State)
    requires Inv(P, s) && headers != [] && WellFormedBatch(P, headers) && !LowWork(P, s, headers)
    requires Leads(Offering(P, now), s, headers, t) && Inv(P, t)
    ensures HandleBatch(P, s, headers, now) == Some(Activated(P, t, |headers|))
  {
  }

  // ---------- what the accept loop keeps ----------

  lemma OfferingKeepsCover(P: Params, s: State, header: Header, now: int, t: State)
    requires Inv(P, s) && Cover(s) && Offering(P, now)(s, header) == Some(t)
    ensures Inv(P, t) && Cover(t)
  {
    OfferingIs(P, now, s, header, t);
    if P.hash(header) in s.index {
      TryAddKeepsCover(P, s, P.hash(header));
    } else {
      AcceptThenTryAddKeepsCover(P, s, header, now);
    }
  }

  lemma {:induction false} BatchKeepsCover(P: Params, s: State, headers: seq<Header>, now: int, t: State)
    requires Inv(P, s) && Cover(s) && Leads(Offering(P, now), s, headers, t)
    ensures Inv(P, t) && Cover(t)
    decreases |headers|
  {
    if headers != [] {
      LeadsFirst(Offering(P, now), s, headers, t);
      var mid := Offering(P, now)(s, headers[0]).value;
      OfferingKeepsCover(P, s, headers[0], now, mid);
      BatchKeepsCover(P, mid, headers[1..], now, t);
    }
  }

  /** Handling a whole message with one activation at its end keeps the best-chain property. */
  lemma {:induction false} BatchKeepsBest(P: Params, s: State, headers: seq<Header>, now: int)
    requires Inv(P, s) && Best(s) && P.suspiciousReorgDepth <= 0 && P.expirationInterval <= 0
    requires HandleBatch(P, s, headers, now).Some?
    ensures var t := HandleBatch(P, s, headers, now).value.state; Inv(P, t) && Best(t)
  {
    if headers != [] && WellFormedBatch(P, headers) && !LowWork(P, s, headers) {
      var t := Fold(Offering(P, now), s, headers).value;
      BestIsCover(s);
      BatchKeepsCover(P, s, headers, now, t);
      ActivateBest(P, t);
    }
  }

  // ---------- following a peer's chain ----------

  ghost predicate WorkBelow(ix: Index, c: Hash, strict: bool)
    requires c in ix
  {
    forall b {:trigger ix[b].chainWork} :: b in ix && !IsFailed(ix, b) && (strict ==> b != c) ==>
      if strict then ix[b].chainWork < ix[c].chainWork else ix[b].chainWork <= ix[c].chainWork
  }

  ghost predicate Unexpired(P: Params, ix: Index)
  {
    forall b {:trigger ix[b].height} :: b in ix ==> !Expired(P, ix[b].height)
  }

  /** The blocks of the peer's chain that the index holds are exactly those up to height k, none of them failed. */
  ghost predicate HoldsUpTo(ix: Index, chain: seq<Hash>, k: nat)
  {
    && k < |chain|
    && (forall j {:trigger chain[j]} :: 0 <= j <= k ==> chain[j] in ix && !IsFailed(ix, chain[j]))
    && (forall j {:trigger chain[j]} :: k < j < |chain| ==> chain[j] !in ix)
  }

  /**
   The node has indexed the peer's chain up to height k, its own chain is a prefix of it, and
   nothing it knows has more work than the block at k, which is a candidate if it is not active yet.
   */
  ghost predicate Following(P: Params, s: State, chain: seq<Hash>, k: nat)
  {
    && Inv(P, s) && Unexpired(P, s.index) && HoldsUpTo(s.index, chain, k)
    && |s.chain| <= k + 1 && s.chain == chain[..|s.chain|]
    && WorkBelow(s.index, chain[k], k >= |s.chain|)
    && (k >= |s.chain| ==> chain[k] in s.cands)
  }

  /**
   A static honest peer, as far as this node can tell: the peer's blocks pass the clock and the proof-of-work
   checks.
   */
  ghost predicate Honest(P: Params, q: State, now: int)
  {
    && Inv(P, q) && Injective(P.hash) && 1 <= P.powLimit < TWO_256 && !Expired(P, |q.chain| - 1)
    && forall j {:trigger q.chain[j]} :: 0 < j < |q.chain| ==>
         q.chain[j] in q.index && Timely(P, q.index[q.chain[j]].header, now)
  }

  /** Work strictly increases along the active chain. */
  lemma {:induction false} ChainWorkIncreases(P: Params, q: State, i: nat, j: nat)
    requires Inv(P, q) && 1 <= P.powLimit < TWO_256 && i <= j < |q.chain|
    ensures q.chain[i] in q.index && q.chain[j] in q.index
    ensures q.index[q.chain[i]].chainWork + (j - i) <= q.index[q.chain[j]].chainWork
    decreases j
  {
    if i < j {
      ChainWorkIncreases(P, q, i, j - 1);
      ChainLink(P, q, j);
      WorkStrictlyIncreases(P, q.index, q.chain[j]);
    }
  }

  /** The first known header of a reply, which is our own tip. */
  lemma KnownKeepsFollowing(P: Params, s: State, chain: seq<Hash>, k: nat)
    requires Following(P, s, chain, k) && k + 1 == |s.chain|
    ensures Following(P, OfferKnown(s, chain[k]), chain, k)
  {
    AfterTryAddIndexed(s, chain[k]);
  }

  lemma AfterTryAddIndexed(s: State, h: Hash)
    requires h in s.index && s.cands <= s.index.Keys
    ensures OfferKnown(s, h).cands <= s.index.Keys
  {
  }

  /** The next header of the peer's chain is accepted, offered, and followed. */
  lemma {:induction false} NewKeepsFollowing(P: Params, s: State, q: State, k: nat, now: int)
    requires Honest(P, q, now) && Following(P, s, q.chain, k) && k + 1 < |q.chain|
    ensures q.chain[k + 1] in q.index
    ensures var header := q.index[q.chain[k + 1]].header;
            && Acceptable(P, s.index, header, now) && header.prev in s.index
            && Following(P, AcceptedAndOffered(P, s, header), q.chain, k + 1)
            && AcceptedAndOffered(P, s, header).chain == s.chain
  {
    var y := q.chain[k + 1];
    ChainLink(P, q, k + 1);
    var header := q.index[y].header;
    AcceptableElsewhere(P, s.index, q.index, y, now);
    assert header.prev == q.chain[k];
    AddKeepsInv(P, s, header, now);
    NewBlockIsLeaf(P, s.index, header);
    OfferedCandidates(P, s, header);
    var s1 := AddBlock(P, s, header);
    WorkStrictlyIncreases(P, s1.index, y);
    SharedBlocksAgree(P, s1.index, q.index, y);
    GrownFollowing(P, s, q, k, header);
  }

  lemma GrownFollowing(P: Params, s: State, q: State, k: nat, header: Header)
    requires Inv(P, q) && Following(P, s, q.chain, k) && k + 1 < |q.chain| && !Expired(P, |q.chain| - 1)
    requires header.prev == q.chain[k] && P.hash(header) == q.chain[k + 1] && header.prev in s.index
    requires Inv(P, AddBlock(P, s, header))
    requires NewRecord(s.index, header).height == k + 1
    requires NewRecord(s.index, header).chainWork > s.index[q.chain[k]].chainWork
    requires AcceptedAndOffered(P, s, header).cands == (s.cands - {header.prev}) + {P.hash(header)}
    ensures Following(P, AcceptedAndOffered(P, s, header), q.chain, k + 1)
  {
    var t := AcceptedAndOffered(P, s, header);
    ChainIsIndexed(P, q);
    assert q.chain[k + 1] !in s.index;
    HoldsOneMore(s.index, t.index, q, k);
    WorkBelowNew(s.index, t.index, q.chain[k], q.chain[k + 1], k >= |s.chain|);
  }

  lemma HoldsOneMore(ix: Index, ix2: Index, q: State, k: nat)
    requires ChainIndexed(q.index, q.chain) && HoldsUpTo(ix, q.chain, k) && k + 1 < |q.chain|
    requires q.chain[k + 1] in ix2 && ix2 == ix[q.chain[k + 1] := ix2[q.chain[k + 1]]]
    requires !IsFailed(ix2, q.chain[k + 1])
    ensures HoldsUpTo(ix2, q.chain, k + 1)
  {
    assert q.chain[k + 1] in q.index;
    forall j | k + 1 < j < |q.chain| ensures q.chain[j] !in ix2 {
      assert q.chain[j] in q.index && q.chain[j] !in ix;
    }
  }

  lemma WorkBelowNew(ix: Index, ix2: Index, a: Hash, b: Hash, strict: bool)
    requires a in ix && WorkBelow(ix, a, strict) && b !in ix && b in ix2 && ix2 == ix[b := ix2[b]]
    requires ix2[b].chainWork > ix[a].chainWork
    ensures WorkBelow(ix2, b, true)
  {
    forall c | c in ix2 && !IsFailed(ix2, c) && c != b ensures ix2[c].chainWork < ix2[b].chainWork {
      assert ix2[c] == ix[c];
      assert c == a || ix[c].chainWork <= ix[a].chainWork;
    }
  }

  lemma OneMoreLeads(P: Params, s: State, mid: State, q: State, k: nat, end: nat, now: int) returns (t: State)
    requires Honest(P, q, now) && ChainIndexed(q.index, q.chain) && k + 1 < end <= |q.chain|
    requires Leads(Offering(P, now), s, HeadersOf(q.index, q.chain, k + 1, end - 1), mid)
    requires Following(P, mid, q.chain, end - 2)
    ensures Leads(Offering(P, now), s, HeadersOf(q.index, q.chain, k + 1, end), t)
    ensures Following(P, t, q.chain, end - 1) && t.chain == mid.chain
  {
    var header := q.index[q.chain[end - 1]].header;
    NewKeepsFollowing(P, mid, q, end - 2, now);
    t := AcceptedAndOffered(P, mid, header);
    OffersNew(P, now, mid, header);
    LeadsOne(Offering(P, now), mid, header, t);
    LeadsAppend(Offering(P, now), s, HeadersOf(q.index, q.chain, k + 1, end - 1), mid, [header], t);
  }

  /** The accept loop takes every header of the peer's chain above height k. */
  lemma {:induction false} NewRunLeads(P: Params, s: State, q: State, k: nat, end: nat, now: int) returns (t: State)
    requires Honest(P, q, now) && ChainIndexed(q.index, q.chain) && k < end <= |q.chain|
    requires Following(P, s, q.chain, k)
    ensures Leads(Offering(P, now), s, HeadersOf(q.index, q.chain, k + 1, end), t)
    ensures Following(P, t, q.chain, end - 1) && t.chain == s.chain
    decreases end
  {
    if end == k + 1 {
      t := s;
    } else {
      var mid := NewRunLeads(P, s, q, k, end - 1, now);
      t := OneMoreLeads(P, s, mid, q, k, end, now);
    }
  }

  /** A reply may start with our own tip. */
  lemma {:induction false} RunLeads(P: Params, s: State, q: State, from: nat, end: nat, now: int) returns (t: State)
    requires Honest(P, q, now) && ChainIndexed(q.index, q.chain) && s.chain != [] && 0 < from < end <= |q.chain|
    requires from == |s.chain| || from == |s.chain| - 1
    requires Following(P, s, q.chain, |s.chain| - 1)
    ensures Leads(Offering(P, now), s, HeadersOf(q.index, q.chain, from, end), t)
    ensures Following(P, t, q.chain, end - 1) && t.chain == s.chain
  {
    var k := |s.chain| - 1;
    if from == k {
      var mid := OfferKnown(s, q.chain[k]);
      TipLeads(P, s, q, now);
      t := NewRunLeads(P, mid, q, k, end, now);
      LeadsAppend(Offering(P, now), s, [q.index[q.chain[k]].header], mid, HeadersOf(q.index, q.chain, k + 1, end), t);
      FirstHeader(q.index, q.chain, k, end);
    } else {
      t := NewRunLeads(P, s, q, k, end, now);
    }
  }

  lemma TipLeads(P: Params, s: State, q: State, now: int)
    requires Inv(P, q) && |s.chain| > 1 && Following(P, s, q.chain, |s.chain| - 1)
    ensures var k := |s.chain| - 1; var mid := OfferKnown(s, q.chain[k]);
            && q.chain[k] in q.index && Following(P, mid, q.chain, k) && mid.chain == s.chain
            && Leads(Offering(P, now), s, [q.index[q.chain[k]].header], mid)
  {
    var k := |s.chain| - 1;
    ChainLink(P, q, k);
    KnownKeepsFollowing(P, s, q.chain, k);
    OffersKnown(P, now, s, q.index[q.chain[k]].header);
    LeadsOne(Offering(P, now), s, q.index[q.chain[k]].header, OfferKnown(s, q.chain[k]));
  }

  lemma {:induction false} FirstHeader(ix: Index, chain: seq<Hash>, from: nat, end: nat)
    requires ChainIndexed(ix, chain) && from < end <= |chain|
    ensures HeadersOf(ix, chain, from, end) == [ix[chain[from]].header] + HeadersOf(ix, chain, from + 1, end)
    decreases end
  {
    if from + 1 < end {
      FirstHeader(ix, chain, from, end - 1);
    }
  }

  // ---------- activation ----------

  /** A chain that extends ours is no reorganisation. */
  lemma ExtensionIsNoReorg(P: Params, s: State, chain: seq<Hash>, c: Hash)
    requires Linked(s.index) && c in s.index && Path(s.index, c) == chain && |s.chain| <= |chain|
    requires s.chain == chain[..|s.chain|]
    ensures !Refused(P, s, c)
  {
    assert s.chain[..|s.chain|] == s.chain;
    PrefixIsCommon(s.chain, chain, |s.chain|);
  }

  lemma HighestIsBest(ix: Index, S: set<Hash>, c: Hash)
    requires S <= ix.Keys && c in S && Viable(ix, c) && WorkBelow(ix, c, true)
    ensures BestViable(ix, S) == Some(c)
  {
    forall d | d in S && d != c && Viable(ix, d) ensures Better(ix, c, d) {
      assert ix[d].chainWork < ix[c].chainWork;
    }
    BestViableUnique(ix, S, Some(c), BestViable(ix, S));
  }

  /** What ActivateBestChain does when one acceptable candidate outdoes everything else. */
  lemma ActivatesHighest(P: Params, s: State, c: Hash)
    requires Linked(s.index) && s.chain != [] && Tip(s) in s.index && s.cands <= s.index.Keys
    requires BestViable(s.index, s.cands) == Some(c) && c != Tip(s) && !Expired(P, s.index[c].height)
    requires s.index[c].chainWork > s.index[Tip(s)].chainWork && !Refused(P, s, c)
    ensures Activate(P, s).state.chain == Path(s.index, c) && Activate(P, s).ok
  {
  }

  lemma NothingToActivate(P: Params, s: State)
    requires Linked(s.index) && s.chain != [] && Tip(s) in s.index && s.cands <= s.index.Keys
    requires WorkBelow(s.index, Tip(s), false) && Unexpired(P, s.index)
    ensures Activate(P, s).state.chain == s.chain && Activate(P, s).ok
  {
    match BestViable(s.index, s.cands)
    case None =>
    case Some(c) => assert s.index[c].chainWork <= s.index[Tip(s)].chainWork && !Expired(P, s.index[c].height);
  }

  lemma PeerPath(P: Params, s: State, q: State, k: nat)
    requires Inv(P, q) && Injective(P.hash) && Inv(P, s) && k < |q.chain| && q.chain[k] in s.index
    ensures Path(s.index, q.chain[k]) == q.chain[..k + 1]
  {
    SharedPaths(P, s.index, q.index, q.chain[k]);
    PathOfAncestor(q.index, Tip(q), k);
  }

  /** Activation moves to the block at height k. */
  lemma {:induction false} ActivateFollows(P: Params, s: State, q: State, k: nat)
    requires Inv(P, q) && Injective(P.hash) && Following(P, s, q.chain, k)
    ensures var o := Activate(P, s);
            o.ok && o.state.chain == q.chain[..k + 1] && Following(P, o.state, q.chain, k)
  {
    ActivateKeepsInv(P, s);
    ActivateShape(P, s);
    PeerPath(P, s, q, k);
    if k >= |s.chain| {
      ActivateMoves(P, s, q, k);
      Relax(s.index, q.chain[k]);
    } else {
      NothingToActivate(P, s);
    }
    FollowingAfter(P, s, Activate(P, s).state, q.chain, k);
  }

  lemma FollowingAfter(P: Params, s: State, t: State, chain: seq<Hash>, k: nat)
    requires Following(P, s, chain, k) && Inv(P, t) && t.index == s.index && t.chain == chain[..k + 1]
    requires WorkBelow(s.index, chain[k], false)
    ensures Following(P, t, chain, k)
  {
  }

  lemma ActivateMoves(P: Params, s: State, q: State, k: nat)
    requires Inv(P, q) && Following(P, s, q.chain, k) && k >= |s.chain| && Path(s.index, q.chain[k]) == q.chain[..k + 1]
    ensures Activate(P, s).ok && Activate(P, s).state.chain == q.chain[..k + 1]
  {
    var c := q.chain[k];
    ViableIsNotFailed(P, s, c);
    HighestIsBest(s.index, s.cands, c);
    ExtensionIsNoReorg(P, s, q.chain[..k + 1], c);
    TipIsAnother(P, s, q, k);
    ActivatesHighest(P, s, c);
  }

  lemma Relax(ix: Index, c: Hash)
    requires c in ix && WorkBelow(ix, c, true)
    ensures WorkBelow(ix, c, false)
  {
    forall b | b in ix && !IsFailed(ix, b) ensures ix[b].chainWork <= ix[c].chainWork {
      assert b == c || ix[b].chainWork < ix[c].chainWork;
    }
  }

  lemma TipIsAnother(P: Params, s: State, q: State, k: nat)
    requires Inv(P, q) && Following(P, s, q.chain, k) && k >= |s.chain|
    ensures Tip(s) != q.chain[k] && !IsFailed(s.index, Tip(s))
    ensures s.index[q.chain[k]].chainWork > s.index[Tip(s)].chainWork
  {
    ChainIsIndexed(P, q);
    assert Tip(s) == q.chain[|s.chain| - 1];
    assert q.chain[|s.chain| - 1] in q.index && q.chain[k] in q.index;
  }
}
