/**
 The outcome of a HEADERS batch against an empty orphan pool (src/network/header_sync_manager.cpp:405-513),
 as values: how much of it is accepted, and which of the rest a peer may send.
 */
module Batches {
  import opened Types
  import opened BlockTree
  import opened Consensus
  import opened ConsensusState
  import opened RunTheorems
  import opened OrphanPool
  import opened Steps
  import opened HeaderSync

  /** No two headers share a hash, and none has the null hash. */
  ghost predicate SoundHash(P: Params)
  {
    Injective(P.hash) && forall x: Header {:trigger P.hash(x)} :: P.hash(x) != NULL_HASH
  }

  // ---------- the accepted prefix ----------

  /** How many headers of the batch are accepted before the first one that is rejected. */
  ghost function Taken(P: Params, now: int, s: State, headers: seq<Header>): (k: nat)
    ensures k <= |headers|
    decreases |headers|
  {
    if headers == [] || Offering(P, now)(s, headers[0]).None? then 0
    else 1 + Taken(P, now, Offering(P, now)(s, headers[0]).value, headers[1..])
  }

  ghost function AfterTaken(P: Params, now: int, s: State, headers: seq<Header>): State
    decreases |headers|
  {
    if headers == [] || Offering(P, now)(s, headers[0]).None? then s
    else AfterTaken(P, now, Offering(P, now)(s, headers[0]).value, headers[1..])
  }

  lemma {:induction false} TakenLeads(P: Params, now: int, s: State, headers: seq<Header>)
    ensures var k := Taken(P, now, s, headers);
            && Leads(Offering(P, now), s, headers[..k], AfterTaken(P, now, s, headers))
            && (k < |headers| ==> Offering(P, now)(AfterTaken(P, now, s, headers), headers[k]).None?)
    decreases |headers|
  {
    var k := Taken(P, now, s, headers);
    if k > 0 {
      TakenLeads(P, now, Offering(P, now)(s, headers[0]).value, headers[1..]);
      assert headers[..k][1..] == headers[1..][..k - 1];
    }
  }

  /** The whole batch is taken exactly when the accept loop never rejects. */
  lemma {:induction false} AllTaken(P: Params, now: int, s: State, headers: seq<Header>)
    ensures Fold(Offering(P, now), s, headers)
            == if Taken(P, now, s, headers) == |headers| then Some(AfterTaken(P, now, s, headers)) else None
    decreases |headers|
  {
    if headers != [] && Offering(P, now)(s, headers[0]).Some? {
      AllTaken(P, now, Offering(P, now)(s, headers[0]).value, headers[1..]);
    }
  }

  // ---------- after the first rejection ----------

  /** On a sound index, a header on top of a rejected one is rejected too. */
  lemma RejectedNext(P: Params, ix: Index, a: Header, b: Header, now: int)
    requires IndexOk(P, ix) && SoundHash(P) && b.prev == P.hash(a)
    requires AcceptError(P, ix, a, now, true).Some?
    ensures AcceptError(P, ix, b, now, true).Some?
  {
    var h := P.hash(b);
    if h in ix {
      assert BuiltAt(P.hash, ix, h) && LinkedAt(ix, h) && ClosedAt(ix, h);
    } else if AcceptError(P, ix, b, now, true).None? {
      AcceptableMeans(P, ix, b, now);
    }
  }

  /** Once a header of a continuous batch is rejected, all that follow it are. */
  lemma {:induction false} RestIsRejected(P: Params, ix: Index, headers: seq<Header>, k: nat, i: nat, now: int)
    requires IndexOk(P, ix) && SoundHash(P) && Continuous(P, headers) && k <= i < |headers|
    requires AcceptError(P, ix, headers[k], now, true).Some?
    ensures AcceptError(P, ix, headers[i], now, true).Some?
    decreases i
  {
    if k < i {
      RestIsRejected(P, ix, headers, k, i - 1, now);
      RejectedNext(P, ix, headers[i - 1], headers[i], now);
    }
  }

  /** A new header whose parent is missing. */
  predicate IsOrphan(P: Params, ix: Index, header: Header)
  {
    P.hash(header) !in ix && header.prev != NULL_HASH && header.prev !in ix
  }

  /**
   A rejected header that does not end the batch: an orphan, a known block when the batch ends on the
   active chain, or one this peer was already blamed for.
   */
  predicate Tolerated(P: Params, ix: Index, header: Header, skip: bool, knownInvalid: set<Hash>)
  {
    || IsOrphan(P, ix, header)
    || (skip && P.hash(header) in ix)
    || P.hash(header) in knownInvalid
  }

  /** The orphans among the headers from k up to i. */
  ghost function OrphansOf(P: Params, ix: Index, headers: seq<Header>, k: nat, i: nat): set<Hash>
    requires k <= i <= |headers|
  {
    set j | k <= j < i && IsOrphan(P, ix, headers[j]) :: P.hash(headers[j])
  }

  ghost predicate AllTolerated(P: Params, ix: Index, headers: seq<Header>, k: nat, i: nat, skip: bool,
                               knownInvalid: set<Hash>)
    requires i <= |headers|
  {
    forall j {:trigger headers[j]} :: k <= j < i ==> Tolerated(P, ix, headers[j], skip, knownInvalid)
  }

  /** The accept loop runs to its end: nothing rejected is held against the peer, and the orphans fit. */
  ghost predicate LoopEnds(P: Params, now: int, s: State, headers: seq<Header>, skip: bool, knownInvalid: set<Hash>)
  {
    RestPasses(P, AfterTaken(P, now, s, headers).index, headers, Taken(P, now, s, headers), skip, knownInvalid)
  }

  ghost predicate RestPasses(P: Params, ix: Index, headers: seq<Header>, k: nat, skip: bool, knownInvalid: set<Hash>)
    requires k <= |headers|
  {
    && AllTolerated(P, ix, headers, k, |headers|, skip, knownInvalid)
    && |OrphansOf(P, ix, headers, k, |headers|)| <= MAX_ORPHAN_HEADERS_PER_PEER
  }

  lemma OrphansOneMore(P: Params, ix: Index, headers: seq<Header>, k: nat, i: nat)
    requires k <= i < |headers|
    ensures OrphansOf(P, ix, headers, k, i + 1)
            == OrphansOf(P, ix, headers, k, i) + (if IsOrphan(P, ix, headers[i]) then {P.hash(headers[i])} else {})
  {
  }

  lemma OrphansGrow(P: Params, ix: Index, headers: seq<Header>, k: nat, i: nat, n: nat)
    requires k <= i <= n <= |headers|
    ensures |OrphansOf(P, ix, headers, k, i)| <= |OrphansOf(P, ix, headers, k, n)|
  {
    SubsetSize(OrphansOf(P, ix, headers, k, i), OrphansOf(P, ix, headers, k, n));
  }

  // ---------- one turn of the loop ----------

  /**
   Where the loop stands after i headers, when nothing was pooled before: up to k everything is accepted;
   after that the state no longer changes, and exactly the orphans are pooled.
   */
  ghost predicate Progress(P: Params, now: int, s: State, headers: seq<Header>, i: nat, t: State, pool: Pool,
                           peer: int, skip: bool, knownInvalid: set<Hash>)
    requires i <= |headers|
  {
    var k, end := Taken(P, now, s, headers), AfterTaken(P, now, s, headers);
    if i <= k then pool == map[] && Leads(Offering(P, now), s, headers[..i], t)
    else
      SoundHash(P) && WellFormedBatch(P, headers) ==>
        t == end && Passed(P, end.index, headers, k, i, pool, peer, skip, knownInvalid)
  }

  ghost predicate SentBy(pool: Pool, peer: int)
  {
    forall h {:trigger pool[h]} :: h in pool ==> pool[h].peer == peer
  }

  lemma ProgressStarts(P: Params, now: int, s: State, headers: seq<Header>, peer: int, skip: bool,
                       knownInvalid: set<Hash>)
    ensures Progress(P, now, s, headers, 0, s, map[], peer, skip, knownInvalid)
  {
  }

  lemma SameState(P: Params, now: int, s: State, headers: seq<Header>, t: State)
    requires Leads(Offering(P, now), s, headers[..Taken(P, now, s, headers)], t)
    ensures t == AfterTaken(P, now, s, headers)
  {
    TakenLeads(P, now, s, headers);
  }

  /** A header of the prefix is accepted. */
  lemma PrefixAccepted(P: Params, now: int, s: State, headers: seq<Header>, i: nat, t: State)
    requires i < Taken(P, now, s, headers) && Leads(Offering(P, now), s, headers[..i], t)
    ensures Offering(P, now)(t, headers[i]).Some?
    ensures Leads(Offering(P, now), s, headers[..i + 1], Offering(P, now)(t, headers[i]).value)
  {
    var k, end := Taken(P, now, s, headers), AfterTaken(P, now, s, headers);
    TakenLeads(P, now, s, headers);
    var mid := LeadsPrefix(Offering(P, now), s, headers[..k], end, i);
    assert headers[..k][..i] == headers[..i] && headers[..k][i..][0] == headers[i];
    LeadsFirst(Offering(P, now), mid, headers[..k][i..], end);
    var next := Offering(P, now)(t, headers[i]).value;
    LeadsOne(Offering(P, now), t, headers[i], next);
    LeadsAppend(Offering(P, now), s, headers[..i], t, [headers[i]], next);
    assert headers[..i + 1] == headers[..i] + [headers[i]];
  }

  /** From header k on, the state stands still and every header is rejected. */
  lemma StandsStill(P: Params, now: int, s: State, headers: seq<Header>, i: nat, t: State, pool: Pool, peer: int,
                    skip: bool, knownInvalid: set<Hash>)
    requires Taken(P, now, s, headers) <= i < |headers| && Inv(P, t)
    requires SoundHash(P) && WellFormedBatch(P, headers)
    requires Progress(P, now, s, headers, i, t, pool, peer, skip, knownInvalid)
    ensures t == AfterTaken(P, now, s, headers) && AcceptError(P, t.index, headers[i], now, true).Some?
    ensures Passed(P, t.index, headers, Taken(P, now, s, headers), i, pool, peer, skip, knownInvalid)
  {
    var k := Taken(P, now, s, headers);
    if i == k {
      SameState(P, now, s, headers, t);
      assert OrphansOf(P, t.index, headers, k, i) == {};
    }
    TakenLeads(P, now, s, headers);
    RestIsRejected(P, t.index, headers, k, i, now);
  }

  /** The reason says whether a rejected header is an orphan, a known block, or neither. */
  lemma RejectedMeans(P: Params, ix: Index, header: Header, now: int)
    requires Linked(ix) && P.commitmentOk(header) && AcceptError(P, ix, header, now, true).Some?
    ensures AcceptError(P, ix, header, now, true) == Some(PrevBlkNotFound) <==> IsOrphan(P, ix, header)
    ensures AcceptError(P, ix, header, now, true) == Some(Duplicate) <==> P.hash(header) in ix
    ensures AcceptError(P, ix, header, now, true) != Some(TooLittleChainwork)
  {
    SpecialReasons(P, ix, header, now, true);
  }

  /** The headers from k up to i were rejected and let pass, and the pool holds the orphans among them. */
  ghost predicate Passed(P: Params, ix: Index, headers: seq<Header>, k: nat, i: nat, pool: Pool, peer: int, skip: bool,
                         knownInvalid: set<Hash>)
    requires k <= i <= |headers|
  {
    && pool.Keys == OrphansOf(P, ix, headers, k, i) && SentBy(pool, peer)
    && AllTolerated(P, ix, headers, k, i, skip, knownInvalid)
  }

  /** One more is let pass: an orphan joins the pool. */
  lemma PassesOneMore(P: Params, ix: Index, headers: seq<Header>, k: nat, i: nat, pool: Pool, peer: int, skip: bool,
                      knownInvalid: set<Hash>, pool2: Pool)
    requires k <= i < |headers| && Passed(P, ix, headers, k, i, pool, peer, skip, knownInvalid)
    requires Tolerated(P, ix, headers[i], skip, knownInvalid) && SentBy(pool2, peer)
    requires pool2.Keys == pool.Keys + (if IsOrphan(P, ix, headers[i]) then {P.hash(headers[i])} else {})
    ensures Passed(P, ix, headers, k, i + 1, pool2, peer, skip, knownInvalid)
  {
    OrphansOneMore(P, ix, headers, k, i);
  }

  /** An orphan that does not fit, or a header that is held against the peer. */
  lemma PassesNoMore(P: Params, ix: Index, headers: seq<Header>, k: nat, i: nat, pool: Pool, peer: int, skip: bool,
                     knownInvalid: set<Hash>)
    requires k <= i < |headers| && Passed(P, ix, headers, k, i, pool, peer, skip, knownInvalid)
    requires if IsOrphan(P, ix, headers[i])
             then P.hash(headers[i]) !in pool && |pool.Keys| >= MAX_ORPHAN_HEADERS_PER_PEER
             else !Tolerated(P, ix, headers[i], skip, knownInvalid)
    ensures !RestPasses(P, ix, headers, k, skip, knownInvalid)
  {
    if IsOrphan(P, ix, headers[i]) {
      OrphansOneMore(P, ix, headers, k, i);
      OrphansGrow(P, ix, headers, k, i + 1, |headers|);
    }
  }

  /** After the last header: nothing is held against the peer, and its count shows that the orphans fit. */
  lemma ProgressEnds(P: Params, now: int, s: State, headers: seq<Header>, t: State, pool: Pool,
                     counts: map<int, int>, peer: int, skip: bool, knownInvalid: set<Hash>)
    requires SoundHash(P) && WellFormedBatch(P, headers) && PoolOk(P.hash, pool, counts)
    requires Progress(P, now, s, headers, |headers|, t, pool, peer, skip, knownInvalid)
    ensures t == AfterTaken(P, now, s, headers) && LoopEnds(P, now, s, headers, skip, knownInvalid)
    ensures pool.Keys == OrphansOf(P, t.index, headers, Taken(P, now, s, headers), |headers|)
  {
    if Taken(P, now, s, headers) == |headers| {
      SameState(P, now, s, headers, t);
      assert OrphansOf(P, t.index, headers, |headers|, |headers|) == {};
    } else {
      CountIsSize(P.hash, pool, counts, peer);
    }
  }

  /** All pooled headers are the peer's, so its count is the size of the pool. */
  lemma CountIsSize(hash: Header -> Hash, pool: Pool, counts: map<int, int>, peer: int)
    requires PoolOk(hash, pool, counts) && SentBy(pool, peer)
    ensures CountOf(counts, peer) == |pool.Keys|
  {
    assert From(pool, peer) == pool.Keys;
    assert CountOf(counts, peer) == |From(pool, peer)|;
  }

  /** What a completed batch leaves behind of each of its headers. */
  lemma {:induction false} TakenAreIndexed(P: Params, now: int, s: State, headers: seq<Header>, i: nat)
    requires i < Taken(P, now, s, headers)
    ensures P.hash(headers[i]) in AfterTaken(P, now, s, headers).index
    decreases |headers|
  {
    var mid := Offering(P, now)(s, headers[0]).value;
    if i == 0 {
      TakenGrows(P, now, mid, headers[1..], P.hash(headers[0]));
    } else {
      TakenAreIndexed(P, now, mid, headers[1..], i - 1);
    }
  }

  lemma {:induction false} TakenGrows(P: Params, now: int, s: State, headers: seq<Header>, h: Hash)
    requires h in s.index
    ensures h in AfterTaken(P, now, s, headers).index
    decreases |headers|
  {
    if headers != [] && Offering(P, now)(s, headers[0]).Some? {
      TakenGrows(P, now, Offering(P, now)(s, headers[0]).value, headers[1..], h);
    }
  }

  /** Of a batch that the loop ran through, every header is indexed, pooled, or known to be invalid. */
  lemma {:induction false} NothingIsLost(P: Params, now: int, s: State, headers: seq<Header>, skip: bool,
                                         knownInvalid: set<Hash>, i: nat)
    requires LoopEnds(P, now, s, headers, skip, knownInvalid) && i < |headers|
    ensures var k, ix, h := Taken(P, now, s, headers), AfterTaken(P, now, s, headers).index, P.hash(headers[i]);
            h in ix || h in OrphansOf(P, ix, headers, k, |headers|) || h in knownInvalid
  {
    if i < Taken(P, now, s, headers) {
      TakenAreIndexed(P, now, s, headers, i);
    } else {
      assert Tolerated(P, AfterTaken(P, now, s, headers).index, headers[i], skip, knownInvalid);
    }
  }

  // ---------- the whole message ----------

  lemma OfferingKeepsInv(P: Params, now: int, s: State, header: Header)
    requires Inv(P, s) && Offering(P, now)(s, header).Some?
    ensures Inv(P, Offering(P, now)(s, header).value)
  {
    OfferingIs(P, now, s, header, Offering(P, now)(s, header).value);
    if P.hash(header) in s.index {
      StepKeepsInv(P, s, TryAdd(P.hash(header)));
    } else {
      AddKeepsInv(P, s, header, now);
      StepKeepsInv(P, AddBlock(P, s, header), TryAdd(P.hash(header)));
    }
  }

  lemma {:induction false} TakenKeepsInv(P: Params, now: int, s: State, headers: seq<Header>)
    requires Inv(P, s)
    ensures Inv(P, AfterTaken(P, now, s, headers))
    decreases |headers|
  {
    if headers != [] && Offering(P, now)(s, headers[0]).Some? {
      OfferingKeepsInv(P, now, s, headers[0]);
      TakenKeepsInv(P, now, Offering(P, now)(s, headers[0]).value, headers[1..]);
    }
  }

  /**
   Exactly when a HEADERS message is handled without failure: the batch is well-formed, and either it has too
   little work to be looked at, or nothing in it is held against the peer, its orphans fit and activation succeeds.
   */
  ghost predicate Succeeds(P: Params, now: int, s: State, headers: seq<Header>, knownInvalid: set<Hash>)
    requires Inv(P, s)
  {
    TakenKeepsInv(P, now, s, headers);
    headers != [] ==>
      && WellFormedBatch(P, headers)
      && (|| LowWork(P, s, headers)
          || (&& LoopEnds(P, now, s, headers, P.hash(Last(headers)) in s.chain, knownInvalid)
              && Activate(P, AfterTaken(P, now, s, headers)).ok))
  }

  // ---------- a batch that does not connect ----------

  /** On a batch whose start is unknown, every header is an orphan. */
  lemma {:induction false} UnconnectedAreOrphans(P: Params, ix: Index, headers: seq<Header>, i: nat)
    requires IndexOk(P, ix) && SoundHash(P) && Continuous(P, headers) && i < |headers|
    requires headers[0].prev !in ix && headers[0].prev != NULL_HASH
    ensures IsOrphan(P, ix, headers[i])
  {
    KnownHasParent(P, ix, headers[i]);
    if i > 0 {
      UnconnectedAreOrphans(P, ix, headers, i - 1);
    }
  }

  lemma KnownHasParent(P: Params, ix: Index, header: Header)
    requires IndexOk(P, ix) && SoundHash(P)
    ensures P.hash(header) in ix ==> header.prev == NULL_HASH || header.prev in ix
  {
    if P.hash(header) in ix {
      assert BuiltAt(P.hash, ix, P.hash(header)) && LinkedAt(ix, P.hash(header));
    }
  }

  /** A batch that does not connect is pooled whole, and fails only when it does not fit or activation fails. */
  lemma {:induction false} UnconnectedBatch(P: Params, now: int, s: State, headers: seq<Header>,
                                            knownInvalid: set<Hash>)
    requires Inv(P, s) && SoundHash(P) && WellFormedBatch(P, headers) && headers != []
    requires headers[0].prev !in s.index && headers[0].prev != NULL_HASH
    ensures Taken(P, now, s, headers) == 0
    ensures OrphansOf(P, s.index, headers, 0, |headers|) == set h | h in headers :: P.hash(h)
    ensures Succeeds(P, now, s, headers, knownInvalid)
            <==> |(set h | h in headers :: P.hash(h))| <= 50 && Activate(P, s).ok
  {
    forall i | 0 <= i < |headers| ensures IsOrphan(P, s.index, headers[i]) {
      UnconnectedAreOrphans(P, s.index, headers, i);
    }
    SpecialReasons(P, s.index, headers[0], now, true);
    assert Taken(P, now, s, headers) == 0 && AfterTaken(P, now, s, headers) == s;
    assert OrphansOf(P, s.index, headers, 0, |headers|) == set h | h in headers :: P.hash(h);
  }
}
