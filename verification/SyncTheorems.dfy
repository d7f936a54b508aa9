/** Repeating the header exchange against a static honest peer. */
module SyncTheorems {
  import opened Types
  import opened Bits
  import opened BlockTree
  import opened Consensus
  import opened ConsensusState
  import opened ChainRuns
  import opened RunTheorems
  import opened Steps
  import opened HeaderServe
  import opened Protocol
  import opened HeaderSync
  import opened Locator

  /** GetLocatorFromPrev starts at the tip's parent, at genesis at the tip itself. */
  function RequestStart(s: State): Hash
    requires s.chain != []
  {
    if |s.chain| > 1 then s.chain[|s.chain| - 2] else Last(s.chain)
  }

  /** The first height of the reply: our own tip again, unless that is genesis. */
  function ReplyFrom(s: State): nat
  {
    Max(1, |s.chain| - 1)
  }

  /** The height after the last header of the reply. */
  function ReplyEnd(s: State, q: State): nat
  {
    Min(|q.chain|, ReplyFrom(s) + MAX_HEADERS_SIZE)
  }

  lemma StartIndexed(P: Params, s: State)
    requires Inv(P, s)
    ensures RequestStart(s) in s.index && s.index[RequestStart(s)].height == ReplyFrom(s) - 1
  {
    ChainIsIndexed(P, s);
    assert |s.chain| > 1 ==> s.chain[|s.chain| - 2] in s.index;
    assert s.chain[|s.chain| - 1] in s.index;
  }

  /** The peer's answer to our request. */
  ghost function Answer(P: Params, s: State, q: State, mayDownload: bool): seq<Header>
    requires Inv(P, s) && Inv(P, q)
  {
    StartIndexed(P, s);
    ChainIsIndexed(P, q);
    Reply(P, q, LocatorOf(s.index, RequestStart(s)), NULL_HASH, mayDownload)
  }

  ghost function Round(P: Params, s: State, q: State, mayDownload: bool, now: int): Option<Turn<State>>
    requires Inv(P, s) && Inv(P, q)
  {
    HandleBatch(P, s, Answer(P, s, q, mayDownload), now)
  }

  ghost function RoundWith(P: Params, q: State, mayDownload: bool, now: int): State -> Option<Turn<State>>
    requires Inv(P, q)
  {
    (s: State) => if Inv(P, s) then Round(P, s, q, mayDownload, now) else None
  }

  /** At most so many rounds, as long as more headers are requested. */
  ghost function Sync(P: Params, s: State, q: State, mayDownload: bool, now: int, rounds: nat): Option<Turn<State>>
    requires Inv(P, s) && Inv(P, q)
  {
    Repeat(RoundWith(P, q, mayDownload, now), s, rounds)
  }

  /** We are on the peer's chain, and know nothing with more work than our tip. */
  ghost predicate InStep(P: Params, s: State, q: State)
  {
    s.chain != [] && Following(P, s, q.chain, |s.chain| - 1)
  }

  /**
   A node whose tip is best and which has not failed any of the peer's blocks is in step with a peer that
   extends its chain.
   */
  lemma {:induction false} BestIsInStep(P: Params, s: State, q: State, now: int)
    requires Honest(P, q, now) && Inv(P, s) && Best(s) && Unexpired(P, s.index)
    requires |s.chain| <= |q.chain| && s.chain == q.chain[..|s.chain|]
    requires forall j {:trigger q.chain[j]} :: 0 <= j < |q.chain| && q.chain[j] in s.index ==> !IsFailed(s.index,
                                                                                                         q.chain[j])
    ensures InStep(P, s, q)
  {
    var k := |s.chain| - 1;
    ChainIsIndexed(P, s);
    forall j | 0 <= j <= k ensures q.chain[j] in s.index {
      assert q.chain[j] == s.chain[j];
    }
    forall j | k < j < |q.chain| ensures q.chain[j] !in s.index {
      if q.chain[j] in s.index {
        AheadHasMoreWork(P, s, q, j);
      }
    }
  }

  lemma AheadHasMoreWork(P: Params, s: State, q: State, j: nat)
    requires Inv(P, s) && Inv(P, q) && Injective(P.hash) && 1 <= P.powLimit < TWO_256
    requires |s.chain| <= j < |q.chain| && s.chain == q.chain[..|s.chain|] && q.chain[j] in s.index
    ensures s.index[q.chain[j]].chainWork > s.index[Tip(s)].chainWork
  {
    var k := |s.chain| - 1;
    assert q.chain[k] == Tip(s);
    ChainWorkIncreases(P, q, k, j);
    SharedBlocksAgree(P, s.index, q.index, q.chain[j]);
    SharedBlocksAgree(P, s.index, q.index, q.chain[k]);
  }

  // ---------- the answer ----------

  /** The first locator entry is already on the peer's chain, so the answer is the run from our tip on. */
  lemma {:induction false} AnswerIs(P: Params, s: State, q: State, mayDownload: bool)
    requires Inv(P, q) && InStep(P, s, q) && Serves(P, q, mayDownload)
    ensures ChainIndexed(q.index, q.chain) && ReplyFrom(s) <= ReplyEnd(s, q)
    ensures Answer(P, s, q, mayDownload) == HeadersOf(q.index, q.chain, ReplyFrom(s), ReplyEnd(s, q))
  {
    StartIndexed(P, s);
    ChainIsIndexed(P, q);
    var start := RequestStart(s);
    var locator := LocatorOf(s.index, start);
    LocatorOfEntries(s.index, start);
    var hs := Heights(s.index[start].height, 1, 0);
    assert locator[0] == AncestorAt(s.index, start, hs[0]) == start;
    assert q.chain[ReplyFrom(s) - 1] == s.chain[ReplyFrom(s) - 1] == start;
    FirstEntryActive(q, start, ReplyFrom(s) - 1, locator);
    ReplyAfter(P, q, locator, NULL_HASH, mayDownload, 0);
  }

  lemma FirstEntryActive(q: State, start: Hash, k: nat, locator: seq<Hash>)
    requires ChainIndexed(q.index, q.chain) && k < |q.chain| && q.chain[k] == start
    requires |locator| > 0 && locator[0] == start
    ensures FirstActive(q.index, q.chain, locator, 0) && q.index[start].height == k
  {
    assert q.chain[k] in q.index;
  }

  ghost predicate Clean(P: Params, ix: Index, chain: seq<Hash>)
  {
    forall k {:trigger chain[k]} :: 0 < k < |chain| ==> chain[k] in ix && P.commitmentOk(ix[chain[k]].header)
  }

  lemma {:induction false} RunPasses(P: Params, ix: Index, chain: seq<Hash>, from: nat, end: nat)
    requires LinkedChain(P, ix, chain) && ChainIndexed(ix, chain) && Clean(P, ix, chain)
    requires 0 < from < end <= |chain| && end <= from + MAX_HEADERS_SIZE
    ensures WellFormedBatch(P, HeadersOf(ix, chain, from, end))
  {
    var headers := HeadersOf(ix, chain, from, end);
    RunIsContinuous(P, ix, chain, from, end);
    forall i {:trigger headers[i]} | 0 <= i < |headers| ensures P.commitmentOk(headers[i]) {
      HeadersAt(ix, chain, from, end, from + i);
      assert chain[from + i] in ix;
    }
  }

  lemma AnswerPasses(P: Params, s: State, q: State, now: int)
    requires Honest(P, q, now) && ReplyFrom(s) < ReplyEnd(s, q) && ChainIndexed(q.index, q.chain)
    ensures WellFormedBatch(P, HeadersOf(q.index, q.chain, ReplyFrom(s), ReplyEnd(s, q)))
  {
    ChainIsLinked(P, q);
    RunPasses(P, q.index, q.chain, ReplyFrom(s), ReplyEnd(s, q));
  }

  lemma RunIsIndexed(P: Params, ix: Index, chain: seq<Hash>, from: nat, end: nat)
    requires Tree(P.hash, P.genesisHash, ix) && LinkedChain(P, ix, chain) && ChainIndexed(ix, chain)
    requires 0 < from < end <= |chain|
    ensures BatchIndexed(P, ix, HeadersOf(ix, chain, from, end))
    ensures P.hash(Last(HeadersOf(ix, chain, from, end))) == chain[end - 1]
  {
    var headers := HeadersOf(ix, chain, from, end);
    forall i {:trigger headers[i]} | 0 <= i < |headers|
      ensures P.hash(headers[i]) == chain[from + i] && P.hash(headers[i]) in ix
      ensures ix[P.hash(headers[i])].header == headers[i] && P.hash(headers[i]) != P.genesisHash
    {
      HeadersAt(ix, chain, from, end, from + i);
      assert LinkAt(P, ix, chain, from + i);
    }
  }

  /** The work at the end of a run, from the block below it. */
  lemma RunWork(P: Params, q: State, from: nat, end: nat)
    requires Inv(P, q) && ChainIndexed(q.index, q.chain) && 0 < from < end <= |q.chain|
    ensures q.chain[from - 1] in q.index && q.chain[end - 1] in q.index
    ensures q.index[q.chain[end - 1]].chainWork
            == q.index[q.chain[from - 1]].chainWork + SumWork(HeadersOf(q.index, q.chain, from, end))
  {
    ChainIsLinked(P, q);
    RunIsContinuous(P, q.index, q.chain, from, end);
    RunIsIndexed(P, q.index, q.chain, from, end);
    BatchWork(P, q.index, HeadersOf(q.index, q.chain, from, end));
  }

  lemma ThresholdBounds(P: Params, ix: Index, tip: Hash)
    requires tip in ix
    ensures P.minimumChainWork <= AntiDoSWorkThreshold(P, ix, Some(tip)) <= Max(ix[tip].chainWork, P.minimumChainWork)
  {
  }

  /** The batch is refused as low-work exactly when it brings something new and ends below the minimum chain work. */
  lemma {:induction false} LowWorkIffBelowMinimum(P: Params, s: State, q: State, now: int)
    requires Honest(P, q, now) && InStep(P, s, q) && ReplyFrom(s) < ReplyEnd(s, q) && ChainIndexed(q.index, q.chain)
    ensures var headers := HeadersOf(q.index, q.chain, ReplyFrom(s), ReplyEnd(s, q));
            && q.chain[ReplyEnd(s, q) - 1] in q.index
            && (LowWork(P, s, headers) <==>
                  |s.chain| < ReplyEnd(s, q) && q.index[q.chain[ReplyEnd(s, q) - 1]].chainWork < P.minimumChainWork)
  {
    var from, end := ReplyFrom(s), ReplyEnd(s, q);
    var headers := HeadersOf(q.index, q.chain, from, end);
    RunEnds(P, q, from, end);
    assert q.chain[from - 1] == s.chain[from - 1];
    ReplyWork(P, s.index, q, from, end);
    ThresholdBounds(P, s.index, Tip(s));
    TipWorkShared(P, s, q, end);
    LastIsActive(P, s, q, end);
  }

  lemma RunEnds(P: Params, q: State, from: nat, end: nat)
    requires Inv(P, q) && ChainIndexed(q.index, q.chain) && 0 < from < end <= |q.chain|
    ensures HeadersOf(q.index, q.chain, from, end)[0].prev == q.chain[from - 1]
    ensures P.hash(Last(HeadersOf(q.index, q.chain, from, end))) == q.chain[end - 1]
  {
    HeadersAt(q.index, q.chain, from, end, from);
    HeadersAt(q.index, q.chain, from, end, end - 1);
    ChainLink(P, q, from);
    ChainLink(P, q, end - 1);
  }

  /** Both nodes give the block below the answer the same work. */
  lemma ReplyWork(P: Params, ix: Index, q: State, from: nat, end: nat)
    requires Inv(P, q) && Injective(P.hash) && Tree(P.hash, P.genesisHash, ix)
    requires ChainIndexed(q.index, q.chain) && 0 < from < end <= |q.chain| && q.chain[from - 1] in ix
    ensures q.chain[end - 1] in q.index
    ensures q.index[q.chain[end - 1]].chainWork
            == ix[q.chain[from - 1]].chainWork + SumWork(HeadersOf(q.index, q.chain, from, end))
  {
    RunWork(P, q, from, end);
    SharedBlocksAgree(P, ix, q.index, q.chain[from - 1]);
  }

  lemma TipWorkShared(P: Params, s: State, q: State, end: nat)
    requires Inv(P, q) && Injective(P.hash) && 1 <= P.powLimit < TWO_256 && InStep(P, s, q)
             && |s.chain| <= end <= |q.chain|
    ensures q.chain[end - 1] in q.index && s.index[Tip(s)].chainWork <= q.index[q.chain[end - 1]].chainWork
  {
    ChainWorkIncreases(P, q, |s.chain| - 1, end - 1);
    assert q.chain[|s.chain| - 1] == Tip(s);
    SharedBlocksAgree(P, s.index, q.index, Tip(s));
  }

  lemma LastIsActive(P: Params, s: State, q: State, end: nat)
    requires Inv(P, q) && InStep(P, s, q) && |s.chain| <= end <= |q.chain|
    ensures Active(s.index, s.chain, q.chain[end - 1]) <==> end == |s.chain|
  {
    ChainIsIndexed(P, s);
    assert q.chain[|s.chain| - 1] == s.chain[|s.chain| - 1];
  }

  // ---------- one round ----------

  /** The peer's answer ends with enough work for us, or brings nothing new. */
  ghost predicate PassesGate(P: Params, s: State, q: State)
  {
    && 0 < ReplyEnd(s, q) <= |q.chain| && q.chain[ReplyEnd(s, q) - 1] in q.index
    && (|s.chain| < ReplyEnd(s, q) ==> q.index[q.chain[ReplyEnd(s, q) - 1]].chainWork >= P.minimumChainWork)
  }

  /**
   One round. The tip advances by min(n, 1999) of the n blocks the peer is ahead, by min(n, 2000)
   from genesis, and more is requested exactly after a full message.
   */
  lemma {:induction false} RoundAdvances(P: Params, s: State, q: State, mayDownload: bool, now: int) returns (t: State)
    requires Honest(P, q, now) && InStep(P, s, q) && Serves(P, q, mayDownload) && PassesGate(P, s, q)
    ensures Round(P, s, q, mayDownload, now)
            == Some(Turn(t, true, ReplyEnd(s, q) == ReplyFrom(s) + MAX_HEADERS_SIZE))
    ensures InStep(P, t, q) && t.chain == q.chain[..ReplyEnd(s, q)]
    ensures |t.chain| == |s.chain| + Min(|q.chain| - |s.chain|, if |s.chain| == 1 then 2000 else 1999)
  {
    Advance(|s.chain|, |q.chain|);
    if ReplyFrom(s) == ReplyEnd(s, q) {
      RoundAtGenesis(P, s, q, mayDownload, now);
      t := s;
    } else {
      t := RoundMoves(P, s, q, mayDownload, now);
    }
  }

  lemma RoundAtGenesis(P: Params, s: State, q: State, mayDownload: bool, now: int)
    requires Inv(P, q) && InStep(P, s, q) && Serves(P, q, mayDownload) && ReplyFrom(s) == ReplyEnd(s, q)
    ensures Round(P, s, q, mayDownload, now) == Some(Turn(s, true, false)) && s.chain == q.chain[..ReplyEnd(s, q)]
  {
    AnswerIs(P, s, q, mayDownload);
    assert |s.chain| == ReplyEnd(s, q);
  }

  lemma RoundMoves(P: Params, s: State, q: State, mayDownload: bool, now: int) returns (t: State)
    requires Honest(P, q, now) && InStep(P, s, q) && Serves(P, q, mayDownload) && PassesGate(P, s, q)
    requires ReplyFrom(s) < ReplyEnd(s, q)
    ensures Round(P, s, q, mayDownload, now)
            == Some(Turn(t, true, ReplyEnd(s, q) == ReplyFrom(s) + MAX_HEADERS_SIZE))
    ensures InStep(P, t, q) && t.chain == q.chain[..ReplyEnd(s, q)]
  {
    var u := RoundAccepts(P, s, q, mayDownload, now);
    t := ActivatedInStep(P, u, q, ReplyEnd(s, q) - 1, ReplyEnd(s, q) - ReplyFrom(s));
  }

  lemma ActivatedInStep(P: Params, u: State, q: State, k: nat, size: nat) returns (t: State)
    requires Inv(P, q) && Injective(P.hash) && Following(P, u, q.chain, k)
    ensures Activated(P, u, size) == Turn(t, true, size == MAX_HEADERS_SIZE)
    ensures InStep(P, t, q) && t.chain == q.chain[..k + 1]
  {
    ActivateFollows(P, u, q, k);
    t := Activate(P, u).state;
    InStepAt(P, t, q, k);
  }

  lemma Advance(m: nat, n: nat)
    requires 0 < m <= n
    ensures Min(n, Max(1, m - 1) + MAX_HEADERS_SIZE) == m + Min(n - m, if m == 1 then 2000 else 1999)
  {
  }

  lemma InStepAt(P: Params, s: State, q: State, k: nat)
    requires Following(P, s, q.chain, k) && |s.chain| == k + 1
    ensures InStep(P, s, q)
  {
  }

  lemma {:induction false} RoundAccepts(P: Params, s: State, q: State, mayDownload: bool, now: int) returns (u: State)
    requires Honest(P, q, now) && InStep(P, s, q) && Serves(P, q, mayDownload) && PassesGate(P, s, q)
    requires ReplyFrom(s) < ReplyEnd(s, q)
    ensures Following(P, u, q.chain, ReplyEnd(s, q) - 1) && u.chain == s.chain
    ensures Round(P, s, q, mayDownload, now) == Some(Activated(P, u, ReplyEnd(s, q) - ReplyFrom(s)))
  {
    AnswerIs(P, s, q, mayDownload);
    var from, end := ReplyFrom(s), ReplyEnd(s, q);
    AnswerPasses(P, s, q, now);
    LowWorkIffBelowMinimum(P, s, q, now);
    u := RunLeads(P, s, q, from, end, now);
    AcceptedBatch(P, s, HeadersOf(q.index, q.chain, from, end), now, u);
  }

  // ---------- the whole exchange ----------

  /** Once an answer has passed the gate, all later ones do. */
  lemma GateStaysPassed(P: Params, s: State, t: State, q: State)
    requires Inv(P, q) && 1 <= P.powLimit < TWO_256 && s.chain != [] && PassesGate(P, s, q)
    requires |s.chain| <= |t.chain| <= |q.chain| && |t.chain| == ReplyEnd(s, q)
    requires |t.chain| == |s.chain| ==> |q.chain| == |t.chain|
    ensures PassesGate(P, t, q)
  {
    ChainIsIndexed(P, q);
    if |t.chain| < ReplyEnd(t, q) {
      ChainWorkIncreases(P, q, ReplyEnd(s, q) - 1, ReplyEnd(t, q) - 1);
    }
  }

  /**
   Against a static honest peer whose chain extends ours by n blocks, n / 1999 + 1 rounds are
   enough: we end with the peer's chain, and stop asking.
   */
  lemma {:induction false} SyncCompletes(P: Params, s: State, q: State, mayDownload: bool, now: int, rounds: nat)
    requires Honest(P, q, now) && InStep(P, s, q) && Serves(P, q, mayDownload) && PassesGate(P, s, q)
    requires 1999 * rounds > |q.chain| - |s.chain|
    ensures var r := Sync(P, s, q, mayDownload, now, rounds);
            r.Some? && r.value.state.chain == q.chain && r.value.ok && !r.value.more
  {
    RoundsClose(P, q, mayDownload, now);
    OnCourseIs(P, q, s);
    RepeatEnds(RoundWith(P, q, mayDownload, now), OnCourse(P, q), BlocksBehind(q), 1999, s, rounds);
    CaughtUp(P, q, Sync(P, s, q, mayDownload, now, rounds).value.state);
  }

  lemma CaughtUp(P: Params, q: State, s: State)
    requires OnCourse(P, q)(s) && BlocksBehind(q)(s) == 0
    ensures s.chain == q.chain
  {
    assert q.chain[..|q.chain|] == q.chain;
  }

  lemma RoundsClose(P: Params, q: State, mayDownload: bool, now: int)
    requires Honest(P, q, now) && Serves(P, q, mayDownload)
    ensures Closes(RoundWith(P, q, mayDownload, now), OnCourse(P, q), BlocksBehind(q), 1999)
  {
    var turn, good, gap := RoundWith(P, q, mayDownload, now), OnCourse(P, q), BlocksBehind(q);
    forall x {:trigger turn(x)} | good(x)
      ensures turn(x).Some? && turn(x).value.ok && good(turn(x).value.state)
      ensures if turn(x).value.more then gap(turn(x).value.state) + 1999 <= gap(x) else gap(turn(x).value.state) == 0
    {
      RoundOnCourse(P, x, q, mayDownload, now);
    }
  }

  ghost function OnCourse(P: Params, q: State): State -> bool
  {
    (s: State) => InStep(P, s, q) && PassesGate(P, s, q)
  }

  function BlocksBehind(q: State): State -> nat
  {
    (s: State) => Max(0, |q.chain| - |s.chain|)
  }

  lemma OnCourseIs(P: Params, q: State, s: State)
    ensures OnCourse(P, q)(s) <==> InStep(P, s, q) && PassesGate(P, s, q)
  {
  }

  lemma RoundWithIs(P: Params, s: State, q: State, mayDownload: bool, now: int)
    requires Inv(P, s) && Inv(P, q)
    ensures RoundWith(P, q, mayDownload, now)(s) == Round(P, s, q, mayDownload, now)
  {
  }

  lemma RoundOnCourse(P: Params, s: State, q: State, mayDownload: bool, now: int)
    requires Honest(P, q, now) && Serves(P, q, mayDownload) && OnCourse(P, q)(s)
    ensures var r := RoundWith(P, q, mayDownload, now)(s);
            && r.Some? && r.value.ok && OnCourse(P, q)(r.value.state)
            && (if r.value.more then BlocksBehind(q)(r.value.state) + 1999 <= BlocksBehind(q)(s)
                else BlocksBehind(q)(r.value.state) == 0)
  {
    OnCourseIs(P, q, s);
    RoundWithIs(P, s, q, mayDownload, now);
    var t := RoundAdvances(P, s, q, mayDownload, now);
    GateStaysPassed(P, s, t, q);
    OnCourseIs(P, q, t);
    RoundCloses(s, t, q);
  }

  lemma RoundCloses(s: State, t: State, q: State)
    requires 0 < |s.chain| <= |q.chain| && |t.chain| == ReplyEnd(s, q)
    ensures if ReplyEnd(s, q) == ReplyFrom(s) + MAX_HEADERS_SIZE
            then BlocksBehind(q)(t) + 1999 <= BlocksBehind(q)(s)
            else BlocksBehind(q)(t) == 0
  {
  }

  /**
   Where the gate is not passed, nothing ever happens: the state stays as it is after any number
   of rounds. After a full message the same request is repeated forever.
   */
  lemma {:induction false} LowWorkPeerStalls(P: Params, s: State, q: State, mayDownload: bool, now: int, rounds: nat)
    requires Honest(P, q, now) && InStep(P, s, q) && Serves(P, q, mayDownload) && !PassesGate(P, s, q)
    requires rounds > 0
    ensures Sync(P, s, q, mayDownload, now, rounds)
            == Some(Turn(s, true, ReplyEnd(s, q) == ReplyFrom(s) + MAX_HEADERS_SIZE))
  {
    LowWorkRound(P, s, q, mayDownload, now);
    RepeatStalls(RoundWith(P, q, mayDownload, now), s, rounds, ReplyEnd(s, q) == ReplyFrom(s) + MAX_HEADERS_SIZE);
  }

  lemma LowWorkRound(P: Params, s: State, q: State, mayDownload: bool, now: int)
    requires Honest(P, q, now) && InStep(P, s, q) && Serves(P, q, mayDownload) && !PassesGate(P, s, q)
    ensures Round(P, s, q, mayDownload, now)
            == Some(Turn(s, true, ReplyEnd(s, q) == ReplyFrom(s) + MAX_HEADERS_SIZE))
  {
    AnswerIs(P, s, q, mayDownload);
    assert q.chain[ReplyEnd(s, q) - 1] in q.index;
    AnswerPasses(P, s, q, now);
    LowWorkIffBelowMinimum(P, s, q, now);
  }

  /** The exchange completes if and only if the first answer passes the low-work gate. */
  lemma {:induction false} SyncCompletesIff(P: Params, s: State, q: State, mayDownload: bool, now: int, rounds: nat)
    requires Honest(P, q, now) && InStep(P, s, q) && Serves(P, q, mayDownload)
    requires 1999 * rounds > |q.chain| - |s.chain|
    ensures var r := Sync(P, s, q, mayDownload, now, rounds);
            r.Some? && (r.value.state.chain == q.chain <==> PassesGate(P, s, q))
  {
    AnswerIs(P, s, q, mayDownload);
    if PassesGate(P, s, q) {
      SyncCompletes(P, s, q, mayDownload, now, rounds);
    } else {
      LowWorkPeerStalls(P, s, q, mayDownload, now, rounds);
      assert q.chain[ReplyEnd(s, q) - 1] in q.index;
    }
  }
}
