/**
 Serving headers: HandleGetHeadersMessage and what a locator finds on another node
 (src/network/header_sync_manager.cpp:537-640).
 */
module HeaderServe {
  import opened Types
  import opened BlockTree
  import opened ActiveChain
  import opened Consensus
  import opened ConsensusState
  import opened RunTheorems
  import opened SharedTrees
  import opened Locator
  import opened Protocol
  import Selector = CandidateTips

  // ---------- the reply as a value ----------

  /** The hash names a block of the active chain. */
  predicate Active(ix: Index, chain: seq<Hash>, h: Hash)
  {
    h in ix && OnChain(ix, chain, h)
  }

  /** i is the position of the first locator hash on the active chain. */
  ghost predicate FirstActive(ix: Index, chain: seq<Hash>, locator: seq<Hash>, i: nat)
  {
    && i < |locator| && Active(ix, chain, locator[i])
    && forall j {:trigger locator[j]} :: 0 <= j < i ==> !Active(ix, chain, locator[j])
  }

  /** The height after the last header served: the limit, or the block the peer asked to stop at. */
  function ServeEnd(chain: seq<Hash>, from: nat, stop: Hash, limit: nat): (end: nat)
    requires from <= limit <= |chain|
    ensures from <= end <= limit
    ensures stop != NULL_HASH ==> forall k {:trigger chain[k]} :: from <= k < end - 1 ==> chain[k] != stop
    ensures end == limit || (stop != NULL_HASH && end > from && chain[end - 1] == stop)
    decreases limit - from
  {
    if from == limit then from
    else if stop != NULL_HASH && chain[from] == stop then from + 1
    else ServeEnd(chain, from + 1, stop, limit)
  }

  /** Without a stop hash, the reply ends at the tip or with a full message. */
  function ServeLimit(chain: seq<Hash>, from: nat): nat
  {
    Min(|chain|, from + MAX_HEADERS_SIZE)
  }

  /** The headers of the chain at heights from .. end - 1. */
  function HeadersOf(ix: Index, chain: seq<Hash>, from: nat, end: nat): (headers: seq<Header>)
    requires from <= end <= |chain| && forall k {:trigger chain[k]} :: from <= k < end ==> chain[k] in ix
    ensures |headers| == end - from
    decreases end
  {
    if from == end then [] else HeadersOf(ix, chain, from, end - 1) + [ix[chain[end - 1]].header]
  }

  lemma {:induction false} HeadersAt(ix: Index, chain: seq<Hash>, from: nat, end: nat, k: nat)
    requires from <= k < end <= |chain| && forall k {:trigger chain[k]} :: from <= k < end ==> chain[k] in ix
    ensures HeadersOf(ix, chain, from, end)[k - from] == ix[chain[k]].header
    decreases end
  {
    if k < end - 1 {
      HeadersAt(ix, chain, from, end - 1, k);
    }
  }

  /** The node is willing to serve: its chain has the minimum work, or the peer may download regardless. */
  predicate Serves(P: Params, s: State, mayDownload: bool)
    requires s.chain != [] && Tip(s) in s.index
  {
    mayDownload || s.index[Tip(s)].chainWork >= P.minimumChainWork
  }

  ghost predicate ChainIndexed(ix: Index, chain: seq<Hash>)
  {
    forall k {:trigger chain[k]} :: 0 <= k < |chain| ==> chain[k] in ix && ix[chain[k]].height == k
  }

  /** Some locator hash is on the active chain. */
  ghost predicate Found(ix: Index, chain: seq<Hash>, locator: seq<Hash>)
  {
    exists i: nat :: FirstActive(ix, chain, locator, i)
  }

  /** What HandleGetHeadersMessage sends back. */
  ghost function Reply(P: Params, s: State, locator: seq<Hash>, stop: Hash, mayDownload: bool): seq<Header>
    requires s.chain != [] && ChainIndexed(s.index, s.chain)
  {
    if !Serves(P, s, mayDownload) || !Found(s.index, s.chain, locator) then []
    else
      var i: nat :| FirstActive(s.index, s.chain, locator, i);
      ServedAfter(s, locator[i], stop)
  }

  ghost function ServedAfter(s: State, fork: Hash, stop: Hash): seq<Header>
    requires ChainIndexed(s.index, s.chain) && Active(s.index, s.chain, fork)
  {
    var from := s.index[fork].height + 1;
    HeadersOf(s.index, s.chain, from, ServeEnd(s.chain, from, stop, ServeLimit(s.chain, from)))
  }

  lemma ReplyAfter(P: Params, s: State, locator: seq<Hash>, stop: Hash, mayDownload: bool, i: nat)
    requires s.chain != [] && ChainIndexed(s.index, s.chain) && Serves(P, s, mayDownload)
    requires FirstActive(s.index, s.chain, locator, i)
    ensures Reply(P, s, locator, stop, mayDownload) == ServedAfter(s, locator[i], stop)
  {
    forall j: nat | FirstActive(s.index, s.chain, locator, j) ensures j == i {
      FirstActiveUnique(s.index, s.chain, locator, i, j);
    }
  }

  lemma ChainIsIndexed(P: Params, s: State)
    requires Inv(P, s)
    ensures ChainIndexed(s.index, s.chain)
  {
  }

  // ---------- the method ----------

  method HandleGetHeadersMessage(P: Params, ix: Index, active: CChain, locator: seq<Hash>, stop: Hash,
                                 mayDownload: bool,
                                 ghost s: State)
    returns (reply: seq<Header>)
    requires Inv(P, s) && s.index == ix && Selector.SlotsAre(active.vChain, s.chain)
    ensures ChainIndexed(s.index, s.chain) && reply == Reply(P, s, locator, stop, mayDownload)
  {
    ChainIsIndexed(P, s);
    reply := [];
    var tip := active.Tip();
    if (tip.None? || ix[tip.value].chainWork < P.minimumChainWork) && !mayDownload {
      return;
    }
    var i, fork := 0, None;
    while i < |locator| && fork.None?
      invariant i <= |locator|
      invariant fork.None? ==> forall j {:trigger locator[j]} :: 0 <= j < i ==> !Active(ix, s.chain, locator[j])
      invariant fork.Some? ==> i > 0 && fork.value == locator[i - 1] && FirstActive(ix, s.chain, locator, i - 1)
      decreases |locator| - i, fork.None?
    {
      if locator[i] in ix && active.Contains(ix, Some(locator[i])) {
        fork := Some(locator[i]);
      }
      i := i + 1;
    }
    if fork.None? {
      return;
    }
    ReplyAfter(P, s, locator, stop, mayDownload, i - 1);
    reply := CollectHeaders(ix, active, fork.value, stop, s);
  }

  /** From the block after the fork. */
  method CollectHeaders(ix: Index, active: CChain, fork: Hash, stop: Hash, ghost s: State) returns (reply: seq<Header>)
    requires s.chain != [] && s.index == ix && Selector.SlotsAre(active.vChain, s.chain)
    requires ChainIndexed(ix, s.chain) && Active(ix, s.chain, fork)
    ensures reply == ServedAfter(s, fork, stop)
  {
    ServedIsRun(s, fork, stop);
    SlotIs(active.vChain, s.chain, ix[fork].height + 1);
    var first := active.At(ix[fork].height + 1);
    reply := CollectRun(ix, active, first, stop, s.chain, ix[fork].height + 1, ServedAfter(s, fork, stop));
  }

  /** The headers above height `from` - 1, up to the stop hash, a full message or the tip, whichever comes first. */
  ghost predicate IsRun(ix: Index, chain: seq<Hash>, from: nat, stop: Hash, run: seq<Header>)
  {
    && |run| <= MAX_HEADERS_SIZE && from + |run| <= |chain|
    && (forall i {:trigger RunAt(ix, chain, from, stop, run, i)} :: 0 <= i < |run| ==> RunAt(ix, chain, from, stop,
                                                                                             run, i))
    && (Complete(chain, from, run) || (run != [] && Stops(stop, chain[from + |run| - 1])))
  }

  /** Entry i is the header at its height, and only the last one can be the stop. */
  predicate RunAt(ix: Index, chain: seq<Hash>, from: nat, stop: Hash, run: seq<Header>, i: nat)
    requires i < |run| && from + |run| <= |chain|
  {
    && chain[from + i] in ix && run[i] == ix[chain[from + i]].header
    && (i < |run| - 1 ==> !Stops(stop, chain[from + i]))
  }

  predicate Stops(stop: Hash, h: Hash)
  {
    stop != NULL_HASH && h == stop
  }

  /** The message is full or the tip is reached. */
  predicate Complete(chain: seq<Hash>, from: nat, run: seq<Header>)
  {
    |run| == MAX_HEADERS_SIZE || from + |run| == |chain|
  }

  lemma HeadersAreRun(ix: Index, chain: seq<Hash>, from: nat, stop: Hash, end: nat)
    requires ChainIndexed(ix, chain) && from <= end <= ServeLimit(chain, from)
    requires stop != NULL_HASH ==> forall k {:trigger chain[k]} :: from <= k < end - 1 ==> chain[k] != stop
    requires end == ServeLimit(chain, from) || (stop != NULL_HASH && end > from && chain[end - 1] == stop)
    ensures IsRun(ix, chain, from, stop, HeadersOf(ix, chain, from, end))
  {
    var run := HeadersOf(ix, chain, from, end);
    assert from + |run| == end;
    forall i | 0 <= i < |run| ensures RunAt(ix, chain, from, stop, run, i) {
      HeadersAt(ix, chain, from, end, from + i);
    }
    assert end == ServeLimit(chain, from) ==> Complete(chain, from, run);
  }

  lemma ServedIsRun(s: State, fork: Hash, stop: Hash)
    requires ChainIndexed(s.index, s.chain) && Active(s.index, s.chain, fork)
    ensures IsRun(s.index, s.chain, s.index[fork].height + 1, stop, ServedAfter(s, fork, stop))
  {
    var from := s.index[fork].height + 1;
    HeadersAreRun(s.index, s.chain, from, stop, ServeEnd(s.chain, from, stop, ServeLimit(s.chain, from)));
  }

  /** The loop that fills the message. */
  method CollectRun(ix: Index, active: CChain, first: Option<Hash>, stop: Hash,
                    ghost chain: seq<Hash>, ghost from: nat, ghost run: seq<Header>)
    returns (reply: seq<Header>)
    requires chain != [] && Selector.SlotsAre(active.vChain, chain) && ChainIndexed(ix, chain)
    requires first == SlotOf(chain, from) && IsRun(ix, chain, from, stop, run)
    ensures reply == run
  {
    reply := [];
    var tip := active.Tip();
    var pindex := first;
    while pindex.Some? && |reply| < MAX_HEADERS_SIZE
      invariant |reply| <= |run| && reply == run[..|reply|] && pindex == SlotOf(chain, from + |reply|)
      invariant |reply| == |run| ==> Complete(chain, from, run)
      decreases |run| - |reply|
    {
      ghost var k := |reply|;
      assert RunAt(ix, chain, from, stop, run, k);
      reply := reply + [ix[pindex.value].header];
      assert k + 1 < |run| || Complete(chain, from, run) || Stops(stop, chain[from + k]);
      if stop != NULL_HASH && pindex.value == stop {
        return;
      }
      if pindex == tip {
        LastBlockIs(ix, chain, from + |reply| - 1);
        return;
      }
      pindex := NextActive(ix, active, pindex.value, chain, from + |reply| - 1);
    }
  }

  /** GetBlockAtHeight(pindex->nHeight + 1) */
  method NextActive(ix: Index, active: CChain, p: Hash, ghost chain: seq<Hash>, ghost k: nat)
    returns (next: Option<Hash>)
    requires Selector.SlotsAre(active.vChain, chain) && ChainIndexed(ix, chain) && k < |chain| && chain[k] == p
    ensures next == SlotOf(chain, k + 1)
  {
    SlotIs(active.vChain, chain, k + 1);
    next := active.At(ix[p].height + 1);
  }

  /** The block at a height, as the filled slots give it. */
  function SlotOf(chain: seq<Hash>, k: nat): Option<Hash>
  {
    if k < |chain| then Some(chain[k]) else None
  }

  lemma SlotIs(v: seq<Option<Hash>>, chain: seq<Hash>, k: nat)
    requires Selector.SlotsAre(v, chain)
    ensures SlotOf(chain, k) == if k >= |v| then None else v[k]
  {
  }

  /** Only the last slot holds the tip. */
  lemma LastBlockIs(ix: Index, chain: seq<Hash>, k: nat)
    requires ChainIndexed(ix, chain) && k < |chain| && chain[k] == Last(chain)
    ensures k == |chain| - 1
  {
    assert chain[|chain| - 1] in ix;
  }

  // ---------- what a locator finds on another node ----------

  /** The locator of a block, as a value. */
  ghost function LocatorOf(ix: Index, start: Hash): (have: seq<Hash>)
    requires Linked(ix) && start in ix
  {
    var hs := Heights(ix[start].height, 1, 0);
    seq(|hs|, i requires 0 <= i < |hs| =>
      if hs[i] <= ix[start].height then AncestorAt(ix, start, hs[i]) else start)
  }

  lemma LocatorOfEntries(ix: Index, start: Hash)
    requires Linked(ix) && start in ix
    ensures EntriesAt(ix, start, LocatorOf(ix, start), Heights(ix[start].height, 1, 0))
  {
    var hs := Heights(ix[start].height, 1, 0);
    HeightsDescend(ix[start].height, 1, 0);
    assert forall i {:trigger hs[i]} :: 0 < i < |hs| ==> hs[0] > hs[i];
  }

  /** A locator entry is on the other node's chain exactly when it is at or below the true fork. */
  lemma {:induction false} EntryIsActive(P: Params, ix: Index, start: Hash, s: State, k: nat)
    requires Injective(P.hash) && Tree(P.hash, P.genesisHash, ix) && start in ix && Inv(P, s)
    requires k <= ix[start].height
    ensures Active(s.index, s.chain, AncestorAt(ix, start, k)) <==> k < CommonPrefix(Path(ix, start), s.chain)
  {
    var path, a := Path(ix, start), AncestorAt(ix, start, k);
    var n := CommonPrefix(path, s.chain);
    CommonPrefixIsFork(path, s.chain);
    ChainIsIndexed(P, s);
    if k < n {
      assert path[..n][k] == s.chain[..n][k];
      assert s.chain[k] == a;
    }
    if Active(s.index, s.chain, a) {
      SharedBlocksAgree(P, ix, s.index, a);
      SharedPaths(P, ix, s.index, a);
      PathOfAncestor(ix, start, k);
      PathOfAncestor(s.index, Tip(s), k);
      assert path[..k + 1] == s.chain[..k + 1];
      PrefixIsCommon(path, s.chain, k + 1);
    }
  }

  lemma {:induction false} PrefixIsCommon(p: seq<Hash>, q: seq<Hash>, n: nat)
    requires n <= |p| && n <= |q| && p[..n] == q[..n]
    ensures CommonPrefix(p, q) >= n
    decreases n
  {
    if n > 0 {
      assert p[..n][0] == q[..n][0];
      assert p[1..][..n - 1] == p[..n][1..] && q[1..][..n - 1] == q[..n][1..];
      PrefixIsCommon(p[1..], q[1..], n - 1);
    }
  }

  /** Two nodes with the same genesis share at least that block. */
  lemma GenesisShared(P: Params, ix: Index, start: Hash, s: State)
    requires Tree(P.hash, P.genesisHash, ix) && start in ix && Inv(P, s)
    ensures CommonPrefix(Path(ix, start), s.chain) > 0
  {
    PathStart(P.hash, P.genesisHash, ix, start);
    PathStart(P.hash, P.genesisHash, s.index, Tip(s));
  }

  /**
   Locator quality. Let L be the last common block of the locator's start and the server's
   chain, at height `level`. The server's fork point is the highest locator entry at or below
   L, and it is at most height(start) - level below it.
   */
  lemma {:induction false} LocatorFindsFork(P: Params, ix: Index, start: Hash, s: State) returns (i: nat)
    requires Injective(P.hash) && Tree(P.hash, P.genesisHash, ix) && start in ix && Inv(P, s)
    ensures var hs, level := Heights(ix[start].height, 1, 0), CommonPrefix(Path(ix, start), s.chain) - 1;
            && level >= 0 && FirstAtOrBelow(hs, level, i) && i < |LocatorOf(ix, start)|
            && FirstActive(s.index, s.chain, LocatorOf(ix, start), i)
            && level - hs[i] <= ix[start].height - level
  {
    var hs, have := Heights(ix[start].height, 1, 0), LocatorOf(ix, start);
    GenesisShared(P, ix, start, s);
    var level := CommonPrefix(Path(ix, start), s.chain) - 1;
    i := LocatorGap(ix[start].height, ix[start].height, 1, 0, level);
    LocatorOfEntries(ix, start);
    forall j | 0 <= j < |have|
      ensures Active(s.index, s.chain, have[j]) <==> hs[j] <= level
    {
      EntryIsActive(P, ix, start, s, hs[j]);
    }
  }

  lemma FirstActiveUnique(ix: Index, chain: seq<Hash>, locator: seq<Hash>, i: nat, j: nat)
    requires FirstActive(ix, chain, locator, i) && FirstActive(ix, chain, locator, j)
    ensures i == j
  {
  }

  /** A block's header names the block below it and hashes to the block itself. */
  predicate LinkAt(P: Params, ix: Index, chain: seq<Hash>, k: nat)
  {
    && 0 < k < |chain| && chain[k] in ix
    && ix[chain[k]].header.prev == chain[k - 1] && P.hash(ix[chain[k]].header) == chain[k]
    && ix[chain[k]].prev == Some(chain[k - 1])
  }

  lemma ChainLink(P: Params, s: State, k: nat)
    requires Inv(P, s) && 0 < k < |s.chain|
    ensures LinkAt(P, s.index, s.chain, k)
  {
    var b := s.chain[k];
    assert BuiltAt(P.hash, s.index, b) && LinkedAt(s.index, b);
    AncestorOfAncestor(s.index, Tip(s), k, k - 1);
  }

  ghost predicate LinkedChain(P: Params, ix: Index, chain: seq<Hash>)
  {
    forall k {:trigger LinkAt(P, ix, chain, k)} :: 0 < k < |chain| ==> LinkAt(P, ix, chain, k)
  }

  lemma ChainIsLinked(P: Params, s: State)
    requires Inv(P, s)
    ensures LinkedChain(P, s.index, s.chain)
  {
    forall k | 0 < k < |s.chain| ensures LinkAt(P, s.index, s.chain, k) {
      ChainLink(P, s, k);
    }
  }

  /** A run of the active chain's headers connects to the block below it and is continuous. */
  lemma RunIsContinuous(P: Params, ix: Index, chain: seq<Hash>, from: nat, end: nat)
    requires LinkedChain(P, ix, chain) && ChainIndexed(ix, chain) && 0 < from < end <= |chain|
    ensures HeadersOf(ix, chain, from, end)[0].prev == chain[from - 1]
    ensures Continuous(P, HeadersOf(ix, chain, from, end))
  {
    var headers := HeadersOf(ix, chain, from, end);
    assert LinkAt(P, ix, chain, from);
    HeadersAt(ix, chain, from, end, from);
    forall i {:trigger headers[i]} | 1 <= i < |headers| ensures headers[i].prev == P.hash(headers[i - 1]) {
      HeadersAt(ix, chain, from, end, from + i);
      HeadersAt(ix, chain, from, end, from + i - 1);
      assert LinkAt(P, ix, chain, from + i) && LinkAt(P, ix, chain, from + i - 1);
    }
  }

  /** Every non-empty reply connects to an ancestor of the locator's start, and is continuous. */
  lemma {:induction false} ReplyConnects(P: Params, ix: Index, start: Hash, s: State, stop: Hash, mayDownload: bool,
                                         reply: seq<Header>)
    requires Linked(ix) && start in ix && Inv(P, s)
    requires ChainIndexed(s.index, s.chain) && reply == Reply(P, s, LocatorOf(ix, start), stop, mayDownload)
    requires reply != []
    ensures reply[0].prev in ix && IsAncestor(ix, reply[0].prev, start)
    ensures Continuous(P, reply) && |reply| <= MAX_HEADERS_SIZE
  {
    var locator := LocatorOf(ix, start);
    LocatorOfEntries(ix, start);
    ChainIsLinked(P, s);
    ServedConnects(P, s, locator, stop, reply);
  }

  lemma ServedConnects(P: Params, s: State, locator: seq<Hash>, stop: Hash, reply: seq<Header>)
    requires ChainIndexed(s.index, s.chain) && LinkedChain(P, s.index, s.chain) && reply != []
    requires exists i: nat :: FirstActive(s.index, s.chain, locator, i) && reply == ServedAfter(s, locator[i], stop)
    ensures reply[0].prev in locator && Continuous(P, reply) && |reply| <= MAX_HEADERS_SIZE
  {
    var i: nat :| FirstActive(s.index, s.chain, locator, i) && reply == ServedAfter(s, locator[i], stop);
    var from := s.index[locator[i]].height + 1;
    RunIsContinuous(P, s.index, s.chain, from, from + |reply|);
  }
}
