/**
 The consensus state as a value, and what each operation of ChainstateManager does to it
 (src/chain/chainstate_manager.cpp). The class in module `NodeState` is proved to perform
 these functions; module `ChainRuns` proves what every run of them keeps.
 */
module ConsensusState {
  import opened Types
  import opened BlockTree
  import opened Ancestry
  import opened CandidateTips
  import opened Consensus
  import opened MedianTime

  /** Queued notifications. */
  datatype Event = BlockConnected(hash: Hash) | BlockDisconnected(hash: Hash) | TipChanged(hash: Hash, height: nat)

  /** index, active chain by height, candidate set, m_failed_blocks */
  datatype State = State(index: Index, chain: seq<Hash>, cands: set<Hash>, failed: set<Hash>)

  datatype Outcome = Outcome(state: State, events: seq<Event>, ok: bool)

  // ---------- invariants ----------

  predicate IsFailed(ix: Index, h: Hash)
    requires h in ix
  {
    ix[h].status.IsFailed()
  }

  predicate ClosedAt(ix: Index, h: Hash)
    requires h in ix && LinkedAt(ix, h)
  {
    ix[h].prev.Some? && IsFailed(ix, ix[h].prev.value) ==> IsFailed(ix, h)
  }

  /** The children of failed blocks are failed. */
  ghost predicate FailureClosed(ix: Index)
    requires Linked(ix)
  {
    forall h {:trigger ClosedAt(ix, h)} :: h in ix && LinkedAt(ix, h) ==> ClosedAt(ix, h)
  }

  ghost predicate AllTree(ix: Index)
  {
    forall h {:trigger ix[h].status} :: h in ix ==> ix[h].status.validation == TREE
  }

  /** What holds of the index alone. */
  ghost predicate IndexOk(P: Params, ix: Index)
  {
    && Tree(P.hash, P.genesisHash, ix) && Checked(P, ix)
    && AllTree(ix) && FailureClosed(ix)
    && ix[P.genesisHash].chainWork > 0
  }

  /** The active chain is the path of a block that has not failed. */
  ghost predicate ChainOk(ix: Index, chain: seq<Hash>)
    requires Linked(ix)
  {
    && chain != [] && Last(chain) in ix && chain == Path(ix, Last(chain))
    && !IsFailed(ix, Last(chain))
  }

  ghost predicate Inv(P: Params, s: State)
  {
    && IndexOk(P, s.index) && ChainOk(s.index, s.chain)
    && s.cands <= s.index.Keys
    && s.failed == set h | h in s.index && IsFailed(s.index, h)
  }

  function Tip(s: State): Hash
    requires s.chain != []
  {
    Last(s.chain)
  }

  /** Every descendant of a failed block is failed. */
  lemma {:induction false} FailureReachesDescendants(ix: Index, h: Hash, k: nat)
    requires Linked(ix) && FailureClosed(ix) && h in ix && k <= ix[h].height
    requires IsFailed(ix, AncestorAt(ix, h, k))
    ensures IsFailed(ix, h)
    decreases ix[h].height
  {
    if k < ix[h].height {
      assert LinkedAt(ix, h) && ClosedAt(ix, h);
      FailureReachesDescendants(ix, ix[h].prev.value, k);
    }
  }

  /** No block of the active chain is failed. */
  lemma NoActiveBlockFailed(P: Params, s: State, k: nat)
    requires Inv(P, s) && k < |s.chain|
    ensures s.chain[k] in s.index && !IsFailed(s.index, s.chain[k])
  {
    if IsFailed(s.index, AncestorAt(s.index, Tip(s), k)) {
      FailureReachesDescendants(s.index, Tip(s), k);
    }
  }

  /** All blocks of the tree have positive work. */
  lemma WorkPositive(P: Params, ix: Index, h: Hash)
    requires IndexOk(P, ix) && h in ix
    ensures ix[h].chainWork > 0
  {
    WorkMonotone(P.hash, P.genesisHash, ix, h, 0);
    PathStart(P.hash, P.genesisHash, ix, h);
  }

  // ---------- accepting a header ----------

  /** The outcome of AcceptBlockHeader's checks on a header, None when it is (or already was) accepted. */
  ghost function AcceptError(P: Params, ix: Index, header: Header, now: int, minPowChecked: bool): Option<Reason>
    requires Linked(ix)
  {
    if P.hash(header) in ix then (if IsFailed(ix, P.hash(header)) then Some(Duplicate) else None)
    else if !P.commitmentOk(header) then Some(HighHash)
    else if header.prev == NULL_HASH then
      (if P.hash(header) != P.genesisHash then Some(BadGenesis) else Some(GenesisViaAccept))
    else if header.prev !in ix then Some(PrevBlkNotFound)
    else if IsFailed(ix, header.prev) then Some(BadPrevBlk)
    else if ContextualError(P, ix, header, header.prev, now).Some? then ContextualError(P, ix, header, header.prev, now)
    else if !P.fullOk(header) then Some(HighHash)
    else if !minPowChecked then Some(TooLittleChainwork)
    else None
  }

  /** The record AddToBlockIndex creates, after RaiseValidity(TREE). */
  ghost function NewRecord(ix: Index, header: Header): BlockIndex
    requires Linked(ix) && header.prev in ix
  {
    ChildRecord(ix, header).(status := BlockStatus(TREE, NOT_FAILED))
  }

  ghost function WithBlock(P: Params, ix: Index, header: Header): Index
    requires Linked(ix) && header.prev in ix
  {
    ix[P.hash(header) := NewRecord(ix, header)]
  }

  /** The header is new and passes every check. */
  ghost predicate Acceptable(P: Params, ix: Index, header: Header, now: int)
    requires Linked(ix)
  {
    P.hash(header) !in ix && AcceptError(P, ix, header, now, true) == None
  }

  /** What it takes to be accepted, without the order of the checks. */
  lemma AcceptableMeans(P: Params, ix: Index, header: Header, now: int)
    requires Linked(ix)
    ensures Acceptable(P, ix, header, now)
            <==> && P.hash(header) !in ix && header.prev != NULL_HASH
                 && header.prev in ix && !ix[header.prev].status.IsFailed()
                 && P.commitmentOk(header) && P.fullOk(header)
                 && header.bits == ExpectedBits(P, ix, Some(header.prev))
                 && MedianTimePast(ix, header.prev) < header.time <= now + 7200
                 && header.version >= 1
  {
  }

  /** The reject reasons that a peer is not blamed for, or not always. */
  lemma SpecialReasons(P: Params, ix: Index, header: Header, now: int, minPowChecked: bool)
    requires Linked(ix)
    ensures AcceptError(P, ix, header, now, minPowChecked) == Some(PrevBlkNotFound)
            <==> && P.hash(header) !in ix && P.commitmentOk(header)
                 && header.prev != NULL_HASH && header.prev !in ix
    ensures AcceptError(P, ix, header, now, minPowChecked) == Some(Duplicate)
            <==> P.hash(header) in ix && ix[P.hash(header)].status.IsFailed()
    ensures AcceptError(P, ix, header, now, minPowChecked) == Some(TooLittleChainwork)
            <==> !minPowChecked && Acceptable(P, ix, header, now)
  {
  }

  lemma AddLinked(P: Params, ix: Index, header: Header)
    requires Linked(ix) && header.prev in ix && P.hash(header) !in ix
    ensures var ix2 := WithBlock(P, ix, header);
            Linked(ix2) && Extends(ix, ix2) && ix2.Keys == ix.Keys + {P.hash(header)}
  {
    var ix2 := WithBlock(P, ix, header);
    forall h | h in ix2 ensures LinkedAt(ix2, h) {
      if h in ix {
        assert LinkedAt(ix, h);
      }
    }
  }

  lemma AddBuilt(P: Params, ix: Index, header: Header, h: Hash)
    requires Tree(P.hash, P.genesisHash, ix) && header.prev in ix && P.hash(header) !in ix
    requires h in WithBlock(P, ix, header)
    ensures Linked(WithBlock(P, ix, header)) && BuiltAt(P.hash, WithBlock(P, ix, header), h)
  {
    var ix2 := WithBlock(P, ix, header);
    AddLinked(P, ix, header);
    assert LinkedAt(ix2, h);
    if h in ix {
      assert BuiltAt(P.hash, ix, h);
      if ix[h].prev.Some? {
        AncestorExtends(ix, ix2, ix[h].prev.value, SkipHeight(ix[h].height));
      }
    } else {
      AncestorExtends(ix, ix2, header.prev, SkipHeight(ix[header.prev].height + 1));
    }
  }

  lemma AddChecked(P: Params, ix: Index, header: Header, now: int, h: Hash)
    requires Tree(P.hash, P.genesisHash, ix) && Checked(P, ix) && Acceptable(P, ix, header, now)
    requires h in WithBlock(P, ix, header)
    ensures Linked(WithBlock(P, ix, header)) && CheckedAt(P, WithBlock(P, ix, header), h)
  {
    var ix2 := WithBlock(P, ix, header);
    AddLinked(P, ix, header);
    assert LinkedAt(ix2, h);
    if h in ix {
      assert CheckedAt(P, ix, h);
      CheckedExtends(P, ix, ix2, h);
    } else {
      TimesExtends(ix, ix2, header.prev, MEDIAN_TIME_SPAN);
      ExpectedBitsExtends(P, ix, ix2, header.prev);
    }
  }

  lemma AddKeepsTree(P: Params, ix: Index, header: Header)
    requires Tree(P.hash, P.genesisHash, ix) && header.prev in ix && P.hash(header) !in ix
    ensures Tree(P.hash, P.genesisHash, WithBlock(P, ix, header)) && Extends(ix, WithBlock(P, ix, header))
  {
    var ix2 := WithBlock(P, ix, header);
    AddLinked(P, ix, header);
    forall h | h in ix2 ensures BuiltAt(P.hash, ix2, h) {
      AddBuilt(P, ix, header, h);
    }
  }

  lemma AddKeepsClosure(P: Params, ix: Index, header: Header)
    requires Linked(ix) && FailureClosed(ix) && header.prev in ix && P.hash(header) !in ix && !IsFailed(ix, header.prev)
    ensures Linked(WithBlock(P, ix, header)) && FailureClosed(WithBlock(P, ix, header))
  {
    var ix2 := WithBlock(P, ix, header);
    AddLinked(P, ix, header);
    forall h | h in ix2 && LinkedAt(ix2, h) ensures ClosedAt(ix2, h) {
      if h in ix {
        assert LinkedAt(ix, h) && ClosedAt(ix, h);
      }
    }
  }

  /** Adding an acceptable header keeps everything that is known of the index. */
  lemma {:induction false} AddKeepsIndex(P: Params, ix: Index, header: Header, now: int)
    requires IndexOk(P, ix) && Acceptable(P, ix, header, now)
    ensures IndexOk(P, WithBlock(P, ix, header)) && Extends(ix, WithBlock(P, ix, header))
  {
    AddKeepsTree(P, ix, header);
    AddKeepsClosure(P, ix, header);
    forall h | h in WithBlock(P, ix, header) ensures CheckedAt(P, WithBlock(P, ix, header), h) {
      AddChecked(P, ix, header, now, h);
    }
  }

  ghost function AddBlock(P: Params, s: State, header: Header): State
    requires Linked(s.index) && header.prev in s.index
  {
    s.(index := WithBlock(P, s.index, header))
  }

  lemma {:induction false} AddKeepsInv(P: Params, s: State, header: Header, now: int)
    requires Inv(P, s) && Acceptable(P, s.index, header, now)
    ensures Inv(P, AddBlock(P, s, header))
  {
    AddKeepsIndex(P, s.index, header, now);
    PathExtends(s.index, WithBlock(P, s.index, header), Tip(s));
  }

  // ---------- events ----------

  /** Disconnecting the chain from its tip down to n blocks. */
  function DisconnectEvents(chain: seq<Hash>, n: nat): seq<Event>
    decreases |chain|
  {
    if |chain| <= n then [] else [BlockDisconnected(Last(chain))] + DisconnectEvents(chain[..|chain| - 1], n)
  }

  /** Connecting the blocks of path above its first n. */
  function ConnectEvents(path: seq<Hash>, n: nat): seq<Event>
    decreases |path|
  {
    if |path| <= n then [] else ConnectEvents(path[..|path| - 1], n) + [BlockConnected(Last(path))]
  }

  /**
   A listener that pops on disconnect and pushes on connect. It is strict: None as soon as
   the block popped is not its last one.
   */
  function Replay(chain: Option<seq<Hash>>, events: seq<Event>): Option<seq<Hash>>
    decreases |events|
  {
    if chain.None? || events == [] then chain
    else Replay(ReplayOne(chain.value, events[0]), events[1..])
  }

  function ReplayOne(chain: seq<Hash>, e: Event): Option<seq<Hash>>
  {
    match e
    case BlockConnected(h) => Some(chain + [h])
    case BlockDisconnected(h) => if chain != [] && Last(chain) == h then Some(chain[..|chain| - 1]) else None
    case TipChanged(h, height) => if chain != [] && Last(chain) == h && |chain| == height + 1 then Some(chain) else None
  }

  lemma {:induction false} ReplayAppend(chain: Option<seq<Hash>>, a: seq<Event>, b: seq<Event>)
    ensures Replay(chain, a + b) == Replay(Replay(chain, a), b)
    decreases |a|
  {
    if a == [] {
      assert a + b == b;
    } else if chain.Some? {
      assert (a + b)[1..] == a[1..] + b;
      ReplayAppend(ReplayOne(chain.value, a[0]), a[1..], b);
    }
  }

  lemma {:induction false} ReplayDisconnect(chain: seq<Hash>, n: nat)
    requires n <= |chain|
    ensures Replay(Some(chain), DisconnectEvents(chain, n)) == Some(chain[..n])
    decreases |chain|
  {
    if |chain| > n {
      var rest := chain[..|chain| - 1];
      var ev := DisconnectEvents(chain, n);
      assert ev[1..] == DisconnectEvents(rest, n);
      ReplayDisconnect(rest, n);
      assert rest[..n] == chain[..n];
    } else {
      assert chain[..n] == chain;
    }
  }

  lemma {:induction false} ReplayConnect(path: seq<Hash>, n: nat)
    requires n <= |path|
    ensures Replay(Some(path[..n]), ConnectEvents(path, n)) == Some(path)
    decreases |path|
  {
    if |path| > n {
      var rest := path[..|path| - 1];
      ReplayConnect(rest, n);
      assert rest[..n] == path[..n];
      ReplayAppend(Some(path[..n]), ConnectEvents(rest, n), [BlockConnected(Last(path))]);
      assert rest + [Last(path)] == path;
    } else {
      assert path[..n] == path;
    }
  }

  /** How many blocks two chains share from the bottom. */
  function CommonPrefix(p: seq<Hash>, q: seq<Hash>): (n: nat)
    ensures n <= |p| && n <= |q|
  {
    if p == [] || q == [] || p[0] != q[0] then 0 else 1 + CommonPrefix(p[1..], q[1..])
  }

  lemma {:induction false} CommonPrefixIsFork(p: seq<Hash>, q: seq<Hash>)
    ensures IsFork(p, q, CommonPrefix(p, q))
  {
    var n := CommonPrefix(p, q);
    if n > 0 {
      CommonPrefixIsFork(p[1..], q[1..]);
      assert p[..n] == [p[0]] + p[1..][..n - 1];
      assert q[..n] == [q[0]] + q[1..][..n - 1];
    }
  }

  /** The events of moving from one chain to another through their fork. */
  function SwitchEvents(chain: seq<Hash>, path: seq<Hash>): seq<Event>
    requires path != []
  {
    var n := CommonPrefix(chain, path);
    DisconnectEvents(chain, n) + ConnectEvents(path, n) + [TipChanged(Last(path), |path| - 1)]
  }

  /** A listener that follows the events of a switch ends with exactly the new chain. */
  lemma {:induction false} ReplaySwitch(chain: seq<Hash>, path: seq<Hash>)
    requires path != []
    ensures Replay(Some(chain), SwitchEvents(chain, path)) == Some(path)
  {
    var n := CommonPrefix(chain, path);
    CommonPrefixIsFork(chain, path);
    ReplayDisconnect(chain, n);
    ReplayConnect(path, n);
    ReplayAppend(Some(chain), DisconnectEvents(chain, n), ConnectEvents(path, n));
    var last := [TipChanged(Last(path), |path| - 1)];
    ReplayAppend(Some(chain), DisconnectEvents(chain, n) + ConnectEvents(path, n), last);
    assert last[1..] == [];
  }

  // ---------- activation ----------

  /** tip height minus fork height */
  ghost function ReorgDepth(s: State, c: Hash): nat
    requires Linked(s.index) && c in s.index
  {
    |s.chain| - CommonPrefix(s.chain, Path(s.index, c))
  }

  predicate Expired(P: Params, height: int)
  {
    P.expirationInterval > 0 && height > P.expirationInterval
  }

  ghost predicate Refused(P: Params, s: State, c: Hash)
    requires Linked(s.index) && c in s.index
  {
    P.suspiciousReorgDepth > 0 && ReorgDepth(s, c) >= P.suspiciousReorgDepth
  }

  ghost function SwitchTo(s: State, c: Hash): State
    requires Linked(s.index) && c in s.index && s.cands <= s.index.Keys
  {
    var path := Path(s.index, c);
    s.(chain := path, cands := AfterPrune(s.index, s.cands, path))
  }

  /** ActivateBestChain(nullptr): try the best candidate, demote it when policy refuses, repeat. */
  ghost function Activate(P: Params, s: State): Outcome
    requires Linked(s.index) && s.chain != [] && Tip(s) in s.index && s.cands <= s.index.Keys
    decreases |s.cands|
  {
    var s1 := s.(cands := AfterFind(s.index, s.cands));
    match BestViable(s.index, s.cands)
    case None => Outcome(s1, [], true)
    case Some(c) =>
      if c == Tip(s) then Outcome(s1, [], true)
      else if Expired(P, s.index[c].height) then Outcome(s1, [], false)
      else if s.index[c].chainWork <= s.index[Tip(s)].chainWork then Outcome(s1, [], true)
      else if Refused(P, s, c) then
        CandidateDropped(s.index, s.cands, c);
        Activate(P, s1.(cands := s1.cands - {c}))
      else Outcome(SwitchTo(s1, c), SwitchEvents(s.chain, Path(s.index, c)), true)
  }

  lemma CandidateDropped(ix: Index, S: set<Hash>, c: Hash)
    requires S <= ix.Keys && BestViable(ix, S) == Some(c)
    ensures c in AfterFind(ix, S) && AfterFind(ix, S) <= S
    ensures |AfterFind(ix, S) - {c}| < |S|
  {
    var T := AfterFind(ix, S) - {c};
    assert T <= S - {c};
    SubsetSize(T, S - {c});
  }

  // ---------- invalidation ----------

  /** x and its descendants. */
  ghost function Subtree(ix: Index, x: Hash): set<Hash>
    requires Linked(ix) && x in ix
  {
    set h | h in ix && IsAncestor(ix, x, h)
  }

  /** x becomes VALIDATION_FAILED, its descendants ANCESTOR_FAILED. */
  ghost function Marked(ix: Index, x: Hash): Index
    requires Linked(ix) && x in ix
  {
    map h | h in ix ::
      if h == x then ix[h].(status := ix[h].status.(failure := VALIDATION_FAILED))
      else if IsAncestor(ix, x, h) then ix[h].(status := ix[h].status.(failure := ANCESTOR_FAILED))
      else ix[h]
  }

  predicate OnChain(ix: Index, chain: seq<Hash>, h: Hash)
    requires h in ix
  {
    ix[h].height < |chain| && chain[ix[h].height] == h
  }

  /** Blocks off the active chain that could replace it once it ends below x. */
  ghost function Competitors(s: State, floor: nat): set<Hash>
  {
    set h | h in s.index && !OnChain(s.index, s.chain, h) && s.index[h].chainWork >= floor && Viable(s.index, h)
  }

  ghost function ViableLeaves(ix: Index, floor: nat): set<Hash>
  {
    set h | h in ix && Viable(ix, h) && ix[h].chainWork >= floor && !HasChild(ix, h)
  }

  /** InvalidateBlock: cut the chain below x, mark x and its descendants, rebuild the candidates. */
  ghost function Invalidate(s: State, x: Hash): Outcome
    requires Linked(s.index) && s.chain != [] && Tip(s) in s.index
  {
    if x !in s.index || s.index[x].height == 0 then Outcome(s, [], false)
    else
      var ix, h := s.index, s.index[x].height;
      var on := OnChain(ix, s.chain, x);
      var chain := if on then s.chain[..h] else s.chain;
      var cands :=
        if on && Last(chain) in ix then s.cands + {Last(chain)} + Competitors(s, ix[Last(chain)].chainWork)
        else s.cands;
      var marked := Marked(ix, x);
      var floor := if Last(chain) in ix then ix[Last(chain)].chainWork else 0;
      Outcome(
        State(marked, chain, (cands - Subtree(ix, x)) + ViableLeaves(marked, floor), s.failed + Subtree(ix, x)),
        if on then DisconnectEvents(s.chain, h) else [],
        true)
  }
}
