/** Theorems about whole runs, from Initialize on. */
module RunTheorems {
  import opened Types
  import opened BlockTree
  import opened CandidateTips
  import opened Consensus
  import opened ConsensusState
  import opened ChainRuns
  import Compact

  // ---------- the initial state ----------

  ghost predicate GenesisOk(P: Params, g: Header)
  {
    P.hash(g) == P.genesisHash && g.prev == NULL_HASH && Compact.BlockProof(g.bits) > 0
  }

  /** ChainstateManager::Initialize */
  function Initial(P: Params, g: Header): State
  {
    var h := P.hash(g);
    State(map[h := RootRecord(g).(status := BlockStatus(TREE, NOT_FAILED))],
          [h], {h}, {})
  }

  lemma InitialTree(P: Params, g: Header)
    requires GenesisOk(P, g)
    ensures IndexOk(P, Initial(P, g).index)
  {
    var ix, h := Initial(P, g).index, P.hash(g);
    assert forall x :: x in ix ==> x == h;
    assert LinkedAt(ix, h);
    assert Linked(ix);
    assert BuiltAt(P.hash, ix, h);
    assert CheckedAt(P, ix, h);
  }

  lemma InitialOk(P: Params, g: Header)
    requires GenesisOk(P, g)
    ensures Inv(P, Initial(P, g)) && Best(Initial(P, g))
  {
    InitialTree(P, g);
    var s := Initial(P, g);
    assert Path(s.index, P.hash(g)) == s.chain;
  }

  // ---------- steps ----------

  /**
   The public operations. Headers accepted out of the orphan pool are further `Accept`
   steps: AcceptBlockHeader drains the pool by calling itself.
   */
  datatype Op =
    | Accept(header: Header, now: int, minPowChecked: bool)
    | TryAdd(block: Hash)
    | ActivateBestChain
    | InvalidateBlock(block: Hash)

  ghost function AcceptStep(P: Params, s: State, header: Header, now: int, minPowChecked: bool): State
    requires Linked(s.index)
  {
    if P.hash(header) !in s.index && AcceptError(P, s.index, header, now, minPowChecked) == None
    then AddBlock(P, s, header)
    else s
  }

  ghost function Step(P: Params, s: State, op: Op): Outcome
    requires Inv(P, s)
  {
    match op
    case Accept(header, now, minPowChecked) => Outcome(AcceptStep(P, s, header, now, minPowChecked), [], true)
    case TryAdd(h) =>
      Outcome(if h in s.index then s.(cands := AfterTryAdd(s.index, s.cands, h)) else s, [], true)
    case ActivateBestChain => Activate(P, s)
    case InvalidateBlock(x) => Invalidate(s, x)
  }

  lemma {:induction false} StepKeepsInv(P: Params, s: State, op: Op)
    requires Inv(P, s)
    ensures Inv(P, Step(P, s, op).state)
  {
    match op
    case Accept(header, now, minPowChecked) =>
      if AcceptStep(P, s, header, now, minPowChecked) != s {
        AddKeepsInv(P, s, header, now);
      }
    case TryAdd(h) =>
    case ActivateBestChain => ActivateKeepsInv(P, s);
    case InvalidateBlock(x) => InvalidateKeepsInv(P, s, x);
  }

  /** The state after a run, and everything the listeners were told. */
  ghost function Run(P: Params, s: State, ops: seq<Op>): (t: State)
    requires Inv(P, s)
    ensures Inv(P, t)
    decreases |ops|
  {
    if ops == [] then s
    else
      StepKeepsInv(P, s, ops[0]);
      Run(P, Step(P, s, ops[0]).state, ops[1..])
  }

  ghost function RunEvents(P: Params, s: State, ops: seq<Op>): seq<Event>
    requires Inv(P, s)
    decreases |ops|
  {
    if ops == [] then []
    else
      StepKeepsInv(P, s, ops[0]);
      Step(P, s, ops[0]).events + RunEvents(P, Step(P, s, ops[0]).state, ops[1..])
  }

  /** In every run from Initialize, descendants of failed blocks are failed and no active block is. */
  lemma {:induction false} FailureClosureInRuns(P: Params, g: Header, ops: seq<Op>)
    requires GenesisOk(P, g)
    ensures Inv(P, Initial(P, g))
    ensures var t := Run(P, Initial(P, g), ops);
            && (forall h, a {:trigger IsFailed(t.index, h), IsFailed(t.index, a)} ::
                  h in t.index && a in t.index && IsAncestor(t.index, a, h) && IsFailed(t.index, a) ==>
                  IsFailed(t.index, h))
            && (forall k {:trigger t.chain[k]} :: 0 <= k < |t.chain| ==>
                  t.chain[k] in t.index && !IsFailed(t.index, t.chain[k]))
  {
    InitialOk(P, g);
    var t := Run(P, Initial(P, g), ops);
    forall h, a | h in t.index && a in t.index && IsAncestor(t.index, a, h) && IsFailed(t.index, a)
      ensures IsFailed(t.index, h)
    {
      FailureReachesDescendants(t.index, h, t.index[a].height);
    }
    forall k | 0 <= k < |t.chain|
      ensures t.chain[k] in t.index && !IsFailed(t.index, t.chain[k])
    {
      NoActiveBlockFailed(P, t, k);
    }
  }

  lemma StepReplays(P: Params, s: State, op: Op)
    requires Inv(P, s)
    ensures Replay(Some(s.chain), Step(P, s, op).events) == Some(Step(P, s, op).state.chain)
  {
    match op
    case Accept(header, now, minPowChecked) =>
    case TryAdd(h) =>
    case ActivateBestChain => ActivateReplays(P, s);
    case InvalidateBlock(x) => InvalidateReplays(P, s, x);
  }

  /** In every run, a listener that replays the notifications holds exactly the active chain. */
  lemma {:induction false} NotificationsReplayInRuns(P: Params, s: State, ops: seq<Op>)
    requires Inv(P, s)
    ensures Replay(Some(s.chain), RunEvents(P, s, ops)) == Some(Run(P, s, ops).chain)
    decreases |ops|
  {
    if ops != [] {
      StepKeepsInv(P, s, ops[0]);
      StepReplays(P, s, ops[0]);
      var o := Step(P, s, ops[0]);
      NotificationsReplayInRuns(P, o.state, ops[1..]);
      ReplayAppend(Some(s.chain), o.events, RunEvents(P, o.state, ops[1..]));
    }
  }

  /** Call i of the run added block h, and let it in at most two hours ahead of the clock. */
  ghost predicate AddedBy(P: Params, ops: seq<Op>, i: nat, h: Hash, time: int)
  {
    && i < |ops| && ops[i].Accept? && P.hash(ops[i].header) == h
    && ops[i].header.time == time <= ops[i].now + 7200 && ops[i].minPowChecked
  }

  lemma StepAdds(P: Params, s: State, op: Op, h: Hash)
    requires Inv(P, s)
    ensures s.index.Keys <= Step(P, s, op).state.index.Keys
    ensures h in s.index ==> Step(P, s, op).state.index[h].header == s.index[h].header
    ensures h in Step(P, s, op).state.index && h !in s.index ==>
              AddedBy(P, [op], 0, h, Step(P, s, op).state.index[h].header.time)
  {
    match op
    case Accept(header, now, minPowChecked) => AcceptableMeans(P, s.index, header, now);
    case TryAdd(x) =>
    case ActivateBestChain => ActivateShape(P, s);
    case InvalidateBlock(x) =>
  }

  /** Every block that a run adds was added by one of its calls, and was not from the future at that call. */
  lemma {:induction false} NoBlockFromTheFuture(P: Params, s: State, ops: seq<Op>, h: Hash)
    requires Inv(P, s)
    ensures h in s.index ==> h in Run(P, s, ops).index && Run(P, s, ops).index[h].header == s.index[h].header
    ensures h in Run(P, s, ops).index && h !in s.index ==>
              exists i: nat :: AddedBy(P, ops, i, h, Run(P, s, ops).index[h].header.time)
    decreases |ops|
  {
    if ops != [] {
      StepKeepsInv(P, s, ops[0]);
      var mid := Step(P, s, ops[0]).state;
      StepAdds(P, s, ops[0], h);
      NoBlockFromTheFuture(P, mid, ops[1..], h);
      if h in Run(P, s, ops).index && h !in s.index {
        var time := Run(P, s, ops).index[h].header.time;
        if h in mid.index {
          assert AddedBy(P, ops, 0, h, time);
        } else {
          var i: nat :| AddedBy(P, ops[1..], i, h, time);
          assert AddedBy(P, ops, i + 1, h, time);
        }
      }
    }
  }

  // ---------- best chain over runs ----------

  /** The calls a node makes when its orphan pool is empty. */
  datatype Call =
    | ProcessNewBlockHeader(header: Header, now: int, minPowChecked: bool)
    | InvalidateThenActivate(block: Hash)

  lemma AcceptedPointerLive(P: Params, s: State, header: Header, now: int, minPowChecked: bool)
    requires Inv(P, s) && AcceptError(P, s.index, header, now, minPowChecked).None?
    ensures var s1 := AcceptStep(P, s, header, now, minPowChecked);
            Inv(P, s1) && P.hash(header) in s1.index
            && AfterTryAdd(s1.index, s1.cands, P.hash(header)) <= s1.index.Keys
  {
    StepKeepsInv(P, s, Accept(header, now, minPowChecked));
  }

  ghost function ProcessHeader(P: Params, s: State, header: Header, now: int, minPowChecked: bool): State
    requires Inv(P, s)
  {
    if AcceptError(P, s.index, header, now, minPowChecked).Some? then s
    else
      AcceptedPointerLive(P, s, header, now, minPowChecked);
      var s1 := AcceptStep(P, s, header, now, minPowChecked);
      Activate(P, s1.(cands := AfterTryAdd(s1.index, s1.cands, P.hash(header)))).state
  }

  ghost function CallStep(P: Params, s: State, c: Call): State
    requires Inv(P, s)
  {
    match c
    case ProcessNewBlockHeader(header, now, minPowChecked) => ProcessHeader(P, s, header, now, minPowChecked)
    case InvalidateThenActivate(x) =>
      InvalidateKeepsInv(P, s, x);
      Activate(P, Invalidate(s, x).state).state
  }

  lemma BestIsCover(s: State)
    requires s.chain != [] && Tip(s) in s.index && Best(s)
    ensures Cover(s)
  {
  }

  lemma {:induction false} CallKeepsBest(P: Params, s: State, c: Call)
    requires Inv(P, s) && Best(s) && P.suspiciousReorgDepth <= 0 && P.expirationInterval <= 0
    ensures Inv(P, CallStep(P, s, c)) && Best(CallStep(P, s, c))
  {
    BestIsCover(s);
    match c
    case ProcessNewBlockHeader(header, now, minPowChecked) =>
      if AcceptError(P, s.index, header, now, minPowChecked).None? {
        var h := P.hash(header);
        if h in s.index {
          TryAddKeepsCover(P, s, h);
          ActivateBest(P, s.(cands := AfterTryAdd(s.index, s.cands, h)));
        } else {
          AcceptThenTryAddKeepsCover(P, s, header, now);
          ActivateBest(P, AcceptedAndOffered(P, s, header));
        }
      }
    case InvalidateThenActivate(x) =>
      InvalidateCovers(P, s, x);
      ActivateBest(P, Invalidate(s, x).state);
  }

  ghost function CallRun(P: Params, s: State, calls: seq<Call>): (t: State)
    requires Inv(P, s) && Best(s) && P.suspiciousReorgDepth <= 0 && P.expirationInterval <= 0
    ensures Inv(P, t) && Best(t)
    decreases |calls|
  {
    if calls == [] then s
    else
      CallKeepsBest(P, s, calls[0]);
      CallRun(P, CallStep(P, s, calls[0]), calls[1..])
  }

  /** After every call of every such run, the tip has maximal work among all blocks that have not failed. */
  lemma {:induction false} BestChainInRuns(P: Params, g: Header, calls: seq<Call>)
    requires GenesisOk(P, g) && P.suspiciousReorgDepth <= 0 && P.expirationInterval <= 0
    ensures Inv(P, Initial(P, g)) && Best(Initial(P, g))
    ensures var t := CallRun(P, Initial(P, g), calls);
            forall b {:trigger t.index[b].chainWork} :: b in t.index && !IsFailed(t.index, b) ==>
              t.index[b].chainWork <= t.index[Tip(t)].chainWork
  {
    InitialOk(P, g);
  }

  // ---------- convergence ----------

  ghost predicate Injective(f: Header -> Hash)
  {
    forall x, y {:trigger f(x), f(y)} :: f(x) == f(y) ==> x == y
  }

  /** Two trees agree on every block they share: its header, height, work and path. */
  lemma {:induction false} SharedBlocksAgree(P: Params, ix1: Index, ix2: Index, h: Hash)
    requires Tree(P.hash, P.genesisHash, ix1) && Tree(P.hash, P.genesisHash, ix2) && Injective(P.hash)
    requires h in ix1 && h in ix2
    ensures ix1[h].header == ix2[h].header && ix1[h].height == ix2[h].height
    ensures ix1[h].chainWork == ix2[h].chainWork && ix1[h].prev == ix2[h].prev
    decreases ix1[h].height
  {
    assert BuiltAt(P.hash, ix1, h) && BuiltAt(P.hash, ix2, h);
    if ix1[h].prev.Some? {
      SharedParent(P, ix1, ix2, h);
      SharedBlocksAgree(P, ix1, ix2, ix1[h].prev.value);
    }
  }

  lemma SharedParent(P: Params, ix1: Index, ix2: Index, h: Hash)
    requires Tree(P.hash, P.genesisHash, ix1) && Tree(P.hash, P.genesisHash, ix2) && Injective(P.hash)
    requires h in ix1 && h in ix2 && ix1[h].prev.Some?
    ensures ix2[h].prev == ix1[h].prev && ix1[h].prev.value in ix1 && ix1[h].prev.value in ix2
  {
    assert BuiltAt(P.hash, ix1, h) && BuiltAt(P.hash, ix2, h);
    assert LinkedAt(ix2, h);
  }

  predicate OnlyProcess(calls: seq<Call>)
  {
    forall i :: 0 <= i < |calls| ==> calls[i].ProcessNewBlockHeader?
  }

  /** Processing headers never marks a block failed. */
  lemma {:induction false} ProcessingFailsNothing(P: Params, s: State, calls: seq<Call>)
    requires Inv(P, s) && Best(s) && P.suspiciousReorgDepth <= 0 && P.expirationInterval <= 0
    requires OnlyProcess(calls) && s.failed == {}
    ensures CallRun(P, s, calls).failed == {}
    decreases |calls|
  {
    if calls != [] {
      var c := calls[0];
      CallKeepsBest(P, s, c);
      var s1 := AcceptStep(P, s, c.header, c.now, c.minPowChecked);
      var t := CallStep(P, s, c);
      if AcceptError(P, s.index, c.header, c.now, c.minPowChecked).None? {
        AcceptedPointerLive(P, s, c.header, c.now, c.minPowChecked);
        ActivateShape(P, s1.(cands := AfterTryAdd(s1.index, s1.cands, P.hash(c.header))));
      }
      assert t.failed == {};
      ProcessingFailsNothing(P, t, calls[1..]);
    }
  }

  /**
   Two nodes that accepted the same headers, in whatever orders, end with tips of equal
   work, and with the same tip when only one block has that work.
   */
  lemma {:induction false} NodesConverge(P: Params, g: Header, calls1: seq<Call>, calls2: seq<Call>)
    requires GenesisOk(P, g) && Injective(P.hash) && P.suspiciousReorgDepth <= 0 && P.expirationInterval <= 0
    requires OnlyProcess(calls1) && OnlyProcess(calls2)
    ensures Inv(P, Initial(P, g)) && Best(Initial(P, g))
    ensures var t1, t2 := CallRun(P, Initial(P, g), calls1), CallRun(P, Initial(P, g), calls2);
            t1.index.Keys == t2.index.Keys ==>
              && t1.index[Tip(t1)].chainWork == t2.index[Tip(t2)].chainWork
              && ((forall h :: h in t1.index && t1.index[h].chainWork == t1.index[Tip(t1)].chainWork ==>
                     h == Tip(t1)) ==>
                    Tip(t2) == Tip(t1))
  {
    InitialOk(P, g);
    var t1, t2 := CallRun(P, Initial(P, g), calls1), CallRun(P, Initial(P, g), calls2);
    ProcessingFailsNothing(P, Initial(P, g), calls1);
    ProcessingFailsNothing(P, Initial(P, g), calls2);
    if t1.index.Keys == t2.index.Keys {
      SharedBlocksAgree(P, t1.index, t2.index, Tip(t1));
      SharedBlocksAgree(P, t1.index, t2.index, Tip(t2));
      assert Tip(t1) !in t1.failed && Tip(t2) !in t1.failed && Tip(t1) !in t2.failed;
    }
  }

  // ---------- permanence on regtest ----------

  function UnitWork(P: Params): nat { Compact.BlockProof(Compact.GetCompact(P.powLimit)) }

  function Multiple(n: nat, w: nat): nat
  {
    if n == 0 then 0 else Multiple(n - 1, w) + w
  }

  lemma MultipleMono(n: nat, m: nat, w: nat)
    requires w > 0
    ensures Multiple(n, w) < Multiple(m, w) <==> n < m
  {
    if n > 0 && m > 0 {
      MultipleMono(n - 1, m - 1, w);
    }
  }

  /** With constant difficulty, work counts blocks. */
  lemma {:induction false} RegtestWork(P: Params, ix: Index, h: Hash)
    requires IndexOk(P, ix) && P.regtest && ix[P.genesisHash].header.bits == Compact.GetCompact(P.powLimit)
    requires h in ix
    ensures ix[h].chainWork == Multiple(ix[h].height + 1, UnitWork(P))
    decreases ix[h].height
  {
    assert BuiltAt(P.hash, ix, h) && CheckedAt(P, ix, h);
    if ix[h].prev.Some? {
      RegtestWork(P, ix, ix[h].prev.value);
    } else {
      assert Multiple(1, UnitWork(P)) == UnitWork(P);
    }
  }

  /** The block at height k is d or more blocks deep, counting itself from the tip. */
  predicate Buried(s: State, k: nat, d: int)
  {
    k < |s.chain| && k + d <= |s.chain|
  }

  ghost predicate RegtestOk(P: Params, s: State)
  {
    && Inv(P, s) && P.regtest && P.suspiciousReorgDepth > 0 && UnitWork(P) > 0
    && s.index[P.genesisHash].header.bits == Compact.GetCompact(P.powLimit)
  }

  lemma ForkAboveBuried(chain: seq<Hash>, path: seq<Hash>, k: nat, d: nat)
    requires k + d <= |chain| && |chain| - CommonPrefix(chain, path) < d
    ensures k < |path| && k < |chain| && path[k] == chain[k]
  {
    var n := CommonPrefix(chain, path);
    CommonPrefixIsFork(chain, path);
    assert chain[..n][k] == path[..n][k];
  }

  /** More work means a longer path. */
  lemma MoreWorkIsLonger(P: Params, s: State, c: Hash)
    requires RegtestOk(P, s) && c in s.index && s.index[c].chainWork > s.index[Tip(s)].chainWork
    ensures |Path(s.index, c)| > |s.chain|
  {
    RegtestWork(P, s.index, c);
    RegtestWork(P, s.index, Tip(s));
    MultipleMono(s.index[Tip(s)].height + 1, s.index[c].height + 1, UnitWork(P));
  }

  lemma ActivateKeepsBuried(P: Params, s: State, k: nat)
    requires RegtestOk(P, s) && Buried(s, k, P.suspiciousReorgDepth)
    ensures var t := Activate(P, s).state;
            Buried(t, k, P.suspiciousReorgDepth) && t.chain[k] == s.chain[k]
  {
    ActivateShape(P, s);
    var o := Activate(P, s);
    if !Stayed(s, o) {
      var c :| MovedTo(P, s, o, c);
      ForkAboveBuried(s.chain, Path(s.index, c), k, P.suspiciousReorgDepth);
      MoreWorkIsLonger(P, s, c);
    }
  }

  lemma StepKeepsBuried(P: Params, s: State, op: Op, k: nat)
    requires RegtestOk(P, s) && Buried(s, k, P.suspiciousReorgDepth) && !op.InvalidateBlock?
    ensures var t := Step(P, s, op).state;
            RegtestOk(P, t) && Buried(t, k, P.suspiciousReorgDepth) && t.chain[k] == s.chain[k]
  {
    StepKeepsInv(P, s, op);
    match op
    case Accept(header, now, minPowChecked) =>
    case TryAdd(h) =>
    case ActivateBestChain =>
      ActivateKeepsBuried(P, s, k);
      ActivateShape(P, s);
  }

  /**
   On regtest with policy depth d, a block once active at height at most tip.height - d + 1
   stays active, at its height, in every later state of any run without InvalidateBlock.
   */
  lemma {:induction false} BuriedBlocksStay(P: Params, s: State, ops: seq<Op>, k: nat)
    requires RegtestOk(P, s) && Buried(s, k, P.suspiciousReorgDepth)
    requires forall i {:trigger ops[i]} :: 0 <= i < |ops| ==> !ops[i].InvalidateBlock?
    ensures var t := Run(P, s, ops);
            Buried(t, k, P.suspiciousReorgDepth) && t.chain[k] == s.chain[k]
    decreases |ops|
  {
    if ops != [] {
      StepKeepsBuried(P, s, ops[0], k);
      BuriedBlocksStay(P, Step(P, s, ops[0]).state, ops[1..], k);
    }
  }
}
