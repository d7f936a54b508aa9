/** Concrete inputs on which the code does not do what one would want, one for each such finding. */
module Witnesses {
  import opened Types
  import opened BlockTree
  import opened Consensus
  import opened ConsensusState
  import opened ChainRuns
  import opened RunTheorems
  import opened Steps
  import opened OrphanPool
  import opened PoolDrain
  import opened PoolTheorems
  import opened HeaderServe
  import opened HeaderSync
  import opened SyncTheorems
  import opened ExampleNetwork
  import Compact
  import Loader

  // ---------- a pooled child hides the best chain ----------

  /** The child waits in the pool; then its parent arrives. */
  function WaitingChild(P: Params): Pool
  {
    map[P.hash(Child(P)) := OrphanHeader(Child(P), 900, 7)]
  }

  lemma TwoAdded(P: Params) returns (ix2: Index)
    requires Sample(P)
    ensures var s := Initial(P, GENESIS);
            && Adds(P, s.index, [Parent(P), Child(P)], ix2, 1000) && P.hash(Child(P)) in ix2
            && PooledChain(P, s.index, WaitingChild(P), Parent(P), [Parent(P), Child(P)], 1000)
  {
    var ix := Initial(P, GENESIS).index;
    ParentIsAcceptable(P);
    ChildIsAcceptable(P);
    var mid := WithBlock(P, ix, Parent(P));
    ix2 := WithBlock(P, mid, Child(P));
    AddsOne(P, ix, Parent(P), 1000);
    AddsOne(P, mid, Child(P), 1000);
    LeadsAppend(Adder(P, 1000), ix, [Parent(P)], mid, [Child(P)], ix2);
    assert [Parent(P)] + [Child(P)] == [Parent(P), Child(P)];
    assert [Parent(P), Child(P)][1..] == [Child(P)];
  }

  lemma WorkOfTwo(P: Params)
    requires Sample(P)
    ensures SumWork([Parent(P), Child(P)]) > 0
  {
    var hs := [Parent(P), Child(P)];
    BitsOfOne();
    HeaderWorkIsProof(Child(P));
    assert hs[..1] == [Parent(P)];
  }

  /** Accepting the parent drains the child, and whatever way that goes the tip is not best any more. */
  lemma {:induction false} PooledChildHidesTheBestChain(P: Params, added: seq<Header>, ix2: Index)
    requires Sample(P) && Drained(P, Initial(P, GENESIS).index, WaitingChild(P), Parent(P), added, ix2, 1000)
    ensures var s := Initial(P, GENESIS);
            && Linked(ix2) && P.hash(Parent(P)) in ix2 && Tip(s) in ix2 && s.cands <= ix2.Keys
            && !Best(ActivateOffered(P, s, ix2, P.hash(Parent(P))).state)
  {
    var s := Initial(P, GENESIS);
    GenesisIsOk(P);
    Distinct(P);
    ParentIsAcceptable(P);
    var two := TwoAdded(P);
    WorkOfTwo(P);
    PoolDecidesBest(P, s, WaitingChild(P), Parent(P), added, ix2, 1000);
  }

  lemma ParentDrainsChild(P: Params) returns (ix2: Index)
    requires Sample(P)
    ensures Drained(P, Initial(P, GENESIS).index, WaitingChild(P), Parent(P), [Parent(P), Child(P)], ix2, 1000)
  {
    ix2 := TwoAdded(P);
    ParentIsAcceptable(P);
    var added := [Parent(P), Child(P)];
    assert added[1..] == [Child(P)];
  }

  /** And there is a network, a pool and a drain like that. */
  lemma PoolCanHideTheBestChain() returns (P: Params, added: seq<Header>, ix2: Index)
    ensures Sample(P) && Drained(P, Initial(P, GENESIS).index, WaitingChild(P), Parent(P), added, ix2, 1000)
  {
    P := Net(0);
    NetIsSample(0);
    added := [Parent(P), Child(P)];
    ix2 := ParentDrainsChild(P);
  }

  // ---------- a peer whose chain has too little work ----------

  /** The peer is one block ahead. */
  ghost function Ahead(P: Params): State
    requires Sample(P)
  {
    ParentIsAcceptable(P);
    var h := P.hash(Parent(P));
    State(WithBlock(P, Initial(P, GENESIS).index, Parent(P)), [P.hash(GENESIS), h], {}, {})
  }

  lemma AheadIsOk(P: Params)
    requires Sample(P)
    ensures Inv(P, Ahead(P))
  {
    var s, q := Initial(P, GENESIS), Ahead(P);
    GenesisIsOk(P);
    Distinct(P);
    ParentIsAcceptable(P);
    AddKeepsInv(P, s, Parent(P), 1000);
    var h, g := P.hash(Parent(P)), P.hash(GENESIS);
    assert LinkedAt(q.index, h) && q.index[h].prev == Some(g);
    assert AncestorAt(q.index, g, 0) == g && AncestorAt(q.index, h, 0) == AncestorAt(q.index, g, 0);
    assert Path(q.index, h) == [g, h];
  }

  lemma AheadIsHonest(P: Params)
    requires Sample(P)
    ensures Honest(P, Ahead(P), 1000)
  {
    AheadIsOk(P);
    Distinct(P);
  }

  /** A well-behaved peer is ahead, below the minimum chain work: the exchange never takes its block. */
  lemma {:induction false} LowWorkPeerIsNeverFollowed(P: Params, rounds: nat)
    requires Sample(P) && P.minimumChainWork > Ahead(P).index[P.hash(Parent(P))].chainWork && rounds > 0
    ensures var s, q := Initial(P, GENESIS), Ahead(P);
            && Honest(P, q, 1000) && InStep(P, s, q) && Serves(P, q, true) && !PassesGate(P, s, q)
            && Sync(P, s, q, true, 1000, rounds) == Some(Turn(s, true, false)) && s.chain != q.chain
  {
    var s, q := Initial(P, GENESIS), Ahead(P);
    GenesisIsOk(P);
    AheadIsHonest(P);
    Distinct(P);
    assert s.chain == q.chain[..1];
    BestIsInStep(P, s, q, 1000);
    assert ReplyEnd(s, q) == 2 && q.chain[1] == P.hash(Parent(P));
    LowWorkPeerStalls(P, s, q, true, 1000, rounds);
  }

  lemma LowWorkPeerExists() returns (P: Params)
    ensures Sample(P) && P.minimumChainWork > Ahead(P).index[P.hash(Parent(P))].chainWork
  {
    NetIsSample(0);
    var w := Ahead(Net(0)).index[Code(Parent(Net(0)))].chainWork;
    P := Net(w + 1);
    NetIsSample(w + 1);
    assert Parent(P) == Parent(Net(0));
    SameWork(P, Net(0));
  }

  lemma SameWork(P: Params, Q: Params)
    requires Sample(P) && Sample(Q) && P.hash == Q.hash
    ensures Ahead(P).index[P.hash(Parent(P))].chainWork == Ahead(Q).index[Q.hash(Parent(Q))].chainWork
  {
  }

  // ---------- a stored work nobody checks ----------

  /** One block, stored with more work than it has. */
  function Inflated(P: Params): Loader.File
  {
    var g := P.hash(GENESIS);
    Loader.File(1, g, Some(g),
                [Loader.Record(g, GENESIS, 0, Compact.BlockProof(BITS) + 1, BlockStatus(TREE, NOT_FAILED))])
  }

  /** The file loads, and what is loaded is no tree AddToBlockIndex could have built. */
  lemma {:induction false} WrongWorkIsLoaded(P: Params, ix: Index)
    requires Sample(P) && Loader.Loaded(Loader.RecordsOf(Inflated(P).blocks), ix)
    requires ix.Keys == Loader.RecordsOf(Inflated(P).blocks).Keys
    ensures Loader.Loadable(P.hash, Inflated(P), P.hash(GENESIS)) && !Tree(P.hash, P.hash(GENESIS), ix)
  {
    var g, file := P.hash(GENESIS), Inflated(P);
    InflatedRecords(P);
    var recs := Loader.RecordsOf(file.blocks);
    assert Loader.HeightAt(recs, g) && Loader.LoadedAt(recs, ix, g);
    Loader.LoadedIsTree(P.hash, file, g, ix);
    assert !Loader.WorkRight(ix, g);
  }

  lemma InflatedRecords(P: Params)
    requires Sample(P)
    ensures Loader.RecordsOf(Inflated(P).blocks) == map[P.hash(GENESIS) := Inflated(P).blocks[0]]
    ensures Loader.Sound(P.hash, Inflated(P).blocks)
  {
    var blocks := Inflated(P).blocks;
    assert blocks[..0] == [] && blocks[..|blocks| - 1] == [];
  }
}
