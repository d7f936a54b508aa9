/**
 Moving the active tip: ConnectTip, DisconnectTip and the loops of ActivateBestChainStep
 and InvalidateBlock (src/chain/chainstate_manager.cpp:300-602).
 */
module Activation {
  import opened Types
  import opened BlockTree
  import opened Ancestry
  import opened ActiveChain
  import opened CandidateTips
  import opened ConsensusState
  import BlockStore

  /** v holds, slot by slot, the path `chain`. */
  ghost predicate Active(ix: Index, v: seq<Option<Hash>>, chain: seq<Hash>)
    requires Linked(ix)
  {
    chain != [] && Last(chain) in ix && chain == Path(ix, Last(chain)) && SlotsAre(v, chain)
  }

  lemma ActiveIsCoherent(ix: Index, v: seq<Option<Hash>>, chain: seq<Hash>)
    requires Linked(ix) && Active(ix, v, chain)
    ensures CoherentSlots(ix, v) && v != [] && Last(v) == Some(Last(chain))
  {
  }

  lemma HoldsIsActive(ix: Index, v: seq<Option<Hash>>, h: Hash)
    requires Linked(ix) && h in ix && |v| == ix[h].height + 1 && HoldsBelow(ix, v, h, 0, |v|)
    ensures Active(ix, v, Path(ix, h))
  {
  }

  /** The parent of the last block of a path is the block before it. */
  lemma ParentOnPath(ix: Index, chain: seq<Hash>)
    requires Linked(ix) && chain != [] && Last(chain) in ix && chain == Path(ix, Last(chain))
    ensures |chain| == 1 ==> ix[Last(chain)].prev == None
    ensures |chain| > 1 ==> ix[Last(chain)].prev == Some(chain[|chain| - 2])
    ensures |chain| > 1 ==> chain[|chain| - 2] in ix && Path(ix, chain[|chain| - 2]) == chain[..|chain| - 1]
  {
    StepDown(ix, Last(chain), |chain| - 1);
    if |chain| > 1 {
      PathOfAncestor(ix, Last(chain), |chain| - 2);
    }
  }

  /** DisconnectTip: the notification is queued before the tip moves to the parent. */
  method DisconnectTip(blocks: BlockStore.BlockManager, events: seq<Event>, ghost chain: seq<Hash>)
    returns (ok: bool, events': seq<Event>)
    requires Linked(blocks.index) && Active(blocks.index, blocks.activeChain.vChain, chain)
    modifies blocks.activeChain
    ensures ok == (|chain| > 1)
    ensures !ok ==> events' == events && blocks.activeChain.vChain == old(blocks.activeChain.vChain)
    ensures ok ==> events' == events + [BlockDisconnected(Last(chain))]
                   && Active(blocks.index, blocks.activeChain.vChain, chain[..|chain| - 1])
  {
    ActiveIsCoherent(blocks.index, blocks.activeChain.vChain, chain);
    ParentOnPath(blocks.index, chain);
    var tip := blocks.GetTip();
    var parent := blocks.index[tip.value].prev;
    if parent.None? {
      return false, events;
    }
    events' := events + [BlockDisconnected(tip.value)];
    blocks.SetActiveTip(parent.value);
    HoldsIsActive(blocks.index, blocks.activeChain.vChain, parent.value);
    ok := true;
  }

  /** ConnectTip: the tip moves before the notification is queued. */
  method ConnectTip(blocks: BlockStore.BlockManager, h: Hash, events: seq<Event>, ghost chain: seq<Hash>)
    returns (ok: bool, events': seq<Event>)
    requires Linked(blocks.index) && Active(blocks.index, blocks.activeChain.vChain, chain) && h in blocks.index
    modifies blocks.activeChain
    ensures ok && events' == events + [BlockConnected(h)]
    ensures Active(blocks.index, blocks.activeChain.vChain, Path(blocks.index, h))
  {
    ActiveIsCoherent(blocks.index, blocks.activeChain.vChain, chain);
    blocks.SetActiveTip(h);
    HoldsIsActive(blocks.index, blocks.activeChain.vChain, h);
    events' := events + [BlockConnected(h)];
    ok := true;
  }

  lemma DisconnectOne(chain: seq<Hash>, n: nat, events: seq<Event>, all: seq<Event>)
    requires n < |chain| && all == events + DisconnectEvents(chain, n)
    ensures all == (events + [BlockDisconnected(Last(chain))]) + DisconnectEvents(chain[..|chain| - 1], n)
  {
  }

  /** The disconnect loop of a reorganisation: pop until `fork` is the tip. */
  method DisconnectTo(blocks: BlockStore.BlockManager, fork: Hash, ghost chain: seq<Hash>)
    returns (events: seq<Event>)
    requires Linked(blocks.index) && Active(blocks.index, blocks.activeChain.vChain, chain)
    requires fork in blocks.index && IsAncestor(blocks.index, fork, Last(chain))
    modifies blocks.activeChain
    ensures events == DisconnectEvents(chain, blocks.index[fork].height + 1)
    ensures Active(blocks.index, blocks.activeChain.vChain, chain[..blocks.index[fork].height + 1])
  {
    events := [];
    ghost var n := blocks.index[fork].height + 1;
    ghost var left := chain;
    ActiveIsCoherent(blocks.index, blocks.activeChain.vChain, chain);
    var walk := blocks.GetTip();
    while walk != Some(fork)
      invariant n <= |left| <= |chain| && left == chain[..|left|]
      invariant Active(blocks.index, blocks.activeChain.vChain, left) && walk == Some(Last(left))
      invariant chain[n - 1] == fork
      invariant DisconnectEvents(chain, n) == events + DisconnectEvents(left, n)
      decreases |left|
    {
      assert |left| > n;
      DisconnectOne(left, n, events, DisconnectEvents(chain, n));
      var ok;
      ok, events := DisconnectTip(blocks, events, left);
      if !ok {
        assert false;
      }
      left := left[..|left| - 1];
      ActiveIsCoherent(blocks.index, blocks.activeChain.vChain, left);
      walk := blocks.GetTip();
    }
    HeightOfLast(blocks.index, left);
  }

  lemma HeightOfLast(ix: Index, chain: seq<Hash>)
    requires Linked(ix) && chain != [] && Last(chain) in ix && chain == Path(ix, Last(chain))
    ensures ix[Last(chain)].height == |chain| - 1
  {
  }

  /** The blocks from c down to just above fork, newest first. */
  method ConnectList(ix: Index, c: Hash, fork: Hash) returns (list: seq<Hash>)
    requires Linked(ix) && c in ix && fork in ix && IsAncestor(ix, fork, c)
    ensures |list| == ix[c].height - ix[fork].height
    ensures forall i {:trigger list[i]} :: 0 <= i < |list| ==> list[i] == AncestorAt(ix, c, ix[c].height - i)
  {
    list := [];
    var walk := Some(c);
    ghost var k := ix[c].height;
    while walk != Some(fork)
      invariant ix[fork].height <= k <= ix[c].height && walk == Some(AncestorAt(ix, c, k))
      invariant |list| == ix[c].height - k
      invariant forall i {:trigger list[i]} :: 0 <= i < |list| ==> list[i] == AncestorAt(ix, c, ix[c].height - i)
      decreases k
    {
      StepDown(ix, c, k);
      list := list + [walk.value];
      walk := ix[walk.value].prev;
      k := k - 1;
    }
  }

  lemma ConnectOne(ix: Index, c: Hash, n: nat, j: nat, events: seq<Event>)
    requires Linked(ix) && c in ix && n <= j <= ix[c].height
    ensures Path(ix, AncestorAt(ix, c, j)) == Path(ix, c)[..j + 1]
    ensures events + ConnectEvents(Path(ix, c)[..j + 1], n)
            == (events + ConnectEvents(Path(ix, c)[..j], n)) + [BlockConnected(AncestorAt(ix, c, j))]
  {
    PathOfAncestor(ix, c, j);
    var path := Path(ix, c);
    assert path[..j + 1][..j] == path[..j];
  }

  /** The connect loop: push the listed blocks, oldest first. */
  method ConnectAll(blocks: BlockStore.BlockManager, c: Hash, fork: Hash, list: seq<Hash>, events: seq<Event>)
    returns (events': seq<Event>)
    requires Linked(blocks.index) && c in blocks.index && fork in blocks.index && IsAncestor(blocks.index, fork, c)
    requires Active(blocks.index, blocks.activeChain.vChain, Path(blocks.index, fork))
    requires |list| == blocks.index[c].height - blocks.index[fork].height
    requires forall i {:trigger list[i]} :: 0 <= i < |list| ==>
               list[i] == AncestorAt(blocks.index, c, blocks.index[c].height - i)
    modifies blocks.activeChain
    ensures Active(blocks.index, blocks.activeChain.vChain, Path(blocks.index, c))
    ensures events' == events + ConnectEvents(Path(blocks.index, c), blocks.index[fork].height + 1)
  {
    events' := events;
    var i := |list|;
    ghost var ix := blocks.index;
    ghost var path, n := Path(ix, c), ix[fork].height + 1;
    PathOfAncestor(ix, c, n - 1);
    ghost var cur := path[..n];
    while i > 0
      invariant 0 <= i <= |list| && cur == path[..|path| - i]
      invariant Active(ix, blocks.activeChain.vChain, cur)
      invariant events' == events + ConnectEvents(cur, n)
    {
      i := i - 1;
      ConnectOne(ix, c, n, |path| - i - 1, events);
      var ok;
      ok, events' := ConnectTip(blocks, list[i], events', cur);
      cur := path[..|path| - i];
      if !ok {
        assert false;
      }
    }
    assert cur == path;
  }

  /** Down to the fork and up to c. */
  method Reroute(blocks: BlockStore.BlockManager, c: Hash, fork: Hash, ghost chain: seq<Hash>)
    returns (events: seq<Event>)
    requires Linked(blocks.index) && Active(blocks.index, blocks.activeChain.vChain, chain)
    requires c in blocks.index && fork in blocks.index
    requires IsAncestor(blocks.index, fork, Last(chain)) && IsAncestor(blocks.index, fork, c)
    modifies blocks.activeChain
    ensures Active(blocks.index, blocks.activeChain.vChain, Path(blocks.index, c))
    ensures var n := blocks.index[fork].height + 1;
            events == DisconnectEvents(chain, n) + ConnectEvents(Path(blocks.index, c), n)
  {
    var down := DisconnectTo(blocks, fork, chain);
    PathOfAncestor(blocks.index, Last(chain), blocks.index[fork].height);
    var list := ConnectList(blocks.index, c, fork);
    events := ConnectAll(blocks, c, fork, list, down);
  }
}
