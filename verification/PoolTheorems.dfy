/**
 How the orphan pool meets the run theorems: drained headers are further accepts, but are not offered as
 candidates.
 */
module PoolTheorems {
  import opened Types
  import opened BlockTree
  import opened CandidateTips
  import opened Consensus
  import opened ConsensusState
  import opened ChainRuns
  import opened RunTheorems
  import opened OrphanPool
  import opened PoolDrain
  import opened SharedTrees
  import opened MedianTime
  import opened Steps

  function Accepts(hs: seq<Header>, now: int): seq<Op>
  {
    if hs == [] then [] else [Accept(hs[0], now, true)] + Accepts(hs[1..], now)
  }

  /** What AcceptBlockHeader adds, pool and all, is a run of single accepts: every run theorem covers it. */
  lemma {:induction false} DrainIsRun(P: Params, s: State, hs: seq<Header>, ix2: Index, now: int)
    requires Inv(P, s) && Adds(P, s.index, hs, ix2, now)
    ensures Run(P, s, Accepts(hs, now)) == s.(index := ix2)
    decreases |hs|
  {
    if hs != [] {
      var op := Accept(hs[0], now, true);
      FirstAdded(P, s, hs, ix2, now);
      var t := Step(P, s, op).state;
      StepKeepsInv(P, s, op);
      DrainIsRun(P, t, hs[1..], ix2, now);
      assert Accepts(hs, now)[1..] == Accepts(hs[1..], now);
    }
  }

  lemma FirstAdded(P: Params, s: State, hs: seq<Header>, ix2: Index, now: int)
    requires Inv(P, s) && Adds(P, s.index, hs, ix2, now) && hs != []
    ensures var t := Step(P, s, Accept(hs[0], now, true)).state;
            t.chain == s.chain && t.cands == s.cands && t.failed == s.failed && Adds(P, t.index, hs[1..], ix2, now)
  {
    LeadsFirst(Adder(P, now), s.index, hs, ix2);
  }

  /** The blocks of ix2 that ix does not hold are at most two hours ahead of the clock. */
  ghost predicate NewAreInTime(ix: Index, ix2: Index, now: int)
  {
    forall h {:trigger ix2[h].header} :: h in ix2 && h !in ix ==> ix2[h].header.time <= now + 7200
  }

  lemma {:induction false} AcceptsAt(hs: seq<Header>, now: int, i: nat)
    requires i < |Accepts(hs, now)|
    ensures Accepts(hs, now)[i].Accept? && Accepts(hs, now)[i].now == now
  {
    if i > 0 {
      AcceptsAt(hs[1..], now, i - 1);
    }
  }

  /** Nothing that comes in with a header, out of the pool or not, is from the future. */
  lemma AddedInTime(P: Params, s: State, hs: seq<Header>, ix2: Index, now: int)
    requires Inv(P, s) && Adds(P, s.index, hs, ix2, now)
    ensures NewAreInTime(s.index, ix2, now)
  {
    DrainIsRun(P, s, hs, ix2, now);
    forall h {:trigger ix2[h].header} | h in ix2 && h !in s.index ensures ix2[h].header.time <= now + 7200 {
      NoBlockFromTheFuture(P, s, Accepts(hs, now), h);
      var i: nat :| AddedBy(P, Accepts(hs, now), i, h, ix2[h].header.time);
      AcceptsAt(hs, now, i);
    }
  }

  lemma ProcessKnown(P: Params, s: State, header: Header, now: int, minPowChecked: bool)
    requires Inv(P, s) && P.hash(header) in s.index && AcceptError(P, s.index, header, now, minPowChecked).None?
    ensures ProcessHeader(P, s, header, now, minPowChecked) == ActivateOffered(P, s, s.index, P.hash(header)).state
  {
  }

  lemma ProcessNew(P: Params, s: State, header: Header, now: int, minPowChecked: bool)
    requires Inv(P, s) && P.hash(header) !in s.index && AcceptError(P, s.index, header, now, minPowChecked).None?
    ensures header.prev in s.index && P.hash(header) in WithBlock(P, s.index, header)
    ensures Linked(WithBlock(P, s.index, header))
    ensures ProcessHeader(P, s, header, now, minPowChecked)
            == ActivateOffered(P, s, WithBlock(P, s.index, header), P.hash(header)).state
  {
    AddLinked(P, s.index, header);
  }

  lemma AddsAtMostOne(P: Params, ix: Index, added: seq<Header>, ix2: Index, now: int)
    requires Adds(P, ix, added, ix2, now) && |added| <= 1
    ensures added == [] ==> ix2 == ix
    ensures added != [] ==> Linked(ix) && added[0].prev in ix && ix2 == WithBlock(P, ix, added[0])
  {
    if added != [] {
      assert added == [added[0]];
      LeadsOne(Adder(P, now), ix, added[0], ix2);
      AdderMeaning(P, now, ix, added[0], ix2);
    }
  }

  lemma KnownAddsNothing(P: Params, ix: Index, added: seq<Header>, ix2: Index, now: int)
    requires Adds(P, ix, added, ix2, now)
    ensures added == [] ==> ix2 == ix
  {
  }

  lemma AdderMeaning(P: Params, now: int, ix: Index, header: Header, ix2: Index)
    requires Adder(P, now)(ix, header) == Some(ix2)
    ensures Linked(ix) && Acceptable(P, ix, header, now) && ix2 == WithBlock(P, ix, header)
  {
  }

  /** With an empty pool, ProcessNewBlockHeader is the call whose runs end at the best chain. */
  lemma EmptyPoolIsProcessHeader(P: Params, s: State, header: Header, now: int, minPowChecked: bool,
                                 added: seq<Header>, ix2: Index)
    requires Inv(P, s) && AcceptError(P, s.index, header, now, minPowChecked).None?
    requires Adds(P, s.index, added, ix2, now) && |added| <= 1
    requires added == [] <==> P.hash(header) in s.index
    requires added != [] ==> added[0] == header
    requires Linked(ix2) && P.hash(header) in ix2 && Tip(s) in ix2 && s.cands <= ix2.Keys
    ensures ActivateOffered(P, s, ix2, P.hash(header)).state == ProcessHeader(P, s, header, now, minPowChecked)
  {
    AddsAtMostOne(P, s.index, added, ix2, now);
    if added == [] {
      ProcessKnown(P, s, header, now, minPowChecked);
    } else {
      ProcessNew(P, s, header, now, minPowChecked);
    }
  }

  // ---------- chains of pooled headers ----------

  /** The header, and on top of it pooled headers each on top of the one before, all of which pass their checks. */
  ghost predicate PooledChain(P: Params, ix: Index, pool: Pool, header: Header, hs: seq<Header>, now: int)
  {
    && hs != [] && hs[0] == header && Continuous(P, hs) && AllPooled(P.hash, pool, hs[1..])
    && Fold(Adder(P, now), ix, hs).Some?
  }

  /** A header that the sequence of accepts added. */
  ghost predicate AddedTo(P: Params, ix: Index, ix2: Index, header: Header)
  {
    var h := P.hash(header);
    h !in ix && h in ix2 && ix2[h].header == header && !IsFailed(ix2, h)
  }

  ghost predicate IsOneOf(P: Params, hs: seq<Header>, h: Hash)
  {
    exists i :: 0 <= i < |hs| && P.hash(hs[i]) == h
  }

  /** What a sequence of accepts leaves: a sound index that holds the old blocks and the new ones. */
  ghost predicate AddsExactly(P: Params, ix: Index, hs: seq<Header>, ix2: Index)
  {
    && IndexOk(P, ix2) && Grows(ix, ix2)
    && (forall i {:trigger hs[i]} :: 0 <= i < |hs| ==> AddedTo(P, ix, ix2, hs[i]))
    && (forall h {:trigger h in ix2} :: h in ix2 && h !in ix ==> IsOneOf(P, hs, h) && !IsFailed(ix2, h))
  }

  lemma OneAdded(P: Params, ix: Index, header: Header, now: int)
    requires IndexOk(P, ix) && Acceptable(P, ix, header, now)
    ensures header.prev in ix && AddsExactly(P, ix, [header], WithBlock(P, ix, header))
  {
    AddKeepsIndex(P, ix, header, now);
    assert [header][0] == header;
  }

  lemma AddsCompose(P: Params, ix: Index, header: Header, mid: Index, hs: seq<Header>, ix2: Index)
    requires hs != [] && hs[0] == header && AddsExactly(P, ix, [header], mid) && AddsExactly(P, mid, hs[1..], ix2)
    ensures AddsExactly(P, ix, hs, ix2)
  {
    assert AddedTo(P, ix, mid, [header][0]);
    forall i {:trigger hs[i]} | 0 <= i < |hs| ensures AddedTo(P, ix, ix2, hs[i]) {
      if i > 0 {
        assert AddedTo(P, mid, ix2, hs[1..][i - 1]);
      }
    }
    forall h {:trigger h in ix2} | h in ix2 && h !in ix ensures IsOneOf(P, hs, h) && !IsFailed(ix2, h) {
      if h !in mid {
        var i :| 0 <= i < |hs[1..]| && P.hash(hs[1..][i]) == h;
        assert hs[i + 1] == hs[1..][i];
      } else {
        assert IsOneOf(P, [header], h) && ix2[h] == mid[h];
        assert P.hash(hs[0]) == h;
      }
    }
  }

  lemma {:induction false} AddsShape(P: Params, ix: Index, hs: seq<Header>, ix2: Index, now: int)
    requires IndexOk(P, ix) && Adds(P, ix, hs, ix2, now)
    ensures AddsExactly(P, ix, hs, ix2)
    decreases |hs|
  {
    if hs != [] {
      var mid := Adder(P, now)(ix, hs[0]).value;
      LeadsFirst(Adder(P, now), ix, hs, ix2);
      AdderMeaning(P, now, ix, hs[0], mid);
      OneAdded(P, ix, hs[0], now);
      AddsShape(P, mid, hs[1..], ix2, now);
      AddsCompose(P, ix, hs[0], mid, hs, ix2);
    }
  }

  lemma AcceptableIsPassing(P: Params, ix: Index, header: Header, now: int)
    requires Linked(ix)
    ensures Acceptable(P, ix, header, now) <==> P.hash(header) !in ix && Passes(P, ix, header, now)
  {
  }

  /** A verdict depends on the header and its ancestors only. */
  lemma PassesElsewhere(P: Params, ix: Index, other: Index, header: Header, now: int)
    requires Comparable(P, ix, other) && Passes(P, other, header, now)
    requires header.prev in ix && !IsFailed(ix, header.prev)
    ensures Passes(P, ix, header, now)
  {
    SharedExpectedBits(P, ix, other, header.prev);
    SharedTimes(P, ix, other, header.prev, MEDIAN_TIME_SPAN);
    PassesContext(P, ix, other, header, header.prev, now);
  }

  /** The accepts up to a position, and the verdict on the header there. */
  lemma AcceptedAt(P: Params, ix: Index, hs: seq<Header>, ix2: Index, now: int, i: nat) returns (mid: Index)
    requires IndexOk(P, ix) && Adds(P, ix, hs, ix2, now) && i < |hs|
    ensures Adds(P, ix, hs[..i], mid, now) && AddsExactly(P, ix, hs[..i], mid)
    ensures P.hash(hs[i]) !in mid && Passes(P, mid, hs[i], now)
  {
    mid := LeadsPrefix(Adder(P, now), ix, hs, ix2, i);
    AddsShape(P, ix, hs[..i], mid, now);
    LeadsFirst(Adder(P, now), mid, hs[i..], ix2);
    var next := Adder(P, now)(mid, hs[i]).value;
    AdderMeaning(P, now, mid, hs[i], next);
    AcceptableIsPassing(P, mid, hs[i], now);
  }

  /** One more pooled header on top of a chain. */
  lemma ChainGrows(P: Params, ix: Index, pool: Pool, header: Header, hs: seq<Header>, mid: Index, x: Header, now: int)
    requires PooledChain(P, ix, pool, header, hs, now) && Adds(P, ix, hs, mid, now) && Linked(mid)
    requires x.prev == P.hash(Last(hs)) && AllPooled(P.hash, pool, [x])
    requires P.hash(x) !in mid && Passes(P, mid, x, now)
    ensures PooledChain(P, ix, pool, header, hs + [x], now)
  {
    OneMoreAdded(P, ix, hs, mid, x, now);
    ContinuousAppend(P, hs, x);
    assert (hs + [x])[1..] == hs[1..] + [x];
    PooledAppend(P.hash, pool, hs[1..], [x]);
  }

  lemma OneMoreAdded(P: Params, ix: Index, hs: seq<Header>, mid: Index, x: Header, now: int)
    requires Adds(P, ix, hs, mid, now) && Linked(mid) && P.hash(x) !in mid && Passes(P, mid, x, now)
    ensures Fold(Adder(P, now), ix, hs + [x]).Some?
  {
    AcceptableIsPassing(P, mid, x, now);
    AddsOne(P, mid, x, now);
    LeadsAppend(Adder(P, now), ix, hs, mid, [x], WithBlock(P, mid, x));
  }

  lemma ContinuousAppend(P: Params, hs: seq<Header>, x: Header)
    requires Continuous(P, hs) && hs != [] && x.prev == P.hash(Last(hs))
    ensures Continuous(P, hs + [x])
  {
  }

  /** Everything the drain adds is the end of a chain of pooled headers on top of the new block. */
  lemma {:induction false} ChainTo(P: Params, ix: Index, pool: Pool, added: seq<Header>, ix2: Index, now: int, i: nat)
    returns (hs: seq<Header>)
    requires IndexOk(P, ix) && Injective(P.hash) && AllWaiting(ix, pool) && Adds(P, ix, added, ix2, now)
    requires i < |added| && AllPooled(P.hash, pool, added[1..])
    ensures PooledChain(P, ix, pool, added[0], hs, now) && Last(hs) == added[i]
    ensures forall x {:trigger x in hs} :: x in hs ==> x in added[..i + 1]
    ensures i > 0 ==> |hs| > 1
    decreases i
  {
    var mid := AcceptedAt(P, ix, added, ix2, now, i);
    if i == 0 {
      hs := [added[0]];
      var one := LeadsPrefix(Adder(P, now), ix, added, ix2, 1);
      assert added[..1] == hs;
    } else {
      var j := ParentOf(P, ix, pool, added, mid, i);
      var front := ChainTo(P, ix, pool, added, ix2, now, j);
      hs := front + [added[i]];
      ChainOnto(P, ix, pool, added, i, mid, front, j, now);
    }
  }

  /** A pooled header waits for its parent, so the parent was added before it. */
  lemma ParentOf(P: Params, ix: Index, pool: Pool, added: seq<Header>, mid: Index, i: nat) returns (j: nat)
    requires 0 < i < |added| && AllWaiting(ix, pool) && AllPooled(P.hash, pool, added[1..])
    requires AddsExactly(P, ix, added[..i], mid) && added[i].prev in mid
    ensures j < i && P.hash(added[j]) == added[i].prev
  {
    assert added[1..][i - 1] == added[i];
    assert pool[P.hash(added[i])].header == added[i];
    assert IsOneOf(P, added[..i], added[i].prev);
    j :| 0 <= j < i && P.hash(added[..i][j]) == added[i].prev;
  }

  lemma ChainOnto(P: Params, ix: Index, pool: Pool, added: seq<Header>, i: nat, mid: Index, front: seq<Header>, j: nat,
                  now: int)
    requires IndexOk(P, ix) && Injective(P.hash) && j < i < |added| && AllPooled(P.hash, pool, added[1..])
    requires AddsExactly(P, ix, added[..i], mid) && P.hash(added[i]) !in mid && Passes(P, mid, added[i], now)
    requires PooledChain(P, ix, pool, added[0], front, now) && P.hash(Last(front)) == added[i].prev
    requires forall x {:trigger x in front} :: x in front ==> x in added[..j + 1]
    ensures PooledChain(P, ix, pool, added[0], front + [added[i]], now)
  {
    var x, m := added[i], Fold(Adder(P, now), ix, front).value;
    assert added[1..][i - 1] == x;
    AddsShape(P, ix, front, m, now);
    NewOnChain(P, ix, added, i, mid, front, m, j);
    assert AddedTo(P, ix, m, front[|front| - 1]);
    PassesElsewhere(P, m, mid, x, now);
    ChainGrows(P, ix, pool, added[0], front, m, x, now);
  }

  lemma NewOnChain(P: Params, ix: Index, added: seq<Header>, i: nat, mid: Index, front: seq<Header>, m: Index, j: nat)
    requires j < i < |added| && AddsExactly(P, ix, added[..i], mid) && AddsExactly(P, ix, front, m)
    requires P.hash(added[i]) !in mid && forall x {:trigger x in front} :: x in front ==> x in added[..j + 1]
    ensures P.hash(added[i]) !in m
  {
    var h := P.hash(added[i]);
    forall k | 0 <= k < |front| ensures P.hash(front[k]) != h {
      assert front[k] in front && front[k] in added[..j + 1];
      var l :| 0 <= l < j + 1 && added[..j + 1][l] == front[k];
      assert AddedTo(P, ix, mid, added[..i][l]);
    }
    assert !IsOneOf(P, front, h) && h !in ix;
  }

  /** The result of a drain. */
  ghost predicate Drained(P: Params, ix: Index, pool: Pool, header: Header, added: seq<Header>, ix2: Index, now: int)
  {
    && Adds(P, ix, added, ix2, now) && added != [] && added[0] == header && AllPooled(P.hash, pool, added[1..])
    && Judged(Judge(P, now), pool, StillWaiting(pool, ix, ix2), ix2)
  }

  /** A chain without its last header is a chain, on whose index the last one passes. */
  lemma FrontOf(P: Params, ix: Index, pool: Pool, header: Header, hs: seq<Header>, now: int) returns (mid: Index)
    requires IndexOk(P, ix) && PooledChain(P, ix, pool, header, hs, now) && |hs| > 1
    ensures PooledChain(P, ix, pool, header, hs[..|hs| - 1], now)
    ensures IndexOk(P, mid) && Grows(ix, mid) && P.hash(Last(hs)) !in mid && Passes(P, mid, Last(hs), now)
    ensures Last(hs).prev == P.hash(hs[|hs| - 2]) && AllPooled(P.hash, pool, [Last(hs)])
  {
    var n, front := |hs| - 1, hs[..|hs| - 1];
    var end := Fold(Adder(P, now), ix, hs).value;
    mid := AcceptedAt(P, ix, hs, end, now, n);
    assert front[1..] == hs[1..][..n - 1];
    assert hs[1..][n - 1] == hs[n];
  }

  /** And every chain of pooled headers on top of the new block is added. */
  lemma {:induction false} ChainArrives(P: Params, ix: Index, pool: Pool, header: Header, added: seq<Header>,
                                        ix2: Index,
                                        now: int, hs: seq<Header>)
    requires IndexOk(P, ix) && Injective(P.hash) && Drained(P, ix, pool, header, added, ix2, now)
    requires AddsExactly(P, ix, added, ix2) && PooledChain(P, ix, pool, header, hs, now)
    ensures AddedTo(P, ix, ix2, Last(hs))
    decreases |hs|
  {
    if |hs| == 1 {
      assert AddedTo(P, ix, ix2, added[0]);
    } else {
      var front := hs[..|hs| - 1];
      var mid := FrontOf(P, ix, pool, header, hs, now);
      ChainArrives(P, ix, pool, header, added, ix2, now, front);
      LastArrives(P, ix, pool, mid, ix2, Last(front), Last(hs), now);
    }
  }

  lemma LastArrives(P: Params, ix: Index, pool: Pool, mid: Index, ix2: Index, y: Header, x: Header, now: int)
    requires Comparable(P, ix2, mid) && Grows(ix, mid) && AllPooled(P.hash, pool, [x])
    requires P.hash(x) !in mid && Passes(P, mid, x, now)
    requires AddedTo(P, ix, ix2, y) && x.prev == P.hash(y) 
    requires Judged(Judge(P, now), pool, StillWaiting(pool, ix, ix2), ix2)
    requires forall h {:trigger h in ix2} :: h in ix2 && h !in ix ==> !IsFailed(ix2, h)
    ensures AddedTo(P, ix, ix2, x)
  {
    var h := P.hash(x);
    assert [x][0] == x;
    assert pool[h].header == x && h !in StillWaiting(pool, ix, ix2);
    PassesElsewhere(P, ix2, mid, x, now);
    assert h in ix2;
    assert BuiltAt(P.hash, ix2, h);
  }

  // ---------- when the pool costs the best chain ----------

  /** No pooled header comes along with the new one. */
  ghost predicate ComesAlone(P: Params, ix: Index, pool: Pool, header: Header, now: int)
  {
    forall hs {:trigger PooledChain(P, ix, pool, header, hs, now)} :: PooledChain(P, ix, pool, header, hs, now) ==>
      |hs| == 1
  }

  /** No chain of pooled headers on top of the new one has more work than the given bound. */
  ghost predicate NoneBeats(P: Params, ix: Index, pool: Pool, header: Header, now: int, bound: nat)
    requires header.prev in ix
  {
    forall hs {:trigger PooledChain(P, ix, pool, header, hs, now)} :: PooledChain(P, ix, pool, header, hs, now) ==>
      ix[header.prev].chainWork + SumWork(hs) <= bound
  }

  /** The work at the end of a chain, before any of it is indexed. */
  lemma {:induction false} ChainWork(P: Params, ix: Index, pool: Pool, header: Header, added: seq<Header>, ix2: Index,
                                     now: int, hs: seq<Header>)
    requires IndexOk(P, ix) && Injective(P.hash) && Drained(P, ix, pool, header, added, ix2, now)
    requires AddsExactly(P, ix, added, ix2) && PooledChain(P, ix, pool, header, hs, now) && header.prev in ix
    ensures P.hash(Last(hs)) in ix2
    ensures ix2[P.hash(Last(hs))].chainWork == ix[header.prev].chainWork + SumWork(hs)
  {
    forall i {:trigger hs[i]} | 0 <= i < |hs| ensures AddedTo(P, ix, ix2, hs[i]) {
      PrefixChain(P, ix, pool, header, hs, i + 1, now);
      ChainArrives(P, ix, pool, header, added, ix2, now, hs[..i + 1]);
    }
    BatchWork(P, ix2, hs);
  }

  lemma PrefixChain(P: Params, ix: Index, pool: Pool, header: Header, hs: seq<Header>, n: nat, now: int)
    requires PooledChain(P, ix, pool, header, hs, now) && 0 < n <= |hs|
    ensures PooledChain(P, ix, pool, header, hs[..n], now)
  {
    var end := Fold(Adder(P, now), ix, hs).value;
    var mid := LeadsPrefix(Adder(P, now), ix, hs, end, n);
    assert hs[..n][1..] == hs[1..][..n - 1];
  }

  /** The new block has a child exactly when it does not come alone. */
  lemma {:induction false} ChildIffNotAlone(P: Params, ix: Index, pool: Pool, header: Header, added: seq<Header>,
                                            ix2: Index,
                                            now: int)
    requires IndexOk(P, ix) && Injective(P.hash) && AllWaiting(ix, pool) && Drained(P, ix, pool, header, added, ix2,
                                                                                    now)
    requires AddsExactly(P, ix, added, ix2)
    ensures HasChild(ix2, P.hash(header)) <==> !ComesAlone(P, ix, pool, header, now)
    ensures HasChild(ix2, P.hash(header)) <==> |added| > 1
  {
    var h := P.hash(header);
    assert AddedTo(P, ix, ix2, added[0]);
    if |added| > 1 {
      var hs := ChainTo(P, ix, pool, added, ix2, now, 1);
    }
    if !ComesAlone(P, ix, pool, header, now) {
      var hs :| PooledChain(P, ix, pool, header, hs, now) && |hs| != 1;
      PrefixChain(P, ix, pool, header, hs, 2, now);
      ChainArrives(P, ix, pool, header, added, ix2, now, hs[..2]);
      SecondIsChild(P, ix2, hs);
    }
    if HasChild(ix2, h) {
      var g :| g in ix2 && ix2[g].prev == Some(h);
      ChildIsAdded(P, ix, added, ix2, h, g);
    }
  }

  lemma SecondIsChild(P: Params, ix2: Index, hs: seq<Header>)
    requires Tree(P.hash, P.genesisHash, ix2) && |hs| > 1 && Continuous(P, hs) && P.hash(hs[1]) in ix2
    requires ix2[P.hash(hs[1])].header == hs[1] && P.hash(hs[1]) != P.genesisHash
    ensures HasChild(ix2, P.hash(hs[0]))
  {
    assert BuiltAt(P.hash, ix2, P.hash(hs[1]));
  }

  lemma ChildIsAdded(P: Params, ix: Index, added: seq<Header>, ix2: Index, h: Hash, g: Hash)
    requires Linked(ix) && AddsExactly(P, ix, added, ix2) && added != [] && P.hash(added[0]) == h
    requires h !in ix && g in ix2 && ix2[g].prev == Some(h)
    ensures |added| > 1
  {
    assert g in ix ==> LinkedAt(ix, g);
    assert IsOneOf(P, added, g);
    assert LinkedAt(ix2, g);
  }

  /**
   When accepting h drains a child of h, h is no longer a leaf and its child is never offered, so
   the activation that follows stays where it is.
   */
  lemma {:induction false} DrainedBlocksAreNotOffered(P: Params, s: State, t: State, h: Hash)
    requires Inv(P, s) && Best(s) && Inv(P, t) && Grows(s.index, t.index)
    requires t.chain == s.chain && t.cands == s.cands
    requires h in t.index && h !in s.index && HasChild(t.index, h)
    ensures var o := ActivateOffered(P, s, t.index, h).state;
            && o.chain == s.chain
            && (Best(o) <==> NewBlocksBelow(s.index, t.index, s.index[Tip(s)].chainWork))
  {
    assert AfterTryAdd(t.index, s.cands, h) == s.cands;
    StaysPut(P, s, t);
    var o := ActivateOffered(P, s, t.index, h).state;
    assert o.index == t.index && o.chain == s.chain;
    forall b | b in s.index && !IsFailed(t.index, b)
      ensures t.index[b].chainWork <= s.index[Tip(s)].chainWork
    {
      assert t.index[b] == s.index[b];
    }
  }

  ghost predicate NewBlocksBelow(ix: Index, ix2: Index, bound: nat)
  {
    forall b {:trigger ix2[b].chainWork} :: b in ix2 && b !in ix && !IsFailed(ix2, b) ==> ix2[b].chainWork <= bound
  }

  /** The new blocks are the ends of the chains, so their work can be read off before the call. */
  lemma {:induction false} NewWorkIsChainWork(P: Params, ix: Index, pool: Pool, header: Header, added: seq<Header>,
                                              ix2: Index, now: int, bound: nat)
    requires IndexOk(P, ix) && Injective(P.hash) && AllWaiting(ix, pool) && Drained(P, ix, pool, header, added, ix2,
                                                                                    now)
    requires AddsExactly(P, ix, added, ix2) && header.prev in ix
    ensures NewBlocksBelow(ix, ix2, bound) <==> NoneBeats(P, ix, pool, header, now, bound)
  {
    if NoneBeats(P, ix, pool, header, now, bound) {
      forall b | b in ix2 && b !in ix && !IsFailed(ix2, b) ensures ix2[b].chainWork <= bound {
        assert IsOneOf(P, added, b);
        var i :| 0 <= i < |added| && P.hash(added[i]) == b;
        var hs := ChainTo(P, ix, pool, added, ix2, now, i);
        ChainWork(P, ix, pool, header, added, ix2, now, hs);
      }
    }
    if NewBlocksBelow(ix, ix2, bound) {
      forall hs {:trigger PooledChain(P, ix, pool, header, hs, now)} | PooledChain(P, ix, pool, header, hs, now)
        ensures ix[header.prev].chainWork + SumWork(hs) <= bound
      {
        ChainWork(P, ix, pool, header, added, ix2, now, hs);
        ChainArrives(P, ix, pool, header, added, ix2, now, hs);
      }
    }
  }

  /**
   What the state and the pool before the call must satisfy for a new header not to cost the best
   chain: no pooled header comes along with it, or none that does beats the tip.
   */
  ghost predicate PoolHarmless(P: Params, s: State, pool: Pool, header: Header, now: int)
    requires s.chain != [] && Tip(s) in s.index && header.prev in s.index
  {
    || ComesAlone(P, s.index, pool, header, now)
    || NoneBeats(P, s.index, pool, header, now, s.index[Tip(s)].chainWork)
  }

  lemma AloneKeepsBest(P: Params, s: State, header: Header, now: int)
    requires Inv(P, s) && Best(s) && Acceptable(P, s.index, header, now)
    requires P.suspiciousReorgDepth <= 0 && P.expirationInterval <= 0
    ensures header.prev in s.index && Linked(WithBlock(P, s.index, header))
    ensures Best(ActivateOffered(P, s, WithBlock(P, s.index, header), P.hash(header)).state)
  {
    CallKeepsBest(P, s, ProcessNewBlockHeader(header, now, true));
    ProcessNew(P, s, header, now, true);
  }

  /**
   The best-chain property does not survive the pool: after ProcessNewBlockHeader on a new header the
   tip is best if and only if the pool was harmless before the call.
   */
  lemma {:induction false} PoolDecidesBest(P: Params, s: State, pool: Pool, header: Header, added: seq<Header>,
                                           ix2: Index,
                                           now: int)
    requires Inv(P, s) && Best(s) && Injective(P.hash) && P.suspiciousReorgDepth <= 0 && P.expirationInterval <= 0
    requires AllWaiting(s.index, pool) && Acceptable(P, s.index, header, now)
    requires Drained(P, s.index, pool, header, added, ix2, now)
    ensures header.prev in s.index && Linked(ix2) && P.hash(header) in ix2 && Tip(s) in ix2 && s.cands <= ix2.Keys
    ensures Best(ActivateOffered(P, s, ix2, P.hash(header)).state) <==> PoolHarmless(P, s, pool, header, now)
  {
    AddsShape(P, s.index, added, ix2, now);
    assert AddedTo(P, s.index, ix2, added[0]);
    ChildIffNotAlone(P, s.index, pool, header, added, ix2, now);
    if |added| == 1 {
      AddsAtMostOne(P, s.index, added, ix2, now);
      AloneKeepsBest(P, s, header, now);
    } else {
      var t := s.(index := ix2);
      GrownKeepsInv(P, s, ix2);
      DrainedBlocksAreNotOffered(P, s, t, P.hash(header));
      NewWorkIsChainWork(P, s.index, pool, header, added, ix2, now, s.index[Tip(s)].chainWork);
    }
  }

  /** What must hold before ProcessNewBlockHeader for the tip to be best after it. */
  ghost predicate KeepsBest(P: Params, s: State, pool: Pool, header: Header, now: int, minPowChecked: bool)
    requires Linked(s.index) && s.chain != [] && Tip(s) in s.index
  {
    || AcceptError(P, s.index, header, now, minPowChecked).Some?
    || P.hash(header) in s.index
    || (header.prev in s.index && PoolHarmless(P, s, pool, header, now))
  }

  /** The same for every header that is accepted, known or new. */
  lemma {:induction false} ProcessDecidesBest(P: Params, s: State, pool: Pool, header: Header, now: int,
                                              minPowChecked: bool,
                                              added: seq<Header>, ix2: Index)
    requires Inv(P, s) && Best(s) && Injective(P.hash) && P.suspiciousReorgDepth <= 0 && P.expirationInterval <= 0
    requires AllWaiting(s.index, pool) && AcceptError(P, s.index, header, now, minPowChecked).None?
    requires if P.hash(header) in s.index then ix2 == s.index else Drained(P, s.index, pool, header, added, ix2, now)
    ensures Linked(ix2) && P.hash(header) in ix2 && Tip(s) in ix2 && s.cands <= ix2.Keys
    ensures Best(ActivateOffered(P, s, ix2, P.hash(header)).state) <==> KeepsBest(P, s, pool, header, now,
                                                                                  minPowChecked)
  {
    if P.hash(header) in s.index {
      CallKeepsBest(P, s, ProcessNewBlockHeader(header, now, minPowChecked));
      ProcessKnown(P, s, header, now, minPowChecked);
    } else {
      PoolDecidesBest(P, s, pool, header, added, ix2, now);
    }
  }

  /** The same for the header's whole outcome: what the tip is worth, and what an empty pool makes of the call. */
  lemma OfferedOutcome(P: Params, s: State, pool: Pool, header: Header, now: int, minPowChecked: bool,
                       added: seq<Header>, ix2: Index)
    requires Inv(P, s) && AllWaiting(s.index, pool) && AcceptError(P, s.index, header, now, minPowChecked).None?
    requires Adds(P, s.index, added, ix2, now) && (added == [] <==> P.hash(header) in s.index)
    requires added != [] ==> Drained(P, s.index, pool, header, added, ix2, now)
    requires Linked(ix2) && P.hash(header) in ix2 && Tip(s) in ix2 && s.cands <= ix2.Keys
    ensures var t := ActivateOffered(P, s, ix2, P.hash(header)).state;
            && t.chain != [] && Tip(t) in t.index
            && (Best(s) && Injective(P.hash) && P.suspiciousReorgDepth <= 0 && P.expirationInterval <= 0 ==>
                  (Best(t) <==> KeepsBest(P, s, pool, header, now, minPowChecked)))
            && (pool == map[] ==> t == ProcessHeader(P, s, header, now, minPowChecked))
  {
    TipWorkGrows(P, s.(index := ix2, cands := AfterTryAdd(ix2, s.cands, P.hash(header))));
    KnownAddsNothing(P, s.index, added, ix2, now);
    if Best(s) && Injective(P.hash) && P.suspiciousReorgDepth <= 0 && P.expirationInterval <= 0 {
      ProcessDecidesBest(P, s, pool, header, now, minPowChecked, added, ix2);
    }
    if pool == map[] {
      if |added| > 1 {
        PooledNeedsPool(P.hash, pool, added[1..]);
      }
      EmptyPoolIsProcessHeader(P, s, header, now, minPowChecked, added, ix2);
    }
  }

  lemma PooledNeedsPool(hash: Header -> Hash, pool: Pool, hs: seq<Header>)
    requires AllPooled(hash, pool, hs) && hs != []
    ensures pool != map[]
  {
    assert hash(hs[0]) in pool;
  }

  /** With an empty pool every header comes alone, so the best-chain property is kept by every call. */
  lemma EmptyPoolKeepsBest(P: Params, s: State, header: Header, now: int, minPowChecked: bool)
    requires Inv(P, s)
    ensures KeepsBest(P, s, map[], header, now, minPowChecked)
  {
    if header.prev in s.index {
      forall hs {:trigger PooledChain(P, s.index, map[], header, hs, now)} | PooledChain(P, s.index, map[], header,
                                                                                         hs, now)
        ensures |hs| == 1
      {
        if |hs| > 1 {
          PooledNeedsPool(P.hash, map[], hs[1..]);
        }
      }
    }
  }

  lemma GrownKeepsInv(P: Params, s: State, ix2: Index)
    requires Inv(P, s) && IndexOk(P, ix2) && Grows(s.index, ix2)
    requires forall h {:trigger h in ix2} :: h in ix2 && h !in s.index ==> !IsFailed(ix2, h)
    ensures Inv(P, s.(index := ix2))
  {
    PathExtends(s.index, ix2, Tip(s));
    assert s.failed == set h | h in ix2 && IsFailed(ix2, h);
  }

  /** No old candidate beats the tip, so activation does not move. */
  lemma StaysPut(P: Params, s: State, t: State)
    requires Inv(P, s) && Best(s) && Inv(P, t) && Grows(s.index, t.index)
    requires t.chain == s.chain && t.cands == s.cands
    ensures Activate(P, t).state.chain == t.chain && Activate(P, t).state.index == t.index
  {
    ActivateShape(P, t);
    CandidatesNoBetter(P, s, t);
  }

  lemma CandidatesNoBetter(P: Params, s: State, t: State)
    requires Inv(P, s) && Best(s) && Inv(P, t) && Grows(s.index, t.index)
    requires t.chain == s.chain && t.cands == s.cands
    ensures forall c {:trigger t.index[c].chainWork} :: c in t.cands && Viable(t.index, c) ==>
              t.index[c].chainWork <= t.index[Tip(t)].chainWork
  {
    assert Tip(s) in s.index;
    forall c | c in t.cands && Viable(t.index, c)
      ensures t.index[c].chainWork <= t.index[Tip(t)].chainWork
    {
      assert c in s.index;
      assert s.index[c].chainWork <= s.index[Tip(s)].chainWork;
    }
  }
}
