/** Skip-list ancestor lookup and last common ancestor (src/chain/block_index.cpp). */
module Ancestry {
  import opened Types
  import opened Bits
  import opened BlockTree
  import SkipCost

  /** One turn of GetAncestor's walk. */
  ghost function Hop(ix: Index, walk: Hash, height: nat): (n: Hash)
    requires Linked(ix) && SkipSound(ix) && walk in ix && height < ix[walk].height
    ensures n in ix && height <= ix[n].height < ix[walk].height
    ensures AncestorAt(ix, n, height) == AncestorAt(ix, walk, height)
  {
    assert LinkedAt(ix, walk);
    var heightWalk := ix[walk].height;
    var heightSkip, heightSkipPrev := SkipHeight(heightWalk), SkipHeight(heightWalk - 1);
    if && ix[walk].skip.Some?
       && (|| heightSkip == height
           || (heightSkip > height && !(heightSkipPrev < heightSkip - 2 && heightSkipPrev >= height)))
    then AncestorOfAncestor(ix, walk, heightSkip, height); ix[walk].skip.value
    else ix[walk].prev.value
  }

  ghost function Turns(ix: Index, walk: Hash, height: nat): nat
    requires Linked(ix) && SkipSound(ix) && walk in ix && height <= ix[walk].height
    decreases ix[walk].height
  {
    if ix[walk].height == height then 0 else 1 + Turns(ix, Hop(ix, walk, height), height)
  }

  lemma HopHeight(ix: Index, walk: Hash, height: nat)
    requires Linked(ix) && SkipSound(ix) && SkipsSet(ix) && walk in ix && height < ix[walk].height
    ensures ix[Hop(ix, walk, height)].height == SkipCost.NextHeight(SkipHeight, ix[walk].height, height)
  {
    assert LinkedAt(ix, walk);
  }

  /** With every skip pointer set the turns depend on the heights alone. */
  lemma {:induction false} TurnsAreSteps(ix: Index, walk: Hash, height: nat)
    requires Linked(ix) && SkipSound(ix) && SkipsSet(ix) && walk in ix && height <= ix[walk].height
    ensures Turns(ix, walk, height) == SkipCost.Steps(SkipHeight, ix[walk].height, height)
    decreases ix[walk].height
  {
    if height < ix[walk].height {
      var next := Hop(ix, walk, height);
      HopHeight(ix, walk, height);
      TurnsAreSteps(ix, next, height);
      SkipCost.OneTurn(SkipHeight, ix[walk].height, height, ix[next].height);
    }
  }

  /** In a tree built by AddToBlockIndex: quadratic in the number of bits of the starting height. */
  lemma TreeWalkIsShort(hash: Header -> Hash, genesis: Hash, ix: Index, start: Hash, height: nat, k: nat)
    requires Tree(hash, genesis, ix) && start in ix && height <= ix[start].height < Pow2(k)
    ensures SkipSound(ix) && Turns(ix, start, height) <= k * k + 5 * k
  {
    TreeSkipSound(hash, genesis, ix);
    TreeSkipsSet(hash, genesis, ix);
    TurnsAreSteps(ix, start, height);
    SkipCost.WalkIsShort(ix[start].height, height, k);
  }

  /**
   CBlockIndex::GetAncestor. The mixed walk over skip and parent pointers ends at the
   block the parent walk alone would reach, also while some skip pointers are still unset.
   With all of them set its turns are the ones that SkipCost counts.
   */
  method GetAncestor(ix: Index, start: Hash, height: int) returns (r: Option<Hash>, ghost turns: nat)
    requires Linked(ix) && SkipSound(ix) && start in ix
    ensures r == if 0 <= height <= ix[start].height then Some(AncestorAt(ix, start, height)) else None
    ensures r.Some? && SkipsSet(ix) ==> turns == SkipCost.Steps(SkipHeight, ix[start].height, height)
  {
    turns := 0;
    if height > ix[start].height || height < 0 {
      return None, 0;
    }
    var walk, heightWalk := start, ix[start].height;
    while heightWalk > height
      invariant walk in ix && height <= heightWalk == ix[walk].height
      invariant AncestorAt(ix, walk, height) == AncestorAt(ix, start, height)
      invariant turns + Turns(ix, walk, height) == Turns(ix, start, height)
    {
      ghost var next := Hop(ix, walk, height);
      assert LinkedAt(ix, walk);
      var heightSkip := SkipHeight(heightWalk);
      var heightSkipPrev := SkipHeight(heightWalk - 1);
      if ix[walk].skip.Some? &&
         (heightSkip == height ||
          (heightSkip > height && !(heightSkipPrev < heightSkip - 2 && heightSkipPrev >= height)))
      {
        walk := ix[walk].skip.value;
        heightWalk := heightSkip;
      } else {
        walk := ix[walk].prev.value;
        heightWalk := heightWalk - 1;
      }
      assert walk == next;
      turns := turns + 1;
    }
    r := Some(walk);
    if SkipsSet(ix) {
      TurnsAreSteps(ix, start, height);
    }
  }

  /** n is the length of the longest common prefix of p and q. */
  ghost predicate IsFork(p: seq<Hash>, q: seq<Hash>, n: nat)
  {
    && n <= |p| && n <= |q| && p[..n] == q[..n]
    && (n < |p| && n < |q| ==> p[n] != q[n])
  }

  lemma ForkUnique(p: seq<Hash>, q: seq<Hash>, n: nat, m: nat)
    requires IsFork(p, q, n) && IsFork(p, q, m)
    ensures n == m
  {
  }

  /** The fork of two paths is their deepest common block: every common ancestor lies at or below it. */
  lemma ForkIsDeepest(ix: Index, a: Hash, b: Hash, n: nat, c: Hash)
    requires Linked(ix) && a in ix && b in ix && c in ix
    requires IsFork(Path(ix, a), Path(ix, b), n) && IsAncestor(ix, c, a) && IsAncestor(ix, c, b)
    ensures ix[c].height < n && IsAncestor(ix, c, AncestorAt(ix, a, n - 1))
  {
    var k := ix[c].height;
    if k >= n {
      AncestorOfAncestor(ix, a, k, n);
      AncestorOfAncestor(ix, b, k, n);
    }
    AncestorOfAncestor(ix, a, n - 1, k);
  }

  /** a and b have no common ancestor above height k. */
  ghost predicate ApartAbove(ix: Index, a: Hash, b: Hash, k: int)
    requires Linked(ix) && a in ix && b in ix && -1 <= k
  {
    k < ix[a].height && k < ix[b].height ==> AncestorAt(ix, a, k + 1) != AncestorAt(ix, b, k + 1)
  }

  lemma MeetIsFork(ix: Index, a: Hash, b: Hash, c: Hash)
    requires Linked(ix) && a in ix && b in ix && c in ix && IsAncestor(ix, c, a) && IsAncestor(ix, c, b)
    requires ApartAbove(ix, a, b, ix[c].height)
    ensures IsFork(Path(ix, a), Path(ix, b), ix[c].height + 1)
  {
    PathOfAncestor(ix, a, ix[c].height);
    PathOfAncestor(ix, b, ix[c].height);
  }

  /** c is the deepest common ancestor of a and b. */
  ghost predicate Meet(ix: Index, a: Hash, b: Hash, c: Hash)
    requires Linked(ix) && a in ix && b in ix
  {
    c in ix && IsAncestor(ix, c, a) && IsAncestor(ix, c, b) && ApartAbove(ix, a, b, ix[c].height)
  }

  lemma MeetUnique(ix: Index, a: Hash, b: Hash, c: Hash, d: Hash)
    requires Linked(ix) && a in ix && b in ix && Meet(ix, a, b, c) && Meet(ix, a, b, d)
    ensures c == d
  {
    var i, j := ix[c].height, ix[d].height;
    if i < j {
      AncestorOfAncestor(ix, a, j, i + 1);
      AncestorOfAncestor(ix, b, j, i + 1);
    } else if j < i {
      AncestorOfAncestor(ix, a, i, j + 1);
      AncestorOfAncestor(ix, b, i, j + 1);
    }
  }

  /**
   The deepest common ancestor, found by the naive walk down from the lower of the two; None without a common
   root.
   */
  ghost function DeepestCommon(ix: Index, a: Hash, b: Hash): (r: Option<Hash>)
    requires Linked(ix) && a in ix && b in ix
    ensures if r.Some? then Meet(ix, a, b, r.value) else ApartAbove(ix, a, b, -1)
  {
    DeepestFrom(ix, a, b, Min(ix[a].height, ix[b].height))
  }

  ghost function DeepestFrom(ix: Index, a: Hash, b: Hash, k: int): (r: Option<Hash>)
    requires Linked(ix) && a in ix && b in ix && -1 <= k <= ix[a].height && k <= ix[b].height
    requires ApartAbove(ix, a, b, k)
    ensures if r.Some? then Meet(ix, a, b, r.value) else ApartAbove(ix, a, b, -1)
    decreases k
  {
    if k == -1 then None
    else if AncestorAt(ix, a, k) == AncestorAt(ix, b, k) then Some(AncestorAt(ix, a, k))
    else DeepestFrom(ix, a, b, k - 1)
  }

  /** Whatever meets the description is the deepest common ancestor. */
  lemma DeepestIs(ix: Index, a: Hash, b: Hash, r: Option<Hash>)
    requires Linked(ix) && a in ix && b in ix
    requires if r.Some? then Meet(ix, a, b, r.value) else ApartAbove(ix, a, b, -1)
    ensures r == DeepestCommon(ix, a, b)
  {
    var d := DeepestCommon(ix, a, b);
    if r.Some? && d.Some? {
      MeetUnique(ix, a, b, r.value, d.value);
    } else if r.Some? {
      SharedRoot(ix, a, b, r.value);
    } else if d.Some? {
      SharedRoot(ix, a, b, d.value);
    }
  }

  lemma SharedRoot(ix: Index, a: Hash, b: Hash, c: Hash)
    requires Linked(ix) && a in ix && b in ix && c in ix && IsAncestor(ix, c, a) && IsAncestor(ix, c, b)
    ensures AncestorAt(ix, a, 0) == AncestorAt(ix, b, 0)
  {
    AncestorOfAncestor(ix, a, ix[c].height, 0);
    AncestorOfAncestor(ix, b, ix[c].height, 0);
  }

  /** LastCommonAncestor: the block where the two paths part, None when they share no root. */
  method LastCommonAncestor(ix: Index, pa: Option<Hash>, pb: Option<Hash>) returns (r: Option<Hash>)
    requires Linked(ix) && SkipSound(ix)
    requires pa.Some? ==> pa.value in ix
    requires pb.Some? ==> pb.value in ix
    ensures pa.None? || pb.None? ==> r == None
    ensures pa.Some? && pb.Some? ==> r == DeepestCommon(ix, pa.value, pb.value)
    ensures pa.Some? && pb.Some? && r.Some? ==>
              && r.value in ix && IsAncestor(ix, r.value, pa.value) && IsAncestor(ix, r.value, pb.value)
              && IsFork(Path(ix, pa.value), Path(ix, pb.value), ix[r.value].height + 1)
  {
    if pa.None? || pb.None? {
      return None;
    }
    ghost var turns: nat;
    var a, b := pa, pb;
    if ix[a.value].height > ix[b.value].height {
      a, turns := GetAncestor(ix, a.value, ix[b.value].height);
    } else if ix[b.value].height > ix[a.value].height {
      b, turns := GetAncestor(ix, b.value, ix[a.value].height);
    }
    r := WalkTogether(ix, pa.value, pb.value, a, b);
    DeepestIs(ix, pa.value, pb.value, r);
    if r.Some? {
      MeetIsFork(ix, pa.value, pb.value, r.value);
    }
  }

  /** The closing loop of LastCommonAncestor, on pointers brought to one height. */
  method WalkTogether(ix: Index, pa: Hash, pb: Hash, a0: Option<Hash>, b0: Option<Hash>) returns (r: Option<Hash>)
    requires Linked(ix) && pa in ix && pb in ix
    requires var k := Min(ix[pa].height, ix[pb].height);
             a0 == Some(AncestorAt(ix, pa, k)) && b0 == Some(AncestorAt(ix, pb, k))
    ensures r.None? ==> ApartAbove(ix, pa, pb, -1)
    ensures r.Some? ==> && r.value in ix && IsAncestor(ix, r.value, pa) && IsAncestor(ix, r.value, pb)
                        && ApartAbove(ix, pa, pb, ix[r.value].height)
  {
    var a, b := a0, b0;
    ghost var k: int := Min(ix[pa].height, ix[pb].height);
    while a != b && a.Some? && b.Some?
      invariant -1 <= k <= ix[pa].height && k <= ix[pb].height
      invariant k == -1 ==> a == b == None
      invariant k >= 0 ==> a == Some(AncestorAt(ix, pa, k)) && b == Some(AncestorAt(ix, pb, k))
      invariant ApartAbove(ix, pa, pb, k)
      decreases k
    {
      StepDown(ix, pa, k);
      StepDown(ix, pb, k);
      a := ix[a.value].prev;
      b := ix[b.value].prev;
      k := k - 1;
    }
    r := a;
  }

  lemma StepDown(ix: Index, h: Hash, k: nat)
    requires Linked(ix) && h in ix && k <= ix[h].height
    ensures ix[AncestorAt(ix, h, k)].prev == if k == 0 then None else Some(AncestorAt(ix, h, k - 1))
  {
    var x := AncestorAt(ix, h, k);
    assert LinkedAt(ix, x);
    if k > 0 {
      AncestorOfAncestor(ix, h, k, k - 1);
      assert AncestorAt(ix, x, k - 1) == ix[x].prev.value;
    }
  }
}
