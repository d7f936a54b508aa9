/** Block locators (src/chain/chain.cpp:55-86): every block near the tip, then exponentially sparser ones. */
module Locator {
  import opened Types
  import opened Bits
  import opened BlockTree
  import opened Ancestry
  import opened Protocol

  /** The heights a locator visits, from height h on, with n entries written before. */
  function Heights(h: nat, step: nat, n: nat): (s: seq<nat>)
    requires step > 0
    ensures |s| > 0 && s[0] == h
    decreases h
  {
    if h == 0 then [0]
    else [h] + Heights(Max(h - step, 0), if n + 1 > 10 then 2 * step else step, n + 1)
  }

  /** The entries are the ancestors of start at the given heights. */
  ghost predicate EntriesAt(ix: Index, start: Hash, have: seq<Hash>, hs: seq<nat>)
    requires Linked(ix) && start in ix
  {
    |have| == |hs| && forall i {:trigger have[i]} {:trigger hs[i]} :: 0 <= i < |have| ==>
      hs[i] <= ix[start].height && have[i] == AncestorAt(ix, start, hs[i])
  }

  /** LocatorEntries: the ancestors of the start block at those heights. */
  method LocatorEntries(ix: Index, start: Option<Hash>) returns (have: seq<Hash>)
    requires Linked(ix) && SkipSound(ix) && (start.Some? ==> start.value in ix)
    ensures start.None? ==> have == []
    ensures start.Some? ==> EntriesAt(ix, start.value, have, Heights(ix[start.value].height, 1, 0))
  {
    have := [];
    if start.None? {
      return;
    }
    var step, index := 1, start.value;
    ghost var done: seq<nat> := [];
    while ix[index].height != 0
      invariant step > 0 && index in ix && ix[index].height <= ix[start.value].height
      invariant index == AncestorAt(ix, start.value, ix[index].height)
      invariant EntriesAt(ix, start.value, have, done)
      invariant Heights(ix[start.value].height, 1, 0) == done + Heights(ix[index].height, step, |have|)
      decreases ix[index].height
    {
      ghost var h := ix[index].height;
      have := have + [index];
      var height := Max(ix[index].height - step, 0);
      AncestorOfAncestor(ix, start.value, h, height);
      var next, _ := GetAncestor(ix, index, height);
      index := next.value;
      step := if |have| > 10 then step * 2 else step;
      MoveAcross(done, h, Heights(height, step, |have|));
      done := done + [h];
    }
    have := have + [index];
  }

  // ---------- what the heights are good for ----------

  ghost predicate Descending(s: seq<nat>)
  {
    forall i, j {:trigger s[i], s[j]} :: 0 <= i < j < |s| ==> s[i] > s[j]
  }

  /** A locator is strictly descending and ends at genesis. */
  lemma {:induction false} HeightsDescend(h: nat, step: nat, n: nat)
    requires step > 0
    ensures Descending(Heights(h, step, n)) && Last(Heights(h, step, n)) == 0
    decreases h
  {
    if h > 0 {
      var step' := if n + 1 > 10 then 2 * step else step;
      var rest := Heights(Max(h - step, 0), step', n + 1);
      HeightsDescend(Max(h - step, 0), step', n + 1);
      forall i, j | 0 <= i < j < |rest| + 1
        ensures ([h] + rest)[i] > ([h] + rest)[j]
      {
        assert j > 1 ==> rest[0] > rest[j - 1];
        assert i > 0 ==> rest[i - 1] > rest[j - 1];
      }
    }
  }

  /** How far entry i lies below the start: ten single steps, then powers of two. */
  function Offset(i: nat): nat
  {
    if i < 10 then i else 9 + Pow2(i - 10)
  }

  lemma OffsetStep(n: nat)
    ensures Offset(n) < Offset(n + 1)
    ensures Offset(n + 2) - Offset(n + 1) == (if n + 1 > 10 then 2 else 1) * (Offset(n + 1) - Offset(n))
  {
    assert Pow2(0) == 1 && Pow2(1) == 2;
  }

  lemma {:induction false} LaterHeights(h: nat, n: nat, i: nat)
    requires Offset(n) < Offset(n + 1) && i < |Heights(h, Offset(n + 1) - Offset(n), n)|
    ensures Heights(h, Offset(n + 1) - Offset(n), n)[i] == Max(h - (Offset(n + i) - Offset(n)), 0)
    decreases i
  {
    if i > 0 {
      var step := Offset(n + 1) - Offset(n);
      OffsetStep(n);
      OffsetStep(n + 1);
      LaterHeights(Max(h - step, 0), n + 1, i - 1);
      OffsetsGrow(n + 1, n + i);
    }
  }

  lemma {:induction false} OffsetsGrow(n: nat, m: nat)
    requires n <= m
    ensures Offset(n) <= Offset(m)
  {
    if n < m {
      OffsetsGrow(n, m - 1);
      OffsetStep(m - 1);
    }
  }

  /** Entry i of a locator: start - i near the tip, then start - 9 - 2^(i - 10), never below genesis. */
  lemma {:induction false} HeightAt(h: nat, i: nat)
    requires i < |Heights(h, 1, 0)|
    ensures Heights(h, 1, 0)[i] == Max(h - Offset(i), 0)
  {
    LaterHeights(h, 0, i);
  }

  /** Once the step doubles, a height below step * 2^k takes at most k + 1 more entries. */
  lemma {:induction false} DoublingIsShort(h: nat, step: nat, n: nat, k: nat)
    requires step > 0 && n >= 10 && h + step <= Shl(step, k)
    ensures |Heights(h, step, n)| <= k + 1
    decreases k
  {
    if h > 0 {
      if h <= step {
        assert Heights(0, 2 * step, n + 1) == [0];
      } else {
        ShlDouble(step, k - 1);
        DoublingIsShort(h - step, 2 * step, n + 1, k - 1);
      }
    }
  }

  lemma {:induction false} FirstTenAreSingle(h: nat, n: nat, k: nat)
    requires n <= 10 && h + 1 <= Shl(1, k)
    ensures |Heights(h, 1, n)| <= (10 - n) + k + 1
    decreases 10 - n
  {
    if n == 10 {
      DoublingIsShort(h, 1, 10, k);
    } else if h > 0 {
      FirstTenAreSingle(h - 1, n + 1, k);
    }
  }

  /** Locators of chains below height 2^30 stay within MAX_LOCATOR_SZ, the receiver's limit. */
  lemma {:induction false} LocatorFits(h: nat)
    requires h < 0x4000_0000
    ensures |Heights(h, 1, 0)| <= 41 < MAX_LOCATOR_SZ
  {
    ShlIsMul(1, 30);
    Pow2Consts();
    assert Pow2(28) == 0x1000_0000;
    FirstTenAreSingle(h, 0, 30);
  }

  /** i is the first entry at or below level. */
  ghost predicate FirstAtOrBelow(s: seq<nat>, level: nat, i: nat)
  {
    && i < |s| && s[i] <= level
    && forall j {:trigger s[j]} :: 0 <= j < i ==> s[j] > level
  }

  /** The highest entry at or below a level misses it by at most as much as the level is below the start. */
  lemma {:induction false} LocatorGap(top: nat, h: nat, step: nat, n: nat, level: nat) returns (i: nat)
    requires 0 < step <= top - h + 1 && level <= h <= top
    ensures FirstAtOrBelow(Heights(h, step, n), level, i)
    ensures level - Heights(h, step, n)[i] <= top - level
    decreases h
  {
    var s := Heights(h, step, n);
    if level == h {
      return 0;
    }
    var h', step' := Max(h - step, 0), if n + 1 > 10 then 2 * step else step;
    var rest := Heights(h', step', n + 1);
    assert s[1..] == rest;
    if level >= h' {
      assert s[1] == rest[0] == h';
      return 1;
    }
    var j := LocatorGap(top, h', step', n + 1, level);
    i := j + 1;
    assert s[i] == rest[j];
    forall m | 0 <= m < i ensures s[m] > level {
      assert m > 0 ==> s[m] == rest[m - 1];
    }
  }
}
