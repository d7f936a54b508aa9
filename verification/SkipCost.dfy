/**
 How many turns the mixed walk of GetAncestor takes (src/chain/block_index.cpp:40-65): at most
 k^2 + 5k from a height below 2^k, whatever the target, and from 2^k - 1 down to height 2 at
 least a quarter of that, up to a constant. The comment at line 39 promises O(log n).

 The bounds are proved for any function `skip` that clears bits as GetSkipHeight does.
 */
module SkipCost {
  import opened Bits
  import opened BlockTree

  /** Where one turn of the walk goes, when every skip pointer is set and `skip` gives the skip heights. */
  function NextHeight(skip: nat -> nat, h: nat, t: nat): nat
    requires t < h
  {
    if skip(h) < h && (skip(h) == t || (skip(h) > t && !(skip(h - 1) < skip(h) - 2 && skip(h - 1) >= t)))
    then skip(h) else h - 1
  }

  /** The turns from height h to height t. */
  function Steps(skip: nat -> nat, h: nat, t: nat): nat
    requires t <= h
    decreases h
  {
    if h == t then 0 else 1 + Steps(skip, NextHeight(skip, h, t), t)
  }

  // ---------- clearing the lowest set bit ----------

  /** InvertLowestOne by binary digits. */
  function Drop(n: nat): (r: nat)
    ensures r <= n && (n > 0 ==> r < n) && r % 2 == 0
  {
    if n == 0 then 0 else if n % 2 == 1 then n - 1 else 2 * Drop(n / 2)
  }

  lemma {:induction false} AndSelf(x: nat)
    ensures And(x, x) == x
  {
    if x > 0 {
      AndSelf(x / 2);
    }
  }

  lemma {:induction false} DropIsInvert(n: nat)
    ensures InvertLowestOne(n) == Drop(n)
  {
    if n > 0 {
      if n % 2 == 1 {
        AndSelf(n / 2);
      } else {
        DropIsInvert(n / 2);
      }
    }
  }

  lemma SkipByDrop(h: nat)
    ensures h >= 2 && h % 2 == 0 ==> SkipHeight(h) == Drop(h)
    ensures h >= 3 && h % 2 == 1 ==> SkipHeight(h) == Drop(Drop(h - 1)) + 1
  {
    DropIsInvert(h);
    if h > 0 {
      DropIsInvert(h - 1);
      DropIsInvert(Drop(h - 1));
    }
  }

  /** High bits do not matter while there is a lower one to clear. */
  lemma {:induction false} DropShifted(c: nat, j: nat, r: nat)
    requires 0 < r < Pow2(j)
    ensures Drop(Shl(c, j) + r) == Shl(c, j) + Drop(r)
    decreases j
  {
    if r % 2 == 0 {
      DropShifted(c, j - 1, r / 2);
      assert (Shl(c, j) + r) / 2 == Shl(c, j - 1) + r / 2;
    }
  }

  /** A bit with nothing below it is cleared. */
  lemma {:induction false} DropMid(c: nat, j: nat)
    ensures Drop(Shl(2 * c + 1, j)) == Shl(c, j + 1) && Shl(2 * c + 1, j) == Shl(c, j + 1) + Pow2(j)
    decreases j
  {
    if j > 0 {
      DropMid(c, j - 1);
    } else {
      assert Shl(c, 1) == 2 * c;
    }
  }

  /** The number of set bits. */
  function Ones(n: nat): nat
  {
    if n == 0 then 0 else n % 2 + Ones(n / 2)
  }

  lemma {:induction false} OnesOfDrop(n: nat)
    requires n > 0
    ensures Ones(n) >= 1 && Ones(Drop(n)) == Ones(n) - 1
  {
    if n % 2 == 0 {
      OnesOfDrop(n / 2);
    }
  }

  lemma {:induction false} OnesBound(n: nat, j: nat)
    requires n < Pow2(j)
    ensures Ones(n) <= j
  {
    if j > 0 {
      OnesBound(n / 2, j - 1);
    }
  }

  // ---------- one level ----------

  /**
   [b, b + n) and [m, m + n) are the halves of an aligned block. In the upper half an even height skips by
   clearing one bit of its offset, an odd one by clearing two; where the bits run out they leave the half, the
   even ones onto b and the odd ones onto b + 1 or below.
   */
  ghost predicate Half(skip: nat -> nat, m: nat, b: nat, n: nat)
  {
    && m == b + n && m % 2 == 0 && skip(m) == b && skip(m + 1) <= b + 1
    && (forall w: nat :: 0 < w < n && w % 2 == 0 ==> Offset(skip, m, b, w))
  }

  ghost predicate Offset(skip: nat -> nat, m: nat, b: nat, w: nat)
  {
    && skip(m + w) == m + Drop(w)
    && skip(m + w + 1) == if Drop(w) == 0 then b + 1 else m + Drop(Drop(w)) + 1
  }

  /** The target lies in the lower half, and from that half's last height at most q turns are left. */
  ghost predicate Level(skip: nat -> nat, m: nat, b: nat, n: nat, t: nat, q: nat)
  {
    Half(skip, m, b, n) && b <= t < m && Steps(skip, m - 1, t) <= q
  }

  lemma OneTurn(skip: nat -> nat, h: nat, t: nat, n: nat)
    requires t < h && NextHeight(skip, h, t) == n
    ensures t <= n && Steps(skip, h, t) == 1 + Steps(skip, n, t)
  {
  }

  lemma NextToTarget(skip: nat -> nat, h: nat, t: nat)
    requires t <= h <= t + 1
    ensures Steps(skip, h, t) <= 1
  {
  }

  /** At the middle the skip pointer leads to the block's start: past the target, or onto it. */
  lemma AtMiddle(skip: nat -> nat, m: nat, b: nat, n: nat, t: nat)
    requires Half(skip, m, b, n) && b <= t < m
    ensures Steps(skip, m, t) == if b == t then 1 else 1 + Steps(skip, m - 1, t)
  {
    if b == t {
      OneTurn(skip, m, t, t);
    } else {
      OneTurn(skip, m, t, m - 1);
    }
  }

  /** A single bit above the middle, and a target beyond the reach of the odd heights: straight to the middle. */
  lemma SingleBit(skip: nat -> nat, m: nat, b: nat, n: nat, t: nat, r: nat)
    requires Half(skip, m, b, n) && b + 1 < t < m && 0 < r < n && r % 2 == 0 && Drop(r) == 0
    ensures Steps(skip, m + r, t) == 1 + Steps(skip, m, t)
  {
    assert Offset(skip, m, b, r);
    if r > 2 {
      assert Offset(skip, m, b, r - 2);
    }
    OneTurn(skip, m + r, t, m);
  }

  /** An odd height with at most one bit between it and the middle. */
  lemma LastOdd(skip: nat -> nat, m: nat, b: nat, n: nat, t: nat, q: nat, w: nat)
    requires Level(skip, m, b, n, t, q) && w % 2 == 0 && w + 1 < n && Drop(w) == 0
    ensures Steps(skip, m + w + 1, t) <= 4 + q
  {
    if w > 0 {
      assert Offset(skip, m, b, w);
    }
    var to := skip(m + w + 1);
    if to >= t {
      NextToTarget(skip, to, t);
      OneTurn(skip, m + w + 1, t, to);
    } else if w == 0 {
      AtMiddle(skip, m, b, n, t);
      OneTurn(skip, m + w + 1, t, m);
    } else {
      AtMiddle(skip, m, b, n, t);
      SingleBit(skip, m, b, n, t, w);
      OneTurn(skip, m + w + 1, t, m + w);
    }
  }

  /** Odd heights of the upper half clear two bits at a time. */
  lemma OddJump(skip: nat -> nat, m: nat, b: nat, n: nat, t: nat, w: nat)
    requires Half(skip, m, b, n) && b <= t < m && w % 2 == 0 && w + 1 < n && Drop(w) > 0
    ensures Steps(skip, m + w + 1, t) == 1 + Steps(skip, m + Drop(Drop(w)) + 1, t)
    ensures Ones(w) == Ones(Drop(Drop(w))) + 2
  {
    assert Offset(skip, m, b, w);
    OnesOfDrop(w);
    OnesOfDrop(Drop(w));
    OneTurn(skip, m + w + 1, t, m + Drop(Drop(w)) + 1);
  }

  lemma {:induction false} OddBound(skip: nat -> nat, m: nat, b: nat, n: nat, t: nat, q: nat, w: nat)
    requires Level(skip, m, b, n, t, q) && w % 2 == 0 && w + 1 < n
    ensures Steps(skip, m + w + 1, t) <= Ones(w) + 4 + q
    decreases w
  {
    if Drop(w) > 0 {
      OddJump(skip, m, b, n, t, w);
      OddBound(skip, m, b, n, t, q, Drop(Drop(w)));
    } else {
      LastOdd(skip, m, b, n, t, q, w);
    }
  }

  lemma ChangeOver(skip: nat -> nat, m: nat, b: nat, n: nat, j: nat, t: nat, q: nat, r: nat)
    requires Level(skip, m, b, n, t, q) && n == Pow2(j) && r % 2 == 0 && 0 < r < n
    requires NextHeight(skip, m + r, t) == m + r - 1
    ensures Steps(skip, m + r, t) <= j + 5 + q
  {
    OnesBound(r - 2, j);
    OddBound(skip, m, b, n, t, q, r - 2);
    OneTurn(skip, m + r, t, m + r - 1);
  }

  /** Even heights clear one bit at a time, and may change over to the odd ones once. */
  lemma {:induction false} EvenBound(skip: nat -> nat, m: nat, b: nat, n: nat, j: nat, t: nat, q: nat, r: nat)
    requires Level(skip, m, b, n, t, q) && n == Pow2(j) && r % 2 == 0 && r < n
    ensures Steps(skip, m + r, t) <= Ones(r) + j + 5 + q
    decreases r
  {
    if r == 0 {
      AtMiddle(skip, m, b, n, t);
    } else {
      assert Offset(skip, m, b, r);
      OnesOfDrop(r);
      if NextHeight(skip, m + r, t) == m + r - 1 {
        ChangeOver(skip, m, b, n, j, t, q, r);
      } else {
        EvenBound(skip, m, b, n, j, t, q, Drop(r));
        OneTurn(skip, m + r, t, m + Drop(r));
      }
    }
  }

  /** From the upper half of a block to a target in the lower half. */
  lemma UpperBound(skip: nat -> nat, m: nat, b: nat, j: nat, h: nat, t: nat, q: nat)
    requires Level(skip, m, b, Pow2(j), t, q) && m <= h < m + Pow2(j)
    ensures Steps(skip, h, t) <= 2 * j + 6 + q
  {
    var r := h - m;
    OnesBound(r - r % 2, j);
    if r % 2 == 0 {
      EvenBound(skip, m, b, Pow2(j), j, t, q, r);
    } else {
      OddBound(skip, m, b, Pow2(j), t, q, r - 1);
    }
  }

  // ---------- the skip heights of the chain ----------

  /** The skip heights in terms of Drop: an even height loses its lowest bit, the odd one after it one more. */
  ghost predicate DropsBits(skip: nat -> nat)
  {
    forall h: nat :: h >= 2 && h % 2 == 0 ==> DropsAt(skip, h)
  }

  ghost predicate DropsAt(skip: nat -> nat, h: nat)
  {
    skip(h) == Drop(h) && skip(h + 1) == Drop(Drop(h)) + 1
  }

  lemma SkipDropsBits()
    ensures DropsBits(SkipHeight)
  {
    forall h: nat | h >= 2 && h % 2 == 0
      ensures DropsAt(SkipHeight, h)
    {
      SkipByDrop(h);
      SkipByDrop(h + 1);
    }
  }

  lemma DropTwiceShifted(c: nat, j: nat, m: nat, w: nat)
    requires m == Shl(c, j) && 0 < w < Pow2(j)
    ensures Drop(m + w) == m + Drop(w) && (Drop(w) > 0 ==> Drop(m + Drop(w)) == m + Drop(Drop(w)))
  {
    DropShifted(c, j, w);
    if Drop(w) > 0 {
      DropShifted(c, j, Drop(w));
    }
  }

  lemma OffsetSkips(skip: nat -> nat, m: nat, b: nat, w: nat)
    requires DropsBits(skip) && m % 2 == 0 && Drop(m) == b && w > 0 && w % 2 == 0
    requires Drop(m + w) == m + Drop(w) && (Drop(w) > 0 ==> Drop(m + Drop(w)) == m + Drop(Drop(w)))
    ensures Offset(skip, m, b, w)
  {
    assert DropsAt(skip, m + w);
  }

  lemma ChainHalf(skip: nat -> nat, c: nat, j: nat)
    requires j >= 1 && DropsBits(skip)
    ensures Half(skip, Shl(2 * c + 1, j), Shl(c, j + 1), Pow2(j))
  {
    var m, b := Shl(2 * c + 1, j), Shl(c, j + 1);
    DropMid(c, j);
    assert DropsAt(skip, m);
    forall w: nat | 0 < w < Pow2(j) && w % 2 == 0
      ensures Offset(skip, m, b, w)
    {
      DropTwiceShifted(2 * c + 1, j, m, w);
      OffsetSkips(skip, m, b, w);
    }
  }

  // ---------- all levels ----------

  function Bound(k: nat): nat
  {
    if k == 0 then 0 else Bound(k - 1) + 2 * k + 4
  }

  lemma {:induction false} BoundIsQuadratic(k: nat)
    ensures Bound(k) == k * k + 5 * k
  {
    if k > 0 {
      BoundIsQuadratic(k - 1);
    }
  }

  lemma AcrossHalves(skip: nat -> nat, c: nat, j: nat, h: nat, t: nat, q: nat)
    requires j >= 1 && DropsBits(skip)
    requires Shl(c, j + 1) <= t < Shl(2 * c + 1, j) <= h < Shl(2 * c + 1, j) + Pow2(j)
    requires Steps(skip, Shl(2 * c + 1, j) - 1, t) <= q
    ensures Steps(skip, h, t) <= 2 * j + 6 + q
  {
    ChainHalf(skip, c, j);
    UpperBound(skip, Shl(2 * c + 1, j), Shl(c, j + 1), j, h, t, q);
  }

  /** Both heights in one aligned block of 2^k. */
  lemma {:induction false} BlockBound(skip: nat -> nat, c: nat, k: nat, h: nat, t: nat)
    requires DropsBits(skip) && Shl(c, k) <= t <= h < Shl(c, k) + Pow2(k)
    ensures Steps(skip, h, t) <= Bound(k)
    decreases k
  {
    if k > 0 {
      var j := k - 1;
      var m := Shl(2 * c + 1, j);
      DropMid(c, j);
      ShlDouble(c, j);
      if h < m {
        BlockBound(skip, 2 * c, j, h, t);
      } else if t >= m {
        BlockBound(skip, 2 * c + 1, j, h, t);
      } else if j == 0 {
        NextToTarget(skip, h, t);
      } else {
        BlockBound(skip, 2 * c, j, m - 1, t);
        AcrossHalves(skip, c, j, h, t, Bound(j));
      }
    }
  }

  /** From any height below 2^k to any target, the walk takes at most k^2 + 5k turns. */
  lemma {:induction false} WalkIsShort(h: nat, t: nat, k: nat)
    requires t <= h < Pow2(k)
    ensures Steps(SkipHeight, h, t) <= k * k + 5 * k
  {
    ShlZero(k);
    SkipDropsBits();
    BoundIsQuadratic(k);
    BlockBound(SkipHeight, 0, k, h, t);
  }

  // ---------- the worst case ----------

  /** A target above b + 1 keeps the odd heights of the upper half on their way to the middle. */
  lemma LastDetour(skip: nat -> nat, m: nat, b: nat, n: nat, t: nat, w: nat)
    requires Half(skip, m, b, n) && b + 1 < t < m && w % 2 == 0 && w + 1 < n && Drop(w) == 0
    ensures Steps(skip, m + w + 1, t) >= (if w == 0 then 2 else 3) + Steps(skip, m - 1, t)
  {
    AtMiddle(skip, m, b, n, t);
    if w > 0 {
      assert Offset(skip, m, b, w);
      SingleBit(skip, m, b, n, t, w);
    }
    OneTurn(skip, m + w + 1, t, m + w);
  }

  lemma {:induction false} OddDetour(skip: nat -> nat, m: nat, b: nat, n: nat, t: nat, w: nat)
    requires Half(skip, m, b, n) && b + 1 < t < m && w % 2 == 0 && w + 1 < n
    ensures 2 * Steps(skip, m + w + 1, t) >= Ones(w) + 4 + 2 * Steps(skip, m - 1, t)
    decreases w
  {
    if Drop(w) > 0 {
      OddJump(skip, m, b, n, t, w);
      OddDetour(skip, m, b, n, t, Drop(Drop(w)));
    } else {
      LastDetour(skip, m, b, n, t, w);
      if w > 0 {
        OnesOfDrop(w);
      }
    }
  }

  lemma OnesOfDouble(x: nat)
    ensures Ones(2 * x) == Ones(x) && Ones(2 * x + 1) == Ones(x) + 1
  {
  }

  lemma {:induction false} OnesOfMask(j: nat)
    ensures Ones(Pow2(j) - 1) == j
  {
    if j > 0 {
      OnesOfMask(j - 1);
      OnesOfDouble(Pow2(j - 1) - 1);
    }
  }

  lemma OnesOfEvenMask(j: nat)
    requires j >= 1
    ensures Ones(Pow2(j) - 2) == j - 1
  {
    OnesOfMask(j - 1);
    OnesOfDouble(Pow2(j - 1) - 1);
  }

  /** 2^k - 1. */
  function Mask(k: nat): (r: nat)
    requires k >= 2
    ensures r >= 3
  {
    assert Pow2(k) == 4 * Pow2(k - 2);
    Pow2(k) - 1
  }

  lemma LowestHalf(j: nat)
    requires j >= 1
    ensures Half(SkipHeight, Pow2(j), 0, Pow2(j))
  {
    SkipDropsBits();
    ChainHalf(SkipHeight, 0, j);
    ShlZero(j + 1);
    DropMid(0, j);
  }

  lemma FromTop(skip: nat -> nat, p: nat)
    requires p >= 4 && Half(skip, p, 0, p)
    ensures 2 * Steps(skip, 2 * p - 1, 2) >= Ones(p - 2) + 4 + 2 * Steps(skip, p - 1, 2)
  {
    OddDetour(skip, p, 0, p, 2, p - 2);
  }

  lemma LevelCost(skip: nat -> nat, j: nat)
    requires j >= 2 && Half(skip, Pow2(j), 0, Pow2(j))
    ensures 2 * Steps(skip, Mask(j + 1), 2) >= j + 3 + 2 * Steps(skip, Mask(j), 2)
  {
    OnesOfEvenMask(j);
    assert Pow2(j) == Mask(j) + 1 && Pow2(j + 1) == Mask(j + 1) + 1;
    FromTop(skip, Pow2(j));
  }

  /** From height 2^k - 1 down to height 2 the walk takes no fewer than a quarter of the bound, up to a constant. */
  lemma {:induction false} WalkCanBeLong(k: nat)
    requires k >= 2
    ensures 4 * Steps(SkipHeight, Mask(k), 2) + 10 >= k * k + 5 * k
  {
    if k > 2 {
      WalkCanBeLong(k - 1);
      LowestHalf(k - 1);
      LevelCost(SkipHeight, k - 1);
    }
  }

  /** So no constant makes the walk logarithmic: it may take more than a turns for each bit of the height. */
  lemma NotLogarithmic(a: nat) returns (k: nat)
    ensures k >= 2 && Steps(SkipHeight, Mask(k), 2) > a * k
  {
    k := 4 * a + 6;
    WalkCanBeLong(k);
    Outgrows(a, k);
  }

  lemma Outgrows(a: nat, k: nat)
    requires k == 4 * a + 6
    ensures k * k + 5 * k > 4 * (a * k) + 10
  {
    assert k * k == 4 * (a * k) + 6 * k;
  }
}
