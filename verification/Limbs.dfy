/**
 base_uint: numbers as arrays of 32-bit limbs, least significant first
 (src/util/arith_uint256.cpp, include/util/arith_uint256.hpp). Every in-place operation is
 proved to compute the operation on naturals, reduced to the width of the array.
 */
module Limbs {
  import opened Bits

  const B: nat := 0x1_0000_0000

  type Limb = x: int | 0 <= x < 0x1_0000_0000

  /** The number the first n limbs stand for. */
  function Part(s: seq<Limb>, n: nat): nat
    requires n <= |s|
  {
    if n == 0 then 0 else Part(s, n - 1) + Shl(s[n - 1], 32 * (n - 1))
  }

  function Val(s: seq<Limb>): nat { Part(s, |s|) }

  /** The bits in n limbs. */
  function Width(n: nat): nat { 32 * n }

  // ---------- laws ----------

  lemma {:induction false} ShlLimb(x: nat, k: nat)
    ensures Shl(B * x, k) == Shl(x, k + 32)
  {
    Pow2Consts();
    ShlIsMul(x, 32);
    ShlShl(x, 32, k);
    assert 32 + k == k + 32;
  }

  /** Only the first n limbs matter. */
  lemma {:induction false} PartSame(s: seq<Limb>, t: seq<Limb>, n: nat)
    requires n <= |s| && n <= |t| && forall j {:trigger s[j]} {:trigger t[j]} :: 0 <= j < n ==> s[j] == t[j]
    ensures Part(s, n) == Part(t, n)
    decreases n
  {
    if n > 0 {
      PartSame(s, t, n - 1);
    }
  }

  lemma TopLimb(x: nat, k: nat)
    requires x < B
    ensures Shl(x, k) + Pow2(k) <= Pow2(k + 32)
  {
    ShlMono(x + 1, B, k);
    ShlAdd(x, 1, k);
    ShlLimb(1, k);
    ShlIsMul(1, k);
    ShlIsMul(1, k + 32);
  }

  lemma {:induction false} PartBound(s: seq<Limb>, n: nat)
    requires n <= |s|
    ensures Part(s, n) < Pow2(Width(n))
    decreases n
  {
    if n > 0 {
      PartBound(s, n - 1);
      TopLimb(s[n - 1], 32 * (n - 1));
    }
  }

  lemma {:induction false} PartZero(s: seq<Limb>, n: nat)
    requires n <= |s| && forall i {:trigger s[i]} :: 0 <= i < n ==> s[i] == 0
    ensures Part(s, n) == 0
    decreases n
  {
    if n > 0 {
      PartZero(s, n - 1);
      ShlZero(32 * (n - 1));
    }
  }

  /** Changing one limb changes the value by the difference, in its place. */
  lemma {:induction false} PartUpdate(s: seq<Limb>, j: nat, x: Limb, n: nat)
    requires j < |s| && n <= |s|
    ensures n <= j ==> Part(s[j := x], n) == Part(s, n)
    ensures j < n ==> Part(s[j := x], n) + Shl(s[j], 32 * j) == Part(s, n) + Shl(x, 32 * j)
    decreases n
  {
    if n > 0 {
      PartUpdate(s, j, x, n - 1);
    }
  }

  /** Dropping limbs shifts right. */
  lemma {:induction false} PartSplit(s: seq<Limb>, k: nat, n: nat)
    requires k <= n <= |s|
    ensures Part(s, n) == Part(s, k) + Shl(Part(s[k..], n - k), 32 * k)
    decreases n
  {
    if n == k {
      ShlZero(32 * k);
    } else {
      PartSplit(s, k, n - 1);
      var x: nat := s[n - 1];
      assert s[k..][n - 1 - k] == s[n - 1];
      ShlAdd(Part(s[k..], n - 1 - k), Shl(x, 32 * (n - 1 - k)), 32 * k);
      ShlShl(x, 32 * (n - 1 - k), 32 * k);
      assert 32 * (n - 1 - k) + 32 * k == 32 * (n - 1);
    }
  }

  lemma TwoParts(v: nat, high: nat, low: nat, k: nat)
    requires v == low + Shl(high, k) && low < Pow2(k)
    ensures high == Shr(v, k) && low == Low(v, k)
  {
    ShrShl(high, k, low);
    LowUnique(high, low, k);
  }

  lemma DropSplits(s: seq<Limb>, k: nat)
    requires k <= |s|
    ensures Val(s) == Part(s, k) + Shl(Val(s[k..]), Width(k)) && Part(s, k) < Pow2(Width(k))
  {
    PartSplit(s, k, |s|);
    PartBound(s, k);
  }

  lemma DropIsShift(s: seq<Limb>, k: nat)
    requires k <= |s|
    ensures Val(s[k..]) == Shr(Val(s), Width(k)) && Part(s, k) == Low(Val(s), Width(k))
  {
    DropSplits(s, k);
    TwoParts(Val(s), Val(s[k..]), Part(s, k), Width(k));
  }

  /** The value with a carry out of its top is reduced to the width. */
  lemma CarriedOut(v: nat, carry: nat, sum: nat, n: nat)
    requires v + Shl(carry, n) == sum && v < Pow2(n)
    ensures v == Low(sum, n)
  {
    LowUnique(carry, v, n);
  }

  /** One column of a sum: the limb that stays and the carry. */
  lemma Column(n: nat, lo: nat, hi: nat, k: nat)
    requires n == lo + B * hi
    ensures Shl(n, k) == Shl(lo, k) + Shl(hi, k + 32)
  {
    ShlAdd(lo, B * hi, k);
    ShlLimb(hi, k);
  }

  lemma SumColumn(carry: nat, a: nat, b: nat, lo: nat, hi: nat, k: nat)
    requires lo + B * hi == carry + a + b
    ensures Shl(carry, k) + Shl(a, k) + Shl(b, k) == Shl(lo, k) + Shl(hi, k + 32)
  {
    Column(carry + a + b, lo, hi, k);
    ShlAdd(carry + a, b, k);
    ShlAdd(carry, a, k);
  }

  // ---------- assignment ----------

  /** *this = b, for a 64-bit b. */
  method Assign64(a: array<Limb>, b: nat)
    requires a.Length >= 2 && b < 0x1_0000_0000_0000_0000
    modifies a
    ensures Val(a[..]) == b
  {
    a[0] := b % B;
    a[1] := b / B;
    for i := 2 to a.Length
      invariant a[0] == b % B && a[1] == b / B && forall j {:trigger a[j]} :: 2 <= j < i ==> a[j] == 0
    {
      a[i] := 0;
    }
    TwoLimbs(a[..], a.Length);
    ShlLimb(a[1], 0);
  }

  lemma {:induction false} TwoLimbs(s: seq<Limb>, n: nat)
    requires 2 <= n <= |s| && forall j {:trigger s[j]} :: 2 <= j < n ==> s[j] == 0
    ensures Part(s, n) == s[0] + Shl(s[1], 32)
    decreases n
  {
    if n == 2 {
      assert Part(s, 1) == s[0];
    } else {
      TwoLimbs(s, n - 1);
      ShlZero(32 * (n - 1));
    }
  }

  /** A copy. */
  method Copy(b: array<Limb>) returns (r: array<Limb>)
    ensures fresh(r) && r.Length == b.Length && r[..] == b[..]
  {
    r := new Limb[b.Length](_ => 0);
    for i := 0 to b.Length
      invariant forall j {:trigger r[j]} :: 0 <= j < i ==> r[j] == b[j]
    {
      r[i] := b[i];
    }
  }

  // ---------- addition ----------

  /** operator+=; b may be a itself. */
  method Add(a: array<Limb>, b: array<Limb>)
    requires a.Length == b.Length
    modifies a
    ensures Val(a[..]) == Low(old(Val(a[..])) + old(Val(b[..])), Width(a.Length))
  {
    var carry: nat := 0;
    ghost var x, y := a[..], b[..];
    for i := 0 to a.Length
      invariant carry <= 1
      invariant forall j {:trigger a[j]} {:trigger b[j]} :: i <= j < a.Length ==> a[j] == x[j] && b[j] == y[j]
      invariant Part(a[..], i) + Shl(carry, 32 * i) == Part(x, i) + Part(y, i)
    {
      ghost var s := a[..];
      var n: nat := carry + a[i] + b[i];
      SumColumn(carry, x[i], y[i], n % B, n / B, 32 * i);
      a[i] := n % B;
      PartUpdate(s, i, a[i], i);
      assert a[..] == s[i := a[i]];
      carry := n / B;
    }
    PartBound(a[..], a.Length);
    CarriedOut(Val(a[..]), carry, Val(x) + Val(y), Width(a.Length));
  }

  function Succ(x: Limb): nat { 1 + (x as nat) }

  /** operator++ */
  method Increment(a: array<Limb>)
    modifies a
    ensures Val(a[..]) == Low(old(Val(a[..])) + 1, Width(a.Length))
  {
    ghost var x := a[..];
    var i := 0;
    while i < a.Length
      invariant i <= a.Length && forall j {:trigger a[j]} :: i <= j < a.Length ==> a[j] == x[j]
      invariant Part(a[..], i) + Shl(1, 32 * i) == Part(x, i) + 1
    {
      ghost var s := a[..];
      a[i] := Succ(a[i]) % B;
      PartUpdate(s, i, a[i], i);
      assert a[..] == s[i := a[i]];
      SumColumn(1, x[i], 0, a[i], if a[i] == 0 then 1 else 0, 32 * i);
      ShlZero(32 * i);
      if a[i] != 0 {
        ShlZero(32 * i + 32);
        NoCarryLeft(a[..], x, i + 1, a.Length);
        PartBound(a[..], a.Length);
        LowSmall(Val(x) + 1, Width(a.Length));
        return;
      }
      i := i + 1;
    }
    PartBound(a[..], a.Length);
    CarriedOut(Val(a[..]), 1, Val(x) + 1, Width(a.Length));
  }

  lemma {:induction false} NoCarryLeft(a: seq<Limb>, x: seq<Limb>, k: nat, n: nat)
    requires k <= n <= |a| == |x| && Part(a, k) == Part(x, k) + 1
    requires forall j {:trigger a[j]} :: k <= j < |a| ==> a[j] == x[j]
    ensures Part(a, n) == Part(x, n) + 1
    decreases n
  {
    if n > k {
      NoCarryLeft(a, x, k, n - 1);
    }
  }

  /** operator~ */
  method Complement(b: array<Limb>) returns (r: array<Limb>)
    ensures fresh(r) && r.Length == b.Length
    ensures Val(r[..]) == Pow2(Width(b.Length)) - 1 - Val(b[..])
  {
    r := new Limb[b.Length](_ => 0);
    for i := 0 to b.Length
      invariant Part(r[..], i) + Part(b[..], i) + 1 == Pow2(32 * i)
    {
      ghost var s := r[..];
      r[i] := B - 1 - b[i];
      PartUpdate(s, i, r[i], i);
      assert r[..] == s[i := r[i]];
      ComplementColumn(b[i], r[i], 32 * i);
    }
  }

  lemma ComplementColumn(x: nat, y: nat, k: nat)
    requires x + y + 1 == B
    ensures Shl(x, k) + Shl(y, k) + Pow2(k) == Pow2(k + 32)
  {
    ShlAdd(x, y, k);
    ShlAdd(x + y, 1, k);
    ShlLimb(1, k);
    ShlIsMul(1, k);
    ShlIsMul(1, k + 32);
  }

  /** operator-: the complement plus one. */
  method Negate(b: array<Limb>) returns (r: array<Limb>)
    ensures fresh(r) && r.Length == b.Length
    ensures Val(b[..]) < Pow2(Width(b.Length))
    ensures Val(r[..]) == Low(Pow2(Width(b.Length)) - Val(b[..]), Width(b.Length))
  {
    PartBound(b[..], b.Length);
    r := Complement(b);
    Increment(r);
  }

  /** operator-=: wraps around when b is larger. */
  method Subtract(a: array<Limb>, b: array<Limb>)
    requires a.Length == b.Length
    modifies a
    ensures var x, y := old(Val(a[..])), old(Val(b[..]));
            Val(a[..]) == if x >= y then x - y else x + Pow2(Width(a.Length)) - y
  {
    ghost var x, y := Val(a[..]), Val(b[..]);
    PartBound(a[..], a.Length);
    PartBound(b[..], a.Length);
    var c := Negate(b);
    ghost var negated := Val(c[..]);
    Add(a, c);
    Wrap(x, y, negated, Val(a[..]), Width(a.Length));
  }

  lemma Wrap(x: nat, y: nat, negated: nat, sum: nat, n: nat)
    requires x < Pow2(n) && y < Pow2(n) && negated == Low(Pow2(n) - y, n) && sum == Low(x + negated, n)
    ensures sum == if x >= y then x - y else x + Pow2(n) - y
  {
    WrapSum(Pow2(n) - y, n);
    WrapSum(x + negated, n);
  }

  lemma WrapSum(v: nat, n: nat)
    requires v < 2 * Pow2(n)
    ensures Low(v, n) == if v >= Pow2(n) then v - Pow2(n) else v
  {
    if v >= Pow2(n) {
      ShlIsMul(1, n);
      LowUnique(1, v - Pow2(n), n);
    } else {
      LowSmall(v, n);
    }
  }

  // ---------- comparison ----------

  /** CompareTo: negative, zero or positive. */
  method CompareTo(a: array<Limb>, b: array<Limb>) returns (r: int)
    requires a.Length == b.Length
    ensures r < 0 <==> Val(a[..]) < Val(b[..])
    ensures r > 0 <==> Val(a[..]) > Val(b[..])
  {
    ghost var x, y := a[..], b[..];
    var i := a.Length;
    while i > 0
      invariant 0 <= i <= a.Length
      invariant Val(x) - Val(y) == Part(x, i) - Part(y, i)
    {
      i := i - 1;
      PartBound(x, i);
      PartBound(y, i);
      LowerLimb(x[i], y[i], 32 * i);
      LowerLimb(y[i], x[i], 32 * i);
      if a[i] < b[i] {
        return -1;
      }
      if a[i] > b[i] {
        return 1;
      }
    }
    r := 0;
  }

  lemma LowerLimb(x: nat, y: nat, k: nat)
    ensures x < y ==> Shl(x, k) + Pow2(k) <= Shl(y, k)
  {
    ShlIsMul(1, k);
    ShlAdd(x, 1, k);
    ShlMono(x + 1, y, k);
  }
}
