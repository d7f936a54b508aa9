/** The limb-level shifts of base_uint (src/util/arith_uint256.cpp:13-44). */
module LimbShifts {
  import opened Bits
  import opened Limbs

  // ---------- one limb ----------

  /** The 32 bits of x << s that stay in the limb, and those that go to the next. */
  function Stay(x: Limb, s: nat): (r: Limb)
    requires s < 32
  {
    Shl(x, s) % B
  }

  function Over(x: Limb, s: nat): nat
    requires s < 32
  {
    if s == 0 then 0 else Shr(x, 32 - s)
  }

  lemma OrComm(x: nat, y: nat)
    ensures Or(x, y) == Or(y, x)
    decreases x + y
  {
    if x != 0 || y != 0 {
      OrComm(x / 2, y / 2);
    }
  }

  lemma OrZero(x: nat)
    ensures Or(0, x) == x
  {
    OrIsSum(x, 0, 0);
    OrComm(x, 0);
  }

  lemma LowIsModLimb(x: nat)
    ensures Low(x, 32) == x % B
  {
    Pow2Consts();
    ShrIsDiv(x, 32);
  }

  /** A shifted limb is its two parts; the part that stays has s zero bits, the other has s bits. */
  lemma StayOver(x: Limb, s: nat)
    requires s < 32
    ensures Shl(x, s) == Stay(x, s) + B * Over(x, s)
    ensures Stay(x, s) == Shl(Low(x, 32 - s), s) && Over(x, s) < Pow2(s)
  {
    Pow2Consts();
    LowOfShl(x, s, 32);
    LowIsModLimb(Shl(x, s));
    if s == 0 {
      LowSmall(x, 32);
    } else {
      ShlShr(x, 32 - s);
      ShlAdd(Shl(Shr(x, 32 - s), 32 - s), Low(x, 32 - s), s);
      ShlShl(Shr(x, 32 - s), 32 - s, s);
      ShlLimb(Shr(x, 32 - s), 0);
      ShrVsPow2(x, 32 - s, s);
    }
  }

  lemma StayOrOver(x: Limb, y: nat, s: nat)
    requires s < 32 && y < Pow2(s)
    ensures Or(y, Stay(x, s)) == Stay(x, s) + y < B
  {
    StayOver(x, s);
    OrIsSum(Low(x, 32 - s), y, s);
    OrComm(y, Stay(x, s));
    Pow2Consts();
    ShlMono(Low(x, 32 - s) + 1, Pow2(32 - s), s);
    ShlAdd(Low(x, 32 - s), 1, s);
    ShlIsMul(1, s);
    Pow2Add(32 - s, s);
  }

  // ---------- left ----------

  /** What limb j receives from limb j - k - 1 and from limb j - k. */
  function FromBelow(a: seq<Limb>, k: nat, s: nat, j: nat): nat
    requires s < 32 && j <= |a|
  {
    if j > k then Over(a[j - k - 1], s) else 0
  }

  function FromOwn(a: seq<Limb>, k: nat, s: nat, j: nat): nat
    requires s < 32 && j < |a|
  {
    if j >= k then Stay(a[j - k], s) else 0
  }

  /** Limb j of the result, after i limbs of the copy have been handled. */
  function LeftStage(a: seq<Limb>, k: nat, s: nat, i: nat, j: nat): nat
    requires s < 32 && j < |a|
  {
    if j < i + k then FromOwn(a, k, s, j) + FromBelow(a, k, s, j)
    else if j == i + k then FromBelow(a, k, s, j)
    else 0
  }

  ghost predicate LeftDone(p: seq<Limb>, a: seq<Limb>, k: nat, s: nat, i: nat)
    requires s < 32 && |p| == |a|
  {
    forall j {:trigger p[j]} :: 0 <= j < |p| ==> p[j] == LeftStage(a, k, s, i, j)
  }

  /** operator<<= */
  method ShiftLeft(p: array<Limb>, shift: nat)
    modifies p
    ensures Val(p[..]) == Low(Shl(old(Val(p[..])), shift), Width(p.Length))
  {
    ghost var a := p[..];
    var copy := Copy(p);
    Clear(p);
    var n, k, s := p.Length, shift / 32, shift % 32;
    for i := 0 to n
      invariant copy[..] == a && LeftDone(p[..], a, k, s, i)
    {
      ghost var before := p[..];
      LeftLimbs(before, a, k, s, i);
      assert copy[i] == a[i];
      if i + k + 1 < n && s != 0 {
        p[i + k + 1] := Or(p[i + k + 1], Shr(copy[i], 32 - s));
      }
      if i + k < n {
        p[i + k] := Or(p[i + k], Shl(copy[i], s) % B);
      }
      LeftNext(before, p[..], a, k, s, i);
    }
    LeftValue(p[..], a, k, s);
  }

  /** What the two limbs written in turn i hold before, and what the or makes of them. */
  lemma LeftLimbs(p: seq<Limb>, a: seq<Limb>, k: nat, s: nat, i: nat)
    requires s < 32 && |p| == |a| && i < |a| && LeftDone(p, a, k, s, i)
    ensures Over(a[i], s) < B
    ensures i + k < |p| ==> Or(p[i + k], Stay(a[i], s)) == p[i + k] + Stay(a[i], s) < B
    ensures i + k + 1 < |p| ==> p[i + k + 1] == 0 && Or(0, Over(a[i], s)) == Over(a[i], s)
  {
    StayOver(a[i], s);
    Pow2Consts();
    Pow2Mono(s, 32);
    OrZero(Over(a[i], s));
    if i + k < |p| {
      BelowBound(a, k, s, i + k);
      StayOrOver(a[i], p[i + k], s);
    }
  }

  lemma LeftNext(p: seq<Limb>, q: seq<Limb>, a: seq<Limb>, k: nat, s: nat, i: nat)
    requires s < 32 && |p| == |q| == |a| && i < |a| && LeftDone(p, a, k, s, i)
    requires forall j {:trigger q[j]} :: 0 <= j < |q| ==>
      q[j] == if j == i + k then p[j] + Stay(a[i], s) else if j == i + k + 1 then Over(a[i], s) else p[j]
    ensures LeftDone(q, a, k, s, i + 1)
  {
    forall j {:trigger q[j]} | 0 <= j < |q| ensures q[j] == LeftStage(a, k, s, i + 1, j) {
      assert p[j] == LeftStage(a, k, s, i, j);
    }
  }

  method Clear(p: array<Limb>)
    modifies p
    ensures forall j {:trigger p[j]} :: 0 <= j < p.Length ==> p[j] == 0
  {
    for i := 0 to p.Length
      invariant forall j {:trigger p[j]} :: 0 <= j < i ==> p[j] == 0
    {
      p[i] := 0;
    }
  }

  lemma BelowBound(a: seq<Limb>, k: nat, s: nat, j: nat)
    requires s < 32 && j <= |a|
    ensures FromBelow(a, k, s, j) < Pow2(s) && FromBelow(a, k, s, j) < B
  {
    Pow2Consts();
    Pow2Mono(s, 32);
    if j > k {
      StayOver(a[j - k - 1], s);
    }
  }

  lemma LeftColumn(own: Limb, below: nat, s: nat, i: nat, j: nat, k: nat)
    requires s < 32 && j == i + k
    ensures Shl(Stay(own, s) + below, 32 * j) + Shl(Over(own, s), 32 * (j + 1))
            == Shl(below, 32 * j) + Shl(Shl(own, 32 * i), 32 * k + s)
  {
    StayOver(own, s);
    ShlAdd(Stay(own, s), below, 32 * j);
    Column(Shl(own, s), Stay(own, s), Over(own, s), 32 * j);
    ShlShl(own, s, 32 * j);
    ShlShl(own, 32 * i, 32 * k + s);
    assert s + 32 * j == 32 * i + (32 * k + s) && 32 * j + 32 == 32 * (j + 1);
  }

  /** The limbs below j hold the shifted lower limbs, but for what has gone over into limb j. */
  lemma {:induction false} LeftPart(p: seq<Limb>, a: seq<Limb>, k: nat, s: nat, j: nat)
    requires s < 32 && |p| == |a| && k <= j <= |a| && LeftDone(p, a, k, s, |a|)
    ensures Part(p, j) + Shl(FromBelow(a, k, s, j), 32 * j) == Shl(Part(a, j - k), 32 * k + s)
    decreases j
  {
    if j == k {
      assert forall i {:trigger p[i]} :: 0 <= i < k ==> p[i] == LeftStage(a, k, s, |a|, i);
      PartZero(p, k);
      ShlZero(32 * j);
      ShlZero(32 * k + s);
    } else {
      LeftPart(p, a, k, s, j - 1);
      var i := j - 1 - k;
      assert p[j - 1] == LeftStage(a, k, s, |a|, j - 1);
      LeftColumn(a[i], FromBelow(a, k, s, j - 1), s, i, j - 1, k);
      ShlAdd(Part(a, i), Shl(a[i], 32 * i), 32 * k + s);
    }
  }

  lemma LeftValue(p: seq<Limb>, a: seq<Limb>, k: nat, s: nat)
    requires s < 32 && |p| == |a| && LeftDone(p, a, k, s, |a|)
    ensures Val(p) == Low(Shl(Val(a), 32 * k + s), Width(|a|))
  {
    PartBound(p, |a|);
    if k > |a| {
      assert forall i {:trigger p[i]} :: 0 <= i < |a| ==> p[i] == LeftStage(a, k, s, |a|, i);
      PartZero(p, |a|);
      ShiftedOut(Val(a), 32 * k + s, Width(|a|));
    } else {
      LeftPart(p, a, k, s, |a|);
      DropSplits(a, |a| - k);
      LeftTop(Val(p), FromBelow(a, k, s, |a|), Val(a), Part(a, |a| - k), Val(a[|a| - k..]), |a|, k, s);
    }
  }

  lemma LeftTop(p: nat, over: nat, v: nat, low: nat, high: nat, n: nat, k: nat, s: nat)
    requires k <= n && v == low + Shl(high, Width(n - k)) && p + Shl(over, 32 * n) == Shl(low, 32 * k + s)
             && p < Pow2(Width(n))
    ensures p == Low(Shl(v, 32 * k + s), Width(n))
  {
    var m, q := 32 * (n - k), 32 * k;
    assert m + q == 32 * n;
    TopDropped(p, over, v, low, high, m, q, s);
  }

  lemma ShiftedOut(v: nat, shift: nat, n: nat)
    requires shift >= n
    ensures Low(Shl(v, shift), n) == 0
  {
    ShlShl(v, shift - n, n);
    LowUnique(Shl(v, shift - n), 0, n);
  }

  lemma TopDropped(p: nat, over: nat, v: nat, low: nat, high: nat, m: nat, q: nat, s: nat)
    requires v == low + Shl(high, m) && p + Shl(over, m + q) == Shl(low, q + s) && p < Pow2(m + q)
    ensures p == Low(Shl(v, q + s), m + q)
  {
    ShlAdd(low, Shl(high, m), q + s);
    ShlShl(high, m, q + s);
    ShlShl(high, s, m + q);
    assert m + (q + s) == s + (m + q);
    ShlAdd(over, Shl(high, s), m + q);
    CarriedOut(p, over + Shl(high, s), Shl(v, q + s), m + q);
  }

  // ---------- right ----------

  /** What stays of limb x under x >> s, and what goes to the limb below. */
  function Kept(x: Limb, s: nat): nat
    requires s < 32
  {
    Shr(x, s)
  }

  function Down(x: Limb, s: nat): nat
    requires s < 32
  {
    if s == 0 then 0 else Shl(x, 32 - s) % B
  }

  lemma KeptDown(x: Limb, s: nat)
    requires s < 32
    ensures x == Shl(Kept(x, s), s) + Low(x, s)
    ensures Down(x, s) == Shl(Low(x, s), 32 - s) && Kept(x, s) < Pow2(32 - s) && Low(x, s) < Pow2(s)
  {
    Pow2Consts();
    ShlShr(x, s);
    ShrVsPow2(x, s, 32 - s);
    if s == 0 {
      ShlZero(32);
    } else {
      LowOfShl(x, 32 - s, 32);
      LowIsModLimb(Shl(x, 32 - s));
    }
  }

  lemma KeptOrDown(x: nat, y: Limb, s: nat)
    requires s < 32 && x < Pow2(32 - s)
    ensures Or(x, Down(y, s)) == x + Down(y, s) < B
  {
    KeptDown(y, s);
    OrIsSum(Low(y, s), x, 32 - s);
    OrComm(x, Down(y, s));
    Pow2Consts();
    ShlMono(Low(y, s) + 1, Pow2(s), 32 - s);
    ShlAdd(Low(y, s), 1, 32 - s);
    ShlIsMul(1, 32 - s);
    Pow2Add(s, 32 - s);
  }

  /** Limb j of the result, after the first i limbs of the copy have been handled. */
  function RightStage(a: seq<Limb>, k: nat, s: nat, i: nat, j: nat): nat
    requires s < 32 && i <= |a|
  {
    (if j + k < i then Kept(a[j + k], s) else 0) + (if j + k + 1 < i then Down(a[j + k + 1], s) else 0)
  }

  ghost predicate RightDone(p: seq<Limb>, a: seq<Limb>, k: nat, s: nat, i: nat)
    requires s < 32 && |p| == |a| && i <= |a|
  {
    forall j {:trigger p[j]} :: 0 <= j < |p| ==> p[j] == RightStage(a, k, s, i, j)
  }

  /** operator>>= */
  method ShiftRight(p: array<Limb>, shift: nat)
    modifies p
    ensures Val(p[..]) == Shr(old(Val(p[..])), shift)
  {
    ghost var a := p[..];
    var copy := Copy(p);
    Clear(p);
    var n, k, s := p.Length, shift / 32, shift % 32;
    for i := 0 to n
      invariant copy[..] == a && RightDone(p[..], a, k, s, i)
    {
      ghost var before := p[..];
      RightLimbs(before, a, k, s, i);
      assert copy[i] == a[i];
      if i >= k + 1 && s != 0 {
        p[i - k - 1] := Or(p[i - k - 1], Shl(copy[i], 32 - s) % B);
      }
      if i >= k {
        p[i - k] := Or(p[i - k], Shr(copy[i], s));
      }
      RightNext(before, p[..], a, k, s, i);
    }
    RightValue(p[..], a, k, s);
  }

  lemma RightLimbs(p: seq<Limb>, a: seq<Limb>, k: nat, s: nat, i: nat)
    requires s < 32 && |p| == |a| && i < |a| && RightDone(p, a, k, s, i)
    ensures i >= k ==> p[i - k] == 0 && Or(0, Kept(a[i], s)) == Kept(a[i], s) < B
    ensures i >= k + 1 ==> Or(p[i - k - 1], Down(a[i], s)) == p[i - k - 1] + Down(a[i], s) < B
  {
    KeptDown(a[i], s);
    Pow2Consts();
    Pow2Mono(32 - s, 32);
    OrZero(Kept(a[i], s));
    if i >= k + 1 {
      KeptDown(a[i - 1], s);
      KeptOrDown(p[i - k - 1], a[i], s);
    }
  }

  lemma RightNext(p: seq<Limb>, q: seq<Limb>, a: seq<Limb>, k: nat, s: nat, i: nat)
    requires s < 32 && |p| == |q| == |a| && i < |a| && RightDone(p, a, k, s, i)
    requires forall j {:trigger q[j]} :: 0 <= j < |q| ==>
      q[j] == if j + k == i then Kept(a[i], s) else if j + k + 1 == i then p[j] + Down(a[i], s) else p[j]
    ensures RightDone(q, a, k, s, i + 1)
  {
    forall j {:trigger q[j]} | 0 <= j < |q| ensures q[j] == RightStage(a, k, s, i + 1, j) {
      assert p[j] == RightStage(a, k, s, i, j);
    }
  }

  /** The bits limb j of c loses to the limb below it. */
  function Lost(c: seq<Limb>, s: nat, j: nat): nat
  {
    if j < |c| then Low(c[j], s) else 0
  }

  lemma RightColumn(x: Limb, kept: nat, lost: nat, next: nat, s: nat, k: nat)
    requires s < 32 && x == Shl(kept, s) + lost
    ensures Shl(Shl(kept + Shl(next, 32 - s), k), s) + Shl(lost, k) == Shl(x, k) + Shl(next, k + 32)
  {
    ShlAdd(kept, Shl(next, 32 - s), k);
    ShlShl(next, 32 - s, k);
    ShlAdd(Shl(kept, k), Shl(next, 32 - s + k), s);
    ShlShl(next, 32 - s + k, s);
    ShlShl(kept, k, s);
    ShlShl(kept, s, k);
    ShlAdd(Shl(kept, s), lost, k);
    assert 32 - s + k + s == k + 32 && k + s == s + k;
  }

  lemma RightLimb(p: seq<Limb>, a: seq<Limb>, k: nat, s: nat, j: nat)
    requires s < 32 && |p| == |a| && k + j < |a| && RightDone(p, a, k, s, |a|)
    ensures p[j] == Kept(a[k..][j], s) + Shl(Lost(a[k..], s, j + 1), 32 - s)
    ensures a[k..][j] == Shl(Kept(a[k..][j], s), s) + Lost(a[k..], s, j)
  {
    var c := a[k..];
    assert p[j] == RightStage(a, k, s, |a|, j) && c[j] == a[j + k];
    KeptDown(c[j], s);
    if j + 1 < |c| {
      assert c[j + 1] == a[j + k + 1];
      KeptDown(c[j + 1], s);
    } else {
      ShlZero(32 - s);
    }
  }

  lemma {:induction false} RightPart(p: seq<Limb>, a: seq<Limb>, k: nat, s: nat, j: nat)
    requires s < 32 && |p| == |a| && k + j <= |a| && RightDone(p, a, k, s, |a|)
    ensures Shl(Part(p, j), s) + Lost(a[k..], s, 0) == Part(a[k..], j) + Shl(Lost(a[k..], s, j), 32 * j)
    decreases j
  {
    if j == 0 {
      ShlZero(s);
    } else {
      var c := a[k..];
      RightPart(p, a, k, s, j - 1);
      RightLimb(p, a, k, s, j - 1);
      RightColumn(c[j - 1], Kept(c[j - 1], s), Lost(c, s, j - 1), Lost(c, s, j), s, 32 * (j - 1));
      ShlAdd(Part(p, j - 1), Shl(p[j - 1], 32 * (j - 1)), s);
      assert 32 * (j - 1) + 32 == 32 * j;
    }
  }

  lemma {:induction false} RightRest(p: seq<Limb>, m: nat, n: nat)
    requires m <= n <= |p| && forall j {:trigger p[j]} :: m <= j < n ==> p[j] == 0
    ensures Part(p, n) == Part(p, m)
    decreases n
  {
    if m < n {
      RightRest(p, m, n - 1);
      ShlZero(32 * (n - 1));
    }
  }

  lemma RightValue(p: seq<Limb>, a: seq<Limb>, k: nat, s: nat)
    requires s < 32 && |p| == |a| && RightDone(p, a, k, s, |a|)
    ensures Val(p) == Shr(Val(a), 32 * k + s)
  {
    assert forall j {:trigger p[j]} :: |a| - k <= j < |p| && 0 <= j ==> p[j] == RightStage(a, k, s, |a|, j);
    if k > |a| {
      PartZero(p, |p|);
      PartBound(a, |a|);
      ShiftedAway(Val(a), 32 * k + s, Width(|a|));
    } else {
      RightRest(p, |a| - k, |p|);
      RightPart(p, a, k, s, |a| - k);
      ShlZero(32 * (|a| - k));
      DropIsShift(a, k);
      RightTop(Val(p), Val(a[k..]), Lost(a[k..], s, 0), Val(a), 32 * k, s);
    }
  }

  lemma RightTop(p: nat, c: nat, lost: nat, v: nat, m: nat, s: nat)
    requires Shl(p, s) + lost == c && lost < Pow2(s) && c == Shr(v, m)
    ensures p == Shr(v, m + s)
  {
    ShrShl(p, s, lost);
    ShrShr(v, m, s);
  }

  lemma {:induction false} ShiftedAway(v: nat, shift: nat, n: nat)
    requires v < Pow2(n) && n <= shift
    ensures Shr(v, shift) == 0
  {
    Pow2Mono(n, shift);
    ShrShl(0, shift, v);
    ShlZero(shift);
  }
}
