/**
 bits(), comparison with a 64-bit number, and the shift-subtract long division of base_uint
 (src/util/arith_uint256.cpp:72-161).
 */
module LimbDivision {
  import opened Bits
  import opened Limbs
  import opened LimbShifts
  import opened Compact
  import BigPowers

  // ---------- bits ----------

  /** The highest bit a number may have is set exactly when the number is that large. */
  lemma {:induction false} HighBit(x: nat, m: nat)
    requires x < Pow2(m + 1)
    ensures And(x, Pow2(m)) != 0 <==> x >= Pow2(m)
  {
    if m == 0 {
      assert And(1, 1) == 1;
    } else {
      HighBit(x / 2, m - 1);
    }
  }

  lemma {:induction false} BitLengthUnique(x: nat, n: nat)
    requires n > 0 && Pow2(n - 1) <= x < Pow2(n)
    ensures BitLength(x) == n
  {
    var m := BitLength(x);
    if m < n {
      Pow2Mono(m, n - 1);
    } else if m > n {
      Pow2Mono(n, m - 1);
    }
  }

  lemma TopBit(low: nat, x: nat, pos: nat, m: nat)
    requires low < Pow2(32 * pos) && Pow2(m) <= x < Pow2(m + 1)
    ensures BitLength(low + Shl(x, 32 * pos)) == 32 * pos + m + 1
  {
    var k := 32 * pos;
    ShlVsPow2(x, k, m);
    ShlMono(x + 1, Pow2(m + 1), k);
    ShlAdd(x, 1, k);
    ShlIsMul(1, k);
    Pow2Add(m + 1, k);
    assert m + 1 + k == k + m + 1 && m + k == k + m;
    BitLengthUnique(low + Shl(x, k), k + m + 1);
  }

  /** bits(): the position of the highest set bit plus one. */
  method BitCount(a: array<Limb>) returns (r: nat)
    ensures r == BitLength(Val(a[..]))
  {
    ghost var x := a[..];
    var pos := a.Length;
    while pos > 0
      invariant 0 <= pos <= a.Length && Val(x) == Part(x, pos)
    {
      pos := pos - 1;
      PartBound(x, pos);
      if a[pos] != 0 {
        var m := TopBitOf(a[pos]);
        TopBit(Part(x, pos), x[pos], pos, m);
        return 32 * pos + m + 1;
      }
      ShlZero(32 * pos);
    }
    r := 0;
  }

  /** The inner loop: the highest set bit of one limb. */
  method TopBitOf(x: Limb) returns (m: nat)
    requires x != 0
    ensures Pow2(m) <= x < Pow2(m + 1)
  {
    Pow2Consts();
    m := 31;
    while m > 0
      invariant m <= 31 && x < Pow2(m + 1)
    {
      HighBit(x, m);
      if And(x, Pow2(m)) != 0 {
        return;
      }
      m := m - 1;
    }
  }

  /** EqualTo */
  method EqualTo(a: array<Limb>, b: nat) returns (r: bool)
    requires a.Length >= 2 && b < 0x1_0000_0000_0000_0000
    ensures r == (Val(a[..]) == b)
  {
    ghost var x := a[..];
    var i := a.Length - 1;
    while i >= 2
      invariant 1 <= i < a.Length && forall j {:trigger x[j]} :: i < j < a.Length ==> x[j] == 0
    {
      if a[i] != 0 {
        HighLimb(x, i);
        return false;
      }
      i := i - 1;
    }
    TwoLimbs(x, a.Length);
    ShlLimb(x[1], 0);
    r := a[1] == b / B && a[0] == b % B;
  }

  lemma HighLimb(x: seq<Limb>, i: nat)
    requires 2 <= i < |x| && x[i] != 0
    ensures Val(x) >= 0x1_0000_0000_0000_0000
  {
    PartMono(x, i + 1, |x|);
    BigPowers.Pow2Medium();
    FarLimb(x[i], 32 * i, 64);
  }

  lemma FarLimb(x: nat, k: nat, n: nat)
    requires x > 0 && k >= n
    ensures Shl(x, k) >= Pow2(n)
  {
    ShlMono(1, x, k);
    ShlIsMul(1, k);
    Pow2Mono(n, k);
  }

  lemma {:induction false} PartMono(x: seq<Limb>, m: nat, n: nat)
    requires m <= n <= |x|
    ensures Part(x, m) <= Part(x, n)
    decreases n
  {
    if m < n {
      PartMono(x, m, n - 1);
    }
  }

  // ---------- division ----------

  /** A limb is a piece of the number. */
  lemma LimbOf(s: seq<Limb>, j: nat)
    requires j < |s|
    ensures s[j] == Low(Shr(Val(s), Width(j)), 32)
  {
    DropIsShift(s, j);
    var t := s[j..];
    DropIsShift(t, 1);
    assert Part(t, 1) == t[0] == s[j];
  }

  /** The bit about to be set is free, and so are the lower ones. */
  lemma FreeBit(x: Limb, v: nat, q: nat, j: nat, r: nat)
    requires r < 32 && v == Shl(q, Width(j) + r + 1) && x == Low(Shr(v, Width(j)), 32)
    ensures Or(x, Pow2(r)) == x + Pow2(r) < B
  {
    LimbShape(v, q, Width(j), r);
    OrFree(Low(q, 31 - r), r);
  }

  lemma LimbShape(v: nat, q: nat, k: nat, r: nat)
    requires r < 32 && v == Shl(q, k + r + 1)
    ensures Low(Shr(v, k), 32) == Shl(Low(q, 31 - r), r + 1)
  {
    ShlShl(q, r + 1, k);
    assert r + 1 + k == k + r + 1;
    ShrShl(Shl(q, r + 1), k, 0);
    LowOfShl(q, r + 1, 32);
  }

  lemma OrFree(z: nat, r: nat)
    requires r < 32 && z < Pow2(31 - r)
    ensures Or(Shl(z, r + 1), Pow2(r)) == Shl(z, r + 1) + Pow2(r) < B
  {
    OrIsSum(z, Pow2(r), r + 1);
    LowerLimb(z, Pow2(31 - r), r + 1);
    Pow2Add(31 - r, r + 1);
    Pow2Consts();
  }

  /** pn[shift / 32] |= 1U << (shift & 31) */
  method SetBit(a: array<Limb>, shift: nat, ghost q: nat)
    requires shift < 32 * a.Length && Val(a[..]) == Shl(q, shift + 1)
    modifies a
    ensures Val(a[..]) == Shl(q, shift + 1) + Pow2(shift)
  {
    ghost var s := a[..];
    var j, r := shift / 32, shift % 32;
    LimbOf(s, j);
    FreeBit(s[j], Val(s), q, j, r);
    a[j] := Or(a[j], Pow2(r));
    assert a[..] == s[j := a[j]];
    BitValue(s, j, r, a[j]);
  }

  lemma BitValue(s: seq<Limb>, j: nat, r: nat, x: Limb)
    requires j < |s| && x == s[j] + Pow2(r)
    ensures Val(s[j := x]) == Val(s) + Pow2(32 * j + r)
  {
    PartUpdate(s, j, x, |s|);
    ShlAdd(s[j], Pow2(r), 32 * j);
    Pow2Add(r, 32 * j);
    assert r + 32 * j == 32 * j + r;
  }

  /** What every turn of the loop keeps; `place` is one more than the next bit to try. */
  ghost predicate Dividing(n: nat, d: nat, num: nat, quotient: nat, q: nat, place: nat)
  {
    && n == Product(quotient, d) + num && num < Shl(d, place) && quotient == Shl(q, place)
  }

  lemma BitTaken(n: nat, d: nat, num: nat, quotient: nat, q: nat, shift: nat)
    requires Dividing(n, d, num, quotient, q, shift + 1) && num >= Shl(d, shift)
    ensures Dividing(n, d, num - Shl(d, shift), quotient + Pow2(shift), 2 * q + 1, shift)
  {
    ProductSum(quotient, Pow2(shift), d);
    ShlProduct(1, d, shift);
    ShlIsMul(1, shift);
    assert Product(1, d) == d;
    ShlAdd(2 * q, 1, shift);
    ShlDouble(q, shift);
  }

  lemma BitLeft(n: nat, d: nat, num: nat, quotient: nat, q: nat, shift: nat)
    requires Dividing(n, d, num, quotient, q, shift + 1) && num < Shl(d, shift)
    ensures Dividing(n, d, num, quotient, 2 * q, shift)
  {
    ShlDouble(q, shift);
  }

  lemma Divided(n: nat, d: nat, num: nat, quotient: nat, q: nat)
    requires d > 0 && Dividing(n, d, num, quotient, q, 0)
    ensures quotient == n / d
  {
    ProductIsMul(quotient, d);
    DivUnique(n, d, quotient, num);
  }

  lemma BitBounds(x: nat, n: nat)
    requires n == BitLength(x) && n > 0
    ensures Pow2(n - 1) <= x < Pow2(n)
  {
  }

  /** The dividend fits under the divisor shifted once more than the first turn shifts it. */
  lemma AlignedBits(n: nat, d: nat, nb: nat, db: nat, width: nat)
    requires nb >= db > 0 && Pow2(nb - 1) <= n < Pow2(nb) && Pow2(db - 1) <= d < Pow2(db) && n < Pow2(width)
    ensures n < Shl(d, nb - db + 1) && Shl(d, nb - db) < Pow2(width) && nb - db < width
  {
    var shift := nb - db;
    BitsFit(n, nb, width);
    ShlVsPow2(d, shift + 1, db - 1);
    ShlVsPow2(d, shift, db);
    assert db - 1 + (shift + 1) == nb && db + shift == nb;
  }

  lemma BitsFit(n: nat, nb: nat, width: nat)
    requires nb > 0 && Pow2(nb - 1) <= n < Pow2(width)
    ensures nb <= width && Pow2(nb) <= Pow2(width)
  {
    if nb > width {
      Pow2Mono(width, nb - 1);
    }
    Pow2Mono(nb, width);
  }

  lemma Smaller(n: nat, d: nat)
    requires BitLength(d) > BitLength(n)
    ensures n < d && n / d == 0
  {
    Pow2Mono(BitLength(n), BitLength(d) - 1);
    DivUnique(n, d, 0, n);
  }

  lemma HalfOfShl(d: nat, shift: nat)
    requires shift > 0
    ensures Shr(Shl(d, shift), 1) == Shl(d, shift - 1)
  {
    assert Shr(Shl(d, shift), 0) == Shl(d, shift);
  }

  /**
   operator/=: exact floor division for every non-zero divisor; false stands for the
   division-by-zero exception, which leaves a at zero. b may be a itself.
   */
  method Divide(a: array<Limb>, b: array<Limb>) returns (ok: bool)
    requires a.Length == b.Length
    modifies a
    ensures ok == (old(Val(b[..])) != 0)
    ensures ok ==> Val(a[..]) == old(Val(a[..])) / old(Val(b[..]))
    ensures !ok ==> Val(a[..]) == 0
  {
    ghost var n, d := Val(a[..]), Val(b[..]);
    var div := Copy(b);
    var num := Copy(a);
    Clear(a);
    PartZero(a[..], a.Length);
    PartBound(num[..], num.Length);
    var numBits := BitCount(num);
    var divBits := BitCount(div);
    if divBits == 0 {
      return false;
    }
    if divBits > numBits {
      Smaller(n, d);
      return true;
    }
    BitBounds(n, numBits);
    BitBounds(d, divBits);
    AlignedBits(n, d, numBits, divBits, Width(a.Length));
    var shift := numBits - divBits;
    ShiftLeft(div, shift);
    LowSmall(Shl(d, shift), Width(a.Length));
    LongDivide(a, num, div, shift, n, d);
    ok := true;
  }

  /** The loop over the bits of the quotient. */
  method LongDivide(a: array<Limb>, num: array<Limb>, div: array<Limb>, start: nat, ghost n: nat, ghost d: nat)
    requires a.Length == num.Length == div.Length && start < 32 * a.Length && d > 0
    requires a != num && a != div && num != div
    requires Val(a[..]) == 0 && Val(num[..]) == n < Shl(d, start + 1) && Val(div[..]) == Shl(d, start)
    modifies a, num, div
    ensures Val(a[..]) == n / d
  {
    var shift: int := start;
    ghost var q := 0;
    ShlZero(start + 1);
    while shift >= 0
      invariant -1 <= shift <= start && (shift >= 0 ==> Val(div[..]) == Shl(d, shift))
      invariant Dividing(n, d, Val(num[..]), Val(a[..]), q, shift + 1)
      decreases shift
    {
      q := DivideStep(a, num, div, shift, n, d, q);
      if shift > 0 {
        HalfOfShl(d, shift);
      }
      ShiftRight(div, 1);
      shift := shift - 1;
    }
    Divided(n, d, Val(num[..]), Val(a[..]), q);
  }

  /** Try one bit of the quotient. */
  method DivideStep(a: array<Limb>, num: array<Limb>, div: array<Limb>, shift: nat, ghost n: nat, ghost d: nat,
                    ghost q: nat)
    returns (ghost q': nat)
    requires a.Length == num.Length == div.Length && shift < 32 * a.Length
    requires a != num && a != div && num != div
    requires Val(div[..]) == Shl(d, shift) && Dividing(n, d, Val(num[..]), Val(a[..]), q, shift + 1)
    modifies a, num
    ensures Dividing(n, d, Val(num[..]), Val(a[..]), q', shift)
  {
    var order := CompareTo(num, div);
    if order >= 0 {
      BitTaken(n, d, Val(num[..]), Val(a[..]), q, shift);
      Subtract(num, div);
      SetBit(a, shift, q);
      q' := 2 * q + 1;
    } else {
      BitLeft(n, d, Val(num[..]), Val(a[..]), q, shift);
      q' := 2 * q;
    }
  }
}
