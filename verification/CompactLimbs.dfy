/** SetCompact, GetCompact and GetBlockProof on limbs: they compute the functions of module `Compact`. */
module CompactLimbs {
  import opened Bits
  import opened Limbs
  import opened LimbShifts
  import opened LimbDivision
  import Compact
  import BigPowers

  /** Reduction to the width is the remainder. */
  lemma LowIsMod(x: nat, n: nat, m: nat)
    requires m == Pow2(n)
    ensures Low(x, n) == x % m
  {
    ShrIsDiv(x, n);
  }

  // ---------- SetCompact ----------

  method SetCompact(a: array<Limb>, compact: nat) returns (negative: bool, overflow: bool)
    requires a.Length == 8 && compact < 0x1_0000_0000
    modifies a
    ensures Compact.Decoded(Val(a[..]), negative, overflow) == Compact.SetCompact(compact)
  {
    var size, word := compact / 0x100_0000, compact % 0x80_0000;
    if size <= 3 {
      Compact.ShrLe(word, 8 * (3 - size));
      word := Shr(word, 8 * (3 - size));
      Assign64(a, word);
    } else {
      Assign64(a, word);
      ShiftLeft(a, 8 * (size - 3));
      BigPowers.Pow2Big();
      LowIsMod(Shl(word, 8 * (size - 3)), Width(a.Length), TWO_256);
    }
    negative := word != 0 && compact / 0x80_0000 % 2 == 1;
    overflow := word != 0 && (size > 34 || (word > 0xff && size > 33) || (word > 0xffff && size > 32));
  }

  // ---------- GetCompact ----------

  const TWO_64: nat := 0x1_0000_0000_0000_0000

  /** GetLow64 */
  method GetLow64(a: array<Limb>) returns (r: nat)
    requires a.Length >= 2
    ensures r == Val(a[..]) % TWO_64
  {
    ghost var s := a[..];
    BigPowers.Pow2Medium();
    DropIsShift(s, 2);
    LowIsMod(Val(s), Width(2), TWO_64);
    assert Part(s, 1) == s[0] && Part(s, 2) == s[0] + Shl(s[1], 32);
    Pow2Consts();
    OrIsSum(a[1], a[0], 32);
    OrComm(a[0], Shl(a[1], 32));
    r := Or(a[0], Shl(a[1], 32));
  }

  lemma LeadingShort(x: nat, size: nat)
    requires size == Compact.ByteLength(x) <= 3
    ensures x < 0x100_0000 && Shl(x, 8 * (3 - size)) == Compact.Leading(x) < 0x100_0000
  {
    assert Compact.Leading(x) == Shl(x, 8 * (3 - size));
    Compact.ShlGrows(x, 8 * (3 - size));
  }

  lemma LeadingLong(x: nat, size: nat)
    requires size == Compact.ByteLength(x) > 3
    ensures Shr(x, 8 * (size - 3)) == Compact.Leading(x) < 0x100_0000
  {
    assert Compact.Leading(x) == Shr(x, 8 * (size - 3));
  }

  /** The three leading bytes, truncated to 32 bits as the source truncates them. */
  method LeadingBytes(a: array<Limb>, size: nat) returns (m: nat)
    requires a.Length >= 2 && size == Compact.ByteLength(Val(a[..]))
    ensures m == Compact.Leading(Val(a[..]))
  {
    ghost var lead := Compact.Leading(Val(a[..]));
    if size <= 3 {
      LeadingShort(Val(a[..]), size);
      m := ShiftedUp(a, 8 * (3 - size), lead);
    } else {
      LeadingLong(Val(a[..]), size);
      m := ShiftedDown(a, 8 * (size - 3), lead);
    }
  }

  method ShiftedUp(a: array<Limb>, shift: nat, ghost lead: nat) returns (m: nat)
    requires a.Length >= 2 && Val(a[..]) < 0x100_0000 && Shl(Val(a[..]), shift) == lead < 0x100_0000
    ensures m == lead
  {
    var low := GetLow64(a);
    m := Shl(low, shift) % 0x1_0000_0000;
  }

  method ShiftedDown(a: array<Limb>, shift: nat, ghost lead: nat) returns (m: nat)
    requires a.Length >= 2 && Shr(Val(a[..]), shift) == lead < 0x100_0000
    ensures m == lead
  {
    var bn := Copy(a);
    ShiftRight(bn, shift);
    m := GetLow64(bn);
    m := m % 0x1_0000_0000;
  }

  method GetCompact(a: array<Limb>) returns (compact: nat)
    requires a.Length >= 2
    ensures compact == Compact.GetCompact(Val(a[..]))
  {
    var bits := BitCount(a);
    var size := (bits + 7) / 8;
    compact := LeadingBytes(a, size);
    Pow2Consts();
    MantissaSign(compact);
    if And(compact, 0x80_0000) != 0 {
      Compact.ShrByte(compact);
      compact := Shr(compact, 8);
      size := size + 1;
    }
    OrSize(compact, size);
    compact := Or(compact, Shl(size, 24));
  }

  lemma MantissaSign(m: nat)
    requires m < 0x100_0000
    ensures And(m, 0x80_0000) != 0 <==> m >= 0x80_0000
  {
    Pow2Consts();
    assert Pow2(23) == 0x80_0000;
    HighBit(m, 23);
  }

  lemma OrSize(m: nat, size: nat)
    requires m < 0x100_0000
    ensures Or(m, Shl(size, 24)) == m + size * 0x100_0000
  {
    Pow2Consts();
    OrIsSum(size, m, 24);
    OrComm(m, Shl(size, 24));
    ShlIsMul(size, 24);
  }

  // ---------- GetBlockProof ----------

  /** Zero for unusable bits, else (~target / (target + 1)) + 1; the divisor is never zero. */
  method GetBlockProof(bits: nat) returns (work: array<Limb>)
    requires bits < 0x1_0000_0000
    ensures work.Length == 8 && Val(work[..]) == Compact.BlockProof(bits)
  {
    var target := new Limb[8](_ => 0);
    var negative, overflow := SetCompact(target, bits);
    work := new Limb[8](_ => 0);
    PartZero(work[..], 8);
    var zero := EqualTo(target, 0);
    if negative || overflow || zero {
      return;
    }
    Compact.NoTargetIsMax(bits);
    work := ProofOf(target, Compact.Decoded(Val(target[..]), negative, overflow));
  }

  /** (~target / (target + 1)) + 1, with the guard for a target of all ones. */
  method ProofOf(target: array<Limb>, ghost t: Compact.Decoded) returns (work: array<Limb>)
    requires target.Length == 8 && t.Usable() && Val(target[..]) == t.value < TWO_256
    ensures work.Length == 8 && Val(work[..]) == Compact.ProofOf(t)
  {
    BigPowers.Pow2Big();
    work := Complement(target);
    var allOnes := EqualTo(work, 0);
    if allOnes {
      Assign64(work, 1);
      return;
    }
    DivideBySuccessor(work, target);
  }

  /** work / (target + 1) + 1, where neither increment leaves the width. */
  method DivideBySuccessor(work: array<Limb>, target: array<Limb>)
    requires work.Length == target.Length && work != target
    requires Val(target[..]) + 1 < Pow2(Width(work.Length)) && Val(work[..]) + 1 < Pow2(Width(work.Length))
    modifies work
    ensures Val(work[..]) == Compact.Quotient(old(Val(work[..])), Val(target[..]) + 1) + 1
  {
    ghost var n, d := Val(work[..]), Val(target[..]) + 1;
    var divisor := Copy(target);
    IncrementInRange(divisor);
    var ok := Divide(work, divisor);
    QuotientSmall(n, d);
    IncrementInRange(work);
  }

  method IncrementInRange(a: array<Limb>)
    requires Val(a[..]) + 1 < Pow2(Width(a.Length))
    modifies a
    ensures Val(a[..]) == old(Val(a[..])) + 1
  {
    LowSmall(Val(a[..]) + 1, Width(a.Length));
    Increment(a);
  }

  lemma QuotientSmall(n: nat, d: nat)
    requires d > 0
    ensures n / d == Compact.Quotient(n, d) <= n
  {
    DivMod(n, d);
    MulMono(1, d, n / d);
  }
}
