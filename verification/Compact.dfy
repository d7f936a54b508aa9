/**
 The compact "nBits" encoding of a difficulty target and the proof of a block, on
 natural numbers (src/util/arith_uint256.cpp, src/chain/block_index.cpp). The limb
 level methods of module `CompactLimbs` compute exactly these functions.
 */
module Compact {
  import opened Bits
  import opened BigPowers

  const U32: nat := 0x1_0000_0000

  /** What SetCompact leaves in its object and in its two flags. */
  datatype Decoded = Decoded(value: nat, negative: bool, overflow: bool)
  {
    /** The test every user of a target makes before using it. */
    predicate Usable() {
      !negative && !overflow && value != 0
    }
  }

  function Exponent(compact: nat): nat { compact / 0x100_0000 }

  predicate SignBit(compact: nat) { compact / 0x80_0000 % 2 == 1 }

  /** The mantissa nWord, after the in-place shift made for short exponents. */
  function Word(compact: nat): (w: nat)
    ensures w < 0x80_0000
  {
    var size, word := Exponent(compact), compact % 0x80_0000;
    if size <= 3 then
      ShrLe(word, 8 * (3 - size));
      Shr(word, 8 * (3 - size))
    else word
  }

  /** arith_uint256::SetCompact: the left shift drops what does not fit in 256 bits. */
  function SetCompact(compact: nat): Decoded
  {
    var size, word := Exponent(compact), Word(compact);
    Decoded(if size <= 3 then word else Shl(word, 8 * (size - 3)) % TWO_256,
            word != 0 && SignBit(compact),
            word != 0 && (size > 34 || (word > 0xff && size > 33) || (word > 0xffff && size > 32)))
  }

  /** base_uint::bits: the position of the highest set bit plus one. */
  function BitLength(x: nat): (n: nat)
    ensures x < Pow2(n)
    ensures x > 0 ==> n > 0 && Pow2(n - 1) <= x
  {
    if x == 0 then 0 else 1 + BitLength(x / 2)
  }

  function ByteLength(x: nat): nat { (BitLength(x) + 7) / 8 }

  /** The three leading bytes of x, the mantissa before the sign bit is cleared. */
  function Leading(x: nat): (m: nat)
    ensures m < 0x100_0000
    ensures ByteLength(x) > 3 ==> m >= 0x1_0000
  {
    LeadingBound(x);
    var size := ByteLength(x);
    if size <= 3 then Shl(x, 8 * (3 - size)) else Shr(x, 8 * (size - 3))
  }

  /** arith_uint256::GetCompact(fNegative = false). */
  function GetCompact(x: nat): nat
  {
    var m, size := Leading(x), ByteLength(x);
    if m >= 0x80_0000 then m / 0x100 + (size + 1) * 0x100_0000 else m + size * 0x100_0000
  }

  /** GetBlockProof, src/chain/block_index.cpp:112-132. */
  function BlockProof(bits: nat): (work: nat)
  {
    NoTargetIsMax(bits);
    ProofOf(SetCompact(bits))
  }

  function ProofOf(t: Decoded): nat
    requires t.value < TWO_256
  {
    if !t.Usable() then 0
    else if t.value == TWO_256 - 1 then 1
    else Quotient(TWO_256 - 1 - t.value, t.value + 1) + 1
  }

  function Quotient(n: nat, d: nat): nat
    requires d > 0
  {
    n / d
  }

  // ---------- bounds ----------

  lemma ShrLe(x: nat, n: nat)
    ensures Shr(x, n) <= x
  {
  }

  /** A number lies between consecutive powers of 256 given by its byte length. */
  lemma ByteLengthBounds(x: nat)
    ensures x < Pow2(8 * ByteLength(x))
    ensures x > 0 ==> ByteLength(x) > 0 && Pow2(8 * (ByteLength(x) - 1)) <= x
  {
    var n := BitLength(x);
    Pow2Mono(n, 8 * ByteLength(x));
    if x > 0 {
      Pow2Mono(8 * (ByteLength(x) - 1), n - 1);
    }
  }

  lemma ByteLengthMax(x: nat)
    requires x < TWO_256
    ensures ByteLength(x) <= 32
  {
    ByteLengthBounds(x);
    Pow2Big();
    if ByteLength(x) > 32 {
      Pow2Mono(256, 8 * (ByteLength(x) - 1));
    }
  }

  lemma LeadingBound(x: nat)
    ensures ByteLength(x) <= 3 ==> Shl(x, 8 * (3 - ByteLength(x))) < 0x100_0000
    ensures ByteLength(x) > 3 ==> 0x1_0000 <= Shr(x, 8 * (ByteLength(x) - 3)) < 0x100_0000
  {
    ByteLengthBounds(x);
    Pow2Consts();
    var n := ByteLength(x);
    if n <= 3 {
      ShlVsPow2(x, 8 * (3 - n), 8 * n);
      assert 8 * n + 8 * (3 - n) == 24;
    } else {
      ShrVsPow2(x, 8 * (n - 3), 24);
      ShrVsPow2(x, 8 * (n - 3), 16);
      assert 24 + 8 * (n - 3) == 8 * n && 16 + 8 * (n - 3) == 8 * (n - 1);
    }
  }

  // ---------- the overflow flag ----------

  /** mantissa * 256^(size-3), rounded down, without any bound on its width. */
  function Magnitude(compact: nat): nat
  {
    if Exponent(compact) <= 3 then Word(compact) else Shl(Word(compact), 8 * (Exponent(compact) - 3))
  }

  /** The overflow flag is raised exactly when the magnitude needs more than 256 bits. */
  lemma {:induction false} OverflowIsExact(compact: nat)
    ensures SetCompact(compact).overflow <==> Magnitude(compact) >= TWO_256
    ensures !SetCompact(compact).overflow ==> SetCompact(compact).value == Magnitude(compact)
  {
    if Exponent(compact) > 3 {
      OverflowThreshold(Exponent(compact), Word(compact));
    }
  }

  lemma OverflowThreshold(size: nat, w: nat)
    requires size > 3 && w < 0x80_0000
    ensures Shl(w, 8 * (size - 3)) >= TWO_256 <==>
            w != 0 && (size > 34 || (w > 0xff && size > 33) || (w > 0xffff && size > 32))
  {
    Pow2Big();
    if size >= 35 {
      ShlVsPow2(w, 8 * (size - 3), 0);
      ShlVsPow2(0, 8 * (size - 3), 0);
      Pow2Mono(256, 8 * (size - 3));
      ShlZero(8 * (size - 3));
    } else {
      var k := 35 - size;
      ShlVsPow2(w, 8 * (size - 3), 8 * k);
      assert 8 * k + 8 * (size - 3) == 256;
      Pow2Consts();
      if k >= 3 {
        Pow2Mono(24, 8 * k);
      }
    }
  }

  // ---------- decoding what was encoded ----------

  /** The mantissa and exponent GetCompact writes are the ones SetCompact reads. */
  lemma FieldsOfCompact(m: nat, size: nat)
    requires m < 0x80_0000
    ensures var c := m + size * 0x100_0000;
            Exponent(c) == size && c % 0x80_0000 == m && !SignBit(c)
  {
  }

  /** Where the encoding keeps only the top bytes, it keeps floor(x / 256^(E-3)), at least 2^15. */
  lemma CompactLong(x: nat)
    requires Exponent(GetCompact(x)) > 3
    ensures var top := Shr(x, 8 * (Exponent(GetCompact(x)) - 3));
            Word(GetCompact(x)) == top && 0x8000 <= top && !SignBit(GetCompact(x))
  {
    var m, n := Leading(x), ByteLength(x);
    if m >= 0x80_0000 {
      FieldsOfCompact(m / 0x100, n + 1);
      ShrByte(m);
      if n > 3 {
        ShrShr(x, 8 * (n - 3), 8);
        assert 8 * (n - 3) + 8 == 8 * (n + 1 - 3);
      } else {
        assert n == 3 && Shl(x, 0) == x == m;
      }
    } else {
      FieldsOfCompact(m, n);
    }
  }

  lemma ShrByte(m: nat)
    ensures Shr(m, 8) == m / 0x100
  {
    Pow2Consts();
    ShrIsDiv(m, 8);
  }

  lemma WordOfShort(m: nat, size: nat)
    requires m < 0x80_0000 && size <= 3
    ensures var c := m + size * 0x100_0000;
            Exponent(c) == size && Word(c) == Shr(m, 8 * (3 - size)) && !SignBit(c)
  {
    FieldsOfCompact(m, size);
  }

  /** Numbers of fewer than 24 bits are encoded without loss. */
  lemma CompactShort(x: nat)
    requires Exponent(GetCompact(x)) <= 3
    ensures Word(GetCompact(x)) == x && !SignBit(GetCompact(x))
  {
    var m, n := Leading(x), ByteLength(x);
    if m < 0x80_0000 {
      assert n <= 3;
      WordOfShort(m, n);
      ShrShl(x, 8 * (3 - n), 0);
    } else {
      assert n <= 2;
      WordOfShort(m / 0x100, n + 1);
      ShiftedShort(x, n);
    }
  }

  lemma ShiftedShort(x: nat, n: nat)
    requires n <= 2
    ensures Shr(Shl(x, 8 * (3 - n)) / 0x100, 8 * (2 - n)) == x
  {
    var m := Shl(x, 8 * (3 - n));
    ShrByte(m);
    ShrShr(m, 8, 8 * (2 - n));
    assert 8 + 8 * (2 - n) == 8 * (3 - n);
    ShrShl(x, 8 * (3 - n), 0);
  }

  /** The value of an encoding that is neither negative nor overflowing. */
  predicate Represents(compact: nat, v: nat)
  {
    var t := SetCompact(compact);
    compact < U32 && !t.negative && !t.overflow && t.value == v
  }

  /** SetCompact(GetCompact(x)) is the greatest representable number not above x. */
  lemma {:induction false} RoundTripIsFloor(x: nat)
    requires x < TWO_256
    ensures Represents(GetCompact(x), SetCompact(GetCompact(x)).value)
    ensures SetCompact(GetCompact(x)).value <= x
    ensures forall c: nat, v: nat :: Represents(c, v) && v <= x ==> v <= SetCompact(GetCompact(x)).value
  {
    RoundTripValue(x);
    forall c: nat, v: nat | Represents(c, v) && v <= x
      ensures v <= SetCompact(GetCompact(x)).value
    {
      if Exponent(GetCompact(x)) > 3 {
        RepresentableBelow(x, Exponent(GetCompact(x)), c, v);
      }
    }
  }

  lemma RoundTripValue(x: nat)
    requires x < TWO_256
    ensures GetCompact(x) < U32
    ensures var t, e := SetCompact(GetCompact(x)), Exponent(GetCompact(x));
            && !t.negative && !t.overflow && t.value <= x
            && (e <= 3 ==> t.value == x)
            && (e > 3 ==> t.value == Shl(Shr(x, 8 * (e - 3)), 8 * (e - 3)) && 0x8000 <= Shr(x, 8 * (e - 3)))
  {
    var c := GetCompact(x);
    var e := Exponent(c);
    ByteLengthMax(x);
    if e <= 3 {
      CompactShort(x);
    } else {
      CompactLong(x);
      ShlShr(x, 8 * (e - 3));
      OverflowIsExact(c);
    }
  }

  lemma RepresentableBelow(x: nat, e: nat, c: nat, v: nat)
    requires e > 3 && 0x8000 <= Shr(x, 8 * (e - 3)) && Represents(c, v) && v <= x
    ensures v <= Shl(Shr(x, 8 * (e - 3)), 8 * (e - 3))
  {
    var f, m := Exponent(c), Word(c);
    if f > 3 {
      OverflowIsExact(c);
    }
    if f >= e {
      var k := Shl(m, 8 * (f - e));
      ShlShl(m, 8 * (f - e), 8 * (e - 3));
      assert 8 * (f - e) + 8 * (e - 3) == 8 * (f - 3);
      ShrMono(v, x, 8 * (e - 3));
      ShrShl(k, 8 * (e - 3), 0);
      ShlMono(k, Shr(x, 8 * (e - 3)), 8 * (e - 3));
    } else {
      SmallerExponent(m, if f > 3 then f else 3, e);
      ShlMono(0x8000, Shr(x, 8 * (e - 3)), 8 * (e - 3));
    }
  }

  /** A mantissa of 23 bits under a smaller exponent stays below 2^15 units of the larger one. */
  lemma SmallerExponent(m: nat, f: nat, e: nat)
    requires m < 0x80_0000 && 3 <= f < e
    ensures Shl(m, 8 * (f - 3)) <= Shl(0x8000, 8 * (e - 3))
  {
    ShlShl(0x8000, 8, 8 * (e - 4));
    assert Shl(0x8000, 4) == 0x8_0000;
    ShlShl(0x8000, 4, 4);
    assert Shl(0x8_0000, 4) == 0x80_0000;
    assert 8 + 8 * (e - 4) == 8 * (e - 3);
    ShlMono(m, 0x80_0000, 8 * (f - 3));
    ShlShl(0x80_0000, 8 * (f - 3), 8 * (e - 4) - 8 * (f - 3));
    ShlGrows(Shl(0x80_0000, 8 * (f - 3)), 8 * (e - 4) - 8 * (f - 3));
  }

  lemma ShlGrows(x: nat, n: nat)
    ensures x <= Shl(x, n)
  {
  }

  /** Encoding and decoding a target in [1, limit] gives a usable target in [1, limit]. */
  lemma CompactKeepsRange(x: nat, limit: nat)
    requires 1 <= x <= limit < TWO_256
    ensures SetCompact(GetCompact(x)).Usable()
    ensures 1 <= SetCompact(GetCompact(x)).value <= limit
  {
    RoundTripIsFloor(x);
    OneIsRepresentable();
  }

  lemma OneIsRepresentable()
    ensures Represents(0x0101_0000, 1)
  {
    assert Exponent(0x0101_0000) == 1 && 0x0101_0000 % 0x80_0000 == 0x1_0000;
    ShrByte(0x1_0000);
    ShrByte(0x100);
    ShrShr(0x1_0000, 8, 8);
  }

  // ---------- block proof ----------

  /** No encoding decodes to 2^256 - 1, the one target whose successor is zero in 256 bits. */
  lemma {:induction false} NoTargetIsMax(compact: nat)
    ensures SetCompact(compact).value < TWO_256 - 1
  {
    var size, w := Exponent(compact), Word(compact);
    if size > 3 {
      assert Shl(w, 8 * (size - 3)) == 2 * Shl(w, 8 * (size - 3) - 1);
    }
  }

  /** GetBlockProof is floor(2^256 / (target + 1)) for every usable nBits, and never zero. */
  lemma {:induction false} BlockProofIsFloor(bits: nat)
    ensures var t := SetCompact(bits);
            t.Usable() ==> BlockProof(bits) == TWO_256 / (t.value + 1) && BlockProof(bits) >= 1
  {
    var t := SetCompact(bits);
    if t.Usable() {
      NoTargetIsMax(bits);
      FloorByComplement(TWO_256, t.value + 1);
    }
  }

  lemma FloorByComplement(n: nat, d: nat)
    requires 0 < d <= n
    ensures (n - d) / d + 1 == n / d
  {
    DivMod(n - d, d);
    MulDistr((n - d) / d, 1, d);
    DivUnique(n, d, (n - d) / d + 1, (n - d) % d);
  }
}
