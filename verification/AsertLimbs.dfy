/** CalculateASERT on limbs (src/chain/pow.cpp:40-129): it computes the function of module `Asert`. */
module AsertLimbs {
  import opened Bits
  import opened Limbs
  import opened LimbShifts
  import opened LimbMul
  import opened LimbDivision
  import Asert
  import BigPowers
  import CompactLimbs

  // ---------- 512-bit copies ----------

  /** arith_uint512(const arith_uint256&) */
  method Widen(a: array<Limb>) returns (r: array<Limb>)
    requires a.Length == 8
    ensures fresh(r) && r.Length == 16 && Val(r[..]) == Val(a[..])
  {
    r := new Limb[16](_ => 0);
    for i := 0 to 8
      invariant forall j {:trigger r[j]} :: 0 <= j < i ==> r[j] == a[j]
      invariant forall j {:trigger r[j]} :: i <= j < 16 ==> r[j] == 0
    {
      r[i] := a[i];
    }
    RightRest(r[..], 8, 16);
    PartSame(r[..], a[..], 8);
  }

  /** ArithU512ToU256: the lower half. */
  method Narrow(a: array<Limb>) returns (r: array<Limb>)
    requires a.Length == 16
    ensures fresh(r) && r.Length == 8 && Val(r[..]) == Val(a[..]) % TWO_256
  {
    r := new Limb[8](_ => 0);
    for i := 0 to 8
      invariant forall j {:trigger r[j]} :: 0 <= j < i ==> r[j] == a[j]
    {
      r[i] := a[i];
    }
    PartSame(r[..], a[..], 8);
    DropIsShift(a[..], 8);
    BigPowers.Pow2Big();
    CompactLimbs.LowIsMod(Val(a[..]), Width(8), TWO_256);
  }

  /** operator== is equality of the values. */
  lemma {:induction false} SameLimbs(s: seq<Limb>, t: seq<Limb>, n: nat)
    requires n <= |s| && n <= |t| && Part(s, n) == Part(t, n)
    ensures forall j {:trigger s[j]} :: 0 <= j < n ==> s[j] == t[j]
    decreases n
  {
    if n > 0 {
      PartBound(s, n - 1);
      PartBound(t, n - 1);
      LowerLimb(s[n - 1], t[n - 1], 32 * (n - 1));
      LowerLimb(t[n - 1], s[n - 1], 32 * (n - 1));
      SameLimbs(s, t, n - 1);
    }
  }

  lemma EqualLimbs(s: seq<Limb>, t: seq<Limb>)
    requires |s| == |t|
    ensures s == t <==> Val(s) == Val(t)
  {
    if Val(s) == Val(t) {
      SameLimbs(s, t, |s|);
    }
  }

  // ---------- the steps ----------

  /** next *= factor, in 512 bits. */
  method TimesFactor(next: array<Limb>, factor: Limb)
    requires next.Length == 16
    modifies next
    ensures Val(next[..]) == old(Val(next[..])) * factor % TWO_512
  {
    ghost var v := Val(next[..]);
    Multiply32(next, factor);
    BigPowers.Pow2Big();
    CompactLimbs.LowIsMod(factor * v, Width(next.Length), TWO_512);
  }

  /** The integer part of the exponent, with the overflow test by shifting back. */
  method ApplyShifts(next: array<Limb>, shifts: int, powLimit: array<Limb>) returns (r: array<Limb>)
    requires next.Length == 16 && powLimit.Length == 16 && next != powLimit
    modifies next
    ensures r.Length == 16 && Val(r[..]) == Asert.ShiftPart(old(Val(next[..])), shifts, Val(powLimit[..]))
  {
    if shifts <= 0 {
      ShiftRight(next, (-shifts) % 0x1_0000_0000);
      r := next;
    } else {
      r := ShiftUp(next, shifts % 0x1_0000_0000, powLimit);
    }
  }

  method ShiftUp(next: array<Limb>, shift: nat, powLimit: array<Limb>) returns (r: array<Limb>)
    requires next.Length == 16 && powLimit.Length == 16
    ensures r.Length == 16
    ensures var shifted := Shl(Val(next[..]), shift) % TWO_512;
            Val(r[..]) == if Shr(shifted, shift) != Val(next[..]) then Val(powLimit[..]) else shifted
  {
    ghost var v := Val(next[..]);
    var shifted := Copy(next);
    ShiftLeft(shifted, shift);
    BigPowers.Pow2Big();
    CompactLimbs.LowIsMod(Shl(v, shift), Width(next.Length), TWO_512);
    var back := Copy(shifted);
    ShiftRight(back, shift);
    EqualLimbs(back[..], next[..]);
    if back[..] != next[..] {
      r := powLimit;
    } else {
      r := shifted;
    }
  }

  /** The clamps at the end. */
  method ClampTarget(next: array<Limb>, powLimit512: array<Limb>, powLimit: array<Limb>) returns (r: array<Limb>)
    requires next.Length == 16 && powLimit512.Length == 16 && powLimit.Length == 8
    requires Val(powLimit512[..]) == Val(powLimit[..])
    ensures r.Length == 8 && Val(r[..]) == Asert.ClampPart(Val(next[..]), Val(powLimit[..]))
  {
    var order := CompareTo(next, powLimit512);
    r := Narrow(if order > 0 then powLimit512 else next);
    var zero := EqualTo(r, 0);
    if zero {
      Assign64(r, 1);
      return;
    }
    order := CompareTo(r, powLimit);
    if order > 0 {
      r := Copy(powLimit);
    }
  }

  method CalculateASERT(refTarget: array<Limb>, spacing: int, timeDiff: int, heightDiff: int,
                        powLimit: array<Limb>, halfLife: int) returns (r: array<Limb>)
    requires refTarget.Length == 8 && powLimit.Length == 8
    ensures r.Length == 8
    ensures Val(r[..]) == Asert.CalculateASERT(Val(refTarget[..]), spacing, timeDiff, heightDiff, Val(powLimit[..]),
                                               halfLife)
  {
    var zero := EqualTo(refTarget, 0);
    var order := CompareTo(refTarget, powLimit);
    if zero || order > 0 || heightDiff < 0 || halfLife <= 0 {
      r := Copy(powLimit);
      return;
    }
    var exponent := Asert.Saturate(Asert.ExponentOf(spacing, timeDiff, heightDiff, halfLife));
    var shifts, frac := exponent / 65536, exponent % 65536;
    Asert.FactorBounds(frac, frac);
    r := Scaled(refTarget, Asert.Factor(frac), shifts - 16, powLimit);
  }

  /** Everything after the factor is known. */
  method Scaled(refTarget: array<Limb>, factor: Limb, shifts: int, powLimit: array<Limb>) returns (r: array<Limb>)
    requires refTarget.Length == 8 && powLimit.Length == 8
    ensures r.Length == 8 && Val(r[..]) == Asert.Finish(Val(refTarget[..]), factor, shifts, Val(powLimit[..]))
  {
    var next := Widen(refTarget);
    TimesFactor(next, factor);
    var powLimit512 := Widen(powLimit);
    next := ApplyShifts(next, shifts, powLimit512);
    r := ClampTarget(next, powLimit512, powLimit);
  }
}
