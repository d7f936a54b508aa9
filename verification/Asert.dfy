/**
 CalculateASERT (src/chain/pow.cpp:40-129). `CalculateASERT` keeps the unsigned 64-bit and
 512-bit wrap-around of the source, its saturated 128-bit quotient and the narrowing of shift
 counts. The signed 64-bit subtraction and product in front of them are exact here: a signed
 overflow would be undefined, and `ExponentRange` shows there is none. `AsertIsClampedExponential`
 shows that on the inputs GetNextWorkRequired can produce none of the widths matters.
 */
module Asert {
  import opened Bits
  import opened BigPowers

  const I64: int := 0x8000_0000_0000_0000
  const U64: nat := 0x1_0000_0000_0000_0000

  /** C++ division: truncates toward zero. */
  function TruncDiv(a: int, b: int): int
    requires b > 0
  {
    if a >= 0 then a / b else -((-a) / b)
  }

  /** A value outside int64 is replaced by the nearest bound. */
  function Saturate(x: int): int
  {
    if x > I64 - 1 then I64 - 1 else if x < -I64 then -I64 else x
  }

  function Square(x: nat): nat { Product(x, x) }

  function Cube(x: nat): nat { Product(x, Square(x)) }

  /** The cubic under the shift, before any wrap. */
  function Cubic(frac: nat): nat
  {
    195766423245049 * frac + 971821376 * Square(frac) + 5127 * Cube(frac) + 0x8000_0000_0000
  }

  /** 65536 * 2^(frac / 65536), approximated. */
  function Factor(frac: nat): nat
  {
    65536 + Cubic(frac) % U64 / 0x1_0000_0000_0000
  }

  /** x * 2^s, rounded down. */
  function Scale(x: nat, s: int): nat
  {
    if s <= 0 then Shr(x, -s) else Shl(x, s)
  }

  function Clamp(x: nat, low: nat, high: nat): nat
  {
    if x > high then high else if x < low then low else x
  }

  /** The integer part of the exponent, applied in 512 bits with the overflow test. */
  function ShiftPart(next: nat, shifts: int, powLimit: nat): nat
  {
    if shifts <= 0 then Shr(next, (-shifts) % 0x1_0000_0000)
    else
      var shift := shifts % 0x1_0000_0000;
      var shifted := Shl(next, shift) % TWO_512;
      if Shr(shifted, shift) != next then powLimit else shifted
  }

  /** The clamps at the end, around the narrowing to 256 bits. */
  function ClampPart(scaled: nat, powLimit: nat): nat
  {
    var narrowed := (if scaled > powLimit then powLimit else scaled) % TWO_256;
    if narrowed == 0 then 1 else if narrowed > powLimit then powLimit else narrowed
  }

  /** Everything after the factor is known. */
  function Finish(refTarget: nat, factor: nat, shifts: int, powLimit: nat): nat
  {
    ClampPart(ShiftPart(refTarget * factor % TWO_512, shifts, powLimit), powLimit)
  }

  function CalculateASERT(refTarget: nat, spacing: int, timeDiff: int, heightDiff: int, powLimit: nat,
                          halfLife: int): nat
  {
    if refTarget == 0 || refTarget > powLimit then powLimit
    else if heightDiff < 0 then powLimit
    else if halfLife <= 0 then powLimit
    else
      var exponent := Saturate(ExponentOf(spacing, timeDiff, heightDiff, halfLife));
      Finish(refTarget, Factor(exponent % 65536), exponent / 65536 - 16, powLimit)
  }

  /** (timeDiff - idealTime) / halfLife with 16 fractional bits. */
  function ExponentOf(spacing: int, timeDiff: int, heightDiff: int, halfLife: int): int
    requires halfLife > 0
  {
    TruncDiv((timeDiff - spacing * (heightDiff + 1)) * 65536, halfLife)
  }

  /** What GetNextWorkRequired passes: a 32-bit time difference, a height difference, sane parameters. */
  predicate Reachable(spacing: int, timeDiff: int, heightDiff: int, halfLife: int)
  {
    && 0 <= timeDiff < 0x1_0000_0000 && 0 <= heightDiff < 0x4000_0000
    && 1 <= spacing <= halfLife && 2 <= halfLife < 0x1_0000_0000
  }

  // ---------- the cubic factor ----------

  lemma {:induction false} ProductMono(a: nat, b: nat, v: nat, w: nat)
    requires a <= b && v <= w
    ensures Product(a, v) <= Product(b, w)
    decreases b
  {
    if a > 0 {
      ProductMono(a - 1, b - 1, v, w);
    }
  }

  lemma CubicMono(f: nat, g: nat)
    requires f <= g
    ensures Cubic(f) <= Cubic(g)
  {
    ProductMono(f, g, f, g);
    ProductMono(f, g, Square(f), Square(g));
  }

  /** The cubic fits in 64 bits, so the factor lies in [65536, 131071] and grows with frac. */
  lemma {:induction false} FactorBounds(f: nat, g: nat)
    requires f <= g < 65536
    ensures Cubic(g) < U64
    ensures 65536 <= Factor(f) <= Factor(g) <= 131071
  {
    CubicMono(f, g);
    CubicTop(g);
    HighBits(Cubic(f), Cubic(g));
  }

  lemma HighBits(x: nat, y: nat)
    requires x <= y < U64
    ensures x % U64 / 0x1_0000_0000_0000 <= y % U64 / 0x1_0000_0000_0000 <= 65535
  {
  }

  lemma CubicTop(f: nat)
    requires f < 65536
    ensures Cubic(f) < U64
  {
    ProductBound(f, f, 65535);
    ProductBound(f, Square(f), 65535 * 65535);
  }

  lemma ProductBound(a: nat, v: nat, bound: nat)
    requires a <= 65535 && v <= bound
    ensures Product(a, v) <= 65535 * bound
  {
    ProductIsMul(a, v);
    MulMono(a, 65535, v);
  }

  // ---------- no intermediate wraps ----------

  /** The exponent of reachable inputs is far inside int64, and so are base and shift counts. */
  lemma {:induction false} ExponentRange(spacing: int, timeDiff: int, heightDiff: int, halfLife: int)
    requires Reachable(spacing, timeDiff, heightDiff, halfLife)
    ensures 0 <= spacing * (heightDiff + 1) < I64 && -I64 <= timeDiff - spacing * (heightDiff + 1) < I64
    ensures -0x4000_0000 * 65536 <= ExponentOf(spacing, timeDiff, heightDiff, halfLife) < 0x8000_0000 * 65536
  {
    var h := heightDiff + 1;
    MulMono(spacing, halfLife, h);
    MulMono(h, 0x4000_0000, halfLife);
    MulMono(0, spacing, h);
    var base := timeDiff - spacing * h;
    assert -(halfLife * 0x4000_0000) <= base <= timeDiff;
    QuotientBound(base, halfLife);
  }

  /** The exponent is the deviation in half-lives, in units of 1/65536, truncated toward zero. */
  lemma {:induction false} ExponentIsTruncated(spacing: int, timeDiff: int, heightDiff: int, halfLife: int)
    requires halfLife > 0
    ensures var late, e := (timeDiff - spacing * (heightDiff + 1)) * 65536,
                           ExponentOf(spacing, timeDiff, heightDiff, halfLife);
            if late >= 0 then e >= 0 && e * halfLife <= late < (e + 1) * halfLife
            else e <= 0 && (e - 1) * halfLife < late <= e * halfLife
  {
    var late := (timeDiff - spacing * (heightDiff + 1)) * 65536;
    Truncated(late, halfLife);
  }

  lemma Truncated(a: int, d: int)
    requires d > 0
    ensures a >= 0 ==> TruncDiv(a, d) >= 0 && TruncDiv(a, d) * d <= a < (TruncDiv(a, d) + 1) * d
    ensures a < 0 ==> TruncDiv(a, d) <= 0 && (TruncDiv(a, d) - 1) * d < a <= TruncDiv(a, d) * d
  {
    if a >= 0 {
      QuotientAround(a, d);
    } else {
      QuotientAround(-a, d);
      Negated((-a) / d, d);
    }
  }

  lemma QuotientAround(a: int, d: int)
    requires a >= 0 && d > 0
    ensures a / d >= 0 && (a / d) * d <= a < (a / d + 1) * d
  {
    DivMod(a, d);
    MulDistr(a / d, 1, d);
    DivMono(0, a, d);
    DivUnique(0, d, 0, 0);
  }

  lemma Negated(q: int, d: int)
    ensures (-q) * d == -(q * d) && (-q - 1) * d == -((q + 1) * d)
  {
  }

  lemma QuotientBound(base: int, d: int)
    requires 2 <= d && -(d * 0x4000_0000) <= base < 0x1_0000_0000
    ensures -0x4000_0000 * 65536 <= TruncDiv(base * 65536, d) < 0x8000_0000 * 65536
  {
    if base >= 0 {
      DivMod(base * 65536, d);
      if base * 65536 / d >= 0x8000_0000 * 65536 {
        MulMono(0x8000_0000 * 65536, base * 65536 / d, d);
      }
    } else {
      DivMono(-base * 65536, d * (0x4000_0000 * 65536), d);
      DivUnique(d * (0x4000_0000 * 65536), d, 0x4000_0000 * 65536, 0);
    }
  }

  /** The product of a target with a 17-bit factor fits in 512 bits. */
  lemma ProductFits(refTarget: nat, factor: nat)
    requires refTarget < TWO_256 && factor <= 0x2_0000
    ensures refTarget * factor < TWO_512
  {
    MulMono(factor, 0x2_0000, refTarget);
    Pow2Consts();
    Seventeen();
    ShlIsMul(refTarget, 17);
    ShlVsPow2(refTarget, 17, 256);
    Pow2Mono(273, 512);
    Pow2Big();
  }

  lemma Seventeen()
    ensures Pow2(17) == 0x2_0000
  {
    Pow2Consts();
  }

  // ---------- the clean formula ----------

  /** clamp(floor(ref * factor * 2^shifts / 65536), 1, powLimit) */
  function Exponential(refTarget: nat, exponent: int, powLimit: nat): nat
  {
    Clamped(refTarget, Factor(exponent % 65536), exponent / 65536 - 16, powLimit)
  }

  lemma WrapsAreHarmless(refTarget: nat, factor: nat, s: int, powLimit: nat)
    requires refTarget < TWO_256 && factor <= 0x2_0000
    requires 1 <= powLimit < TWO_256 && -0x4000_0010 <= s < 0x8000_0000
    ensures Finish(refTarget, factor, s, powLimit) == Clamp(Scale(refTarget * factor, s), 1, powLimit)
  {
    ProductFits(refTarget, factor);
    FinishProduct(refTarget * factor, s, powLimit);
  }

  lemma FinishProduct(x: nat, s: int, powLimit: nat)
    requires x < TWO_512 && 1 <= powLimit < TWO_256 && -0x4000_0010 <= s < 0x8000_0000
    ensures ClampPart(ShiftPart(x % TWO_512, s, powLimit), powLimit) == Clamp(Scale(x, s), 1, powLimit)
  {
    ShiftIsScale(x, s, powLimit);
    ClampIsClamp(ShiftPart(x, s, powLimit), powLimit);
  }

  lemma ClampIsClamp(x: nat, powLimit: nat)
    requires 1 <= powLimit < TWO_256
    ensures ClampPart(x, powLimit) == Clamp(x, 1, powLimit)
  {
  }

  lemma ShiftIsScale(x: nat, s: int, powLimit: nat)
    requires powLimit < TWO_256 && -0x4000_0010 <= s < 0x8000_0000
    ensures Scale(x, s) <= powLimit ==> ShiftPart(x, s, powLimit) == Scale(x, s)
    ensures Scale(x, s) > powLimit ==> ShiftPart(x, s, powLimit) >= powLimit
  {
    if s > 0 {
      OverflowTest(x, s, powLimit);
    }
  }

  /** Shifting back recovers x exactly when the shifted value fits; otherwise it is above powLimit anyway. */
  lemma OverflowTest(x: nat, s: nat, powLimit: nat)
    requires powLimit < TWO_512
    ensures Shl(x, s) < TWO_512 ==> Shr(Shl(x, s) % TWO_512, s) == x
    ensures Shl(x, s) >= TWO_512 ==> Shr(Shl(x, s) % TWO_512, s) != x && Shl(x, s) > powLimit
  {
    var y := Shl(x, s);
    ShrShl(x, s, 0);
    if y >= TWO_512 && Shr(y % TWO_512, s) == x {
      ShlShr(y % TWO_512, s);
    }
  }

  /** On every reachable input CalculateASERT is the clamped exponential. */
  lemma {:induction false} AsertIsClampedExponential(
    refTarget: nat, spacing: int, timeDiff: int, heightDiff: int, powLimit: nat, halfLife: int)
    requires 1 <= refTarget <= powLimit < TWO_256
    requires Reachable(spacing, timeDiff, heightDiff, halfLife)
    ensures CalculateASERT(refTarget, spacing, timeDiff, heightDiff, powLimit, halfLife)
            == Exponential(refTarget, ExponentOf(spacing, timeDiff, heightDiff, halfLife), powLimit)
  {
    ExponentRange(spacing, timeDiff, heightDiff, halfLife);
    var e := ExponentOf(spacing, timeDiff, heightDiff, halfLife);
    FactorBounds(e % 65536, e % 65536);
    WrapsAreHarmless(refTarget, Factor(e % 65536), e / 65536 - 16, powLimit);
  }

  /** On every input the result is a target in [1, powLimit]. */
  lemma {:induction false} AsertInRange(
    refTarget: nat, spacing: int, timeDiff: int, heightDiff: int, powLimit: nat, halfLife: int)
    requires 1 <= powLimit
    ensures 1 <= CalculateASERT(refTarget, spacing, timeDiff, heightDiff, powLimit, halfLife) <= powLimit
  {
  }

  // ---------- monotonicity ----------

  lemma ScaleMono(x: nat, y: nat, s: int)
    requires x <= y
    ensures Scale(x, s) <= Scale(y, s)
  {
    if s <= 0 { ShrMono(x, y, -s); } else { ShlMono(x, y, s); }
  }

  /** Doubling the number is raising the scale by one. */
  lemma ScaleDouble(x: nat, s: int)
    ensures Scale(2 * x, s) == Scale(x, s + 1)
  {
    if s < 0 {
      ShrHalf(2 * x, -s - 1);
    } else {
      ShlDouble(x, s);
    }
  }

  lemma LargerFactor(x: nat, f: nat, g: nat, s: int)
    requires f <= g
    ensures Scale(x * f, s) <= Scale(x * g, s)
  {
    MulMono(f, g, x);
    ScaleMono(x * f, x * g, s);
  }

  lemma NextShift(x: nat, f: nat, g: nat, s: int)
    requires f <= 2 * g
    ensures Scale(x * f, s) <= Scale(x * g, s + 1)
  {
    LargerFactor(x, f, 2 * g, s);
    MulAssoc(x, 2, g);
    ScaleDouble(x * g, s);
  }

  lemma ClampMono(x: nat, y: nat, high: nat)
    requires x <= y && high >= 1
    ensures Clamp(x, 1, high) <= Clamp(y, 1, high)
  {
  }

  /** clamp(floor(x * factor * 2^s), 1, high) */
  function Clamped(x: nat, factor: nat, s: int, high: nat): nat
  {
    Clamp(Scale(x * factor, s), 1, high)
  }

  lemma ClampedGrows(x: nat, f: nat, g: nat, s: int, high: nat)
    requires high >= 1
    ensures f <= g ==> Clamped(x, f, s, high) <= Clamped(x, g, s, high)
    ensures f <= 2 * g ==> Clamped(x, f, s, high) <= Clamped(x, g, s + 1, high)
  {
    if f <= g {
      LargerFactor(x, f, g, s);
      ClampMono(Scale(x * f, s), Scale(x * g, s), high);
    }
    if f <= 2 * g {
      NextShift(x, f, g, s);
      ClampMono(Scale(x * f, s), Scale(x * g, s + 1), high);
    }
  }

  lemma NextFraction(e: int)
    ensures e % 65536 < 65535 ==> (e + 1) % 65536 == e % 65536 + 1 && (e + 1) / 65536 == e / 65536
    ensures e % 65536 == 65535 ==> (e + 1) % 65536 == 0 && (e + 1) / 65536 == e / 65536 + 1
  {
  }

  lemma ExponentialStep(refTarget: nat, e: int, powLimit: nat)
    requires powLimit >= 1
    ensures Exponential(refTarget, e, powLimit) <= Exponential(refTarget, e + 1, powLimit)
  {
    var f, s, g := e % 65536, e / 65536 - 16, (e + 1) % 65536;
    NextFraction(e);
    if f < 65535 {
      FactorBounds(f, g);
    } else {
      FactorBounds(g, f);
    }
    ClampedGrows(refTarget, Factor(f), Factor(g), s, powLimit);
  }

  lemma {:induction false} ExponentialMono(refTarget: nat, e1: int, e2: int, powLimit: nat)
    requires e1 <= e2 && powLimit >= 1
    ensures Exponential(refTarget, e1, powLimit) <= Exponential(refTarget, e2, powLimit)
    decreases e2 - e1
  {
    if e1 < e2 {
      ExponentialMono(refTarget, e1, e2 - 1, powLimit);
      ExponentialStep(refTarget, e2 - 1, powLimit);
    }
  }

  lemma TruncDivMono(a: int, b: int, d: int)
    requires a <= b && d > 0
    ensures TruncDiv(a, d) <= TruncDiv(b, d)
  {
    DivMono(if a >= 0 then a else 0, if b >= 0 then b else 0, d);
    DivMono(if b < 0 then -b else 0, if a < 0 then -a else 0, d);
    DivMono(0, if a < 0 then -a else 0, d);
    DivMono(0, if b >= 0 then b else 0, d);
    DivUnique(0, d, 0, 0);
  }

  lemma ExponentMono(spacing: int, time1: int, time2: int, height1: int, height2: int, halfLife: int)
    requires 0 <= spacing && 0 < halfLife && time1 <= time2 && height2 <= height1
    ensures ExponentOf(spacing, time1, height1, halfLife) <= ExponentOf(spacing, time2, height2, halfLife)
  {
    MulMono(height2 + 1, height1 + 1, spacing);
    TruncDivMono((time1 - spacing * (height1 + 1)) * 65536, (time2 - spacing * (height2 + 1)) * 65536, halfLife);
  }

  /** The target never falls when more time has passed, and never rises with the height. */
  lemma {:induction false} AsertMonotone(
    refTarget: nat, spacing: int, time1: int, time2: int, height1: int, height2: int, powLimit: nat, halfLife: int)
    requires 1 <= refTarget <= powLimit < TWO_256
    requires Reachable(spacing, time1, height1, halfLife) && Reachable(spacing, time2, height2, halfLife)
    requires time1 <= time2 && height2 <= height1
    ensures CalculateASERT(refTarget, spacing, time1, height1, powLimit, halfLife)
            <= CalculateASERT(refTarget, spacing, time2, height2, powLimit, halfLife)
  {
    ExponentMono(spacing, time1, time2, height1, height2, halfLife);
    AsertIsClampedExponential(refTarget, spacing, time1, height1, powLimit, halfLife);
    AsertIsClampedExponential(refTarget, spacing, time2, height2, powLimit, halfLife);
    ExponentialMono(refTarget, ExponentOf(spacing, time1, height1, halfLife),
                    ExponentOf(spacing, time2, height2, halfLife), powLimit);
  }

  // ---------- whole half-lives ----------

  lemma ExactQuotient(k: int, d: int)
    requires d > 0
    ensures TruncDiv(k * d * 65536, d) == k * 65536
  {
    if k >= 0 {
      MulAssoc(65536, k, d);
      MulMono(0, k, d);
      DivUnique(k * d * 65536, d, k * 65536, 0);
    } else {
      MulAssoc(65536, -k, d);
      MulMono(1, -k, d);
      DivUnique(-(k * d * 65536), d, -k * 65536, 0);
    }
  }

  lemma ShlThenShr(x: nat, a: nat, b: nat)
    ensures a >= b ==> Shr(Shl(x, a), b) == Shl(x, a - b)
    ensures a < b ==> Shr(Shl(x, a), b) == Shr(x, b - a)
  {
    if a >= b {
      ShlShl(x, a - b, b);
      ShrShl(Shl(x, a - b), b, 0);
    } else {
      ShrShr(Shl(x, a), a, b - a);
      ShrShl(x, a, 0);
    }
  }

  lemma FactorZero()
    ensures Factor(0) == 65536
  {
  }

  lemma ScaleWhole(x: nat, k: int)
    ensures Scale(x * 65536, k - 16) == Scale(x, k)
  {
    ShlIsMul(x, 16);
    Pow2Consts();
    if k <= 16 {
      ShlThenShr(x, 16, 16 - k);
    } else {
      ShlShl(x, 16, k - 16);
    }
  }

  /** Being exactly k half-lives off schedule scales the target by exactly 2^k, floored and clamped. */
  lemma {:induction false} WholeHalfLives(
    refTarget: nat, spacing: int, timeDiff: int, heightDiff: int, powLimit: nat, halfLife: int, k: int)
    requires 1 <= refTarget <= powLimit < TWO_256
    requires Reachable(spacing, timeDiff, heightDiff, halfLife)
    requires timeDiff - spacing * (heightDiff + 1) == k * halfLife
    ensures CalculateASERT(refTarget, spacing, timeDiff, heightDiff, powLimit, halfLife)
            == Clamp(Scale(refTarget, k), 1, powLimit)
  {
    AsertIsClampedExponential(refTarget, spacing, timeDiff, heightDiff, powLimit, halfLife);
    ExactQuotient(k, halfLife);
    WholeExponent(refTarget, k, powLimit);
  }

  lemma WholeExponent(refTarget: nat, k: int, powLimit: nat)
    ensures Exponential(refTarget, k * 65536, powLimit) == Clamp(Scale(refTarget, k), 1, powLimit)
  {
    FactorZero();
    ScaleWhole(refTarget, k);
  }
}
