/**
 What the cubic of CalculateASERT (src/chain/pow.cpp:84-94) approximates: 65536 * 2^(frac / 65536). Two laws of
 that function hold for the factor up to a thousandth, for every frac: doubling the exponent squares it, and the
 factors of two exponents that make up a half-life multiply to two.
 */
module FactorLaws {
  import opened Asert
  import opened Bits
  import opened CubicLaws

  const A1: real := 195766423245049.0 / 281474976710656.0
  const A2: real := 971821376.0 / 4294967296.0
  const A3: real := 5127.0 / 65536.0

  lemma Coefficients()
    ensures NearCoefficients(A1, A2, A3) && MirrorCoefficients(A1, A2, A3)
  {
  }

  // ---------- what the factor rounds ----------

  function Part(f: nat): real
  {
    f as real / 65536.0
  }

  lemma RealProduct(a: int, b: int)
    ensures (a * b) as real == a as real * b as real
  {
  }

  /** The powers of frac / 65536. */
  lemma PartPowers(f: nat)
    ensures var x := Part(f);
            && f as real == 65536.0 * x && (f * f) as real == 4294967296.0 * (x * x)
            && (f * (f * f)) as real == 281474976710656.0 * (x * (x * x))
  {
    var x, y := Part(f), f as real;
    RealProduct(f, f);
    RealProduct(f, f * f);
    Scaled(65536.0, x, 65536.0, x);
    Scaled(65536.0, x, 4294967296.0, x * x);
  }

  lemma Scaled(c: real, x: real, d: real, y: real)
    ensures (c * x) * (d * y) == (c * d) * (x * y)
  {
  }

  lemma CubicIsPoly(f: nat)
    ensures Cubic(f) as real + 18446744073709551616.0 - 140737488355328.0
            == 18446744073709551616.0 * Poly(A1, A2, A3, Part(f))
  {
    ProductIsMul(f, f);
    ProductIsMul(f, f * f);
    PartPowers(f);
    Weighted(f, f * f, f * (f * f));
  }

  lemma Weighted(a: int, b: int, c: int)
    ensures (195766423245049 * a + 971821376 * b + 5127 * c + 0x8000_0000_0000) as real
            == 195766423245049.0 * a as real + 971821376.0 * b as real + 5127.0 * c as real + 140737488355328.0
  {
  }

  /** The factor is the polynomial, rounded to the nearest integer. */
  lemma FactorIsRounded(f: nat)
    requires f < 65536
    ensures -0.5 <= Factor(f) as real - 65536.0 * Poly(A1, A2, A3, Part(f)) <= 0.5
  {
    CubicTop(f);
    CubicIsPoly(f);
    var q := Cubic(f) / 0x1_0000_0000_0000;
    assert q * 0x1_0000_0000_0000 <= Cubic(f) < (q + 1) * 0x1_0000_0000_0000;
  }

  lemma FactorRounds(f: nat) returns (u: real)
    requires f < 65536
    ensures -0.5 <= Factor(f) as real - 65536.0 * u <= 0.5 && u == Poly(A1, A2, A3, Part(f))
  {
    u := Poly(A1, A2, A3, Part(f));
    FactorIsRounded(f);
  }

  // ---------- doubling ----------

  lemma HalfTimes(y: real, e: real) returns (p: real)
    requires 0.0 <= y && -0.5 <= e <= 0.5
    ensures p == y * e && -0.5 * y <= p <= 0.5 * y
  {
    p := y * e;
  }

  lemma SquareIdentity(u: real, f: real)
    ensures f * f == 4294967296.0 * (u * u) + (f + 65536.0 * u) * (f - 65536.0 * u)
  {
  }

  lemma SquareOff(u: real, f: real) returns (w: real, we: real)
    requires -0.5 <= f - 65536.0 * u <= 0.5 && 1.0 <= f <= 131072.0
    ensures f * f == 4294967296.0 * (u * u) + we && -0.5 * w <= we <= 0.5 * w && 0.0 <= w <= 262145.0
  {
    w := f + 65536.0 * u;
    SquareIdentity(u, f);
    we := HalfTimes(f + 65536.0 * u, f - 65536.0 * u);
  }

  lemma ErrorsAddUp(uu: real, v: real, we: real, w: real, ff: real, g: real)
    requires -0.5 <= g - 65536.0 * v <= 0.5 && 0.0 <= w <= 262145.0 && -0.00095 <= uu - v <= 0.00095
    requires ff == 4294967296.0 * uu + we && -0.5 * w <= we <= 0.5 * w
    ensures -4294967.0 <= ff - 65536.0 * g <= 4294967.0
  {
  }

  /** A rounded value squared, against a rounded value: u and v stand for the polynomial at x and 2x. */
  lemma RoundedSquare(u: real, v: real, f: real, g: real)
    requires -0.5 <= f - 65536.0 * u <= 0.5 && -0.5 <= g - 65536.0 * v <= 0.5 && 1.0 <= f <= 131072.0
    requires -0.00095 <= u * u - v <= 0.00095
    ensures -4294967.0 <= f * f - 65536.0 * g <= 4294967.0
  {
    var w, we := SquareOff(u, f);
    ErrorsAddUp(u * u, v, we, w, f * f, g);
  }

  lemma RoundedFactors(f: nat, g: nat, u: real, v: real)
    requires -0.5 <= f as real - 65536.0 * u <= 0.5 && -0.5 <= g as real - 65536.0 * v <= 0.5 && 1 <= f <= 131072
    requires -0.00095 <= u * u - v <= 0.00095
    ensures -4294967 <= f * f - 65536 * g <= 4294967
  {
    RealProduct(f, f);
    RoundedSquare(u, v, f as real, g as real);
  }

  lemma PartDoubles(f: nat)
    ensures Part(2 * f) == 2.0 * Part(f)
  {
  }

  lemma PolyDoublesAt(f: nat, u: real, v: real)
    requires f <= 32768 && u == Poly(A1, A2, A3, Part(f)) && v == Poly(A1, A2, A3, Part(2 * f))
    ensures -0.00095 <= u * u - v <= 0.00095
  {
    PartDoubles(f);
    Coefficients();
    CubicDoubles(A1, A2, A3, Part(f));
    DifferenceIs(A1, A2, A3, Part(f), u, v);
  }

  lemma DifferenceIs(a: real, b: real, c: real, x: real, u: real, v: real)
    requires u == Poly(a, b, c, x) && v == Poly(a, b, c, 2.0 * x)
    ensures Difference(a, b, c, x) == u * u - v
  {
  }

  /** The factors of f and 2f, with what they round. */
  lemma FactorPair(f: nat) returns (u: real, v: real)
    requires f < 32768
    ensures -0.5 <= Factor(f) as real - 65536.0 * u <= 0.5 && -0.5 <= Factor(2 * f) as real - 65536.0 * v <= 0.5
    ensures -0.00095 <= u * u - v <= 0.00095
  {
    u := FactorRounds(f);
    v := FactorRounds(2 * f);
    PolyDoublesAt(f, u, v);
  }

  /** Twice the exponent is the square: within a thousandth, for every frac below a half. */
  lemma {:induction false} FactorSquares(f: nat)
    requires f < 32768
    ensures -4294967 <= Factor(f) * Factor(f) - 65536 * Factor(2 * f) <= 4294967
  {
    FactorBounds(f, f);
    var u, v := FactorPair(f);
    RoundedFactors(Factor(f), Factor(2 * f), u, v);
  }

  // ---------- complements ----------

  lemma ProductIdentity(u: real, v: real, f: real, g: real)
    ensures f * g == 4294967296.0 * (u * v) + g * (f - 65536.0 * u) + (65536.0 * u) * (g - 65536.0 * v)
  {
  }

  lemma ProductOff(u: real, v: real, f: real, g: real) returns (a: real, b: real)
    requires -0.5 <= f - 65536.0 * u <= 0.5 && -0.5 <= g - 65536.0 * v <= 0.5
    requires 1.0 <= f <= 131072.0 && 1.0 <= g <= 131072.0
    ensures f * g == 4294967296.0 * (u * v) + a + b && -65537.0 <= a <= 65537.0 && -65537.0 <= b <= 65537.0
  {
    ProductIdentity(u, v, f, g);
    a := HalfTimes(g, f - 65536.0 * u);
    b := HalfTimes(65536.0 * u, g - 65536.0 * v);
  }

  lemma ComplementsAddUp(uv: real, a: real, b: real, fg: real)
    requires fg == 4294967296.0 * uv + a + b && -0.00095 <= uv - 2.0 <= 0.00095
    requires -65537.0 <= a <= 65537.0 && -65537.0 <= b <= 65537.0
    ensures -4294967.0 <= fg - 8589934592.0 <= 4294967.0
  {
  }

  lemma RoundedProduct(f: nat, g: nat, u: real, v: real)
    requires -0.5 <= f as real - 65536.0 * u <= 0.5 && -0.5 <= g as real - 65536.0 * v <= 0.5
    requires 1 <= f <= 131072 && 1 <= g <= 131072 && -0.00095 <= u * v - 2.0 <= 0.00095
    ensures -4294967 <= f * g - 2 * 65536 * 65536 <= 4294967
  {
    RealProduct(f, g);
    var a, b := ProductOff(u, v, f as real, g as real);
    ComplementsAddUp(u * v, a, b, (f * g) as real);
  }

  lemma PartMirrors(f: nat)
    requires f <= 65536
    ensures Part(65536 - f) == 1.0 - Part(f) && 0.0 <= Part(f) <= 1.0
  {
  }

  lemma PolyMirrorsAt(f: nat, u: real, v: real)
    requires f <= 65536 && u == Poly(A1, A2, A3, Part(f)) && v == Poly(A1, A2, A3, Part(65536 - f))
    ensures -0.00095 <= u * v - 2.0 <= 0.00095
  {
    PartMirrors(f);
    Coefficients();
    CubicMirrors(A1, A2, A3, Part(f));
    ComplementIs(A1, A2, A3, Part(f), u, v);
  }

  lemma ComplementIs(a: real, b: real, c: real, x: real, u: real, v: real)
    requires u == Poly(a, b, c, x) && v == Poly(a, b, c, 1.0 - x)
    ensures Complement(a, b, c, x) == u * v
  {
  }

  lemma ComplementPair(f: nat) returns (u: real, v: real)
    requires 0 < f < 65536
    ensures -0.5 <= Factor(f) as real - 65536.0 * u <= 0.5
    ensures -0.5 <= Factor(65536 - f) as real - 65536.0 * v <= 0.5
    ensures -0.00095 <= u * v - 2.0 <= 0.00095
  {
    u := FactorRounds(f);
    v := FactorRounds(65536 - f);
    PolyMirrorsAt(f, u, v);
  }

  /** Two fractions that make up a half-life multiply to two: within a thousandth, for every frac. */
  lemma {:induction false} FactorComplements(f: nat)
    requires 0 < f < 65536
    ensures -4294967 <= Factor(f) * Factor(65536 - f) - 2 * 65536 * 65536 <= 4294967
  {
    FactorBounds(f, f);
    FactorBounds(65536 - f, 65536 - f);
    var u, v := ComplementPair(f);
    RoundedProduct(Factor(f), Factor(65536 - f), u, v);
  }

  /** The factor starts at one and ends just below two, so nothing jumps at a whole half-life. */
  lemma FactorEnds()
    ensures Factor(0) == 65536 && Factor(65535) == 131071
  {
    ProductIsMul(65535, 65535);
    ProductIsMul(65535, 65535 * 65535);
  }
}
