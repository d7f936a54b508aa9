/**
 Cubics that behave like powers of two on [0, 1]: real arithmetic for `FactorLaws`. The coefficients stay variables,
 of which only narrow bounds are known, and values of polynomials are passed as functions.
 */
module CubicLaws {
  function Poly(a: real, b: real, c: real, x: real): real
  {
    1.0 + a * x + b * (x * x) + c * (x * (x * x))
  }

  lemma Between(y: real, s: real, low: real, high: real)
    requires 0.0 <= y && low <= s <= high
    ensures y * low <= y * s <= y * high
  {
  }

  /** x^2 lies below its chord on [a, b] and above its tangent at c. */
  lemma ChordAndTangent(x: real, a: real, b: real, c: real)
    requires a <= x <= b
    ensures x * x <= (a + b) * x - a * b
    ensures x * x >= 2.0 * c * x - c * c
  {
    Between(x - a, x - b, x - b, 0.0);
    Squared(x - c);
    assert (x - a) * (x - b) == x * x - (a + b) * x + a * b;
    assert (x - c) * (x - c) == x * x - 2.0 * c * x + c * c;
  }

  lemma Squared(d: real)
    ensures d * d >= 0.0
  {
  }

  lemma SmallProduct(y: real, g: real, top: real, m: real)
    requires 0.0 <= y <= top && 0.0 <= m
    ensures g <= m ==> y * g <= top * m
    ensures -m <= g ==> -(top * m) <= y * g
  {
    Between(m, y, 0.0, top);
    if g <= m { Between(y, g, g, m); }
    if -m <= g { Between(y, g, -m, g); }
  }

  /** Between these parabolas the product with x^2 stays within a thousandth. */
  lemma UpperFrom(x: real, y: real, g: real)
    requires 0.0 <= x <= 0.5 && 0.0 <= y && g <= 0.03119 - 0.15464 * x + 0.17927 * y
    requires x <= 0.17 ==> y <= 0.17 * x
    requires 0.17 <= x <= 0.3 ==> y <= 0.47 * x - 0.051
    requires 0.3 <= x ==> y <= 0.8 * x - 0.15
    ensures y * g <= 0.00095
  {
    if x <= 0.17 {
      SmallProduct(y, g, 0.0289, 0.03119);
    } else if x <= 0.3 {
      SmallProduct(y, g, 0.09, 0.0102);
    } else {
      SmallProduct(y, g, 0.25, 0.001);
    }
  }

  lemma LowerFrom(x: real, y: real, g: real)
    requires 0.0 <= x <= 0.5 && 0.0 <= y <= 0.5 * x && g >= 0.03118 - 0.15465 * x + 0.16001 * y
    requires x >= 0.4 ==> g >= 0.03118 - 0.15465 * x + 0.17514 * y
    requires x <= 0.4 ==> y <= 0.4 * x
    requires y >= 0.8 * x - 0.16 && y >= 0.88 * x - 0.1936
    ensures y * g >= -0.00095
  {
    if x <= 0.4 {
      SmallProduct(y, g, 0.16, 0.0052);
    } else {
      SmallProduct(y, g, 0.25, 0.003);
    }
  }

  /** The chords and tangents of x^2 that these bounds need. */
  lemma SquareBounds(x: real)
    requires 0.0 <= x <= 0.5
    ensures NearSquare(x, x * x)
  {
    Squared(x);
    ChordAndTangent(x, 0.0, 0.5, 0.4);
    ChordAndTangent(x, 0.0, 0.5, 0.44);
    if x <= 0.17 { ChordAndTangent(x, 0.0, 0.17, 0.0); }
    if 0.17 <= x <= 0.3 { ChordAndTangent(x, 0.17, 0.3, 0.0); }
    if 0.3 <= x { ChordAndTangent(x, 0.3, 0.5, 0.0); }
    if x <= 0.4 { ChordAndTangent(x, 0.0, 0.4, 0.0); }
  }

  /** Where y and g can lie for an x. */
  predicate Bounded(x: real, y: real, g: real)
  {
    && g <= 0.03119 - 0.15464 * x + 0.17927 * y && g >= 0.03118 - 0.15465 * x + 0.16001 * y
    && (x >= 0.4 ==> g >= 0.03118 - 0.15465 * x + 0.17514 * y)
  }

  // ---------- doubling ----------

  /** A quartic, where y stands for x^2. */
  function Quartic(a: real, b: real, c: real, d: real, g: real, x: real, y: real): real
  {
    a + x * b + y * (c + x * d + y * g)
  }

  /** The square of the cubic at x less the cubic at 2x, over x^2. */
  function Gap(a: real, b: real, c: real, x: real): real
  {
    Quartic(a * a - 2.0 * b, 2.0 * a * b - 6.0 * c, b * b + 2.0 * a * c, 2.0 * b * c, c * c, x, x * x)
  }

  function Difference(a: real, b: real, c: real, x: real): real
  {
    Poly(a, b, c, x) * Poly(a, b, c, x) - Poly(a, b, c, 2.0 * x)
  }

  lemma SquareLessDouble(a: real, b: real, c: real, x: real)
    ensures var y, z := x * x, x * (x * x);
            var p, q := 1.0 + a * x + b * y + c * z, 1.0 + a * (2.0 * x) + b * (4.0 * y) + c * (8.0 * z);
            p * p - q == y * ((a * a - 2.0 * b) + x * (2.0 * a * b - 6.0 * c)
                              + y * ((b * b + 2.0 * a * c) + x * (2.0 * b * c) + y * (c * c)))
  {
  }

  lemma DoubledPowers(x: real)
    ensures (2.0 * x) * (2.0 * x) == 4.0 * (x * x) && (2.0 * x) * ((2.0 * x) * (2.0 * x)) == 8.0 * (x * (x * x))
  {
  }

  lemma GapIs(a: real, b: real, c: real, x: real)
    ensures Difference(a, b, c, x) == (x * x) * Gap(a, b, c, x)
  {
    SquareLessDouble(a, b, c, x);
    DoubledPowers(x);
  }

  /** What is needed of the coefficients. */
  predicate NearCoefficients(a: real, b: real, c: real)
  {
    && 0.03118 <= a * a - 2.0 * b <= 0.03119 && -0.15465 <= 2.0 * a * b - 6.0 * c <= -0.15464
    && 0.16001 <= b * b + 2.0 * a * c <= 0.16002
    && 0.0354 <= 2.0 * b * c <= 0.03541 && 0.00612 <= c * c <= 0.00613
  }

  lemma TimesB(x: real, b: real)
    requires 0.0 <= x && -0.15465 <= b <= -0.15464
    ensures -0.15465 * x <= x * b <= -0.15464 * x
  {
  }

  lemma TimesD(x: real, d: real)
    requires 0.0 <= x <= 0.5 && 0.0354 <= d <= 0.03541
    ensures 0.0354 * x <= x * d <= 0.03541 * x
    ensures 0.0 <= x * d <= 0.017705 && (x >= 0.4 ==> x * d >= 0.01416)
  {
    TimesLinear(x, d);
  }

  lemma TimesLinear(x: real, d: real)
    requires 0.0 <= x && 0.0354 <= d <= 0.03541
    ensures 0.0354 * x <= x * d <= 0.03541 * x
  {
  }

  lemma TimesG(y: real, g: real)
    requires 0.0 <= y <= 0.25 && 0.00612 <= g <= 0.00613
    ensures 0.0 <= y * g <= 0.0015325 && (y >= 0.16 ==> y * g >= 0.000979)
  {
    assert 0.00612 * y <= y * g;
    assert y * g <= 0.00613 * y;
  }

  lemma TimesSum(y: real, s: real)
    requires 0.0 <= y && 0.16001 <= s <= 0.17927
    ensures 0.16001 * y <= y * s <= 0.17927 * y
  {
  }

  lemma TimesLateSum(y: real, s: real)
    requires 0.0 <= y && 0.17514 <= s
    ensures 0.17514 * y <= y * s
  {
  }

  lemma InnerSum(x: real, y: real, c: real, d: real, g: real)
    requires 0.0 <= x <= 0.5 && 0.0 <= y <= 0.25 && 0.8 * x - 0.16 <= y
    requires 0.16001 <= c <= 0.16002 && 0.0354 <= d <= 0.03541 && 0.00612 <= g <= 0.00613
    ensures 0.16001 <= c + x * d + y * g <= 0.17927 && (x >= 0.4 ==> c + x * d + y * g >= 0.17514)
  {
    TimesD(x, d);
    TimesG(y, g);
  }

  lemma Assembled(x: real, y: real, a: real, xb: real, ys: real)
    requires 0.03118 <= a <= 0.03119 && -0.15465 * x <= xb <= -0.15464 * x
    requires 0.16001 * y <= ys <= 0.17927 * y && (x >= 0.4 ==> 0.17514 * y <= ys)
    ensures Bounded(x, y, a + xb + ys)
  {
  }

  lemma OuterSum(x: real, y: real, a: real, b: real, ys: real)
    requires 0.0 <= x <= 0.5 && 0.03118 <= a <= 0.03119 && -0.15465 <= b <= -0.15464
    requires 0.16001 * y <= ys <= 0.17927 * y && (x >= 0.4 ==> 0.17514 * y <= ys)
    ensures Bounded(x, y, a + x * b + ys)
  {
    TimesB(x, b);
    Assembled(x, y, a, x * b, ys);
  }

  lemma MiddleSum(x: real, y: real, a: real, b: real, s: real)
    requires 0.0 <= x <= 0.5 && 0.0 <= y && 0.03118 <= a <= 0.03119 && -0.15465 <= b <= -0.15464
    requires 0.16001 <= s <= 0.17927 && (x >= 0.4 ==> s >= 0.17514)
    ensures Bounded(x, y, a + x * b + y * s)
  {
    TimesSum(y, s);
    if x >= 0.4 { TimesLateSum(y, s); }
    OuterSum(x, y, a, b, y * s);
  }

  /** A quartic with such coefficients lies between two parabolas. */
  lemma QuarticBounded(a: real, b: real, c: real, d: real, g: real, x: real, y: real)
    requires 0.0 <= x <= 0.5 && 0.0 <= y <= 0.25 && 0.8 * x - 0.16 <= y
    requires 0.03118 <= a <= 0.03119 && -0.15465 <= b <= -0.15464 && 0.16001 <= c <= 0.16002
    requires 0.0354 <= d <= 0.03541 && 0.00612 <= g <= 0.00613
    ensures Bounded(x, y, Quartic(a, b, c, d, g, x, y))
  {
    InnerSum(x, y, c, d, g);
    MiddleSum(x, y, a, b, c + x * d + y * g);
  }

  lemma GapBounded(a: real, b: real, c: real, x: real)
    requires 0.0 <= x <= 0.5 && NearCoefficients(a, b, c)
    ensures Bounded(x, x * x, Gap(a, b, c, x))
  {
    SquareBounds(x);
    QuarticBounded(a * a - 2.0 * b, 2.0 * a * b - 6.0 * c, b * b + 2.0 * a * c, 2.0 * b * c, c * c, x, x * x);
  }

  /** Where x^2 lies. */
  predicate NearSquare(x: real, y: real)
  {
    && 0.0 <= y <= 0.5 * x && y >= 0.8 * x - 0.16 && y >= 0.88 * x - 0.1936
    && (x <= 0.17 ==> y <= 0.17 * x) && (0.17 <= x <= 0.3 ==> y <= 0.47 * x - 0.051)
    && (0.3 <= x ==> y <= 0.8 * x - 0.15) && (x <= 0.4 ==> y <= 0.4 * x)
  }

  lemma BoundedProduct(x: real, y: real, g: real)
    requires 0.0 <= x <= 0.5 && NearSquare(x, y) && Bounded(x, y, g)
    ensures -0.00095 <= y * g <= 0.00095
  {
    UpperFrom(x, y, g);
    LowerFrom(x, y, g);
  }

  /** A function of three coefficients and x. */
  type Family = (real, real, real, real) -> real

  /** diff is x^2 times gap. */
  ghost predicate SplitBy(diff: Family, gap: Family, a: real, b: real, c: real)
  {
    forall x: real :: At(diff, gap, a, b, c, x)
  }

  ghost predicate At(diff: Family, gap: Family, a: real, b: real, c: real, x: real)
  {
    diff(a, b, c, x) == (x * x) * gap(a, b, c, x)
  }

  lemma GapAt(a: real, b: real, c: real, x: real)
    ensures At(Difference, Gap, a, b, c, x)
  {
    GapIs(a, b, c, x);
  }

  ghost predicate AllBounded(gap: Family, a: real, b: real, c: real)
  {
    forall x: real {:trigger gap(a, b, c, x)} :: 0.0 <= x <= 0.5 ==> Bounded(x, x * x, gap(a, b, c, x))
  }

  lemma SmallDifference(diff: Family, gap: Family, a: real, b: real, c: real, x: real)
    requires SplitBy(diff, gap, a, b, c) && AllBounded(gap, a, b, c) && 0.0 <= x <= 0.5
    ensures -0.00095 <= diff(a, b, c, x) <= 0.00095
  {
    assert At(diff, gap, a, b, c, x);
    SquareBounds(x);
    BoundedProduct(x, x * x, gap(a, b, c, x));
  }

  lemma DifferenceSplits(a: real, b: real, c: real)
    ensures SplitBy(Difference, Gap, a, b, c)
  {
    forall x: real ensures At(Difference, Gap, a, b, c, x) {
      GapAt(a, b, c, x);
    }
  }

  lemma GapAllBounded(a: real, b: real, c: real)
    requires NearCoefficients(a, b, c)
    ensures AllBounded(Gap, a, b, c)
  {
    forall x: real | 0.0 <= x <= 0.5 ensures Bounded(x, x * x, Gap(a, b, c, x)) {
      GapBounded(a, b, c, x);
    }
  }

  /** Such a cubic doubles its exponent like a power of two, up to a thousandth. */
  lemma CubicDoubles(a: real, b: real, c: real, x: real)
    requires NearCoefficients(a, b, c) && 0.0 <= x <= 0.5
    ensures -0.00095 <= Difference(a, b, c, x) <= 0.00095
  {
    DifferenceSplits(a, b, c);
    GapAllBounded(a, b, c);
    SmallDifference(Difference, Gap, a, b, c, x);
  }

  // ---------- complements ----------

  /** The product of a cubic at x and at 1 - x depends on u = x * (1 - x) alone. */
  function Bow(k: real, a: real, b: real, c: real, u: real): real
  {
    k + u * (a + u * (b + u * c))
  }

  function BowOf(a: real, b: real, c: real, u: real): real
  {
    Bow(1.0 + a + b + c, a * a + a * b + a * c - 2.0 * b - 3.0 * c, b * b + b * c - 2.0 * a * c, c * c, u)
  }

  function Complement(a: real, b: real, c: real, x: real): real
  {
    Poly(a, b, c, x) * Poly(a, b, c, 1.0 - x)
  }

  lemma Mirrored(a: real, b: real, c: real, x: real)
    ensures Complement(a, b, c, x) == BowOf(a, b, c, x * (1.0 - x))
  {
  }

  predicate MirrorCoefficients(a: real, b: real, c: real)
  {
    && 2.0 <= 1.0 + a + b + c <= 2.00001 && 0.00826 <= a * a + a * b + a * c - 2.0 * b - 3.0 * c <= 0.00828
    && -0.03993 <= b * b + b * c - 2.0 * a * c <= -0.03992 && 0.00612 <= c * c <= 0.00613
  }

  lemma BowTop(u: real, c: real) returns (p: real)
    requires 0.0 <= u <= 0.25 && 0.00612 <= c <= 0.00613
    ensures p == u * c && 0.0 <= p <= 0.00154
  {
    p := u * c;
    assert u * c <= 0.00613 * u;
    Positive(u, c);
  }

  lemma BowMiddle(u: real, t: real) returns (q: real)
    requires 0.0 <= u && -0.03993 <= t <= -0.03838
    ensures q == u * t && -0.03993 * u <= q <= -0.03838 * u
  {
    q := u * t;
  }

  lemma BowOuter(u: real, h: real) returns (r: real)
    requires 0.0 <= u <= 0.25 && 0.00826 - 0.03993 * u <= h <= 0.00828 - 0.03838 * u
    ensures r == u * h && -0.0009 <= r <= 0.0009
  {
    r := u * h;
    BowLow(u, h);
    BowHigh(u, h);
  }

  lemma BowLow(u: real, h: real)
    requires 0.0 <= u <= 0.25 && -0.0018 <= h
    ensures -0.0009 <= u * h
  {
    SmallProduct(u, h, 0.25, 0.0018);
  }

  lemma BowHigh(u: real, h: real)
    requires 0.0 <= u <= 0.25 && h <= 0.00828 - 0.03838 * u
    ensures u * h <= 0.0009
  {
    if u <= 0.1 {
      SmallProduct(u, h, 0.1, 0.00828);
    } else if u <= 0.18 {
      SmallProduct(u, h, 0.18, 0.0045);
    } else {
      SmallProduct(u, h, 0.25, 0.0014);
    }
  }

  lemma BowIs(k: real, a: real, b: real, c: real, u: real, p: real, q: real, r: real)
    requires p == u * c && q == u * (b + p) && r == u * (a + q)
    ensures Bow(k, a, b, c, u) == k + r
  {
  }

  lemma BowIsFlat(k: real, a: real, b: real, c: real, u: real)
    requires 0.0 <= u <= 0.25 && 2.0 <= k <= 2.00001 && 0.00826 <= a <= 0.00828
    requires -0.03993 <= b <= -0.03992 && 0.00612 <= c <= 0.00613
    ensures -0.00095 <= Bow(k, a, b, c, u) - 2.0 <= 0.00095
  {
    var p := BowTop(u, c);
    var q := BowMiddle(u, b + p);
    var r := BowOuter(u, a + q);
    BowIs(k, a, b, c, u, p, q, r);
  }

  lemma Positive(a: real, b: real)
    requires 0.0 <= a && 0.0 <= b
    ensures 0.0 <= a * b
  {
  }

  lemma UnitProduct(x: real)
    requires 0.0 <= x <= 1.0
    ensures 0.0 <= x * (1.0 - x) <= 0.25
  {
    Positive(x, 1.0 - x);
    UnitTop(x);
  }

  lemma UnitTop(x: real)
    ensures x * (1.0 - x) <= 0.25
  {
    var d := x - 0.5;
    Squared(d);
    assert x * (1.0 - x) == 0.25 - d * d;
  }

  ghost predicate MirroredBy(product: Family, bow: Family, a: real, b: real, c: real)
  {
    forall x: real {:trigger product(a, b, c, x)} :: product(a, b, c, x) == bow(a, b, c, x * (1.0 - x))
  }

  ghost predicate Flat(bow: Family, a: real, b: real, c: real)
  {
    forall u: real {:trigger bow(a, b, c, u)} :: 0.0 <= u <= 0.25 ==> -0.00095 <= bow(a, b, c, u) - 2.0 <= 0.00095
  }

  lemma ComplementMirrored(a: real, b: real, c: real)
    ensures MirroredBy(Complement, BowOf, a, b, c)
  {
    forall x: real ensures Complement(a, b, c, x) == BowOf(a, b, c, x * (1.0 - x)) {
      Mirrored(a, b, c, x);
    }
  }

  lemma BowFlat(a: real, b: real, c: real)
    requires MirrorCoefficients(a, b, c)
    ensures Flat(BowOf, a, b, c)
  {
    forall u: real | 0.0 <= u <= 0.25 ensures -0.00095 <= BowOf(a, b, c, u) - 2.0 <= 0.00095 {
      BowIsFlat(1.0 + a + b + c, a * a + a * b + a * c - 2.0 * b - 3.0 * c, b * b + b * c - 2.0 * a * c, c * c, u);
    }
  }

  lemma FlatProduct(product: Family, bow: Family, a: real, b: real, c: real, x: real)
    requires MirroredBy(product, bow, a, b, c) && Flat(bow, a, b, c) && 0.0 <= x <= 1.0
    ensures -0.00095 <= product(a, b, c, x) - 2.0 <= 0.00095
  {
    UnitProduct(x);
  }

  /** Two exponents that add up to one multiply to two, up to a thousandth. */
  lemma CubicMirrors(a: real, b: real, c: real, x: real)
    requires MirrorCoefficients(a, b, c) && 0.0 <= x <= 1.0
    ensures -0.00095 <= Complement(a, b, c, x) - 2.0 <= 0.00095
  {
    ComplementMirrored(a, b, c);
    BowFlat(a, b, c);
    FlatProduct(Complement, BowOf, a, b, c, x);
  }
}
