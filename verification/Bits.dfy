/**
 Shifts and bitwise operators of the source on natural numbers. They are defined bit by
 bit, so their laws are linear inductions; `ShlIsMul`, `ShrIsDiv` and `LowIsMod` give
 their arithmetic meaning.
 */
module Bits {

  /** One more than the largest 256-bit and 512-bit numbers. */
  const TWO_256: nat := 0x10000000000000000000000000000000000000000000000000000000000000000
  const TWO_512: nat := 0x100000000000000000000000000000000000000000000000000000000000000000000000000000000000000000000000000000000000000000000000000000000

  function Pow2(n: nat): (r: nat)
    ensures r > 0
  {
    if n == 0 then 1 else 2 * Pow2(n - 1)
  }

  /** x << n, without truncation. */
  function Shl(x: nat, n: nat): nat
  {
    if n == 0 then x else 2 * Shl(x, n - 1)
  }

  /** x >> n. */
  function Shr(x: nat, n: nat): nat
  {
    if n == 0 then x else Shr(x, n - 1) / 2
  }

  /** The n low bits of x. */
  function Low(x: nat, n: nat): (r: nat)
    ensures r < Pow2(n)
  {
    if n == 0 then 0 else x % 2 + 2 * Low(x / 2, n - 1)
  }

  /** Bitwise and. */
  function And(x: nat, y: nat): (r: nat)
    ensures r <= x && r <= y
    decreases x
  {
    if x == 0 || y == 0 then 0
    else 2 * And(x / 2, y / 2) + (if x % 2 == 1 && y % 2 == 1 then 1 else 0)
  }

  /** Bitwise or. */
  function Or(x: nat, y: nat): nat
    decreases x + y
  {
    if x == 0 && y == 0 then 0
    else 2 * Or(x / 2, y / 2) + (if x % 2 == 1 || y % 2 == 1 then 1 else 0)
  }

  // ---------- powers of two ----------

  lemma Pow2Mono(a: nat, b: nat)
    requires a <= b
    ensures Pow2(a) <= Pow2(b)
    ensures a < b ==> 2 * Pow2(a) <= Pow2(b)
    decreases b
  {
    if a < b {
      Pow2Mono(a, b - 1);
    }
  }

  lemma Pow2Consts()
    ensures Pow2(1) == 2
    ensures Pow2(8) == 0x100 && Pow2(16) == 0x1_0000 && Pow2(24) == 0x100_0000
    ensures Pow2(32) == 0x1_0000_0000
  {
    assert Pow2(4) == 16;
    assert Pow2(12) == 0x1000;
    assert Pow2(20) == 0x10_0000;
    assert Pow2(28) == 0x1000_0000;
  }


  lemma {:induction false} Pow2Add(a: nat, b: nat)
    ensures Pow2(a + b) == Shl(Pow2(a), b)
  {
    if b > 0 {
      Pow2Add(a, b - 1);
    }
  }

  // ---------- shifts ----------

  lemma {:induction false} ShlShl(x: nat, a: nat, b: nat)
    ensures Shl(Shl(x, a), b) == Shl(x, a + b)
  {
    if b > 0 {
      ShlShl(x, a, b - 1);
    }
  }

  lemma {:induction false} ShrShr(x: nat, a: nat, b: nat)
    ensures Shr(Shr(x, a), b) == Shr(x, a + b)
  {
    if b > 0 {
      ShrShr(x, a, b - 1);
    }
  }

  /** A shift can be started from the low end. */
  lemma {:induction false} ShrHalf(x: nat, n: nat)
    ensures Shr(x, n + 1) == Shr(x / 2, n)
  {
    if n > 0 {
      ShrHalf(x, n - 1);
    }
  }

  lemma {:induction false} ShlDouble(x: nat, n: nat)
    ensures Shl(2 * x, n) == Shl(x, n + 1)
  {
    if n > 0 {
      ShlDouble(x, n - 1);
    }
  }

  lemma ShlMono(x: nat, y: nat, n: nat)
    ensures x <= y <==> Shl(x, n) <= Shl(y, n)
  {
  }

  lemma ShrMono(x: nat, y: nat, n: nat)
    requires x <= y
    ensures Shr(x, n) <= Shr(y, n)
  {
  }

  lemma {:induction false} ShlAdd(x: nat, y: nat, n: nat)
    ensures Shl(x + y, n) == Shl(x, n) + Shl(y, n)
  {
    if n > 0 {
      ShlAdd(x, y, n - 1);
    }
  }

  lemma {:induction false} ShrShl(x: nat, n: nat, low: nat)
    requires low < Pow2(n)
    ensures Shr(Shl(x, n) + low, n) == x
  {
    if n > 0 {
      ShrHalf(Shl(x, n) + low, n - 1);
      ShrShl(x, n - 1, low / 2);
    }
  }

  /** Shifting right and back rounds down. */
  lemma {:induction false} ShlShr(x: nat, n: nat)
    ensures Shl(Shr(x, n), n) <= x < Shl(Shr(x, n) + 1, n)
    ensures x == Shl(Shr(x, n), n) + Low(x, n)
  {
    if n > 0 {
      ShrHalf(x, n - 1);
      ShlShr(x / 2, n - 1);
    }
  }

  /** x is at least 2^m exactly when x << n is at least 2^(m+n). */
  lemma {:induction false} ShlVsPow2(x: nat, n: nat, m: nat)
    ensures x >= Pow2(m) <==> Shl(x, n) >= Pow2(m + n)
  {
    if n > 0 {
      ShlVsPow2(x, n - 1, m);
    }
  }

  lemma {:induction false} ShrVsPow2(x: nat, n: nat, m: nat)
    ensures x >= Pow2(m + n) <==> Shr(x, n) >= Pow2(m)
  {
    if n > 0 {
      ShrVsPow2(x, n - 1, m + 1);
      assert m + 1 + (n - 1) == m + n;
    }
  }

  lemma {:induction false} LowOfShl(x: nat, n: nat, m: nat)
    requires n <= m
    ensures Low(Shl(x, n), m) == Shl(Low(x, m - n), n)
  {
    if n > 0 {
      LowOfShl(x, n - 1, m - 1);
    }
  }

  lemma {:induction false} LowSmall(x: nat, n: nat)
    ensures x < Pow2(n) <==> Low(x, n) == x
  {
    if n > 0 {
      LowSmall(x / 2, n - 1);
    }
  }

  /** Adding a multiple of 2^n does not change the n low bits. */
  lemma {:induction false} LowUnique(q: nat, r: nat, n: nat)
    requires r < Pow2(n)
    ensures Low(Shl(q, n) + r, n) == r
  {
    if n > 0 {
      LowUnique(q, r / 2, n - 1);
      assert (Shl(q, n) + r) / 2 == Shl(q, n - 1) + r / 2;
    }
  }

  // ---------- arithmetic meaning ----------

  lemma {:induction false} ShlIsMul(x: nat, n: nat)
    ensures Shl(x, n) == x * Pow2(n)
  {
    if n > 0 {
      ShlIsMul(x, n - 1);
      MulAssoc(x, 2, Pow2(n - 1));
    }
  }

  lemma ShlZero(n: nat)
    ensures Shl(0, n) == 0
  {
    ShlIsMul(0, n);
  }

  lemma ShrIsDiv(x: nat, n: nat)
    ensures Shr(x, n) == x / Pow2(n) && Low(x, n) == x % Pow2(n)
  {
    ShlShr(x, n);
    ShlIsMul(Shr(x, n), n);
    DivUnique(x, Pow2(n), Shr(x, n), Low(x, n));
  }

  /** The or of numbers whose bits do not overlap is their sum. */
  lemma {:induction false} OrIsSum(x: nat, y: nat, k: nat)
    requires y < Pow2(k)
    ensures Or(Shl(x, k), y) == Shl(x, k) + y
    decreases k, x
  {
    if k > 0 {
      OrIsSum(x, y / 2, k - 1);
      assert Shl(x, k) / 2 == Shl(x, k - 1);
    } else {
      if x > 0 {
        OrIsSum(x / 2, 0, 0);
      }
    }
  }

  // ---------- non-linear steps, each on plain variables ----------

  lemma MulMono(a: int, b: int, c: int)
    requires a <= b && 0 <= c
    ensures a * c <= b * c
  {
  }

  lemma MulDistr(a: int, b: int, c: int)
    ensures (a + b) * c == a * c + b * c
    ensures (a - b) * c == a * c - b * c
  {
  }

  lemma MulAssoc(a: int, b: int, c: int)
    ensures a * (b * c) == (a * b) * c == b * (a * c)
  {
  }

  lemma DivMod(x: int, d: int)
    requires d > 0
    ensures x == (x / d) * d + x % d && 0 <= x % d < d
  {
  }

  /** Quotient and remainder are unique. */
  lemma DivUnique(x: int, d: int, q: int, r: int)
    requires d > 0 && x == q * d + r && 0 <= r < d
    ensures x / d == q && x % d == r
  {
    DivMod(x, d);
    QuotientUnique(d, q, r, x / d, x % d);
  }

  lemma QuotientUnique(d: int, q: int, r: int, q': int, r': int)
    requires 0 <= r < d && 0 <= r' < d && q * d + r == q' * d + r'
    ensures q == q' && r == r'
  {
    if q < q' {
      MulMono(q + 1, q', d);
      MulDistr(q, 1, d);
    } else if q' < q {
      MulMono(q' + 1, q, d);
      MulDistr(q', 1, d);
    }
  }

  lemma DivMono(x: int, y: int, d: int)
    requires x <= y && d > 0
    ensures x / d <= y / d
  {
    DivMod(x, d);
    DivMod(y, d);
    if x / d > y / d {
      MulMono(y / d + 1, x / d, d);
      MulDistr(y / d, 1, d);
    }
  }

  // ---------- multiplication by repeated addition, so that its laws are linear ----------

  function Product(b: nat, v: nat): nat
  {
    if b == 0 then 0 else Product(b - 1, v) + v
  }

  lemma {:induction false} ProductIsMul(b: nat, v: nat)
    ensures Product(b, v) == b * v
  {
    if b > 0 {
      ProductIsMul(b - 1, v);
      MulDistr(b - 1, 1, v);
    }
  }

  lemma {:induction false} ProductAdd(b: nat, v: nat, w: nat)
    ensures Product(b, v + w) == Product(b, v) + Product(b, w)
  {
    if b > 0 {
      ProductAdd(b - 1, v, w);
    }
  }

  lemma {:induction false} ProductSum(a: nat, b: nat, v: nat)
    ensures Product(a + b, v) == Product(a, v) + Product(b, v)
    decreases b
  {
    if b > 0 {
      ProductSum(a, b - 1, v);
    }
  }

  lemma {:induction false} ProductZero(b: nat)
    ensures Product(b, 0) == 0
  {
    if b > 0 {
      ProductZero(b - 1);
    }
  }

  lemma {:induction false} ProductShl(b: nat, x: nat, k: nat)
    ensures Product(b, Shl(x, k)) == Shl(Product(b, x), k)
  {
    if k > 0 {
      ProductShl(b, x, k - 1);
      ProductAdd(b, Shl(x, k - 1), Shl(x, k - 1));
    }
  }

  lemma {:induction false} ShlProduct(b: nat, v: nat, k: nat)
    ensures Product(Shl(b, k), v) == Shl(Product(b, v), k)
  {
    if k > 0 {
      ShlProduct(b, v, k - 1);
      ProductSum(Shl(b, k - 1), Shl(b, k - 1), v);
    }
  }
}

/** The two large powers, evaluated by repeated squaring. */
module BigPowers {
  import opened Bits

  lemma Square(n: nat, v: nat)
    requires Pow2(n) == v
    ensures Pow2(2 * n) == v * v
  {
    Pow2Add(n, n);
    ShlIsMul(v, n);
    assert n + n == 2 * n;
  }

  lemma Pow2Medium()
    ensures Pow2(64) == 0x10000000000000000
    ensures Pow2(128) == 0x100000000000000000000000000000000
  {
    Pow2Consts();
    Square(32, 0x100000000);
    Square(64, 0x10000000000000000);
  }

  lemma Pow2Big()
    ensures Pow2(256) == TWO_256 && Pow2(512) == TWO_512
  {
    Pow2Medium();
    Square(128, 0x100000000000000000000000000000000);
    Square(256, TWO_256);
  }
}
