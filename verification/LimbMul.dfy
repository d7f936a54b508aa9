/** The limb-level multiplications of base_uint (src/util/arith_uint256.cpp:46-70). */
module LimbMul {
  import opened Bits
  import opened Limbs

  /** A column of a product in 64-bit arithmetic, which it cannot overflow. */
  method ProductColumn(carry: Limb, acc: Limb, x: Limb, y: Limb) returns (lo: Limb, hi: Limb)
    ensures lo + B * hi == carry + acc + Product(x, y)
  {
    ColumnFits(carry, acc, x, y);
    ProductIsMul(x, y);
    var n: nat := carry + acc + x * y;
    lo := n % B;
    hi := n / B;
  }

  lemma ColumnFits(carry: nat, acc: nat, x: nat, y: nat)
    requires carry < B && acc < B && x < B && y < B
    ensures carry + acc + x * y < B * B && (carry + acc + x * y) / B < B
  {
    MulMono(x, B - 1, y);
    MulMono(y, B - 1, B - 1);
    assert carry + acc + x * y <= (B - 1) + (B - 1) + (B - 1) * (B - 1);
  }

  // ---------- by one limb ----------

  lemma Product32Step(s: seq<Limb>, x: seq<Limb>, i: nat, carry: nat, b: nat, lo: Limb, hi: nat)
    requires i < |s| == |x| && Part(s, i) + Shl(carry, 32 * i) == Product(b, Part(x, i))
    requires lo + B * hi == carry + Product(b, x[i])
    ensures Part(s[i := lo], i + 1) + Shl(hi, 32 * (i + 1)) == Product(b, Part(x, i + 1))
  {
    PartUpdate(s, i, lo, i);
    SumColumn(carry, Product(b, x[i]), 0, lo, hi, 32 * i);
    ShlZero(32 * i);
    ProductShl(b, x[i], 32 * i);
    ProductAdd(b, Part(x, i), Shl(x[i], 32 * i));
  }

  /** operator*=(uint32_t) */
  method Multiply32(a: array<Limb>, b: Limb)
    modifies a
    ensures Val(a[..]) == Low(b * old(Val(a[..])), Width(a.Length))
  {
    var carry: Limb := 0;
    ghost var x := a[..];
    ProductZero(b);
    for i := 0 to a.Length
      invariant forall j {:trigger a[j]} :: i <= j < a.Length ==> a[j] == x[j]
      invariant Part(a[..], i) + Shl(carry, 32 * i) == Product(b, Part(x, i))
    {
      ghost var s := a[..];
      var lo, hi := ProductColumn(carry, 0, b, a[i]);
      Product32Step(s, x, i, carry, b, lo, hi);
      a[i] := lo;
      assert a[..] == s[i := lo];
      carry := hi;
    }
    PartBound(a[..], a.Length);
    CarriedOut(Val(a[..]), carry, Product(b, Val(x)), Width(a.Length));
    ProductIsMul(b, Val(x));
  }

  // ---------- full product ----------

  lemma RowStep(s: seq<Limb>, x: seq<Limb>, y: seq<Limb>, i: nat, j: nat, carry: nat, p: nat, lo: Limb, hi: nat)
    requires i + j < |s| == |x| == |y| && s[i + j] == x[i + j] && lo + B * hi == carry + x[i + j] + Product(p, y[i])
    requires Part(s, i + j) + Shl(carry, 32 * (i + j)) == Part(x, i + j) + Shl(Product(p, Part(y, i)), 32 * j)
    ensures Part(s[i + j := lo], i + 1 + j) + Shl(hi, 32 * (i + 1 + j))
            == Part(x, i + 1 + j) + Shl(Product(p, Part(y, i + 1)), 32 * j)
  {
    PartUpdate(s, i + j, lo, i + j);
    SumColumn(carry, x[i + j], Product(p, y[i]), lo, hi, 32 * (i + j));
    ProductAdd(p, Part(y, i), Shl(y[i], 32 * i));
    ProductShl(p, y[i], 32 * i);
    ShlAdd(Product(p, Part(y, i)), Shl(Product(p, y[i]), 32 * i), 32 * j);
    ShlShl(Product(p, y[i]), 32 * i, 32 * j);
    assert 32 * i + 32 * j == 32 * (i + j);
  }

  /** One row: acc += p * b << 32 j, within the width. */
  method AddRow(acc: array<Limb>, p: Limb, b: array<Limb>, j: nat) returns (ghost carry: nat)
    requires acc.Length == b.Length && j < acc.Length && acc != b
    modifies acc
    ensures Val(acc[..]) + Shl(carry, Width(acc.Length))
            == old(Val(acc[..])) + Shl(Product(p, Part(b[..], acc.Length - j)), 32 * j)
  {
    var n := acc.Length;
    ghost var x, y := acc[..], b[..];
    var c: Limb := 0;
    ProductZero(p);
    ShlZero(32 * j);
    for i := 0 to n - j
      invariant b[..] == y && forall m {:trigger acc[m]} :: i + j <= m < n ==> acc[m] == x[m]
      invariant Part(acc[..], i + j) + Shl(c, 32 * (i + j)) == Part(x, i + j) + Shl(Product(p, Part(y, i)), 32 * j)
    {
      ghost var s := acc[..];
      var lo, hi := ProductColumn(c, acc[i + j], p, b[i]);
      RowStep(s, x, y, i, j, c, p, lo, hi);
      acc[i + j] := lo;
      assert acc[..] == s[i + j := lo];
      c := hi;
    }
    carry := c;
  }

  /** operator*=: the product, reduced to the width; b may be a itself. */
  method Multiply(a: array<Limb>, b: array<Limb>)
    requires a.Length == b.Length
    modifies a
    ensures Val(a[..]) == Low(old(Val(a[..])) * old(Val(b[..])), Width(a.Length))
  {
    ghost var x, y := Val(a[..]), Val(b[..]);
    var acc := FullProduct(a, b);
    ProductIsMul(x, y);
    Assign(a, acc);
  }

  /** *this = b */
  method Assign(a: array<Limb>, b: array<Limb>)
    requires a.Length == b.Length && a != b
    modifies a
    ensures a[..] == b[..]
  {
    for i := 0 to a.Length
      invariant forall m {:trigger a[m]} :: 0 <= m < i ==> a[m] == b[m]
    {
      a[i] := b[i];
    }
  }

  method FullProduct(a: array<Limb>, b: array<Limb>) returns (acc: array<Limb>)
    requires a.Length == b.Length
    ensures fresh(acc) && acc.Length == a.Length
    ensures Val(acc[..]) == Low(Product(Val(a[..]), Val(b[..])), Width(a.Length))
  {
    var n := a.Length;
    ghost var x, y := a[..], b[..];
    acc := new Limb[n](_ => 0);
    PartZero(acc[..], n);
    ghost var out: nat := 0;
    ShlZero(Width(n));
    for j := 0 to n
      invariant fresh(acc) && Val(acc[..]) + Shl(out, Width(n)) == Product(Part(x, j), Val(y))
    {
      ghost var before := Val(acc[..]);
      ghost var carry := AddRow(acc, a[j], b, j);
      out := RowOut(x, y, j, before, out, Val(acc[..]), carry);
    }
    PartBound(acc[..], n);
    CarriedOut(Val(acc[..]), out, Product(Val(x), Val(y)), Width(n));
  }

  /** What row j leaves out is a multiple of the width. */
  lemma RowOut(x: seq<Limb>, y: seq<Limb>, j: nat, before: nat, out: nat, after: nat, carry: nat) returns (out': nat)
    requires j < |x| == |y|
    requires before + Shl(out, Width(|x|)) == Product(Part(x, j), Val(y))
    requires after + Shl(carry, Width(|x|)) == before + Shl(Product(x[j], Part(y, |x| - j)), 32 * j)
    ensures after + Shl(out', Width(|x|)) == Product(Part(x, j + 1), Val(y))
  {
    var n, p: nat, high := |x|, x[j], Val(y[|x| - j..]);
    DropSplits(y, n - j);
    RowTop(p, Val(y), Part(y, n - j), high, n, j);
    ShlAdd(out, carry, Width(n));
    ShlAdd(out + carry, Product(p, high), Width(n));
    ProductSum(Part(x, j), Shl(p, 32 * j), Val(y));
    out' := out + carry + Product(p, high);
  }

  lemma RowTop(p: nat, v: nat, low: nat, high: nat, n: nat, j: nat)
    requires j <= n && v == low + Shl(high, Width(n - j))
    ensures Product(Shl(p, 32 * j), v) == Shl(Product(p, low), 32 * j) + Shl(Product(p, high), Width(n))
  {
    ShlProduct(p, v, 32 * j);
    ProductAdd(p, low, Shl(high, Width(n - j)));
    ProductShl(p, high, Width(n - j));
    ShlAdd(Product(p, low), Shl(Product(p, high), Width(n - j)), 32 * j);
    ShlShl(Product(p, high), Width(n - j), 32 * j);
    assert Width(n - j) + 32 * j == Width(n);
  }
}
