/**
 Wire formats as pairs of a printer and a parser. A format is good when parsing undoes
 printing whatever follows, and whatever is parsed is exactly what printing would have written.
 */
module Formats {
  import opened Types

  type Byte = b: int | 0 <= b < 256

  // ---------- numbers as bytes ----------

  /** 256^n */
  function Limit(n: nat): (r: nat)
    ensures r > 0
  {
    if n == 0 then 1 else 256 * Limit(n - 1)
  }

  function LE(v: int, n: nat): (b: seq<Byte>)
    ensures |b| == n
    decreases n, v
  {
    if n == 0 then [] else [v % 256] + LE(v / 256, n - 1)
  }

  function ReadLE(b: seq<Byte>): nat
  {
    if b == [] then 0 else b[0] + 256 * ReadLE(b[1..])
  }

  function BE(v: int, n: nat): (b: seq<Byte>)
    ensures |b| == n
    decreases n, v
  {
    if n == 0 then [] else BE(v / 256, n - 1) + [v % 256]
  }

  function ReadBE(b: seq<Byte>): nat
  {
    if b == [] then 0 else 256 * ReadBE(b[..|b| - 1]) + Last(b)
  }

  /** The least significant byte comes first in little-endian fields and last in big-endian ones. */
  lemma {:induction false} ByteOrder(v: int, n: nat, i: nat)
    requires i < n
    ensures LE(v, n)[i] == BE(v, n)[n - 1 - i]
    ensures LE(v, n)[0] == v % 256 && (n >= 2 ==> LE(v, n)[1] == v / 256 % 256)
    decreases n, v
  {
    if i > 0 {
      ByteOrder(v / 256, n - 1, i - 1);
    }
    if n >= 2 {
      assert LE(v, n)[1] == LE(v / 256, n - 1)[0];
    }
  }

  lemma {:induction false} ReadLEOfLE(v: int, n: nat)
    requires 0 <= v < Limit(n)
    ensures ReadLE(LE(v, n)) == v
  {
    if n > 0 {
      ReadLEOfLE(v / 256, n - 1);
      assert LE(v, n)[1..] == LE(v / 256, n - 1);
    }
  }

  lemma {:induction false} LEOfReadLE(b: seq<Byte>)
    ensures ReadLE(b) < Limit(|b|) && LE(ReadLE(b), |b|) == b
  {
    if b != [] {
      LEOfReadLE(b[1..]);
    }
  }

  lemma {:induction false} ReadBEOfBE(v: int, n: nat)
    requires 0 <= v < Limit(n)
    ensures ReadBE(BE(v, n)) == v
  {
    if n > 0 {
      ReadBEOfBE(v / 256, n - 1);
      assert BE(v, n)[..n - 1] == BE(v / 256, n - 1);
    }
  }

  lemma {:induction false} BEOfReadBE(b: seq<Byte>)
    ensures ReadBE(b) < Limit(|b|) && BE(ReadBE(b), |b|) == b
  {
    if b != [] {
      BEOfReadBE(b[..|b| - 1]);
    }
  }

  // ---------- formats ----------

  datatype Format<!T> = Format(
    valid: T -> bool,
    show: T -> seq<Byte>,
    parse: seq<Byte> -> Option<(T, seq<Byte>)>)

  /** Parsing undoes printing, whatever follows. */
  ghost predicate Undoes<T(!new)>(f: Format<T>)
  {
    forall x: T, rest: seq<Byte> {:trigger f.parse(f.show(x) + rest)} ::
      f.valid(x) ==> f.parse(f.show(x) + rest) == Some((x, rest))
  }

  /** Only what printing writes is parsed: there is one encoding. */
  ghost predicate Canonical<T(!new)>(f: Format<T>)
  {
    forall b: seq<Byte> {:trigger f.parse(b)} :: f.parse(b).Some? ==>
      f.valid(f.parse(b).value.0) && b == f.show(f.parse(b).value.0) + f.parse(b).value.1
  }

  ghost predicate Good<T(!new)>(f: Format<T>)
  {
    Undoes(f) && Canonical(f)
  }

  // ---------- fields of fixed width ----------

  /** The first n bytes and the rest. */
  function Take(b: seq<Byte>, n: nat): Option<(seq<Byte>, seq<Byte>)>
  {
    if |b| < n then None else Some((b[..n], b[n..]))
  }

  function Raw(n: nat): Format<seq<Byte>>
  {
    Format((x: seq<Byte>) => |x| == n, (x: seq<Byte>) => x, (b: seq<Byte>) => Take(b, n))
  }

  lemma RawGood(n: nat)
    ensures Good(Raw(n))
  {
    var f := Raw(n);
    forall x: seq<Byte>, rest: seq<Byte> | f.valid(x) ensures f.parse(f.show(x) + rest) == Some((x, rest)) {
      assert (x + rest)[..n] == x && (x + rest)[n..] == rest;
    }
  }

  /** An unsigned little-endian integer. */
  function Unsigned(n: nat): Format<int>
  {
    Format((v: int) => 0 <= v < Limit(n), (v: int) => LE(v, n),
           (b: seq<Byte>) => if |b| < n then None else Some((ReadLE(b[..n]), b[n..])))
  }

  lemma UnsignedGood(n: nat)
    ensures Good(Unsigned(n))
  {
    var f := Unsigned(n);
    forall x: int, rest: seq<Byte> | f.valid(x) ensures f.parse(f.show(x) + rest) == Some((x, rest)) {
      ReadLEOfLE(x, n);
      assert (LE(x, n) + rest)[..n] == LE(x, n) && (LE(x, n) + rest)[n..] == rest;
    }
    forall b: seq<Byte> | f.parse(b).Some?
      ensures f.valid(f.parse(b).value.0) && b == f.show(f.parse(b).value.0) + f.parse(b).value.1
    {
      LEOfReadLE(b[..n]);
    }
  }

  /** An unsigned big-endian integer. */
  function BigEndian(n: nat): Format<int>
  {
    Format((v: int) => 0 <= v < Limit(n), (v: int) => BE(v, n),
           (b: seq<Byte>) => if |b| < n then None else Some((ReadBE(b[..n]), b[n..])))
  }

  lemma BigEndianGood(n: nat)
    ensures Good(BigEndian(n))
  {
    var f := BigEndian(n);
    forall x: int, rest: seq<Byte> | f.valid(x) ensures f.parse(f.show(x) + rest) == Some((x, rest)) {
      ReadBEOfBE(x, n);
      assert (BE(x, n) + rest)[..n] == BE(x, n) && (BE(x, n) + rest)[n..] == rest;
    }
    forall b: seq<Byte> | f.parse(b).Some?
      ensures f.valid(f.parse(b).value.0) && b == f.show(f.parse(b).value.0) + f.parse(b).value.1
    {
      BEOfReadBE(b[..n]);
    }
  }

  // ---------- combinations ----------

  function ParsePair<S, T>(f: Format<S>, g: Format<T>, b: seq<Byte>): Option<((S, T), seq<Byte>)>
  {
    match f.parse(b)
    case None => None
    case Some((x, rest)) =>
      match g.parse(rest)
      case None => None
      case Some((y, rest')) => Some(((x, y), rest'))
  }

  function Pair<S, T>(f: Format<S>, g: Format<T>): Format<(S, T)>
  {
    Format((p: (S, T)) => f.valid(p.0) && g.valid(p.1), (p: (S, T)) => f.show(p.0) + g.show(p.1),
           (b: seq<Byte>) => ParsePair(f, g, b))
  }

  lemma PairGood<S(!new), T(!new)>(f: Format<S>, g: Format<T>)
    requires Good(f) && Good(g)
    ensures Good(Pair(f, g))
  {
    var h := Pair(f, g);
    forall p: (S, T), rest: seq<Byte> | h.valid(p) ensures h.parse(h.show(p) + rest) == Some((p, rest)) {
      assert h.show(p) + rest == f.show(p.0) + (g.show(p.1) + rest);
      assert f.parse(f.show(p.0) + (g.show(p.1) + rest)) == Some((p.0, g.show(p.1) + rest));
    }
    forall b: seq<Byte> | h.parse(b).Some?
      ensures h.valid(h.parse(b).value.0) && b == h.show(h.parse(b).value.0) + h.parse(b).value.1
    {
      var r := f.parse(b).value;
      assert g.parse(r.1).Some?;
    }
  }

  /** The same bytes read as another type. */
  function ParseAs<S, T>(f: Format<S>, make: S -> T, b: seq<Byte>): Option<(T, seq<Byte>)>
  {
    match f.parse(b)
    case None => None
    case Some((x, rest)) => Some((make(x), rest))
  }

  function As<S, T>(f: Format<S>, make: S -> T, take: T -> S): Format<T>
  {
    Format((y: T) => f.valid(take(y)), (y: T) => f.show(take(y)), (b: seq<Byte>) => ParseAs(f, make, b))
  }

  lemma AsGood<S(!new), T(!new)>(f: Format<S>, make: S -> T, take: T -> S)
    requires Good(f)
    requires forall x: S {:trigger make(x)} :: f.valid(x) ==> take(make(x)) == x
    requires forall y: T {:trigger take(y)} :: f.valid(take(y)) ==> make(take(y)) == y
    ensures Good(As(f, make, take))
  {
    var h := As(f, make, take);
    forall y: T, rest: seq<Byte> | h.valid(y) ensures h.parse(h.show(y) + rest) == Some((y, rest)) {
      assert f.parse(f.show(take(y)) + rest) == Some((take(y), rest));
    }
    forall b: seq<Byte> | h.parse(b).Some?
      ensures h.valid(h.parse(b).value.0) && b == h.show(h.parse(b).value.0) + h.parse(b).value.1
    {
      assert f.parse(b).Some?;
    }
  }

  /** Values of another format that satisfy one more condition. */
  function Where<T>(f: Format<T>, cond: T -> bool): Format<T>
  {
    Format((x: T) => f.valid(x) && cond(x), f.show,
           (b: seq<Byte>) => if f.parse(b).Some? && !cond(f.parse(b).value.0) then None else f.parse(b))
  }

  lemma WhereGood<T(!new)>(f: Format<T>, cond: T -> bool)
    requires Good(f)
    ensures Good(Where(f, cond))
  {
    var h := Where(f, cond);
    forall x: T, rest: seq<Byte> | h.valid(x) ensures h.parse(h.show(x) + rest) == Some((x, rest)) {
      assert f.parse(f.show(x) + rest) == Some((x, rest));
    }
    forall b: seq<Byte> | h.parse(b).Some?
      ensures h.valid(h.parse(b).value.0) && b == h.show(h.parse(b).value.0) + h.parse(b).value.1
    {
      assert f.parse(b).Some?;
    }
  }

  // ---------- lists ----------

  function PrintAll<T>(f: Format<T>, xs: seq<T>): seq<Byte>
  {
    if xs == [] then [] else PrintAll(f, xs[..|xs| - 1]) + f.show(Last(xs))
  }

  /** Exactly n values, one after the other. */
  function ParseAll<T>(f: Format<T>, n: nat, b: seq<Byte>): Option<(seq<T>, seq<Byte>)>
  {
    if n == 0 then Some(([], b))
    else
      match ParseAll(f, n - 1, b)
      case None => None
      case Some((xs, rest)) =>
        match f.parse(rest)
        case None => None
        case Some((x, rest')) => Some((xs + [x], rest'))
  }

  predicate AllValid<T>(f: Format<T>, xs: seq<T>)
  {
    forall i :: 0 <= i < |xs| ==> f.valid(xs[i])
  }

  lemma {:induction false} ParseAllUndoes<T(!new)>(f: Format<T>, xs: seq<T>, rest: seq<Byte>)
    requires Good(f) && AllValid(f, xs)
    ensures ParseAll(f, |xs|, PrintAll(f, xs) + rest) == Some((xs, rest))
    decreases |xs|
  {
    if xs == [] {
      assert PrintAll(f, xs) + rest == rest;
    } else {
      var front := xs[..|xs| - 1];
      ParseAllUndoes(f, front, f.show(Last(xs)) + rest);
      assert PrintAll(f, xs) + rest == PrintAll(f, front) + (f.show(Last(xs)) + rest);
      assert f.parse(f.show(Last(xs)) + rest) == Some((Last(xs), rest));
      assert front + [Last(xs)] == xs;
    }
  }

  lemma {:induction false} ParseAllCanonical<T(!new)>(f: Format<T>, n: nat, b: seq<Byte>)
    requires Good(f) && ParseAll(f, n, b).Some?
    ensures var r := ParseAll(f, n, b).value;
            |r.0| == n && AllValid(f, r.0) && b == PrintAll(f, r.0) + r.1
  {
    if n > 0 {
      ParseAllCanonical(f, n - 1, b);
      var front := ParseAll(f, n - 1, b).value;
      var r := ParseAll(f, n, b).value;
      assert f.parse(front.1).Some?;
      assert r.0[..n - 1] == front.0;
    }
  }

  /** A count, then that many values; counts above max are refused. */
  function ParseCounted<T>(count: Format<int>, f: Format<T>, max: nat, b: seq<Byte>): Option<(seq<T>, seq<Byte>)>
  {
    match count.parse(b)
    case None => None
    case Some((n, rest)) => if n < 0 || n > max then None else ParseAll(f, n, rest)
  }

  function Counted<T>(count: Format<int>, f: Format<T>, max: nat): Format<seq<T>>
  {
    Format((xs: seq<T>) => |xs| <= max && count.valid(|xs|) && AllValid(f, xs),
           (xs: seq<T>) => count.show(|xs|) + PrintAll(f, xs),
           (b: seq<Byte>) => ParseCounted(count, f, max, b))
  }

  lemma CountedGood<T(!new)>(count: Format<int>, f: Format<T>, max: nat)
    requires Good(count) && Good(f)
    ensures Good(Counted(count, f, max))
  {
    var h := Counted(count, f, max);
    forall xs: seq<T>, rest: seq<Byte> | h.valid(xs) ensures h.parse(h.show(xs) + rest) == Some((xs, rest)) {
      assert h.show(xs) + rest == count.show(|xs|) + (PrintAll(f, xs) + rest);
      assert count.parse(count.show(|xs|) + (PrintAll(f, xs) + rest)) == Some((|xs|, PrintAll(f, xs) + rest));
      ParseAllUndoes(f, xs, rest);
    }
    forall b: seq<Byte> | h.parse(b).Some?
      ensures h.valid(h.parse(b).value.0) && b == h.show(h.parse(b).value.0) + h.parse(b).value.1
    {
      var c := count.parse(b).value;
      ParseAllCanonical(f, c.0, c.1);
    }
  }

  /** A length and that many bytes, read in one go. */
  function ParseText(count: Format<int>, max: nat, b: seq<Byte>): Option<(seq<Byte>, seq<Byte>)>
  {
    match count.parse(b)
    case None => None
    case Some((n, rest)) => if n < 0 || n > max then None else Take(rest, n)
  }

  function Text(count: Format<int>, max: nat): Format<seq<Byte>>
  {
    Format((x: seq<Byte>) => |x| <= max && count.valid(|x|),
           (x: seq<Byte>) => count.show(|x|) + x,
           (b: seq<Byte>) => ParseText(count, max, b))
  }

  lemma TextGood(c: Format<int>, max: nat)
    requires Good(c)
    ensures Good(Text(c, max))
  {
    var f := Text(c, max);
    forall x: seq<Byte>, rest: seq<Byte> | f.valid(x) ensures f.parse(f.show(x) + rest) == Some((x, rest)) {
      assert f.show(x) + rest == c.show(|x|) + (x + rest);
      assert c.parse(c.show(|x|) + (x + rest)) == Some((|x|, x + rest));
      assert (x + rest)[..|x|] == x && (x + rest)[|x|..] == rest;
    }
    forall b: seq<Byte> | f.parse(b).Some?
      ensures f.valid(f.parse(b).value.0) && b == f.show(f.parse(b).value.0) + f.parse(b).value.1
    {
      var r := c.parse(b).value;
      assert r.1 == r.1[..r.0] + r.1[r.0..];
    }
  }
}
