/** Values shared by every component. */
module Types {

  datatype Option<+T> = None | Some(value: T)

  /** A 256-bit block hash, read as the number its bytes spell in the order in which base_blob compares them. */
  type Hash = nat

  /** The hash whose bytes are all zero: "no previous block". */
  const NULL_HASH: Hash := 0

  /** CBlockHeader, include/chain/block.hpp:20-31. */
  datatype Header = Header(
    version: int,
    prev: Hash,
    miner: nat,
    time: nat,
    bits: nat,
    nonce: nat,
    randomX: nat)

  function Max(a: int, b: int): int { if a < b then b else a }

  function Min(a: int, b: int): int { if a < b then a else b }

  function Last<T>(s: seq<T>): T
    requires |s| > 0
  {
    s[|s| - 1]
  }

  lemma {:induction false} SubsetSize<T>(a: set<T>, b: set<T>)
    requires a <= b
    ensures |a| <= |b|
    decreases a
  {
    if a != {} {
      var x :| x in a;
      SubsetSize(a - {x}, b - {x});
    }
  }

  lemma MoveAcross<T>(a: seq<T>, x: T, b: seq<T>)
    ensures a + ([x] + b) == (a + [x]) + b
  {
  }

  /** An element with the least key. */
  lemma {:induction false} LeastExists<T>(todo: set<T>, key: T -> int) returns (h: T)
    requires todo != {}
    ensures h in todo && forall g {:trigger g in todo} :: g in todo ==> key(h) <= key(g)
    decreases todo
  {
    var x :| x in todo;
    h := x;
    var rest := todo - {x};
    if rest != {} {
      var y := LeastExists(rest, key);
      h := if key(y) < key(x) then y else x;
    }
    forall g | g in todo ensures key(h) <= key(g) {
      assert g == x || g in rest;
    }
  }
}
