/** A small network on which the failures the model finds are shown to happen. */
module ExampleNetwork {
  import opened Types
  import opened Bits
  import opened BlockTree
  import opened Consensus
  import opened MedianTime
  import opened ConsensusState
  import opened ChainRuns
  import opened RunTheorems
  import Compact

  /** nBits of the target 1 */
  const BITS: nat := 0x0101_0000

  const GENESIS := Header(1, NULL_HASH, 0, 100, BITS, 1, 0)

  /** A constant-difficulty network that accepts every proof of work, without reorg policy or expiry. */
  ghost predicate Sample(P: Params)
  {
    && Injective(P.hash) && (forall h {:trigger P.hash(h)} :: P.hash(h) > 0)
    && (forall h {:trigger P.commitmentOk(h)} :: P.commitmentOk(h)) && (forall h {:trigger P.fullOk(h)} :: P.fullOk(h))
    && P.genesisHash == P.hash(GENESIS) && P.regtest && P.powLimit == 1
    && P.expirationInterval == 0 && P.suspiciousReorgDepth == 0
  }

  // ---------- there is such a network ----------

  /** An injective pairing: between the squares of a + b and of a + b + 1. */
  function Two(a: nat, b: nat): nat { (a + b) * (a + b) + a + 1 }

  lemma NextSquare(m: nat, n: nat, a: nat)
    requires m < n && a <= m
    ensures m * m + a < n * n
  {
    MulMono(m + 1, n, n);
    MulMono(m + 1, n, m + 1);
    MulDistr(m, 1, m + 1);
    MulDistr(m, 1, m);
  }

  lemma TwoInjective(a: nat, b: nat, c: nat, d: nat)
    requires Two(a, b) == Two(c, d)
    ensures a == c && b == d
  {
    if a + b < c + d {
      NextSquare(a + b, c + d, a);
    } else if c + d < a + b {
      NextSquare(c + d, a + b, c);
    }
  }

  lemma TwoPositive(a: nat, b: nat)
    ensures Two(a, b) > 0
  {
    MulMono(0, a + b, a + b);
  }

  function Unfold(v: int): nat { if v >= 0 then 2 * v else -2 * v - 1 }

  /** An injective function in the place of the double SHA-256. */
  function Code(h: Header): Hash
  {
    Two(Unfold(h.version), Two(h.prev, Two(h.miner, Two(h.time, Two(h.bits, Two(h.nonce, h.randomX))))))
  }

  lemma CodeInjective(x: Header, y: Header)
    requires Code(x) == Code(y)
    ensures x == y
  {
    var x5, y5 := Two(x.nonce, x.randomX), Two(y.nonce, y.randomX);
    var x4, y4 := Two(x.bits, x5), Two(y.bits, y5);
    var x3, y3 := Two(x.time, x4), Two(y.time, y4);
    var x2, y2 := Two(x.miner, x3), Two(y.miner, y3);
    var x1, y1 := Two(x.prev, x2), Two(y.prev, y2);
    TwoInjective(Unfold(x.version), x1, Unfold(y.version), y1);
    TwoInjective(x.prev, x2, y.prev, y2);
    TwoInjective(x.miner, x3, y.miner, y3);
    TwoInjective(x.time, x4, y.time, y4);
    TwoInjective(x.bits, x5, y.bits, y5);
    TwoInjective(x.nonce, x.randomX, y.nonce, y.randomX);
  }

  function Net(minimumChainWork: nat): Params
  {
    Params(Code, (h: Header) => true, (h: Header) => true, Code(GENESIS), true, 1, 120, 3600, 1, minimumChainWork,
           0, 600, 0, 144)
  }

  lemma NetIsSample(minimumChainWork: nat)
    ensures Sample(Net(minimumChainWork))
  {
    var P := Net(minimumChainWork);
    forall x, y {:trigger P.hash(x), P.hash(y)} | P.hash(x) == P.hash(y) ensures x == y {
      CodeInjective(x, y);
    }
    forall h {:trigger P.hash(h)} ensures P.hash(h) > 0 {
      TwoPositive(Unfold(h.version), Two(h.prev, Two(h.miner, Two(h.time, Two(h.bits, Two(h.nonce, h.randomX))))));
    }
  }

  // ---------- its first blocks ----------

  function Parent(P: Params): Header { Header(1, P.hash(GENESIS), 0, 200, BITS, 2, 0) }

  function Child(P: Params): Header { Header(1, P.hash(Parent(P)), 0, 300, BITS, 3, 0) }

  lemma BitsOfOne()
    ensures Compact.GetCompact(1) == BITS && Compact.BlockProof(BITS) > 0
  {
    CompactOfOne();
    Compact.CompactKeepsRange(1, 1);
    Compact.BlockProofIsFloor(BITS);
  }

  lemma CompactOfOne()
    ensures Compact.GetCompact(1) == BITS
  {
    assert Compact.BitLength(1) == 1 && Compact.ByteLength(1) == 1;
    ByteShifts(1);
  }

  lemma ByteShifts(x: nat)
    ensures Shl(x, 16) == 0x1_0000 * x
  {
    Pow2Consts();
    ShlIsMul(x, 16);
  }

  lemma GenesisIsOk(P: Params)
    requires Sample(P)
    ensures GenesisOk(P, GENESIS) && Inv(P, Initial(P, GENESIS)) && Best(Initial(P, GENESIS))
  {
    BitsOfOne();
    InitialOk(P, GENESIS);
  }

  lemma MedianOfOne(ix: Index, h: Hash)
    requires Linked(ix) && h in ix && ix[h].prev == None
    ensures MedianTimePast(ix, h) == ix[h].header.time
  {
    assert Times(ix, h, MEDIAN_TIME_SPAN) == [ix[h].header.time];
    var t := [ix[h].header.time];
    assert t[1..] == [];
  }

  lemma MedianOfTwo(ix: Index, h: Hash, g: Hash)
    requires Linked(ix) && h in ix && g in ix && ix[h].prev == Some(g) && ix[g].prev == None
    requires ix[g].header.time <= ix[h].header.time
    ensures MedianTimePast(ix, h) == ix[h].header.time
  {
    var a, b := ix[h].header.time, ix[g].header.time;
    assert Times(ix, g, MEDIAN_TIME_SPAN - 1) == [b];
    var w := [a] + [b];
    assert Times(ix, h, MEDIAN_TIME_SPAN) == w;
    assert w[1..] == [b] && [b][1..] == [];
    MedianByCounting(w, a);
    MedianByCounting(w, a + 1);
  }

  lemma Distinct(P: Params)
    requires Sample(P)
    ensures P.hash(GENESIS) != P.hash(Parent(P)) && P.hash(Parent(P)) != P.hash(Child(P))
    ensures P.hash(Child(P)) != P.hash(GENESIS)
  {
    assert GENESIS.nonce == 1 && Parent(P).nonce == 2 && Child(P).nonce == 3;
  }

  lemma ParentIsAcceptable(P: Params)
    requires Sample(P)
    ensures Linked(Initial(P, GENESIS).index) && Acceptable(P, Initial(P, GENESIS).index, Parent(P), 1000)
  {
    GenesisIsOk(P);
    BitsOfOne();
    Distinct(P);
    MedianOfOne(Initial(P, GENESIS).index, P.hash(GENESIS));
  }

  lemma ChildIsAcceptable(P: Params)
    requires Sample(P)
    ensures var ix := Initial(P, GENESIS).index;
            && Linked(ix) && Parent(P).prev in ix && Linked(WithBlock(P, ix, Parent(P)))
            && Acceptable(P, WithBlock(P, ix, Parent(P)), Child(P), 1000)
  {
    GenesisIsOk(P);
    BitsOfOne();
    Distinct(P);
    ParentIsAcceptable(P);
    var ix := Initial(P, GENESIS).index;
    AddLinked(P, ix, Parent(P));
    MedianOfTwo(WithBlock(P, ix, Parent(P)), P.hash(Parent(P)), P.hash(GENESIS));
  }
}
