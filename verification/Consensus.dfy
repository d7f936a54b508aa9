/** Consensus parameters and the contextual header rules (src/chain/pow.cpp, src/chain/validation.cpp). */
module Consensus {
  import opened Types
  import opened Bits
  import opened BlockTree
  import opened MedianTime
  import opened Steps
  import Ancestry
  import Asert
  import Compact

  /**
   ConsensusParams, with the two foreign computations as functions: the header hash and
   the RandomX proof-of-work check in its two modes.
   */
  datatype Params = Params(
    hash: Header -> Hash,
    commitmentOk: Header -> bool,
    fullOk: Header -> bool,
    genesisHash: Hash,
    regtest: bool,
    powLimit: nat,
    spacing: int,
    halfLife: int,
    anchorHeight: nat,
    minimumChainWork: nat,
    expirationInterval: int,
    orphanExpireTime: int,
    suspiciousReorgDepth: int,
    antiDosWorkBufferBlocks: nat)

  /** The reject reasons of a ValidationState. */
  datatype Reason =
    | Duplicate | HighHash | BadGenesis | GenesisViaAccept | PrevBlkNotFound | BadPrevBlk
    | BadDiffBits | TimeTooOld | TimeTooNew | BadVersion | TooLittleChainwork

  const MAX_FUTURE_BLOCK_TIME := 7200

  // ---------- required difficulty ----------

  /** The bits GetNextWorkRequired asks of a block on top of prev, with the anchor found by the parent walk. */
  ghost function ExpectedBits(P: Params, ix: Index, prev: Option<Hash>): nat
    requires Linked(ix) && (prev.Some? ==> prev.value in ix)
  {
    if prev.None? || P.regtest || ix[prev.value].height < P.anchorHeight then Compact.GetCompact(P.powLimit)
    else AsertBits(P, ix[AncestorAt(ix, prev.value, P.anchorHeight)], ix[prev.value])
  }

  /** The part of GetNextWorkRequired that runs above the anchor. */
  function AsertBits(P: Params, anchor: BlockIndex, prev: BlockIndex): nat
  {
    Compact.GetCompact(
      Asert.CalculateASERT(
        Compact.SetCompact(anchor.header.bits).value, P.spacing, Sub32(prev.header.time, anchor.header.time),
        prev.height - P.anchorHeight, P.powLimit, P.halfLife))
  }

  method GetNextWorkRequired(P: Params, ix: Index, prev: Option<Hash>) returns (bits: nat)
    requires Linked(ix) && SkipSound(ix) && (prev.Some? ==> prev.value in ix)
    ensures bits == ExpectedBits(P, ix, prev)
  {
    if prev.None? || P.regtest || ix[prev.value].height < P.anchorHeight {
      return Compact.GetCompact(P.powLimit);
    }
    var anchor, _ := Ancestry.GetAncestor(ix, prev.value, P.anchorHeight);
    bits := AsertBits(P, ix[anchor.value], ix[prev.value]);
  }

  /** Every difficulty the rules ask for decodes to a target in [1, powLimit], so every accepted block adds work. */
  lemma {:induction false} ExpectedBitsUsable(P: Params, ix: Index, prev: Option<Hash>)
    requires Linked(ix) && (prev.Some? ==> prev.value in ix) && 1 <= P.powLimit < TWO_256
    ensures var t := Compact.SetCompact(ExpectedBits(P, ix, prev));
            t.Usable() && 1 <= t.value <= P.powLimit
    ensures Compact.BlockProof(ExpectedBits(P, ix, prev)) >= 1
  {
    if prev.None? || P.regtest || ix[prev.value].height < P.anchorHeight {
      Compact.CompactKeepsRange(P.powLimit, P.powLimit);
    } else {
      AsertBitsUsable(P, ix[AncestorAt(ix, prev.value, P.anchorHeight)], ix[prev.value]);
    }
    Compact.BlockProofIsFloor(ExpectedBits(P, ix, prev));
  }

  lemma AsertBitsUsable(P: Params, anchor: BlockIndex, prev: BlockIndex)
    requires 1 <= P.powLimit < TWO_256
    ensures var t := Compact.SetCompact(AsertBits(P, anchor, prev));
            t.Usable() && 1 <= t.value <= P.powLimit
  {
    var ref := Compact.SetCompact(anchor.header.bits).value;
    var dt := Sub32(prev.header.time, anchor.header.time);
    Asert.AsertInRange(ref, P.spacing, dt, prev.height - P.anchorHeight, P.powLimit, P.halfLife);
    Compact.CompactKeepsRange(
      Asert.CalculateASERT(ref, P.spacing, dt, prev.height - P.anchorHeight, P.powLimit, P.halfLife), P.powLimit);
  }

  // ---------- contextual check ----------

  /** ContextualCheckBlockHeader: None when the header passes. */
  ghost function ContextualError(P: Params, ix: Index, header: Header, prev: Hash, now: int): Option<Reason>
    requires Linked(ix) && prev in ix
  {
    if header.bits != ExpectedBits(P, ix, Some(prev)) then Some(BadDiffBits)
    else if header.time <= MedianTimePast(ix, prev) then Some(TimeTooOld)
    else if header.time > now + MAX_FUTURE_BLOCK_TIME then Some(TimeTooNew)
    else if header.version < 1 then Some(BadVersion)
    else None
  }

  method ContextualCheckBlockHeader(P: Params, ix: Index, header: Header, prev: Hash, now: int)
    returns (error: Option<Reason>)
    requires Linked(ix) && SkipSound(ix) && prev in ix
    ensures error == ContextualError(P, ix, header, prev, now)
  {
    var expected := GetNextWorkRequired(P, ix, Some(prev));
    if header.bits != expected {
      return Some(BadDiffBits);
    }
    var mtp := GetMedianTimePast(ix, prev);
    if header.time <= mtp {
      return Some(TimeTooOld);
    }
    if header.time > now + MAX_FUTURE_BLOCK_TIME {
      return Some(TimeTooNew);
    }
    error := if header.version < 1 then Some(BadVersion) else None;
  }

  /** What an accepted block has passed, as far as it does not depend on the clock. */
  ghost predicate CheckedAt(P: Params, ix: Index, h: Hash)
    requires Linked(ix) && h in ix
  {
    && LinkedAt(ix, h)
    && (ix[h].prev.Some? ==>
          && ix[h].header.bits == ExpectedBits(P, ix, ix[h].prev)
          && ix[h].header.time > MedianTimePast(ix, ix[h].prev.value)
          && ix[h].header.version >= 1)
  }

  ghost predicate Checked(P: Params, ix: Index)
    requires Linked(ix)
  {
    forall h {:trigger CheckedAt(P, ix, h)} :: h in ix ==> CheckedAt(P, ix, h)
  }

  lemma CheckedTimes(P: Params, ix: Index)
    requires Linked(ix) && Checked(P, ix)
    ensures TimesChecked(ix)
  {
    forall h | h in ix && LinkedAt(ix, h)
      ensures LaterThanMedian(ix, h)
    {
      assert CheckedAt(P, ix, h);
    }
  }

  /** Work strictly increases from a block to its child on an accepted chain. */
  lemma {:induction false} WorkStrictlyIncreases(P: Params, ix: Index, h: Hash)
    requires Tree(P.hash, P.genesisHash, ix) && Checked(P, ix) && 1 <= P.powLimit < TWO_256
    requires h in ix && ix[h].prev.Some?
    ensures LinkedAt(ix, h) && ix[ix[h].prev.value].chainWork < ix[h].chainWork
  {
    assert BuiltAt(P.hash, ix, h) && CheckedAt(P, ix, h);
    ExpectedBitsUsable(P, ix, ix[h].prev);
  }

  /** The arguments GetNextWorkRequired passes are reachable ones, when the anchor is at height one. */
  lemma {:induction false} AsertInputsReachable(P: Params, ix: Index, prev: Hash)
    requires Linked(ix) && Checked(P, ix) && prev in ix && P.anchorHeight == 1
    requires 1 <= ix[prev].height < 0x4000_0000 && ix[prev].header.time < 0x1_0000_0000
    requires 1 <= P.spacing <= P.halfLife && 2 <= P.halfLife < 0x1_0000_0000
    ensures var anchor := ix[AncestorAt(ix, prev, 1)];
            && Sub32(ix[prev].header.time, anchor.header.time) == ix[prev].header.time - anchor.header.time
            && Asert.Reachable(P.spacing, Sub32(ix[prev].header.time, anchor.header.time),
                               ix[prev].height - P.anchorHeight, P.halfLife)
  {
    CheckedTimes(P, ix);
    AnchorTimeNeverWraps(ix, prev);
  }

  /**
   What GetNextWorkRequired asks, joined from end to end: on an accepted chain with its anchor at
   height one, every width and every check in between is harmless, and the answer is the compact
   form of the clamped exponential of the schedule deviation, starting from powLimit itself.
   */
  lemma {:induction false} ExpectedBitsIsExponential(P: Params, ix: Index, prev: Hash)
    requires Linked(ix) && Checked(P, ix) && prev in ix && P.anchorHeight == 1 && !P.regtest
    requires 1 <= ix[prev].height < 0x4000_0000 && ix[prev].header.time < 0x1_0000_0000
    requires 1 <= P.spacing <= P.halfLife && 2 <= P.halfLife < 0x1_0000_0000 && 1 <= P.powLimit < TWO_256
    ensures var anchor := ix[AncestorAt(ix, prev, 1)];
            var start := Compact.SetCompact(Compact.GetCompact(P.powLimit)).value;
            var exponent := Asert.ExponentOf(
              P.spacing, ix[prev].header.time - anchor.header.time, ix[prev].height - 1, P.halfLife);
            ExpectedBits(P, ix, Some(prev)) == Compact.GetCompact(Asert.Exponential(start, exponent, P.powLimit))
  {
    var a := AncestorAt(ix, prev, 1);
    assert CheckedAt(P, ix, a) && LinkedAt(ix, a);
    AnchorAtLimit(P, ix, a);
    AsertInputsReachable(P, ix, prev);
    Asert.AsertIsClampedExponential(
      Compact.SetCompact(ix[a].header.bits).value, P.spacing, ix[prev].header.time - ix[a].header.time,
      ix[prev].height - 1, P.powLimit, P.halfLife);
  }

  /** The block at height one carries powLimit's own bits. */
  lemma AnchorAtLimit(P: Params, ix: Index, a: Hash)
    requires Linked(ix) && Checked(P, ix) && a in ix && ix[a].height == 1 && P.anchorHeight == 1
    requires 1 <= P.powLimit < TWO_256
    ensures ix[a].header.bits == Compact.GetCompact(P.powLimit)
    ensures 1 <= Compact.SetCompact(ix[a].header.bits).value <= P.powLimit
  {
    assert CheckedAt(P, ix, a) && LinkedAt(ix, a);
    Compact.CompactKeepsRange(P.powLimit, P.powLimit);
  }

  // ---------- a larger index asks the same ----------

  lemma {:induction false} TimesExtends(ix1: Index, ix2: Index, h: Hash, n: nat)
    requires Linked(ix1) && Linked(ix2) && Extends(ix1, ix2) && h in ix1
    ensures Times(ix2, h, n) == Times(ix1, h, n)
    decreases n
  {
    assert LinkedAt(ix1, h);
    if n > 0 && ix1[h].prev.Some? {
      TimesExtends(ix1, ix2, ix1[h].prev.value, n - 1);
    }
  }

  lemma ExpectedBitsExtends(P: Params, ix1: Index, ix2: Index, h: Hash)
    requires Linked(ix1) && Linked(ix2) && Extends(ix1, ix2) && h in ix1
    ensures ExpectedBits(P, ix2, Some(h)) == ExpectedBits(P, ix1, Some(h))
  {
    if P.anchorHeight <= ix1[h].height {
      AncestorExtends(ix1, ix2, h, P.anchorHeight);
    }
  }

  lemma CheckedExtends(P: Params, ix1: Index, ix2: Index, h: Hash)
    requires Linked(ix1) && Linked(ix2) && Extends(ix1, ix2) && h in ix1 && CheckedAt(P, ix1, h)
    ensures CheckedAt(P, ix2, h)
  {
    assert LinkedAt(ix2, h);
    if ix1[h].prev.Some? {
      TimesExtends(ix1, ix2, ix1[h].prev.value, MEDIAN_TIME_SPAN);
      ExpectedBitsExtends(P, ix1, ix2, ix1[h].prev.value);
    }
  }

  lemma ContextualErrorExtends(P: Params, ix1: Index, ix2: Index, header: Header, prev: Hash, now: int)
    requires Linked(ix1) && Linked(ix2) && Extends(ix1, ix2) && prev in ix1
    ensures ContextualError(P, ix2, header, prev, now) == ContextualError(P, ix1, header, prev, now)
  {
    TimesExtends(ix1, ix2, prev, MEDIAN_TIME_SPAN);
    ExpectedBitsExtends(P, ix1, ix2, prev);
  }

  // ---------- work of a batch ----------

  /** One header's contribution in CalculateHeadersWork; the increment is made in 256 bits. */
  function HeaderWork(header: Header): nat
  {
    Compact.NoTargetIsMax(header.bits);
    WorkOf(Compact.SetCompact(header.bits))
  }

  function WorkOf(t: Compact.Decoded): (work: nat)
    requires t.value < TWO_256 - 1
    ensures work == Compact.ProofOf(t)
  {
    if !t.Usable() then 0 else Compact.Quotient(TWO_256 - 1 - t.value, (t.value + 1) % TWO_256) + 1
  }

  function SumWork(headers: seq<Header>): nat
  {
    Total(HeaderWork, headers)
  }

  method CalculateHeadersWork(headers: seq<Header>) returns (total: nat)
    ensures total == SumWork(headers)
  {
    total := 0;
    for i := 0 to |headers|
      invariant total == SumWork(headers[..i])
    {
      assert headers[..i + 1][..i] == headers[..i];
      total := total + HeaderWork(headers[i]);
    }
    assert headers[..|headers|] == headers;
  }

  /** Each header hashes to what the next one names as its parent. */
  predicate Continuous(P: Params, headers: seq<Header>)
  {
    forall i {:trigger headers[i]} :: 1 <= i < |headers| ==> headers[i].prev == P.hash(headers[i - 1])
  }

  method CheckHeadersAreContinuous(P: Params, headers: seq<Header>) returns (ok: bool)
    ensures ok == Continuous(P, headers)
  {
    if headers == [] {
      return true;
    }
    var i := 1;
    while i < |headers|
      invariant 1 <= i <= |headers|
      invariant forall j {:trigger headers[j]} :: 1 <= j < i ==> headers[j].prev == P.hash(headers[j - 1])
    {
      if headers[i].prev != P.hash(headers[i - 1]) {
        return false;
      }
      i := i + 1;
    }
    ok := true;
  }

  lemma HeaderWorkIsProof(header: Header)
    ensures HeaderWork(header) == Compact.BlockProof(header.bits)
  {
    Compact.NoTargetIsMax(header.bits);
  }

  /** Header i's block has its parent's work and the header's weight. */
  ghost predicate RisesAt(hash: Header -> Hash, weight: Header -> nat, ix: Index, headers: seq<Header>, i: nat)
  {
    && i < |headers| && headers[i].prev in ix && hash(headers[i]) in ix
    && ix[hash(headers[i])].chainWork == ix[headers[i].prev].chainWork + weight(headers[i])
    && (i > 0 ==> headers[i].prev == hash(headers[i - 1]))
  }

  /** The work below header i, and at the end the work of the last header. */
  ghost function Level(hash: Header -> Hash, ix: Index, headers: seq<Header>, i: nat): int
    requires i <= |headers| && headers != [] && headers[0].prev in ix
    requires i > 0 ==> hash(headers[i - 1]) in ix
  {
    if i == 0 then ix[headers[0].prev].chainWork else ix[hash(headers[i - 1])].chainWork
  }

  lemma BatchTotal(hash: Header -> Hash, weight: Header -> nat, ix: Index, headers: seq<Header>)
    requires headers != []
    requires forall i {:trigger RisesAt(hash, weight, ix, headers, i)} :: 0 <= i < |headers| ==>
      RisesAt(hash, weight, ix, headers, i)
    ensures headers[0].prev in ix && hash(Last(headers)) in ix
    ensures ix[hash(Last(headers))].chainWork == ix[headers[0].prev].chainWork + Total(weight, headers)
  {
    assert RisesAt(hash, weight, ix, headers, 0) && RisesAt(hash, weight, ix, headers, |headers| - 1);
    forall i {:trigger headers[i]} | 0 <= i < |headers| ensures hash(headers[i]) in ix {
      assert RisesAt(hash, weight, ix, headers, i);
    }
    var levels := seq(|headers| + 1, i requires 0 <= i <= |headers| => Level(hash, ix, headers, i));
    forall i {:trigger headers[i]} | 0 <= i < |headers| ensures levels[i + 1] == levels[i] + weight(headers[i]) {
      assert RisesAt(hash, weight, ix, headers, i);
    }
    TotalOfLevels(weight, headers, levels);
  }

  /** Every header of the batch is indexed as it is, and none of them is genesis. */
  ghost predicate BatchIndexed(P: Params, ix: Index, headers: seq<Header>)
  {
    forall i {:trigger headers[i]} :: 0 <= i < |headers| ==>
      P.hash(headers[i]) in ix && ix[P.hash(headers[i])].header == headers[i] && P.hash(headers[i]) != P.genesisHash
  }

  lemma BatchRises(P: Params, ix: Index, headers: seq<Header>, i: nat)
    requires Tree(P.hash, P.genesisHash, ix) && Continuous(P, headers) && BatchIndexed(P, ix, headers) && i < |headers|
    ensures RisesAt(P.hash, HeaderWork, ix, headers, i)
  {
    assert BuiltAt(P.hash, ix, P.hash(headers[i]));
    HeaderWorkIsProof(headers[i]);
  }

  /**
   The work of the batch on top of the block it starts from is the chainwork AddToBlockIndex
   gives the last header, once the whole continuous batch is indexed.
   */
  lemma {:induction false} BatchWork(P: Params, ix: Index, headers: seq<Header>)
    requires Tree(P.hash, P.genesisHash, ix) && headers != [] && Continuous(P, headers) && BatchIndexed(P, ix, headers)
    ensures headers[0].prev in ix && P.hash(Last(headers)) in ix
    ensures ix[P.hash(Last(headers))].chainWork == ix[headers[0].prev].chainWork + SumWork(headers)
  {
    forall i | 0 <= i < |headers| ensures RisesAt(P.hash, HeaderWork, ix, headers, i) {
      BatchRises(P, ix, headers, i);
    }
    BatchTotal(P.hash, HeaderWork, ix, headers);
  }

  /** GetAntiDoSWorkThreshold; the buffer is a 256-bit product. */
  function AntiDoSWorkThreshold(P: Params, ix: Index, tip: Option<Hash>): nat
    requires tip.Some? ==> tip.value in ix
  {
    var nearTip :=
      if tip.None? then 0
      else
        var buffer := Compact.BlockProof(ix[tip.value].header.bits) * P.antiDosWorkBufferBlocks % TWO_256;
        ix[tip.value].chainWork - Min(buffer, ix[tip.value].chainWork);
    Max(nearTip, P.minimumChainWork)
  }
}
