/** Median time past (include/chain/block_index.hpp:179-190) and what it guarantees along a checked chain. */
module MedianTime {
  import opened Types
  import opened BlockTree

  const MEDIAN_TIME_SPAN := 11

  /** std::sort on the filled part of the array. */
  function Sort(s: seq<nat>): (r: seq<nat>)
    ensures |r| == |s|
  {
    if s == [] then [] else Insert(s[0], Sort(s[1..]))
  }

  function Insert(x: nat, s: seq<nat>): (r: seq<nat>)
    ensures |r| == |s| + 1
  {
    if s == [] || x <= s[0] then [x] + s else [s[0]] + Insert(x, s[1..])
  }

  function Median(s: seq<nat>): nat
    requires s != []
  {
    Sort(s)[|s| / 2]
  }

  /** The times of h and of up to n - 1 blocks before it, latest block first. */
  ghost function Times(ix: Index, h: Hash, n: nat): (s: seq<nat>)
    requires Linked(ix) && h in ix
    ensures |s| == Min(n, ix[h].height + 1)
    decreases ix[h].height
  {
    assert LinkedAt(ix, h);
    if n == 0 then []
    else if ix[h].prev.None? then [ix[h].header.time]
    else [ix[h].header.time] + Times(ix, ix[h].prev.value, n - 1)
  }

  ghost function MedianTimePast(ix: Index, h: Hash): nat
    requires Linked(ix) && h in ix
  {
    Median(Times(ix, h, MEDIAN_TIME_SPAN))
  }

  /** CBlockIndex::GetMedianTimePast: fill from the end of the array, sort, take the middle. */
  method GetMedianTimePast(ix: Index, start: Hash) returns (m: nat)
    requires Linked(ix) && start in ix
    ensures m == MedianTimePast(ix, start)
  {
    var filled := FillTimes(ix, start, MEDIAN_TIME_SPAN);
    SortBackwards(filled);
    m := Sort(filled)[|filled| / 2];
  }

  method FillTimes(ix: Index, start: Hash, span: nat) returns (filled: seq<nat>)
    requires Linked(ix) && start in ix && span > 0
    ensures filled != [] && Backwards(filled) == Times(ix, start, span)
  {
    filled := [];
    var p, i := Some(start), 0;
    while i < span && p.Some?
      invariant 0 <= i <= span && (p.Some? ==> p.value in ix) && (i > 0 ==> filled != [])
      invariant Times(ix, start, span) == Backwards(filled) + TimesFrom(ix, p, span - i)
    {
      assert LinkedAt(ix, p.value);
      var t := ix[p.value].header.time;
      BackwardsOnto(t, filled);
      MoveAcross(Backwards(filled), t, TimesFrom(ix, ix[p.value].prev, span - i - 1));
      filled := [t] + filled;
      p := ix[p.value].prev;
      i := i + 1;
    }
  }

  ghost function TimesFrom(ix: Index, p: Option<Hash>, n: nat): seq<nat>
    requires Linked(ix) && (p.Some? ==> p.value in ix)
  {
    if p.None? then [] else Times(ix, p.value, n)
  }

  function Backwards(s: seq<nat>): (r: seq<nat>)
    ensures |r| == |s|
  {
    if s == [] then [] else Backwards(s[1..]) + [s[0]]
  }

  lemma BackwardsOnto(x: nat, s: seq<nat>)
    ensures Backwards([x] + s) == Backwards(s) + [x]
  {
    assert ([x] + s)[1..] == s;
  }

  /** How many elements are at least v. */
  function CountGE(s: seq<nat>, v: nat): (n: nat)
    ensures n <= |s|
  {
    if s == [] then 0 else (if s[0] >= v then 1 else 0) + CountGE(s[1..], v)
  }

  lemma {:induction false} CountAppend(a: seq<nat>, b: seq<nat>, v: nat)
    ensures CountGE(a + b, v) == CountGE(a, v) + CountGE(b, v)
  {
    if a == [] {
      assert a + b == b;
    } else {
      assert (a + b)[1..] == a[1..] + b;
      CountAppend(a[1..], b, v);
    }
  }

  predicate Ascending(s: seq<nat>)
  {
    |s| <= 1 || (s[0] <= s[1] && Ascending(s[1..]))
  }

  lemma {:induction false} InsertSorts(x: nat, s: seq<nat>, v: nat)
    requires Ascending(s)
    ensures Ascending(Insert(x, s)) && CountGE(Insert(x, s), v) == CountGE(s, v) + (if x >= v then 1 else 0)
    ensures s != [] ==> Insert(x, s)[0] == if x <= s[0] then x else s[0]
  {
    if s == [] || x <= s[0] {
      assert ([x] + s)[1..] == s;
    } else {
      InsertSorts(x, s[1..], v);
      assert ([s[0]] + Insert(x, s[1..]))[1..] == Insert(x, s[1..]);
    }
  }

  lemma {:induction false} SortSorts(s: seq<nat>, v: nat)
    ensures Ascending(Sort(s)) && CountGE(Sort(s), v) == CountGE(s, v)
  {
    if s != [] {
      SortSorts(s[1..], v);
      InsertSorts(s[0], Sort(s[1..]), v);
    }
  }

  lemma {:induction false} AscendingFrom(s: seq<nat>, v: nat)
    requires Ascending(s) && s != [] && s[0] >= v
    ensures CountGE(s, v) == |s|
  {
    if |s| > 1 {
      AscendingFrom(s[1..], v);
    }
  }

  lemma {:induction false} RankInSorted(s: seq<nat>, v: nat, i: nat)
    requires Ascending(s) && i < |s|
    ensures s[i] >= v <==> CountGE(s, v) >= |s| - i
  {
    if s[0] >= v {
      AscendingFrom(s, v);
      ElementAtLeastFirst(s, i);
    } else if i > 0 {
      RankInSorted(s[1..], v, i - 1);
    }
  }

  lemma {:induction false} ElementAtLeastFirst(s: seq<nat>, i: nat)
    requires Ascending(s) && i < |s|
    ensures s[0] <= s[i]
  {
    if i > 0 {
      ElementAtLeastFirst(s[1..], i - 1);
    }
  }

  /** What the sorted middle means without sorting: the median is at least v exactly when enough elements are. */
  lemma {:induction false} MedianByCounting(s: seq<nat>, v: nat)
    requires s != []
    ensures Median(s) >= v <==> CountGE(s, v) >= |s| - |s| / 2
  {
    SortSorts(s, v);
    RankInSorted(Sort(s), v, |s| / 2);
  }

  /** Sorting forgets the order in which the array was filled. */
  lemma SortBackwards(s: seq<nat>)
    requires s != []
    ensures Median(Backwards(s)) == Median(s)
  {
    CountBackwards(s, Median(s));
    CountBackwards(s, Median(s) + 1);
    MedianByCounting(s, Median(s));
    MedianByCounting(s, Median(s) + 1);
    MedianByCounting(Backwards(s), Median(s));
    MedianByCounting(Backwards(s), Median(s) + 1);
  }

  lemma {:induction false} CountBackwards(s: seq<nat>, v: nat)
    ensures CountGE(Backwards(s), v) == CountGE(s, v)
  {
    if s != [] {
      CountBackwards(s[1..], v);
      CountAppend(Backwards(s[1..]), [s[0]], v);
    }
  }

  // ---------- along a chain ----------

  lemma {:induction false} TimesPrefix(ix: Index, h: Hash, n: nat)
    requires Linked(ix) && h in ix
    ensures Times(ix, h, n) == Times(ix, h, n + 1)[..|Times(ix, h, n)|]
    decreases ix[h].height
  {
    assert LinkedAt(ix, h);
    if n > 0 && ix[h].prev.Some? {
      TimesPrefix(ix, ix[h].prev.value, n - 1);
    }
  }

  /** Pushing a later time in and at most the oldest out does not lower the median. */
  lemma MedianOfPush(t: nat, w: seq<nat>, k: nat)
    requires w != [] && t >= Median(w)
    requires k == |w| || (k == |w| - 1 && |w| % 2 == 1)
    ensures Median([t] + w[..k]) >= Median(w)
  {
    var m := Median(w);
    MedianByCounting(w, m);
    MedianByCounting([t] + w[..k], m);
    assert ([t] + w[..k])[1..] == w[..k];
    assert w == w[..k] + w[k..];
    CountAppend(w[..k], w[k..], m);
  }

  /** Every block is later than the median time past of its parent: the contextual time check. */
  ghost predicate LaterThanMedian(ix: Index, h: Hash)
    requires Linked(ix) && h in ix && LinkedAt(ix, h)
  {
    ix[h].prev.Some? ==> ix[h].header.time > MedianTimePast(ix, ix[h].prev.value)
  }

  ghost predicate TimesChecked(ix: Index)
    requires Linked(ix)
  {
    forall h {:trigger LaterThanMedian(ix, h)} :: h in ix && LinkedAt(ix, h) ==> LaterThanMedian(ix, h)
  }

  /** Median time past does not decrease from a block to its child. */
  lemma MedianStep(ix: Index, h: Hash)
    requires Linked(ix) && h in ix && LinkedAt(ix, h) && ix[h].prev.Some? && LaterThanMedian(ix, h)
    ensures MedianTimePast(ix, ix[h].prev.value) <= MedianTimePast(ix, h)
  {
    var p := ix[h].prev.value;
    var w := Times(ix, p, MEDIAN_TIME_SPAN);
    TimesPrefix(ix, p, MEDIAN_TIME_SPAN - 1);
    MedianOfPush(ix[h].header.time, w, |Times(ix, p, MEDIAN_TIME_SPAN - 1)|);
  }

  /** Median time past never decreases along a chain whose blocks passed the check. */
  lemma {:induction false} MedianMonotone(ix: Index, h: Hash, k: nat)
    requires Linked(ix) && TimesChecked(ix) && h in ix && k <= ix[h].height
    ensures MedianTimePast(ix, AncestorAt(ix, h, k)) <= MedianTimePast(ix, h)
    decreases ix[h].height
  {
    if k < ix[h].height {
      assert LinkedAt(ix, h) && LaterThanMedian(ix, h);
      MedianStep(ix, h);
      MedianMonotone(ix, ix[h].prev.value, k);
    }
  }

  /** The median time past of a block at height one is that block's own time. */
  lemma MedianAtHeightOne(ix: Index, h: Hash)
    requires Linked(ix) && TimesChecked(ix) && h in ix && ix[h].height == 1
    ensures MedianTimePast(ix, h) >= ix[h].header.time
  {
    assert LinkedAt(ix, h) && LaterThanMedian(ix, h);
    var g := ix[h].prev.value;
    assert LinkedAt(ix, g);
    var w := Times(ix, h, MEDIAN_TIME_SPAN);
    assert w[1..] == Times(ix, g, MEDIAN_TIME_SPAN - 1);
    MedianByCounting(w, w[0]);
  }

  /** Every block above height one is strictly later than the block at height one below it. */
  lemma LaterThanBlockOne(ix: Index, h: Hash)
    requires Linked(ix) && TimesChecked(ix) && h in ix && ix[h].height > 1
    ensures ix[h].header.time > ix[AncestorAt(ix, h, 1)].header.time
  {
    assert LinkedAt(ix, h) && LaterThanMedian(ix, h);
    var p := ix[h].prev.value;
    MedianMonotone(ix, p, 1);
    MedianAtHeightOne(ix, AncestorAt(ix, p, 1));
  }

  /** The 32-bit unsigned subtraction that feeds ASERT. */
  function Sub32(a: nat, b: nat): nat
  {
    (a - b) % 0x1_0000_0000
  }

  /** With the anchor at height one the subtraction does not wrap. */
  lemma {:induction false} AnchorTimeNeverWraps(ix: Index, h: Hash)
    requires Linked(ix) && TimesChecked(ix) && h in ix && ix[h].height >= 1
    requires ix[h].header.time < 0x1_0000_0000
    ensures Sub32(ix[h].header.time, ix[AncestorAt(ix, h, 1)].header.time)
            == ix[h].header.time - ix[AncestorAt(ix, h, 1)].header.time
  {
    if ix[h].height > 1 {
      LaterThanBlockOne(ix, h);
    }
  }
}
