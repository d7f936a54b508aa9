/**
 The orphan pool as a value: who waits for what, per-peer counts, eviction
 (src/chain/chainstate_manager.cpp:848-1044).
 */
module OrphanPool {
  import opened Types
  import opened BlockTree

  const MAX_ORPHAN_HEADERS := 1000
  const MAX_ORPHAN_HEADERS_PER_PEER := 50

  datatype OrphanHeader = OrphanHeader(header: Header, timeReceived: int, peer: int)

  type Pool = map<Hash, OrphanHeader>

  /** The pooled headers a peer sent. */
  ghost function From(pool: Pool, peer: int): set<Hash>
  {
    set h | h in pool && pool[h].peer == peer
  }

  function CountOf(counts: map<int, int>, peer: int): int
  {
    if peer in counts then counts[peer] else 0
  }

  /** The count kept for a peer is the number of its headers in the pool; peers without any have no entry. */
  ghost predicate CountsExact(pool: Pool, counts: map<int, int>)
  {
    && (forall p {:trigger CountOf(counts, p)} :: CountOf(counts, p) == |From(pool, p)|)
    && (forall p {:trigger counts[p]} :: p in counts ==> counts[p] > 0)
  }

  ghost predicate KeyedByHash(hash: Header -> Hash, pool: Pool)
  {
    forall h {:trigger pool[h]} :: h in pool ==> hash(pool[h].header) == h
  }

  ghost predicate WithinLimits(pool: Pool, counts: map<int, int>)
  {
    && |pool| <= MAX_ORPHAN_HEADERS
    && forall p {:trigger CountOf(counts, p)} :: CountOf(counts, p) <= MAX_ORPHAN_HEADERS_PER_PEER
  }

  /** What every pool operation keeps. */
  ghost predicate PoolOk(hash: Header -> Hash, pool: Pool, counts: map<int, int>)
  {
    CountsExact(pool, counts) && KeyedByHash(hash, pool) && WithinLimits(pool, counts)
  }

  /** No pooled header's parent is indexed. */
  ghost predicate AllWaiting(ix: Index, pool: Pool)
  {
    forall h {:trigger pool[h]} :: h in pool ==> pool[h].header.prev !in ix
  }

  lemma WaitsForSameBlocks(ix: Index, ix2: Index, pool: Pool)
    requires AllWaiting(ix, pool) && ix.Keys == ix2.Keys
    ensures AllWaiting(ix2, pool)
  {
  }

  lemma EmptyPoolOk(hash: Header -> Hash, ix: Index)
    ensures PoolOk(hash, map[], map[]) && AllWaiting(ix, map[])
  {
    forall p ensures CountOf(map[], p) == |From(map[], p)| {
      assert From(map[], p) == {};
    }
  }

  // ---------- counting ----------

  /** Decrement a peer's count and drop it at zero. */
  function Decrement(counts: map<int, int>, peer: int): map<int, int>
  {
    if peer !in counts then counts
    else if counts[peer] == 1 then counts - {peer}
    else counts[peer := counts[peer] - 1]
  }

  lemma FromWithout(pool: Pool, h: Hash, p: int)
    requires h in pool
    ensures |From(pool - {h}, p)| == |From(pool, p)| - (if pool[h].peer == p then 1 else 0)
  {
    if pool[h].peer == p {
      assert From(pool, p) == From(pool - {h}, p) + {h};
    } else {
      assert From(pool, p) == From(pool - {h}, p);
    }
  }

  lemma FromWith(pool: Pool, h: Hash, o: OrphanHeader, p: int)
    requires h !in pool
    ensures |From(pool[h := o], p)| == |From(pool, p)| + (if o.peer == p then 1 else 0)
  {
    if o.peer == p {
      assert From(pool[h := o], p) == From(pool, p) + {h};
    } else {
      assert From(pool[h := o], p) == From(pool, p);
    }
  }

  /** Removing an entry and decrementing its peer keeps the counts exact. */
  lemma {:induction false} RemoveKeepsPool(hash: Header -> Hash, pool: Pool, counts: map<int, int>, h: Hash)
    requires PoolOk(hash, pool, counts) && h in pool
    ensures PoolOk(hash, pool - {h}, Decrement(counts, pool[h].peer))
    ensures |pool - {h}| == |pool| - 1
  {
    var counts' := Decrement(counts, pool[h].peer);
    SizeWithout(pool, h);
    FromWithout(pool, h, pool[h].peer);
    assert CountOf(counts, pool[h].peer) >= 1;
    forall p ensures CountOf(counts', p) == |From(pool - {h}, p)| && CountOf(counts', p) <= CountOf(counts, p) {
      FromWithout(pool, h, p);
      assert CountOf(counts, p) == |From(pool, p)|;
    }
  }

  lemma SizeWithout(pool: Pool, h: Hash)
    requires h in pool
    ensures |pool - {h}| == |pool| - 1
  {
    assert (pool - {h}).Keys == pool.Keys - {h};
  }

  /** Adding an entry within the limits and incrementing its peer keeps the pool. */
  lemma {:induction false} InsertKeepsPool(hash: Header -> Hash, pool: Pool, counts: map<int, int>, o: OrphanHeader)
    requires PoolOk(hash, pool, counts) && hash(o.header) !in pool
    requires |pool| < MAX_ORPHAN_HEADERS && CountOf(counts, o.peer) < MAX_ORPHAN_HEADERS_PER_PEER
    ensures PoolOk(hash, pool[hash(o.header) := o], counts[o.peer := CountOf(counts, o.peer) + 1])
  {
    var h := hash(o.header);
    var counts' := counts[o.peer := CountOf(counts, o.peer) + 1];
    assert pool[h := o].Keys == pool.Keys + {h};
    forall p
      ensures CountOf(counts', p) == |From(pool[h := o], p)| && CountOf(counts', p) <= MAX_ORPHAN_HEADERS_PER_PEER
    {
      FromWith(pool, h, o, p);
      assert CountOf(counts, p) == |From(pool, p)| && CountOf(counts, p) <= MAX_ORPHAN_HEADERS_PER_PEER;
    }
  }

  // ---------- draining ----------

  /** The entries whose parent is still missing after the index grew from ix to ix2. */
  ghost function StillWaiting(pool: Pool, ix: Index, ix2: Index): Pool
  {
    map h | h in pool && (pool[h].header.prev in ix || pool[h].header.prev !in ix2) :: pool[h]
  }

  ghost function Children(pool: Pool, parent: Hash): set<Hash>
  {
    set h | h in pool && pool[h].header.prev == parent
  }

  lemma NothingDrained(pool: Pool, ix: Index)
    ensures StillWaiting(pool, ix, ix) == pool
  {
  }

  /** One round of the drain: child h is taken out, then the index grows from mid to ix2. */
  lemma DrainStep(pool: Pool, ix: Index, mid: Index, ix2: Index, gone: set<Hash>, h: Hash)
    requires ix.Keys <= mid.Keys <= ix2.Keys
    ensures StillWaiting(StillWaiting(pool - gone, ix, mid) - {h}, mid, ix2) == StillWaiting(pool - (gone + {h}), ix,
                                                                                             ix2)
  {
  }

  /** Draining the children of a block just added to ix completes the drain of that block. */
  lemma DrainOfNewBlock(pool: Pool, ix: Index, added: Hash, mid: Index, ix2: Index)
    requires mid.Keys == ix.Keys + {added} && added !in ix && mid.Keys <= ix2.Keys
    ensures StillWaiting(pool - Children(pool, added), mid, ix2) == StillWaiting(pool, ix, ix2)
  {
  }

  lemma DrainedAllWaiting(pool: Pool, ix: Index, ix2: Index)
    requires AllWaiting(ix, pool)
    ensures AllWaiting(ix2, StillWaiting(pool, ix, ix2))
  {
  }

  /** Every one of the headers is pooled, under its hash. */
  ghost predicate AllPooled(hash: Header -> Hash, pool: Pool, hs: seq<Header>)
  {
    forall i {:trigger hs[i]} :: 0 <= i < |hs| ==> hash(hs[i]) in pool && pool[hash(hs[i])].header == hs[i]
  }

  lemma PooledAppend(hash: Header -> Hash, pool: Pool, a: seq<Header>, b: seq<Header>)
    requires AllPooled(hash, pool, a) && AllPooled(hash, pool, b)
    ensures AllPooled(hash, pool, a + b)
  {
  }

  lemma PooledGrows(hash: Header -> Hash, pool: Pool, pool': Pool, hs: seq<Header>)
    requires AllPooled(hash, pool, hs) && SubPool(pool, pool')
    ensures AllPooled(hash, pool', hs)
  {
    forall i {:trigger hs[i]} | 0 <= i < |hs| ensures hash(hs[i]) in pool' && pool'[hash(hs[i])].header == hs[i] {
      assert pool[hash(hs[i])] == pool'[hash(hs[i])];
    }
  }

  // ---------- eviction ----------

  ghost function ExpiredEntries(pool: Pool, now: int, expire: int): set<Hash>
  {
    set h | h in pool && now - pool[h].timeReceived > expire
  }

  /** The entry the second strategy removes: received first, and among those the smallest hash. */
  predicate IsOldest(pool: Pool, h: Hash)
  {
    && h in pool
    && forall g {:trigger pool[g]} :: g in pool ==>
         pool[h].timeReceived < pool[g].timeReceived
         || (pool[h].timeReceived == pool[g].timeReceived && h <= g)
  }

  lemma {:induction false} OldestExists(pool: Pool) returns (h: Hash)
    requires pool.Keys != {}
    ensures IsOldest(pool, h)
    decreases |pool|
  {
    var x :| x in pool.Keys;
    h := x;
    var rest := pool - {x};
    SizeWithout(pool, x);
    if rest.Keys != {} {
      var y := OldestExists(rest);
      if pool[y].timeReceived < pool[x].timeReceived
         || (pool[y].timeReceived == pool[x].timeReceived && y <= x) {
        h := y;
      }
      forall g | g in pool
        ensures pool[h].timeReceived < pool[g].timeReceived
                || (pool[h].timeReceived == pool[g].timeReceived && h <= g)
      {
        if g != x {
          assert rest[g] == pool[g];
        }
      }
    }
  }

  /** Eviction takes all expired entries, or else the oldest one of a full pool. */
  ghost predicate Evicts(pool: Pool, pool': Pool, now: int, expire: int)
  {
    var expired := ExpiredEntries(pool, now, expire);
    if expired != {} then pool' == pool - expired
    else if |pool| >= MAX_ORPHAN_HEADERS then exists h :: IsOldest(pool, h) && pool' == pool - {h}
    else pool' == pool
  }

  /** The walk over the pool has dealt with all but `todo`: what expired among them is gone. */
  ghost predicate Swept(pool: Pool, expired: set<Hash>, todo: set<Hash>, left: Pool, evicted: int)
  {
    && todo <= pool.Keys && left == pool - (expired - todo)
    && evicted == |pool| - |left| && (evicted == 0 <==> expired - todo == {}) && evicted >= 0
  }

  lemma SweptStart(pool: Pool, expired: set<Hash>)
    requires expired <= pool.Keys
    ensures Swept(pool, expired, pool.Keys, pool, 0)
  {
    assert expired - pool.Keys == {};
    assert pool - {} == pool;
  }

  lemma SweptDone(pool: Pool, expired: set<Hash>, left: Pool, evicted: int)
    requires Swept(pool, expired, {}, left, evicted)
    ensures left == pool - expired && evicted == |pool| - |left| && (evicted == 0 <==> expired == {})
  {
    assert expired - {} == expired;
  }

  lemma SweptStep(pool: Pool, expired: set<Hash>, todo: set<Hash>, left: Pool, evicted: int, h: Hash)
    requires Swept(pool, expired, todo, left, evicted) && h in todo && expired <= pool.Keys
    ensures h in left && left[h] == pool[h]
    ensures h in expired ==> Swept(pool, expired, todo - {h}, left - {h}, evicted + 1)
    ensures h !in expired ==> Swept(pool, expired, todo - {h}, left, evicted)
  {
    if h in expired {
      assert h in expired - (todo - {h});
      assert left - {h} == pool - (expired - (todo - {h}));
      SizeWithout(left, h);
    } else {
      assert expired - (todo - {h}) == expired - todo;
    }
  }

  /** A pool from which entries were removed and to which a waiting header was added still waits. */
  lemma WaitingWith(ix: Index, pool: Pool, room: Pool, h: Hash, o: OrphanHeader)
    requires AllWaiting(ix, pool) && SubPool(room, pool) && o.header.prev !in ix
    ensures AllWaiting(ix, room[h := o])
  {
    var grown := room[h := o];
    forall g {:trigger grown[g]} | g in grown ensures grown[g].header.prev !in ix {
      assert g != h ==> room[g] == pool[g];
    }
  }

  ghost predicate SubPool(a: Pool, b: Pool)
  {
    forall h {:trigger a[h]} :: h in a ==> h in b && a[h] == b[h]
  }

  /**
   What eviction amounts to: nothing expired stays; whatever goes has expired, or the pool was full and it alone
   goes, as the one received first, and of those the one with the smallest hash.
   */
  lemma EvictionMeans(pool: Pool, pool': Pool, now: int, expire: int, h: Hash)
    requires Evicts(pool, pool', now, expire) && h in pool
    ensures h in pool' ==> pool'[h] == pool[h] && now - pool[h].timeReceived <= expire
    ensures h !in pool' ==>
              || now - pool[h].timeReceived > expire
              || (&& |pool| >= 1000 && pool' == pool - {h}
                  && forall g {:trigger pool[g]} :: g in pool' ==>
                       || pool[h].timeReceived < pool[g].timeReceived
                       || (pool[h].timeReceived == pool[g].timeReceived && h < g))
  {
    assert h in ExpiredEntries(pool, now, expire) <==> now - pool[h].timeReceived > expire;
  }

  lemma EvictsShrinks(pool: Pool, pool': Pool, now: int, expire: int)
    requires Evicts(pool, pool', now, expire)
    ensures SubPool(pool', pool) && pool'.Keys <= pool.Keys
  {
  }

  lemma FromShrinks(pool: Pool, pool': Pool, p: int)
    requires SubPool(pool', pool)
    ensures |From(pool', p)| <= |From(pool, p)|
  {
    assert From(pool', p) <= From(pool, p);
    SubsetSize(From(pool', p), From(pool, p));
  }

  lemma NoneExpired(pool: Pool, now: int, expire: int)
    requires ExpiredEntries(pool, now, expire) == {}
    ensures pool - ExpiredEntries(pool, now, expire) == pool
  {
  }

  lemma EvictsOldest(pool: Pool, h: Hash, now: int, expire: int)
    requires ExpiredEntries(pool, now, expire) == {} && |pool| >= MAX_ORPHAN_HEADERS && IsOldest(pool, h)
    ensures Evicts(pool, pool - {h}, now, expire) && |pool - {h}| == |pool| - 1
  {
    SizeWithout(pool, h);
  }
}
