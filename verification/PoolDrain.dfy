/** Draining the orphan pool as a value: what AcceptBlockHeader adds to the index, and what it leaves waiting. */
module PoolDrain {
  import opened Types
  import opened BlockTree
  import opened Consensus
  import opened ConsensusState
  import opened OrphanPool
  import opened Steps
  import Selector = CandidateTips

  /** Offering h as a candidate on a grown index and activating. */
  ghost function ActivateOffered(P: Params, s: State, ix: Index, h: Hash): Outcome
    requires Linked(ix) && s.chain != [] && Tip(s) in ix && h in ix && s.cands <= ix.Keys
  {
    Activate(P, s.(index := ix, cands := Selector.AfterTryAdd(ix, s.cands, h)))
  }

  // ---------- draining the orphan pool ----------

  /** The checks of one header against one index, as a value. */
  ghost function Judge(P: Params, now: int): (Index, Header) -> bool
  {
    (ix: Index, header: Header) => Linked(ix) && Passes(P, ix, header, now)
  }

  /** The verdict does not change as the index grows. */
  ghost predicate Lasting(judge: (Index, Header) -> bool, ix: Index, ix2: Index)
  {
    forall header: Header {:trigger judge(ix2, header)} :: header.prev in ix ==> judge(ix2, header) == judge(ix, header)
  }

  lemma JudgeLasts(P: Params, now: int, ix: Index, ix2: Index)
    requires Linked(ix) && Linked(ix2) && Grows(ix, ix2)
    ensures Lasting(Judge(P, now), ix, ix2)
  {
    forall header: Header | header.prev in ix
      ensures Judge(P, now)(ix2, header) == Judge(P, now)(ix, header)
    {
      PassesIsStable(P, ix, ix2, header, now);
    }
  }

  /** Of the entries taken out of the pool, those that pass their checks are indexed. */
  ghost predicate Judged(judge: (Index, Header) -> bool, pool: Pool, left: Pool, ix: Index)
  {
    forall h {:trigger pool[h]} :: h in pool && h !in left ==>
      pool[h].header.prev in ix && (h in ix || !judge(ix, pool[h].header))
  }

  lemma RejectedIsJudged(P: Params, ix: Index, header: Header, now: int)
    requires Linked(ix) && header.prev in ix && AcceptError(P, ix, header, now, true).Some?
    ensures P.hash(header) in ix || !Judge(P, now)(ix, header)
  {
  }

  lemma JudgedGrows(judge: (Index, Header) -> bool, pool: Pool, left: Pool, ix: Index, ix2: Index)
    requires Lasting(judge, ix, ix2) && Grows(ix, ix2) && Judged(judge, pool, left, ix)
    ensures Judged(judge, pool, left, ix2)
  {
    forall h | h in pool && h !in left
      ensures pool[h].header.prev in ix2 && (h in ix2 || !judge(ix2, pool[h].header))
    {
      assert pool[h].header.prev in ix && (h in ix ==> h in ix2);
    }
  }

  /** One round: h leaves the pool and is offered to AcceptBlockHeader, which drains further. */
  lemma JudgedRound(judge: (Index, Header) -> bool, pool: Pool, mid: Pool, h: Hash, left: Pool, ix: Index, ix2: Index)
    requires Lasting(judge, ix, ix2) && Grows(ix, ix2) && Judged(judge, pool, mid, ix)
    requires h in mid && h in pool && mid[h] == pool[h] && pool[h].header.prev in ix
    requires forall g {:trigger mid[g]} :: g in mid ==> g in pool && mid[g] == pool[g]
    requires h in ix2 || !judge(ix, pool[h].header)
    requires Judged(judge, mid - {h}, left, ix2)
    ensures Judged(judge, pool, left, ix2)
  {
    JudgedGrows(judge, pool, mid, ix, ix2);
    forall g | g in pool && g !in left
      ensures pool[g].header.prev in ix2 && (g in ix2 || !judge(ix2, pool[g].header))
    {
      if g == h {
        assert pool[h].header.prev in ix;
      } else if g in mid {
        assert (mid - {h})[g] == pool[g];
      }
    }
  }

  /** The drain of `pool` has dealt with the entries `gone`, and the index has grown from ix to `now`. */
  ghost predicate Draining(step: (Index, Header) -> Option<Index>, judge: (Index, Header) -> bool,
                           hash: Header -> Hash, ix: Index, pool: Pool, gone: set<Hash>, added: seq<Header>,
                           ix2: Index, left: Pool)
  {
    && Grows(ix, ix2) && Leads(step, ix, added, ix2)
    && left == StillWaiting(pool - gone, ix, ix2) && Judged(judge, pool, left, ix2)
    && |added| + |left| <= |pool| && AllPooled(hash, pool, added)
  }

  lemma MorePooled(hash: Header -> Hash, waiting: Pool, h: Hash, header: Header, more: seq<Header>)
    requires h in waiting && waiting[h].header == header && hash(header) == h
    requires more != [] ==> more[0] == header && AllPooled(hash, waiting - {h}, more[1..])
    ensures AllPooled(hash, waiting, more)
  {
    forall i {:trigger more[i]} | 0 <= i < |more|
      ensures hash(more[i]) in waiting && waiting[hash(more[i])].header == more[i]
    {
      if i > 0 {
        assert more[1..][i - 1] == more[i];
      }
    }
  }

  /** What has been dealt with and what is left make up all. */
  ghost predicate Split(done: set<Hash>, todo: set<Hash>, all: set<Hash>)
  {
    done !! todo && done + todo == all
  }

  lemma SplitStep(done: set<Hash>, todo: set<Hash>, all: set<Hash>, h: Hash)
    requires Split(done, todo, all) && h in todo
    ensures Split(done + {h}, todo - {h}, all)
  {
  }

  lemma DrainingStarts(step: (Index, Header) -> Option<Index>, judge: (Index, Header) -> bool,
                       hash: Header -> Hash, ix: Index, pool: Pool)
    ensures Draining(step, judge, hash, ix, pool, {}, [], ix, pool)
  {
    NothingDrained(pool, ix);
    assert pool - {} == pool;
  }

  /** A child that has not been dealt with is still in the pool. */
  lemma ChildStillWaits(step: (Index, Header) -> Option<Index>, judge: (Index, Header) -> bool,
                        hash: Header -> Hash, ix: Index, pool: Pool, gone: set<Hash>, added: seq<Header>,
                        ix2: Index, left: Pool, h: Hash, parent: Hash)
    requires Draining(step, judge, hash, ix, pool, gone, added, ix2, left)
    requires parent in ix && h in Children(pool, parent) && h !in gone
    ensures h in left && left[h].header.prev in ix2 && |left| <= |pool|
  {
    SubPoolSize(left, pool);
  }

  lemma DrainingRound(step: (Index, Header) -> Option<Index>, judge: (Index, Header) -> bool,
                      hash: Header -> Hash, ix: Index, pool: Pool, gone: set<Hash>, added: seq<Header>,
                      mid: Index, waiting: Pool, h: Hash, more: seq<Header>, ix2: Index, left: Pool)
    requires Draining(step, judge, hash, ix, pool, gone, added, mid, waiting)
    requires h in waiting && waiting[h].header.prev in mid
    requires Grows(mid, ix2) && Leads(step, mid, more, ix2) && left == StillWaiting(waiting - {h}, mid, ix2)
    requires Judged(judge, waiting - {h}, left, ix2) && Lasting(judge, mid, ix2)
    requires h in ix2 || !judge(mid, waiting[h].header)
    requires |more| + |left| <= 1 + |waiting - {h}| && AllPooled(hash, waiting, more)
    ensures Draining(step, judge, hash, ix, pool, gone + {h}, added + more, ix2, left)
  {
    LeadsAppend(step, ix, added, mid, more, ix2);
    GrowsTransitive(ix, mid, ix2);
    DrainStep(pool, ix, mid, ix2, gone, h);
    JudgedRound(judge, pool, waiting, h, left, mid, ix2);
    SizeWithout(waiting, h);
    PooledGrows(hash, waiting, pool, more);
    PooledAppend(hash, pool, added, more);
  }

  lemma GrowsTransitive(a: Index, b: Index, c: Index)
    requires Grows(a, b) && Grows(b, c)
    ensures Grows(a, c) && a.Keys <= b.Keys <= c.Keys
  {
  }

  lemma SubPoolSize(a: Pool, b: Pool)
    requires a.Keys <= b.Keys
    ensures |a| <= |b|
  {
    SubsetSize(a.Keys, b.Keys);
  }

  // ---------- growth of the index ----------

  /** Accepting one header, where the checks let it pass. */
  ghost function Adder(P: Params, now: int): (Index, Header) -> Option<Index>
  {
    (ix: Index, header: Header) =>
      if Linked(ix) && Acceptable(P, ix, header, now) then Some(WithBlock(P, ix, header)) else None
  }

  /** ix2 is ix with the given headers accepted one after the other. */
  ghost predicate Adds(P: Params, ix: Index, hs: seq<Header>, ix2: Index, now: int)
  {
    Leads(Adder(P, now), ix, hs, ix2)
  }

  ghost predicate Grows(ix: Index, ix2: Index)
  {
    forall h {:trigger h in ix} :: h in ix ==> h in ix2 && ix2[h] == ix[h]
  }

  lemma AddsOne(P: Params, ix: Index, header: Header, now: int)
    requires Linked(ix) && Acceptable(P, ix, header, now)
    ensures Adds(P, ix, [header], WithBlock(P, ix, header), now)
  {
    LeadsOne(Adder(P, now), ix, header, WithBlock(P, ix, header));
  }

  /** The checks a header passes on its own, whatever else is indexed. */
  ghost predicate Passes(P: Params, ix: Index, header: Header, now: int)
    requires Linked(ix)
  {
    && header.prev != NULL_HASH && header.prev in ix && !IsFailed(ix, header.prev)
    && P.commitmentOk(header) && P.fullOk(header) && ContextualError(P, ix, header, header.prev, now) == None
  }

  lemma PassesIsStable(P: Params, ix: Index, ix2: Index, header: Header, now: int)
    requires Linked(ix) && Linked(ix2) && Grows(ix, ix2) && header.prev in ix
    ensures Passes(P, ix, header, now) == Passes(P, ix2, header, now)
  {
    ContextualErrorExtends(P, ix, ix2, header, header.prev, now);
  }
}
