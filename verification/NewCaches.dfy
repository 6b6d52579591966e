/** The laws of CacheTheorems for a cache object as its constructor leaves it. */
module NewCaches {
  import opened Geometry
  import opened CacheSets
  import opened CacheModel
  import opened FifoTheorems
  import opened CacheTheorems
  import opened RepeatedAccess
  import opened CacheObject

  lemma FreshIsEmpty(c: Cache, policy: SetPolicy, associativity: nat)
    requires c.Valid() && PolicyAccepts(policy, associativity) && c.IsFresh(policy, associativity)
    ensures Empty(c.Parameters(), c.State().sets, associativity)
  {
    NewSetIsEmpty(policy, associativity);
  }

  /** A constructed cache misses once per distinct line other than line 0, on
      every load trace that fits its ways. */
  lemma NewCacheMisses(c: Cache, policy: SetPolicy, associativity: nat, ops: seq<Op>)
    requires c.Valid() && PolicyAccepts(policy, associativity) && c.IsFresh(policy, associativity)
    requires LoadTrace(ops) && FitsWays(LinesOfTrace(c.Parameters(), ops), c.NumSets(), associativity)
    ensures AllCallable(c.Parameters(), c.State(), ops)
    ensures Run(c.Parameters(), c.State(), ops).0.counters.Misses() == |LinesOfTrace(c.Parameters(), ops) - {0}|
  {
    FreshIsEmpty(c, policy, associativity);
    CompulsoryMisses(c.Parameters(), c.State(), ops, associativity);
  }

  /** Whatever a constructed cache has been through, a flush gives it back the
      answers it had when it was new. */
  lemma FlushRestoresNew(c: Cache, policy: SetPolicy, associativity: nat, before: seq<Op>, after: seq<Op>)
    requires c.Valid() && PolicyAccepts(policy, associativity) && c.IsFresh(policy, associativity)
    requires c.NumSets() < |c.sets| && c.NumSets() < 0x8000_0000
    requires AllCallable(c.Parameters(), c.State(), before) && AllCallable(c.Parameters(), c.State(), after)
    ensures var cfg, worn := c.Parameters(), Run(c.Parameters(), c.State(), before).0;
            var flushed := Step(cfg, worn, Flush).0;
            AllCallable(cfg, flushed, after) && Run(cfg, flushed, after).1 == Run(cfg, c.State(), after).1
  {
    FreshIsEmpty(c, policy, associativity);
    FlushMakesNew(c.Parameters(), c.State(), before, c.State(), after, associativity);
  }

  /** On a constructed cache the same allocating access hits entirely the second time
      if and only if it visits no more lines than the cache has slots. */
  lemma NewCacheRepeat(c: Cache, policy: SetPolicy, associativity: nat,
                       addr: Address, size: Word32, kind: AccessType, again: AccessType)
    requires c.Valid() && PolicyAccepts(policy, associativity) && c.IsFresh(policy, associativity)
    requires Halts(c.Parameters(), addr, size) && (kind == Load || c.allocateOnStore)
    ensures var cfg := c.Parameters();
            var st1 := Step(cfg, c.State(), Access(addr, size, kind)).0;
            (Step(cfg, st1, Access(addr, size, again)).1
             <==> |Visited(cfg, addr, HighAddr(addr, size))| <= c.NumSets() * associativity)
  {
    FreshIsEmpty(c, policy, associativity);
    RepeatIff(c.Parameters(), c.State(), addr, size, kind, again, associativity);
  }

  /** Constructed alike, a direct-mapped cache and a one-way round-robin cache
      answer and count alike for ever. */
  lemma NewCachesAgree(direct: Cache, ring: Cache, maxAssociativity: nat, ops: seq<Op>)
    requires direct.Valid() && direct.IsFresh(DirectMappedSets, 1)
    requires ring.Valid() && 1 <= maxAssociativity <= 0x8000_0000 && ring.IsFresh(RoundRobinSets(maxAssociativity), 1)
    requires direct.Parameters() == ring.Parameters() && |direct.sets| == |ring.sets|
    requires AllCallable(direct.Parameters(), direct.State(), ops)
    ensures AllCallable(ring.Parameters(), ring.State(), ops)
    ensures var cfg := direct.Parameters();
            var (d, r) := (Run(cfg, direct.State(), ops), Run(cfg, ring.State(), ops));
            d.1 == r.1 && d.0.counters == r.0.counters
  {
    DirectMappedIsOneWay(direct.Parameters(), direct.State(), ring.State(), ops);
  }
}
