/** The laws of the simulator itself, for every run of its public operations. */
module CacheTheorems {
  import opened Bits
  import opened Geometry
  import opened CacheSets
  import opened CacheModel
  import opened AccessLoop
  import opened FifoCache
  import opened FifoTheorems

  // ----- Access is a fold of AccessSingleLine -----

  ghost function SingleLines(cfg: Config, tags: seq<Address>, kind: AccessType): (ops: seq<Op>)
    requires cfg.Valid() && forall k :: 0 <= k < |tags| ==> tags[k] < cfg.Lines()
    ensures |ops| == |tags|
    ensures forall k :: 0 <= k < |ops| ==> ops[k] == AccessSingleLine(LineStart(cfg, tags[k]), kind)
  {
    seq(|tags|, k requires 0 <= k < |tags| => AccessSingleLine(LineStart(cfg, tags[k]), kind))
  }

  ghost function LineStart(cfg: Config, tag: nat): (a: Address)
    requires cfg.Valid() && tag < cfg.Lines()
    ensures TagOf(cfg.lineShift, a) == tag
  {
    LastLine(cfg.lineShift);
    ShlLeShr(tag, WORD64 - 1, cfg.lineShift);
    ShrShl(tag, cfg.lineShift);
    Shl(tag, cfg.lineShift)
  }

  lemma {:induction false} VisitedAreLines(cfg: Config, addr: Address, high: Address)
    requires cfg.Valid() && high <= WORD64 - cfg.LineSize()
    ensures forall k :: 0 <= k < |Visited(cfg, addr, high)| ==> Visited(cfg, addr, high)[k] < cfg.Lines()
    decreases if addr < high then high - addr else high + 1
  {
    NextLineLaw(cfg, addr);
    if cfg.NextLine(addr) < high { VisitedAreLines(cfg, cfg.NextLine(addr), high); }
  }

  ghost predicate AllTrue(bs: seq<bool>) {
    forall k :: 0 <= k < |bs| ==> bs[k]
  }

  lemma {:induction false} FoldOfSingleLines(cfg: Config, st: CacheState, tags: seq<Address>, kind: AccessType)
    requires cfg.Valid() && SetsOk(cfg, st.sets)
    requires forall k :: 0 <= k < |tags| ==> tags[k] < cfg.Lines()
    ensures AllCallable(cfg, st, SingleLines(cfg, tags, kind))
    ensures var (st', results) := Run(cfg, st, SingleLines(cfg, tags, kind));
            TouchAll(cfg, st.sets, tags, cfg.Allocates(kind)) == (st'.sets, AllTrue(results))
    decreases |tags|
  {
    var ops := SingleLines(cfg, tags, kind);
    if tags != [] {
      var (st1, hit) := Step(cfg, st, ops[0]);
      FoldOfSingleLines(cfg, st1, tags[1..], kind);
      assert ops[1..] == SingleLines(cfg, tags[1..], kind);
      CallableTail(cfg, st, ops);
      AllTrueCons(hit, Run(cfg, st1, ops[1..]).1);
      assert TouchAll(cfg, st.sets, tags, cfg.Allocates(kind)).0 == Run(cfg, st1, ops[1..]).0.sets;
    }
  }

  lemma AllTrueCons(b: bool, bs: seq<bool>)
    ensures AllTrue([b] + bs) <==> b && AllTrue(bs)
  {
    var all := [b] + bs;
    assert all[0] == b;
    forall k | 0 <= k < |bs| ensures bs[k] == all[k + 1] {
    }
  }

  /** An access over a range leaves the sets that single-line accesses to its
      visited lines, in order, would leave, and returns whether they all hit. */
  lemma AccessIsFold(cfg: Config, st: CacheState, addr: Address, size: Word32, kind: AccessType)
    requires cfg.Valid() && SetsOk(cfg, st.sets) && Halts(cfg, addr, size)
    ensures var lines := Visited(cfg, addr, HighAddr(addr, size));
            && (forall k :: 0 <= k < |lines| ==> lines[k] < cfg.Lines())
            && AllCallable(cfg, st, SingleLines(cfg, lines, kind))
            && var (st1, hit) := Step(cfg, st, Access(addr, size, kind));
               var (st2, results) := Run(cfg, st, SingleLines(cfg, lines, kind));
               st1.sets == st2.sets && hit == AllTrue(results)
  {
    var lines := Visited(cfg, addr, HighAddr(addr, size));
    VisitedAreLines(cfg, addr, HighAddr(addr, size));
    FoldOfSingleLines(cfg, st, lines, kind);
  }

  /** On a range inside one line, also one that ends at the top of the address
      space, the two entry points agree on everything. */
  lemma OneLineAccessAgrees(cfg: Config, st: CacheState, addr: Address, size: Word32, kind: AccessType)
    requires cfg.Valid() && SetsOk(cfg, st.sets) && Halts(cfg, addr, size)
    requires addr + size <= WORD64 && (size == 0 ==> addr < WORD64 - cfg.LineSize())
    requires size > 0 ==> TagOf(cfg.lineShift, addr + size - 1) == TagOf(cfg.lineShift, addr)
    ensures Step(cfg, st, Access(addr, size, kind)) == Step(cfg, st, AccessSingleLine(addr, kind))
  {
    OneLineVisited(cfg, addr, size);
    var lines := Visited(cfg, addr, HighAddr(addr, size));
    assert lines[1..] == [];
    var (sets1, hit) := Touch(cfg, st.sets, lines[0], cfg.Allocates(kind));
    assert TouchAll(cfg, sets1, lines[1..], cfg.Allocates(kind)) == (sets1, true);
  }

  lemma OneLineVisited(cfg: Config, addr: Address, size: Word32)
    requires cfg.Valid() && Halts(cfg, addr, size)
    requires addr + size <= WORD64 && (size == 0 ==> addr < WORD64 - cfg.LineSize())
    requires size > 0 ==> TagOf(cfg.lineShift, addr + size - 1) == TagOf(cfg.lineShift, addr)
    ensures Visited(cfg, addr, HighAddr(addr, size)) == [TagOf(cfg.lineShift, addr)]
  {
    InLastLine(cfg, addr);
    if addr + size == WORD64 {
      InLastLine(cfg, WORD64 - 1);
      Pow2AtMost31(cfg.lineShift);
      VisitedClosedForm(cfg, addr, 0);
    } else {
      VisitsExactlyTheRange(cfg, addr, size);
    }
  }

  // ----- Counters -----

  ghost predicate IsAccess(op: Op, kind: AccessType) {
    (op.Access? || op.AccessSingleLine?) && op.kind == kind
  }

  ghost function Calls(ops: seq<Op>, kind: AccessType): nat {
    if ops == [] then 0 else (if IsAccess(ops[0], kind) then 1 else 0) + Calls(ops[1..], kind)
  }

  /** What the counters become, from the operations and their results alone. */
  ghost function Tally(n: Counters, ops: seq<Op>, results: seq<bool>): Counters
    requires |ops| == |results|
    decreases |ops|
  {
    if ops == [] then n
    else
      var n1 := match ops[0]
        case Access(_, _, kind) => n.Record(kind, results[0])
        case AccessSingleLine(_, kind) => n.Record(kind, results[0])
        case Flush => n
        case ResetStats => Counters(0, 0, 0, 0);
      Tally(n1, ops[1..], results[1..])
  }

  lemma {:induction false} CountersAreTally(cfg: Config, st: CacheState, ops: seq<Op>)
    requires cfg.Valid() && SetsOk(cfg, st.sets) && AllCallable(cfg, st, ops)
    ensures var (st', results) := Run(cfg, st, ops); st'.counters == Tally(st.counters, ops, results)
    decreases |ops|
  {
    if ops != [] {
      CallableTail(cfg, st, ops);
      var st1 := Step(cfg, st, ops[0]).0;
      CountersAreTally(cfg, st1, ops[1..]);
      var results := Run(cfg, st, ops).1;
      assert results[1..] == Run(cfg, st1, ops[1..]).1;
    }
  }

  lemma {:induction false} TallyConserves(n: Counters, ops: seq<Op>, results: seq<bool>, kind: AccessType)
    requires |ops| == |results| && forall k :: 0 <= k < |ops| ==> !ops[k].ResetStats?
    ensures Tally(n, ops, results).Accesses(kind) == n.Accesses(kind) + Calls(ops, kind)
    decreases |ops|
  {
    if ops != [] {
      match ops[0]
      case Access(_, _, k) => TallyConserves(n.Record(k, results[0]), ops[1..], results[1..], kind);
      case AccessSingleLine(_, k) => TallyConserves(n.Record(k, results[0]), ops[1..], results[1..], kind);
      case Flush => TallyConserves(n, ops[1..], results[1..], kind);
      case ResetStats =>
    }
  }

  lemma {:induction false} TallyReset(n: Counters, before: seq<Op>, after: seq<Op>, r: seq<bool>)
    requires |r| == |before| + 1 + |after|
    ensures Tally(n, before + [ResetStats] + after, r) == Tally(Counters(0, 0, 0, 0), after, r[|before| + 1..])
    decreases |before|
  {
    var ops := before + [ResetStats] + after;
    if before == [] {
      assert ops[1..] == after;
    } else {
      assert ops[1..] == before[1..] + [ResetStats] + after;
      assert ops[0] == before[0];
      assert r[1..][|before[1..]| + 1..] == r[|before| + 1..];
      match ops[0]
      case Access(_, _, k) => TallyReset(n.Record(k, r[0]), before[1..], after, r[1..]);
      case AccessSingleLine(_, k) => TallyReset(n.Record(k, r[0]), before[1..], after, r[1..]);
      case Flush => TallyReset(n, before[1..], after, r[1..]);
      case ResetStats => TallyReset(Counters(0, 0, 0, 0), before[1..], after, r[1..]);
    }
  }

  /** In every run, hits plus misses of an access type is the number of calls of
      that type since the last reset, and likewise in total. */
  lemma Conservation(cfg: Config, st: CacheState, before: seq<Op>, after: seq<Op>, kind: AccessType)
    requires cfg.Valid() && SetsOk(cfg, st.sets) && AllCallable(cfg, st, before + [ResetStats] + after)
    requires forall k :: 0 <= k < |after| ==> !after[k].ResetStats?
    ensures var n := Run(cfg, st, before + [ResetStats] + after).0.counters;
            && n.Accesses(kind) == Calls(after, kind)
            && n.Hits() + n.Misses() == Calls(after, Load) + Calls(after, Store)
  {
    var ops := before + [ResetStats] + after;
    var r := Run(cfg, st, ops).1;
    CountersAreTally(cfg, st, ops);
    TallyReset(st.counters, before, after, r);
    forall k ensures Tally(Counters(0, 0, 0, 0), after, r[|before| + 1..]).Accesses(k) == Calls(after, k) {
      TallyConserves(Counters(0, 0, 0, 0), after, r[|before| + 1..], k);
    }
  }

  /** Without a reset the counts go on from where they were. */
  lemma ConservationWithoutReset(cfg: Config, st: CacheState, ops: seq<Op>, kind: AccessType)
    requires cfg.Valid() && SetsOk(cfg, st.sets) && AllCallable(cfg, st, ops)
    requires forall k :: 0 <= k < |ops| ==> !ops[k].ResetStats?
    ensures Run(cfg, st, ops).0.counters.Accesses(kind) == st.counters.Accesses(kind) + Calls(ops, kind)
  {
    CountersAreTally(cfg, st, ops);
    TallyConserves(st.counters, ops, Run(cfg, st, ops).1, kind);
  }

  /** How many of the calls are accesses of the type with the given result. */
  ghost function Outcomes(ops: seq<Op>, results: seq<bool>, kind: AccessType, hit: bool): nat
    requires |ops| == |results|
    decreases |ops|
  {
    if ops == [] then 0
    else (if IsAccess(ops[0], kind) && results[0] == hit then 1 else 0) + Outcomes(ops[1..], results[1..], kind, hit)
  }

  lemma {:induction false} TallyCounts(n: Counters, ops: seq<Op>, results: seq<bool>)
    requires |ops| == |results| && forall k :: 0 <= k < |ops| ==> !ops[k].ResetStats?
    ensures Tally(n, ops, results)
         == Counters(n.loadHits + Outcomes(ops, results, Load, true), n.loadMisses + Outcomes(ops, results, Load, false),
                     n.storeHits + Outcomes(ops, results, Store, true), n.storeMisses + Outcomes(ops, results, Store, false))
    decreases |ops|
  {
    if ops != [] {
      match ops[0]
      case Access(_, _, k) => TallyCounts(n.Record(k, results[0]), ops[1..], results[1..]);
      case AccessSingleLine(_, k) => TallyCounts(n.Record(k, results[0]), ops[1..], results[1..]);
      case Flush => TallyCounts(n, ops[1..], results[1..]);
      case ResetStats =>
    }
  }

  /** The hits and the misses of a type grow by the calls of that type that returned
      true and false. */
  lemma HitsAreTrueResults(cfg: Config, st: CacheState, ops: seq<Op>)
    requires cfg.Valid() && SetsOk(cfg, st.sets) && AllCallable(cfg, st, ops)
    requires forall k :: 0 <= k < |ops| ==> !ops[k].ResetStats?
    ensures var (st', r) := Run(cfg, st, ops);
            && st'.counters.loadHits == st.counters.loadHits + Outcomes(ops, r, Load, true)
            && st'.counters.loadMisses == st.counters.loadMisses + Outcomes(ops, r, Load, false)
            && st'.counters.storeHits == st.counters.storeHits + Outcomes(ops, r, Store, true)
            && st'.counters.storeMisses == st.counters.storeMisses + Outcomes(ops, r, Store, false)
            && st'.counters.Hits() - st.counters.Hits() == Outcomes(ops, r, Load, true) + Outcomes(ops, r, Store, true)
            && st'.counters.Misses() - st.counters.Misses() == Outcomes(ops, r, Load, false) + Outcomes(ops, r, Store, false)
  {
    CountersAreTally(cfg, st, ops);
    TallyCounts(st.counters, ops, Run(cfg, st, ops).1);
  }

  ghost function Number(ops: seq<Op>, what: Op): nat {
    if ops == [] then 0 else (if ops[0] == what then 1 else 0) + Number(ops[1..], what)
  }

  /** The flush and reset counts, from wherever they start, grow by the flushes and
      the resets, modulo 2^32. */
  lemma {:induction false} FlushesCounted(cfg: Config, st: CacheState, ops: seq<Op>)
    requires cfg.Valid() && SetsOk(cfg, st.sets) && AllCallable(cfg, st, ops)
    ensures Run(cfg, st, ops).0.flushes == (st.flushes + Number(ops, Flush)) % WORD32
    ensures Run(cfg, st, ops).0.resets == (st.resets + Number(ops, ResetStats)) % WORD32
    decreases |ops|
  {
    if ops == [] {
      SmallRemainder(st.flushes, WORD32);
      SmallRemainder(st.resets, WORD32);
    } else {
      CallableTail(cfg, st, ops);
      var st1 := Step(cfg, st, ops[0]).0;
      FlushesCounted(cfg, st1, ops[1..]);
      FirstStepCounts(cfg, st, ops);
      CountStep(st.flushes, st1.flushes, Number(ops[1..], Flush), if ops[0] == Flush then 1 else 0);
      CountStep(st.resets, st1.resets, Number(ops[1..], ResetStats), if ops[0] == ResetStats then 1 else 0);
    }
  }

  lemma FirstStepCounts(cfg: Config, st: CacheState, ops: seq<Op>)
    requires cfg.Valid() && SetsOk(cfg, st.sets) && ops != [] && AllCallable(cfg, st, ops)
    ensures Callable(cfg, st, ops[0])
    ensures var st1 := Step(cfg, st, ops[0]).0;
            && AllCallable(cfg, st1, ops[1..]) && Run(cfg, st, ops).0 == Run(cfg, st1, ops[1..]).0
            && st1.flushes == (if ops[0] == Flush then (st.flushes + 1) % WORD32 else st.flushes)
            && st1.resets == (if ops[0] == ResetStats then (st.resets + 1) % WORD32 else st.resets)
  {
    CallableTail(cfg, st, ops);
    StepCounts(cfg, st, ops[0]);
  }

  lemma StepCounts(cfg: Config, st: CacheState, op: Op)
    requires cfg.Valid() && SetsOk(cfg, st.sets) && Callable(cfg, st, op)
    ensures var st1 := Step(cfg, st, op).0;
            && st1.flushes == (if op == Flush then (st.flushes + 1) % WORD32 else st.flushes)
            && st1.resets == (if op == ResetStats then (st.resets + 1) % WORD32 else st.resets)
  {
  }

  lemma CountStep(a: Word32, b: Word32, more: nat, one: nat)
    requires one <= 1 && b == if one == 1 then (a + 1) % WORD32 else a
    ensures (b + more) % WORD32 == (a + (one + more)) % WORD32
  {
    if one == 1 {
      if a + 1 == WORD32 { AddModulus(more, WORD32); } else { SmallRemainder(a + 1, WORD32); }
    }
  }

  // ----- Stores -----

  /** With allocation on stores, a missing store enters its line as the youngest of
      its set. */
  lemma StoreAllocates(cfg: Config, st: CacheState, addr: Address)
    requires cfg.Valid() && SetsOk(cfg, st.sets) && cfg.allocateOnStore
    requires var t := TagOf(cfg.lineShift, addr); !st.sets[t % cfg.numSets].Find(t)
    ensures var t := TagOf(cfg.lineShift, addr);
            var (st', hit) := Step(cfg, st, AccessSingleLine(addr, Store));
            var i := t % cfg.numSets;
            && !hit && st'.sets[i].Find(t)
            && st'.sets[i].Queue() == st.sets[i].Queue()[1..] + [t]
  {
    var t := TagOf(cfg.lineShift, addr);
    var i := t % cfg.numSets;
    ReplaceIsEnqueue(st.sets[i], t);
    FindIsMembership(st.sets[i].Replace(t), t);
    var q := st.sets[i].Queue()[1..] + [t];
    assert q[|q| - 1] == t;
  }

  ghost function AsLoad(op: Op): Op {
    match op
    case Access(addr, size, _) => Access(addr, size, Load)
    case AccessSingleLine(addr, _) => AccessSingleLine(addr, Load)
    case Flush => Flush
    case ResetStats => ResetStats
  }

  ghost function AsLoads(ops: seq<Op>): (r: seq<Op>)
    ensures |r| == |ops| && forall k :: 0 <= k < |r| ==> r[k] == AsLoad(ops[k])
  {
    seq(|ops|, k requires 0 <= k < |ops| => AsLoad(ops[k]))
  }

  /** With allocation on stores, every run returns the same results and leaves the
      same sets when all its stores are loads. */
  lemma {:induction false} StoresAsLoads(cfg: Config, st: CacheState, tt: CacheState, ops: seq<Op>)
    requires cfg.Valid() && SetsOk(cfg, st.sets) && cfg.allocateOnStore && AllCallable(cfg, st, ops) && tt.sets == st.sets
    ensures AllCallable(cfg, tt, AsLoads(ops))
    ensures Run(cfg, tt, AsLoads(ops)).1 == Run(cfg, st, ops).1
    ensures Run(cfg, tt, AsLoads(ops)).0.sets == Run(cfg, st, ops).0.sets
    decreases |ops|
  {
    var loads := AsLoads(ops);
    forall k | 0 <= k < |loads| ensures Callable(cfg, tt, loads[k]) { assert Callable(cfg, st, ops[k]); }
    if ops != [] {
      CallableTail(cfg, st, ops);
      CallableTail(cfg, tt, loads);
      assert loads[1..] == AsLoads(ops[1..]);
      StoresAsLoads(cfg, Step(cfg, st, ops[0]).0, Step(cfg, tt, loads[0]).0, ops[1..]);
    }
  }

  /** Under no-allocate, stores change no set, whether they hit or miss. */
  lemma StoresWithoutAllocation(cfg: Config, st: CacheState, op: Op)
    requires cfg.Valid() && SetsOk(cfg, st.sets) && Callable(cfg, st, op)
    requires IsAccess(op, Store) && !cfg.allocateOnStore
    ensures Step(cfg, st, op).0.sets == st.sets
  {
    if op.Access? { NoAllocationKeepsSets(cfg, st.sets, Visited(cfg, op.addr, HighAddr(op.addr, op.size))); }
  }

  lemma {:induction false} NoAllocationKeepsSets(cfg: Config, sets: seq<SetState>, tags: seq<Address>)
    requires cfg.Valid() && SetsOk(cfg, sets)
    ensures TouchAll(cfg, sets, tags, false).0 == sets
    decreases |tags|
  {
    if tags != [] { NoAllocationKeepsSets(cfg, sets, tags[1..]); }
  }

  // ----- Two caches that stand for the same queues -----

  /** Equal queues and counters at the start: equal results, queues and counters
      after every run. */
  lemma SameQueuesSameRun(cfg: Config, st: CacheState, tt: CacheState, ops: seq<Op>)
    requires cfg.Valid() && SetsOk(cfg, st.sets) && SetsOk(cfg, tt.sets)
    requires AllCallable(cfg, st, ops) && AllCallable(cfg, tt, ops)
    requires QueuesOf(cfg, st.sets) == QueuesOf(cfg, tt.sets)
    ensures Run(cfg, st, ops).1 == Run(cfg, tt, ops).1
    ensures QueuesOf(cfg, Run(cfg, st, ops).0.sets) == QueuesOf(cfg, Run(cfg, tt, ops).0.sets)
    ensures st.counters == tt.counters ==> Run(cfg, st, ops).0.counters == Run(cfg, tt, ops).0.counters
  {
    RunRefinesFifo(cfg, st, ops);
    RunRefinesFifo(cfg, tt, ops);
    CountersAreTally(cfg, st, ops);
    CountersAreTally(cfg, tt, ops);
  }

  /** A new direct-mapped cache and a new one-way round-robin cache return the
      same results, and count the same, for every sequence of operations. */
  lemma DirectMappedIsOneWay(cfg: Config, direct: CacheState, ring: CacheState, ops: seq<Op>)
    requires cfg.Valid() && SetsOk(cfg, direct.sets) && SetsOk(cfg, ring.sets)
    requires |direct.sets| == |ring.sets| && direct.counters == ring.counters
    requires forall i :: 0 <= i < cfg.numSets ==> direct.sets[i] == DirectMapped(0)
    requires forall i :: 0 <= i < cfg.numSets ==>
      ring.sets[i].RoundRobin? && ring.sets[i].last == 0 && ring.sets[i].tags[0] == 0
    requires AllCallable(cfg, direct, ops)
    ensures AllCallable(cfg, ring, ops)
    ensures Run(cfg, direct, ops).1 == Run(cfg, ring, ops).1
    ensures Run(cfg, direct, ops).0.counters == Run(cfg, ring, ops).0.counters
  {
    forall i | 0 <= i < |ops| ensures Callable(cfg, ring, ops[i]) {
      assert Callable(cfg, direct, ops[i]);
    }
    forall i | 0 <= i < cfg.numSets ensures direct.sets[i].Queue() == ring.sets[i].Queue() {
      assert ring.sets[i].Slot(0) == 0;
    }
    assert QueuesOf(cfg, direct.sets) == QueuesOf(cfg, ring.sets);
    SameQueuesSameRun(cfg, direct, ring, ops);
  }

  // ----- Flush -----

  /** Every set in use is empty. */
  ghost predicate Empty(cfg: Config, sets: seq<SetState>, ways: nat)
    requires cfg.Valid() && SetsOk(cfg, sets)
  {
    forall i :: 0 <= i < cfg.numSets ==> sets[i].Queue() == Zeros(ways)
  }

  /** Flush empties a cache that is not empty exactly below 2^31 sets. */
  lemma FlushEmptiesIff(cfg: Config, sets: seq<SetState>, ways: nat)
    requires cfg.Valid() && SetsOk(cfg, sets) && !Empty(cfg, sets, ways)
    requires forall i :: 0 <= i < cfg.numSets ==> sets[i].Ways() == ways
    ensures Empty(cfg, FlushSets(cfg, sets), ways) <==> cfg.numSets < 0x8000_0000
  {
    forall i | 0 <= i < cfg.numSets ensures sets[i].Flush().Queue() == Zeros(ways) {
      FlushIsEmptyQueue(sets[i]);
    }
    if cfg.numSets >= 0x8000_0000 {
      assert FlushSets(cfg, sets) == sets;
    }
  }

  /** A flush below 2^31 sets clears the sets in use and the one after them, and
      keeps the others. */
  lemma FlushReach(cfg: Config, sets: seq<SetState>, i: nat)
    requires cfg.Valid() && SetsOk(cfg, sets) && cfg.numSets < 0x8000_0000 && i < |sets|
    ensures i <= cfg.numSets ==> FlushSets(cfg, sets)[i].Queue() == Zeros(sets[i].Ways())
    ensures i > cfg.numSets ==> FlushSets(cfg, sets)[i] == sets[i]
  {
    FlushIsEmptyQueue(sets[i]);
  }

  function ManySetsConfig(): Config { Config(0, 0x8000_0000, true) }

  lemma FirstLoadMisses(st: CacheState)
    requires SetsOk(ManySetsConfig(), st.sets) && st.sets[1] == DirectMapped(0)
    ensures var (st1, hit) := Step(ManySetsConfig(), st, AccessSingleLine(1, Load));
            !hit && st1.sets == st.sets[1 := DirectMapped(1)]
  {
    assert TagOf(0, 1) == 1;
  }

  lemma LoadedHits(st: CacheState)
    requires SetsOk(ManySetsConfig(), st.sets) && st.sets[1] == DirectMapped(1)
    ensures Step(ManySetsConfig(), st, AccessSingleLine(1, Load)).1
  {
    assert TagOf(0, 1) == 1;
  }

  lemma RunOfThree(cfg: Config, st: CacheState, a: Op, b: Op, c: Op)
    requires cfg.Valid() && SetsOk(cfg, st.sets) && Callable(cfg, st, a) && Callable(cfg, st, b) && Callable(cfg, st, c)
    ensures var (st1, r1) := Step(cfg, st, a);
            var (st2, r2) := Step(cfg, st1, b);
            AllCallable(cfg, st, [a, b, c]) && Run(cfg, st, [a, b, c]).1 == [r1, r2, Step(cfg, st2, c).1]
  {
    var (st1, r1) := Step(cfg, st, a);
    var (st2, r2) := Step(cfg, st1, b);
    assert [a, b, c][1..] == [b, c] && [b, c][1..] == [c] && [c][1..] == [];
    assert Run(cfg, st2, [c]).1 == [Step(cfg, st2, c).1];
    assert Run(cfg, st1, [b, c]).1 == [r2, Step(cfg, st2, c).1];
  }

  /** The constructor accepts 2^31 one-byte lines in as many sets, and there a
      loaded line survives the flush. */
  lemma FlushClearsNothing(st: CacheState)
    requires |st.sets| == 0x8000_0001 && forall i :: 0 <= i < |st.sets| ==> st.sets[i] == DirectMapped(0)
    ensures var g := ManySets(); g.Accepted() && g.NumSets() == 0x8000_0000 < g.maxSets == |st.sets|
    ensures var cfg, load := Config(0, 0x8000_0000, true), AccessSingleLine(1, Load);
            && cfg.Valid() && SetsOk(cfg, st.sets) && AllCallable(cfg, st, [load, Flush, load])
            && Run(cfg, st, [load, Flush, load]).1 == [false, true, true]
  {
    ManySetsAccepted();
    var cfg, load := ManySetsConfig(), AccessSingleLine(1, Load);
    FirstLoadMisses(st);
    var st1 := Step(cfg, st, load).0;
    var st2 := Step(cfg, st1, Flush).0;
    assert st2.sets == st1.sets;
    LoadedHits(st2);
    RunOfThree(cfg, st, load, Flush, load);
  }

  lemma {:induction false} WaysKept(cfg: Config, st: CacheState, ops: seq<Op>, i: nat)
    requires cfg.Valid() && SetsOk(cfg, st.sets) && AllCallable(cfg, st, ops) && i < cfg.numSets
    ensures Run(cfg, st, ops).0.sets[i].Ways() == st.sets[i].Ways()
    decreases |ops|
  {
    if ops != [] {
      CallableTail(cfg, st, ops);
      StepRefines(cfg, st, ops[0]);
      var st1 := Step(cfg, st, ops[0]).0;
      assert |QueuesOf(cfg, st1.sets)[i]| == |QueuesOf(cfg, st.sets)[i]|;
      WaysKept(cfg, st1, ops[1..], i);
    }
  }

  /** After any run and a flush, every further run returns what it returns on a
      new cache; the flush itself keeps the hit and miss counts. */
  lemma FlushMakesNew(cfg: Config, st: CacheState, before: seq<Op>, blank: CacheState, after: seq<Op>, ways: nat)
    requires cfg.Valid() && SetsOk(cfg, st.sets) && SetsOk(cfg, blank.sets)
    requires cfg.numSets < |st.sets| == |blank.sets| && cfg.numSets < 0x8000_0000
    requires forall i :: 0 <= i < cfg.numSets ==> st.sets[i].Ways() == ways
    requires Empty(cfg, blank.sets, ways)
    requires AllCallable(cfg, st, before) && AllCallable(cfg, blank, after)
    ensures var worn := Run(cfg, st, before).0;
            var flushed := Step(cfg, worn, Flush).0;
            && flushed.counters == worn.counters
            && AllCallable(cfg, flushed, after)
            && Run(cfg, flushed, after).1 == Run(cfg, blank, after).1
  {
    var worn := Run(cfg, st, before).0;
    var flushed := Step(cfg, worn, Flush).0;
    forall i | 0 <= i < cfg.numSets ensures flushed.sets[i].Queue() == Zeros(ways) {
      WaysKept(cfg, st, before, i);
      FlushIsEmptyQueue(worn.sets[i]);
    }
    assert QueuesOf(cfg, flushed.sets) == QueuesOf(cfg, blank.sets);
    forall i | 0 <= i < |after| ensures Callable(cfg, flushed, after[i]) {
      assert Callable(cfg, blank, after[i]);
    }
    SameQueuesSameRun(cfg, flushed, blank, after);
  }

  // ----- Whole runs as line visits -----

  ghost function AllEvents(cfg: Config, ops: seq<Op>): seq<Event>
    requires cfg.Valid()
    requires forall i :: 0 <= i < |ops| && ops[i].Access? ==> Halts(cfg, ops[i].addr, ops[i].size)
  {
    if ops == [] then [] else EventsOf(cfg, ops[0]) + AllEvents(cfg, ops[1..])
  }

  /** The sets after a run are the queues after the run's line visits, in order. */
  lemma {:induction false} RunIsVisits(cfg: Config, st: CacheState, ops: seq<Op>)
    requires cfg.Valid() && SetsOk(cfg, st.sets) && AllCallable(cfg, st, ops)
    ensures forall i :: 0 <= i < |ops| && ops[i].Access? ==> Halts(cfg, ops[i].addr, ops[i].size)
    ensures QueuesOf(cfg, Run(cfg, st, ops).0.sets) == RunEvents(QueuesOf(cfg, st.sets), AllEvents(cfg, ops)).0
    decreases |ops|
  {
    forall i | 0 <= i < |ops| && ops[i].Access? ensures Halts(cfg, ops[i].addr, ops[i].size) {
      assert Callable(cfg, st, ops[i]);
    }
    if ops != [] {
      CallableTail(cfg, st, ops);
      StepRefines(cfg, st, ops[0]);
      var st1 := Step(cfg, st, ops[0]).0;
      RunIsVisits(cfg, st1, ops[1..]);
      RunEventsConcat(QueuesOf(cfg, st.sets), EventsOf(cfg, ops[0]), AllEvents(cfg, ops[1..]));
    }
  }

  /** After any run of the simulator, each set holds what it would hold had it
      been run alone on the visits to its own lines; and when it starts placed
      (as a new cache is), every stored line sits in one slot of its own set. */
  lemma RunDecomposes(cfg: Config, st: CacheState, ops: seq<Op>, i: nat)
    requires cfg.Valid() && SetsOk(cfg, st.sets) && AllCallable(cfg, st, ops) && i < cfg.numSets
    ensures forall i :: 0 <= i < |ops| && ops[i].Access? ==> Halts(cfg, ops[i].addr, ops[i].size)
    ensures Run(cfg, st, ops).0.sets[i].Queue()
         == RunQueue(st.sets[i].Queue(), Project(AllEvents(cfg, ops), i, cfg.numSets))
    ensures Placed(QueuesOf(cfg, st.sets)) ==> Placed(QueuesOf(cfg, Run(cfg, st, ops).0.sets))
  {
    RunIsVisits(cfg, st, ops);
    TraceDecomposition(QueuesOf(cfg, st.sets), AllEvents(cfg, ops), i);
    if Placed(QueuesOf(cfg, st.sets)) {
      PlacedAlways(QueuesOf(cfg, st.sets), AllEvents(cfg, ops));
    }
  }

  lemma {:induction false} NoFlushOnlyVisits(cfg: Config, ops: seq<Op>)
    requires cfg.Valid()
    requires forall i :: 0 <= i < |ops| ==> !ops[i].Flush? && (ops[i].Access? ==> Halts(cfg, ops[i].addr, ops[i].size))
    ensures OnlyVisits(AllEvents(cfg, ops))
  {
    if ops != [] { NoFlushOnlyVisits(cfg, ops[1..]); }
  }

  /** A line loaded on a miss is found after any flush-free run that makes fewer
      than `ways` insertions into its set, and not found after one more load that
      misses in that set when exactly ways-1 have been made. */
  lemma LoadedLineLifetime(cfg: Config, st: CacheState, addr: Address, ops: seq<Op>, last: Address)
    requires cfg.Valid() && SetsOk(cfg, st.sets)
    requires forall i :: 0 <= i < |ops| ==> !ops[i].Flush? && (ops[i].Access? ==> Halts(cfg, ops[i].addr, ops[i].size))
    requires var t, u := TagOf(cfg.lineShift, addr), TagOf(cfg.lineShift, last);
             u % cfg.numSets == t % cfg.numSets && !st.sets[t % cfg.numSets].Find(t)
    ensures var (st1, hit) := Step(cfg, st, AccessSingleLine(addr, Load));
            && !hit && AllCallable(cfg, st1, ops)
            && var (t, u) := (TagOf(cfg.lineShift, addr), TagOf(cfg.lineShift, last));
               var i, end := t % cfg.numSets, Run(cfg, st1, ops).0;
               var others := Insertions(st1.sets[i].Queue(), Project(AllEvents(cfg, ops), i, cfg.numSets));
               && (others < st.sets[i].Ways() ==> end.sets[i].Find(t))
               && (others == st.sets[i].Ways() - 1 && !end.sets[i].Find(u) ==>
                   !Step(cfg, end, AccessSingleLine(last, Load)).0.sets[i].Find(t))
  {
    var t, u := TagOf(cfg.lineShift, addr), TagOf(cfg.lineShift, last);
    var c, es := QueuesOf(cfg, st.sets), AllEvents(cfg, ops);
    var i := t % cfg.numSets;
    FindIsMembership(st.sets[i], t);
    TouchRefines(cfg, st.sets, t, true);
    var st1 := Step(cfg, st, AccessSingleLine(addr, Load)).0;
    RunIsVisits(cfg, st1, ops);
    NoFlushOnlyVisits(cfg, ops);
    ExactLifetime(c, t, es, u);
    var end := Run(cfg, st1, ops).0;
    FindIsMembership(end.sets[i], t);
    FindIsMembership(end.sets[i], u);
    TouchRefines(cfg, end.sets, u, true);
    var born := QueuesOf(cfg, st1.sets);
    RunEventsConcat(born, es, [Visit(u, true)]);
    RunOne(RunEvents(born, es).0, Visit(u, true));
    FindIsMembership(Step(cfg, end, AccessSingleLine(last, Load)).0.sets[i], t);
  }

  // ----- Repeating an access -----

  /** At most NumSets() consecutive lines fall into different sets, also where
      the range wraps around the top of the address space. */
  lemma VisitedSetsDistinct(cfg: Config, addr: Address, high: Address)
    requires cfg.Valid() && IsPow2(cfg.numSets) && high <= WORD64 - cfg.LineSize()
    requires |Visited(cfg, addr, high)| <= cfg.numSets
    ensures DistinctSets(Visited(cfg, addr, high), cfg.numSets)
  {
    VisitedAt(cfg, addr, high);
    LinesMultiple(cfg);
    ConsecutiveInDistinctSets(Visited(cfg, addr, high), cfg.Lines(), cfg.numSets);
  }

  lemma ConsecutiveInDistinctSets(v: seq<Address>, lines: nat, n: nat)
    requires 1 <= n && |v| <= n && Consecutive(v, lines) && (lines - 1) % n == n - 1
    ensures DistinctSets(v, n)
  {
    forall a, b | 0 <= a < b < |v| ensures v[a] % n != v[b] % n { ResiduesApart(v, lines, n, a, b); }
  }

  /** Lines less than n apart in a range fall into different sets. */
  lemma ResiduesApart(v: seq<Address>, lines: nat, n: nat, a: nat, b: nat)
    requires 1 <= n && Consecutive(v, lines) && (lines - 1) % n == n - 1
    requires a < b < |v| && b - a < n
    ensures v[a] % n != v[b] % n
  {
    if v[0] == lines - 1 && a == 0 {
      SmallRemainder(b - 1, n);
    } else {
      NearbyRemainders(v[a], v[b], n);
    }
  }

  lemma LinesMultiple(cfg: Config)
    requires cfg.Valid() && IsPow2(cfg.numSets)
    ensures (cfg.Lines() - 1) % cfg.numSets == cfg.numSets - 1
  {
    var m: nat :| cfg.numSets == Pow2(m);
    Pow2Words();
    if m >= 32 { Pow2AtLeast(32, m); }
    Pow2Add(m, 64 - cfg.lineShift - m);
    BeforeMultiple(cfg.numSets, Pow2(64 - cfg.lineShift - m));
  }

  lemma BeforeMultiple(n: nat, q: nat)
    requires n >= 1 && q >= 1
    ensures n * q >= 1 && (n * q - 1) % n == n - 1
  {
    assert n * q == n * (q - 1) + n;
    DivideUnique(n * q - 1, n, q - 1, n - 1);
  }

  /** After an allocating access that visits at most NumSets() lines, the same
      range hits entirely and leaves the queues alone. */
  lemma RepeatedAccessHits(cfg: Config, st: CacheState, addr: Address, size: Word32, kind: AccessType, again: AccessType)
    requires cfg.Valid() && IsPow2(cfg.numSets) && SetsOk(cfg, st.sets) && Halts(cfg, addr, size)
    requires (kind == Load || cfg.allocateOnStore) && |Visited(cfg, addr, HighAddr(addr, size))| <= cfg.numSets
    ensures var st1 := Step(cfg, st, Access(addr, size, kind)).0;
            var (st2, hit) := Step(cfg, st1, Access(addr, size, again));
            hit && QueuesOf(cfg, st2.sets) == QueuesOf(cfg, st1.sets)
  {
    var lines := Visited(cfg, addr, HighAddr(addr, size));
    VisitedSetsDistinct(cfg, addr, HighAddr(addr, size));
    StepRefines(cfg, st, Access(addr, size, kind));
    var st1 := Step(cfg, st, Access(addr, size, kind)).0;
    VisitsMakeResident(QueuesOf(cfg, st.sets), lines);
    StepRefines(cfg, st1, Access(addr, size, again));
    ResidentVisitsHit(QueuesOf(cfg, st1.sets), lines, cfg.Allocates(again));
  }

  /** With one way per set the bound is exact: the repeated access hits if and
      only if it visits at most NumSets() lines. */
  lemma OneWayRepeatIff(cfg: Config, st: CacheState, addr: Address, size: Word32, kind: AccessType, again: AccessType)
    requires cfg.Valid() && IsPow2(cfg.numSets) && SetsOk(cfg, st.sets) && Halts(cfg, addr, size)
    requires (kind == Load || cfg.allocateOnStore) && forall i :: 0 <= i < cfg.numSets ==> st.sets[i].Ways() == 1
    ensures var st1 := Step(cfg, st, Access(addr, size, kind)).0;
            Step(cfg, st1, Access(addr, size, again)).1 <==> |Visited(cfg, addr, HighAddr(addr, size))| <= cfg.numSets
  {
    var lines := Visited(cfg, addr, HighAddr(addr, size));
    if |lines| <= cfg.numSets {
      RepeatedAccessHits(cfg, st, addr, size, kind, again);
    } else {
      var st1 := Step(cfg, st, Access(addr, size, kind)).0;
      StepRefines(cfg, st, Access(addr, size, kind));
      FirstLineLost(cfg, QueuesOf(cfg, st.sets), addr, HighAddr(addr, size));
      StepRefines(cfg, st1, Access(addr, size, again));
      assert Visits(lines, cfg.Allocates(again))[0] == Visit(lines[0], cfg.Allocates(again));
    }
  }

  lemma FirstLineLost(cfg: Config, c: Queues, addr: Address, high: Address)
    requires cfg.Valid() && IsPow2(cfg.numSets) && high <= WORD64 - cfg.LineSize()
    requires Ok(c) && |c| == cfg.numSets && forall i :: 0 <= i < |c| ==> |c[i]| == 1
    requires |Visited(cfg, addr, high)| > cfg.numSets
    ensures var lines := Visited(cfg, addr, high);
            lines[0] !in RunEvents(c, Visits(lines, true)).0[lines[0] % |c|]
  {
    VisitedAt(cfg, addr, high);
    LinesMultiple(cfg);
    FirstOfManyLost(c, Visited(cfg, addr, high), cfg.Lines());
  }

  lemma FirstOfManyLost(c: Queues, tags: seq<Address>, lines: nat)
    requires Ok(c) && |tags| > |c| && forall i :: 0 <= i < |c| ==> |c[i]| == 1
    requires Consecutive(tags, lines) && (lines - 1) % |c| == |c| - 1
    ensures tags[0] !in RunEvents(c, Visits(tags, true)).0[tags[0] % |c|]
  {
    var n, t: nat := |c|, tags[0];
    if t == lines - 1 {
      SmallRemainder(n - 1, n);
      TakenOverBy(c, tags, n, 0, t);
    } else {
      AddModulus(t, n);
      TakenOverBy(c, tags, n, t + 1, WORD64);
    }
  }

  /** Lines of [lo, hi), visited last, push the first line out of its set. */
  lemma TakenOverBy(c: Queues, tags: seq<Address>, k: nat, lo: nat, hi: nat)
    requires Ok(c) && 0 < k < |tags| && tags[k] % |c| == tags[0] % |c| && |c[tags[0] % |c|]| == 1
    requires (forall a :: k <= a < |tags| ==> lo <= tags[a] < hi) && !(lo <= tags[0] < hi)
    ensures tags[0] !in RunEvents(c, Visits(tags, true)).0[tags[0] % |c|]
  {
    OneWayTakenOver(c, tags, k, lo, hi);
  }

  lemma AddModulus(t: nat, n: nat)
    requires n >= 1
    ensures (t + n) % n == t % n
  {
    assert t == n * (t / n) + t % n;
    assert t + n == n * (t / n + 1) + t % n;
    DivideUnique(t + n, n, t / n + 1, t % n);
  }

  // ----- Compulsory misses -----

  ghost predicate LoadTrace(ops: seq<Op>) {
    forall k :: 0 <= k < |ops| ==> ops[k].AccessSingleLine? && ops[k].kind == Load
  }

  ghost function LinesOfTrace(cfg: Config, ops: seq<Op>): set<Address>
    requires LoadTrace(ops)
  {
    set k | 0 <= k < |ops| :: TagOf(cfg.lineShift, ops[k].addr)
  }

  ghost function TraceVisits(cfg: Config, ops: seq<Op>): (es: seq<Event>)
    requires LoadTrace(ops)
    ensures |es| == |ops|
    ensures forall k :: 0 <= k < |es| ==> es[k] == Visit(TagOf(cfg.lineShift, ops[k].addr), true)
  {
    seq(|ops|, k requires 0 <= k < |ops| => Visit(TagOf(cfg.lineShift, ops[k].addr), true))
  }

  lemma {:induction false} LoadMissesCounted(cfg: Config, st: CacheState, ops: seq<Op>)
    requires cfg.Valid() && SetsOk(cfg, st.sets) && LoadTrace(ops) && AllCallable(cfg, st, ops)
    ensures Run(cfg, st, ops).0.counters.Misses()
         == st.counters.Misses() + Misses(QueuesOf(cfg, st.sets), TraceVisits(cfg, ops))
    decreases |ops|
  {
    if ops != [] {
      CallableTail(cfg, st, ops);
      var st1 := Step(cfg, st, ops[0]).0;
      TouchRefines(cfg, st.sets, TagOf(cfg.lineShift, ops[0].addr), true);
      LoadMissesCounted(cfg, st1, ops[1..]);
      assert TraceVisits(cfg, ops)[1..] == TraceVisits(cfg, ops[1..]);
    }
  }

  /** From an empty cache, a load trace that needs no more ways than a set has
      misses exactly once per distinct line other than line 0. So its misses are
      its distinct lines if and only if it does not touch line 0. */
  lemma CompulsoryMisses(cfg: Config, st: CacheState, ops: seq<Op>, ways: nat)
    requires cfg.Valid() && SetsOk(cfg, st.sets) && Empty(cfg, st.sets, ways) && LoadTrace(ops)
    requires FitsWays(LinesOfTrace(cfg, ops), cfg.numSets, ways)
    ensures AllCallable(cfg, st, ops)
    ensures var misses, lines := Run(cfg, st, ops).0.counters.Misses() - st.counters.Misses(), LinesOfTrace(cfg, ops);
            misses == |lines - {0}| && (misses == |lines| <==> 0 !in lines)
  {
    var c, es, lines := QueuesOf(cfg, st.sets), TraceVisits(cfg, ops), LinesOfTrace(cfg, ops);
    LoadMissesCounted(cfg, st, ops);
    EmptyIsFilling(cfg, st.sets, ways);
    TraceTags(cfg, ops);
    assert {} + Tags(es) == lines;
    OnlyFirstVisitsMiss(c, ways, {}, es);
    assert Tags(es) - {} - {0} == lines - {0};
    WithoutZero(lines);
  }

  lemma EmptyIsFilling(cfg: Config, sets: seq<SetState>, ways: nat)
    requires cfg.Valid() && SetsOk(cfg, sets) && Empty(cfg, sets, ways)
    ensures Filling(QueuesOf(cfg, sets), ways, {})
  {
    var c := QueuesOf(cfg, sets);
    forall i | 0 <= i < |c| ensures FillingSet(c[i], ways, SeenIn({}, i, |c|)) {
      assert SeenIn({}, i, |c|) == {};
    }
  }

  lemma WithoutZero(lines: set<Address>)
    ensures |lines - {0}| == |lines| <==> 0 !in lines
  {
    if 0 in lines {
      assert lines == (lines - {0}) + {0};
    } else {
      assert lines - {0} == lines;
    }
  }

  /** Tag 0 stands for an empty entry: in an empty cache, accesses to line 0 hit. */
  lemma LineZeroHits(cfg: Config, st: CacheState, addr: Address, kind: AccessType, ways: nat)
    requires cfg.Valid() && SetsOk(cfg, st.sets) && Empty(cfg, st.sets, ways) && addr < cfg.LineSize()
    ensures Step(cfg, st, AccessSingleLine(addr, kind)).1
    ensures Step(cfg, st, AccessSingleLine(addr, kind)).0.sets == st.sets
  {
    LineBounds(cfg.lineShift, addr);
    var t: nat := TagOf(cfg.lineShift, addr);
    ShlIsProduct(t, cfg.lineShift);
    if t >= 1 { MulGap(cfg.LineSize(), 0, t); }
    FindIsMembership(st.sets[0], 0);
    assert st.sets[0].Queue()[0] == 0;
  }

  lemma TraceTags(cfg: Config, ops: seq<Op>)
    requires LoadTrace(ops)
    ensures Tags(TraceVisits(cfg, ops)) == LinesOfTrace(cfg, ops)
  {
  }
}
