/** The simple cache that the simulator refines: one bounded FIFO queue per set,
    driven by single line visits. */
module FifoCache {
  import opened Bits
  import opened Geometry
  import opened CacheSets
  import opened CacheModel

  /** One queue per set, oldest entry first. */
  type Queues = seq<seq<Address>>

  ghost predicate Ok(c: Queues) {
    |c| >= 1 && forall i :: 0 <= i < |c| ==> |c[i]| >= 1
  }

  datatype Event = Visit(tag: Address, allocate: bool) | Clear

  /** One event on the bounded queue of CacheSets: a visit looks its line up and,
      on an allocating miss, enters it. */
  ghost function StepQueue(q: seq<Address>, e: Event): (r: (seq<Address>, bool))
    requires |q| >= 1
    ensures |r.0| == |q|
  {
    match e
    case Clear => StepFifo(q, FlushOp)
    case Visit(t, allocate) =>
      if StepFifo(q, FindOp(t)).1 then (q, true)
      else (if allocate then StepFifo(q, ReplaceOp(t)).0 else q, false)
  }

  ghost function RunQueue(q: seq<Address>, es: seq<Event>): (r: seq<Address>)
    requires |q| >= 1
    ensures |r| == |q|
    decreases |es|
  {
    if es == [] then q else RunQueue(StepQueue(q, es[0]).0, es[1..])
  }

  ghost function StepEvent(c: Queues, e: Event): (r: (Queues, bool))
    requires Ok(c)
    ensures Ok(r.0) && |r.0| == |c| && forall i :: 0 <= i < |c| ==> |r.0[i]| == |c[i]|
  {
    match e
    case Clear => (seq(|c|, i requires 0 <= i < |c| => Zeros(|c[i]|)), true)
    case Visit(t, _) =>
      var i := t % |c|;
      (c[i := StepQueue(c[i], e).0], StepQueue(c[i], e).1)
  }

  /** The final queues, and whether every visit of the sequence hit. */
  ghost function RunEvents(c: Queues, es: seq<Event>): (r: (Queues, bool))
    requires Ok(c)
    ensures Ok(r.0) && |r.0| == |c| && forall i :: 0 <= i < |c| ==> |r.0[i]| == |c[i]|
    decreases |es|
  {
    if es == [] then (c, true)
    else
      var (c1, hit) := StepEvent(c, es[0]);
      var (c2, hits) := RunEvents(c1, es[1..]);
      (c2, hit && hits)
  }

  lemma {:induction false} RunEventsConcat(c: Queues, es: seq<Event>, fs: seq<Event>)
    requires Ok(c)
    ensures var m := RunEvents(c, es); var f := RunEvents(m.0, fs);
            RunEvents(c, es + fs) == (f.0, m.1 && f.1)
    decreases |es|
  {
    if es == [] {
      assert es + fs == fs;
    } else {
      assert (es + fs)[1..] == es[1..] + fs;
      RunEventsConcat(StepEvent(c, es[0]).0, es[1..], fs);
    }
  }

  ghost function Visits(tags: seq<Address>, allocate: bool): (es: seq<Event>)
    ensures |es| == |tags| && forall i :: 0 <= i < |es| ==> es[i] == Visit(tags[i], allocate)
  {
    seq(|tags|, i requires 0 <= i < |tags| => Visit(tags[i], allocate))
  }

  /** The line visits that make up one public operation. */
  ghost function EventsOf(cfg: Config, op: Op): seq<Event>
    requires cfg.Valid() && (op.Access? ==> Halts(cfg, op.addr, op.size))
  {
    match op
    case Access(addr, size, kind) => Visits(Visited(cfg, addr, HighAddr(addr, size)), cfg.Allocates(kind))
    case AccessSingleLine(addr, kind) => [Visit(TagOf(cfg.lineShift, addr), cfg.Allocates(kind))]
    case Flush => if cfg.numSets < 0x8000_0000 then [Clear] else []
    case ResetStats => []
  }

  /** A run of public operations on the queues: final queues and results. */
  ghost function RunFifoOps(cfg: Config, c: Queues, ops: seq<Op>): (r: (Queues, seq<bool>))
    requires cfg.Valid() && Ok(c)
    requires forall i :: 0 <= i < |ops| && ops[i].Access? ==> Halts(cfg, ops[i].addr, ops[i].size)
    ensures Ok(r.0) && |r.1| == |ops|
    decreases |ops|
  {
    if ops == [] then (c, [])
    else
      var (c1, hit) := RunEvents(c, EventsOf(cfg, ops[0]));
      var (c2, hits) := RunFifoOps(cfg, c1, ops[1..]);
      (c2, [hit] + hits)
  }

  /** The queues that the set objects in use stand for. */
  ghost function QueuesOf(cfg: Config, sets: seq<SetState>): (c: Queues)
    requires cfg.Valid() && SetsOk(cfg, sets)
    ensures |c| == cfg.numSets && Ok(c)
    ensures forall i :: 0 <= i < |c| ==> c[i] == sets[i].Queue()
  {
    seq(cfg.numSets, i requires 0 <= i < cfg.numSets => sets[i].Queue())
  }

  lemma TouchRefines(cfg: Config, sets: seq<SetState>, t: Address, allocate: bool)
    requires cfg.Valid() && SetsOk(cfg, sets)
    ensures var (sets', hit) := Touch(cfg, sets, t, allocate);
            StepEvent(QueuesOf(cfg, sets), Visit(t, allocate)) == (QueuesOf(cfg, sets'), hit)
  {
    var i := t % cfg.numSets;
    FindIsMembership(sets[i], t);
    ReplaceIsEnqueue(sets[i], t);
    var (sets', hit) := Touch(cfg, sets, t, allocate);
    assert QueuesOf(cfg, sets') == StepEvent(QueuesOf(cfg, sets), Visit(t, allocate)).0;
  }

  lemma {:induction false} TouchAllRefines(cfg: Config, sets: seq<SetState>, tags: seq<Address>, allocate: bool)
    requires cfg.Valid() && SetsOk(cfg, sets)
    ensures var (sets', hits) := TouchAll(cfg, sets, tags, allocate);
            RunEvents(QueuesOf(cfg, sets), Visits(tags, allocate)) == (QueuesOf(cfg, sets'), hits)
    decreases |tags|
  {
    if tags != [] {
      TouchRefines(cfg, sets, tags[0], allocate);
      TouchAllRefines(cfg, Touch(cfg, sets, tags[0], allocate).0, tags[1..], allocate);
      assert Visits(tags, allocate)[1..] == Visits(tags[1..], allocate);
    }
  }

  lemma FlushRefines(cfg: Config, sets: seq<SetState>)
    requires cfg.Valid() && SetsOk(cfg, sets)
    ensures RunEvents(QueuesOf(cfg, sets), EventsOf(cfg, Flush)) == (QueuesOf(cfg, FlushSets(cfg, sets)), true)
  {
    var c, d := QueuesOf(cfg, sets), QueuesOf(cfg, FlushSets(cfg, sets));
    if cfg.numSets < 0x8000_0000 {
      forall i | 0 <= i < cfg.numSets ensures d[i] == Zeros(|c[i]|) {
        FlushIsEmptyQueue(sets[i]);
      }
      assert d == StepEvent(c, Clear).0;
      assert RunEvents(c, [Clear]) == (StepEvent(c, Clear).0, true);
    } else {
      assert d == c;
    }
  }

  lemma StepRefines(cfg: Config, st: CacheState, op: Op)
    requires cfg.Valid() && SetsOk(cfg, st.sets) && Callable(cfg, st, op)
    ensures var (st', hit) := Step(cfg, st, op);
            RunEvents(QueuesOf(cfg, st.sets), EventsOf(cfg, op)) == (QueuesOf(cfg, st'.sets), hit)
  {
    match op
    case Access(addr, size, kind) =>
      TouchAllRefines(cfg, st.sets, Visited(cfg, addr, HighAddr(addr, size)), cfg.Allocates(kind));
    case AccessSingleLine(addr, kind) =>
      var e := Visit(TagOf(cfg.lineShift, addr), cfg.Allocates(kind));
      TouchRefines(cfg, st.sets, e.tag, e.allocate);
      RunOne(QueuesOf(cfg, st.sets), e);
    case Flush => FlushRefines(cfg, st.sets);
    case ResetStats =>
  }

  lemma RunOne(c: Queues, e: Event)
    requires Ok(c)
    ensures RunEvents(c, [e]) == StepEvent(c, e)
  {
  }

  lemma CallableTail(cfg: Config, st: CacheState, ops: seq<Op>)
    requires cfg.Valid() && SetsOk(cfg, st.sets) && ops != [] && AllCallable(cfg, st, ops)
    ensures Callable(cfg, st, ops[0])
    ensures AllCallable(cfg, Step(cfg, st, ops[0]).0, ops[1..])
  {
  }

  /** Every run of the simulator, with either set policy, returns what the FIFO
      cache returns and ends in sets that stand for the FIFO cache's queues. */
  lemma {:induction false} RunRefinesFifo(cfg: Config, st: CacheState, ops: seq<Op>)
    requires cfg.Valid() && SetsOk(cfg, st.sets) && AllCallable(cfg, st, ops)
    ensures forall i :: 0 <= i < |ops| && ops[i].Access? ==> Halts(cfg, ops[i].addr, ops[i].size)
    ensures var (st', results) := Run(cfg, st, ops);
            RunFifoOps(cfg, QueuesOf(cfg, st.sets), ops) == (QueuesOf(cfg, st'.sets), results)
    decreases |ops|
  {
    forall i | 0 <= i < |ops| && ops[i].Access? ensures Halts(cfg, ops[i].addr, ops[i].size) {
      assert Callable(cfg, st, ops[i]);
    }
    if ops != [] {
      CallableTail(cfg, st, ops);
      StepRefines(cfg, st, ops[0]);
      RunRefinesFifo(cfg, Step(cfg, st, ops[0]).0, ops[1..]);
    }
  }
}
