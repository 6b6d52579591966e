/** LIFO_PTR as it is built: the queue of LifoPtr whose pops take their identifier
    from the set of IdSet, first thing, and give it back last thing. */
module LifoQueue {
  import opened Bits
  import L = LifoStack
  import P = LifoPtr
  import I = IdSet

  datatype State = State(queue: P.State, ids: I.State)

  /** A step of a thread inside GetID or ReleaseID, or one on the queue itself. */
  datatype Action = IdStep(thread: nat) | QueueStep(step: P.Action)

  /** A thread is in GetID or ReleaseID only outside the loops of a pop. Pushes and
      clears need no identifier; pops begin with the one GetID returns. */
  ghost predicate Enabled(s: State, a: Action) {
    match a
    case IdStep(t) => t in s.ids.threads && t in s.queue.threads && s.queue.threads[t].Idle?
    case QueueStep(x) =>
      && P.Enabled(s.queue, x) && !x.BeginPop?
      && (x.BeginPush? || x.BeginClear? ==> x.thread in s.ids.threads && s.ids.threads[x.thread].Idle?)
  }

  /** The step in which GetID succeeds is the one in which the pop begins. */
  ghost function Apply(s: State, a: Action): State
    requires Enabled(s, a)
  {
    match a
    case IdStep(t) =>
      var ids := I.Advance(s.ids, t);
      if s.ids.threads[t].Claim? && ids.threads[t].Holds?
      then State(P.Apply(s.queue, P.BeginPop(t, ids.threads[t].id)), ids)
      else s.(ids := ids)
    case QueueStep(x) => s.(queue := P.Apply(s.queue, x))
  }

  ghost function LabelOf(s: State, a: Action): L.Label
    requires Enabled(s, a)
  {
    match a
    case IdStep(_) => L.Internal
    case QueueStep(x) => P.LabelOf(s.queue, x)
  }

  /** A queue as it is constructed, with the identifiers 1 .. MaxID. */
  ghost predicate Start(maxId: nat, s: State) {
    P.Constructed(s.queue) && I.Start(maxId, s.ids) && s.queue.threads.Keys == s.ids.threads.Keys
  }

  // ----- Up to 32 identifiers -----

  /** Every pop in progress holds its identifier. */
  ghost predicate PopsHold(s: State) {
    && s.queue.threads.Keys == s.ids.threads.Keys
    && forall t :: t in s.queue.threads && s.queue.threads[t].Popping() ==>
         s.ids.threads[t] == I.Holds(s.queue.threads[t].id)
  }

  ghost predicate Inv(maxId: nat, s: State, stack: seq<nat>) {
    P.Inv(s.queue, stack) && I.Inv(maxId, s.ids) && PopsHold(s)
  }

  lemma IdStepLinearizes(maxId: nat, s: State, stack: seq<nat>, t: nat)
    requires 1 <= maxId <= 32 && Inv(maxId, s, stack) && Enabled(s, IdStep(t))
    ensures Inv(maxId, Apply(s, IdStep(t)), stack)
  {
    I.AdvanceInv(maxId, s.ids, t);
    if s.ids.threads[t].Claim? && I.Advance(s.ids, t).threads[t].Holds? {
      BeginPopLinearizes(maxId, s, stack, t);
    }
    IdStepKeepsPops(s, t);
  }

  lemma IdStepKeepsPops(s: State, t: nat)
    requires PopsHold(s) && Enabled(s, IdStep(t))
    ensures PopsHold(Apply(s, IdStep(t)))
  {
  }

  /** The identifier that GetID returns is fresh, because no other holder has it. */
  lemma BeginPopLinearizes(maxId: nat, s: State, stack: seq<nat>, t: nat)
    requires P.Inv(s.queue, stack) && PopsHold(s) && Enabled(s, IdStep(t)) && I.Inv(maxId, I.Advance(s.ids, t))
    requires s.ids.threads[t].Claim? && I.Advance(s.ids, t).threads[t].Holds?
    ensures P.Inv(Apply(s, IdStep(t)).queue, stack)
  {
    var ids := I.Advance(s.ids, t);
    var begin := P.BeginPop(t, ids.threads[t].id);
    forall u | u in s.queue.threads && s.queue.threads[u].Popping() ensures s.queue.threads[u].id != begin.id {
      assert ids.threads[u] == s.ids.threads[u];
    }
    P.StepLinearizes(s.queue, stack, begin);
  }

  lemma QueueStepKeepsIds(s: State, x: P.Action)
    requires PopsHold(s) && Enabled(s, QueueStep(x))
    ensures PopsHold(Apply(s, QueueStep(x)))
  {
  }

  /** Each atomic step of queue or identifier set keeps the joint invariant and
      does to the stack what its label says. */
  lemma StepLinearizes(maxId: nat, s: State, stack: seq<nat>, a: Action)
    requires 1 <= maxId <= 32 && Inv(maxId, s, stack) && Enabled(s, a)
    ensures L.Allowed(stack, LabelOf(s, a))
    ensures Inv(maxId, Apply(s, a), L.Effect(stack, LabelOf(s, a)))
  {
    match a
    case IdStep(t) => IdStepLinearizes(maxId, s, stack, t);
    case QueueStep(x) =>
      P.StepLinearizes(s.queue, stack, x);
      QueueStepKeepsIds(s, x);
  }

  ghost predicate Possible(s: State, acts: seq<Action>)
    decreases |acts|
  {
    acts == [] || (Enabled(s, acts[0]) && Possible(Apply(s, acts[0]), acts[1..]))
  }

  ghost function Execute(s: State, acts: seq<Action>): (r: (State, seq<L.Label>))
    requires Possible(s, acts)
    ensures |r.1| == |acts|
    decreases |acts|
  {
    if acts == [] then (s, [])
    else
      var rest := Execute(Apply(s, acts[0]), acts[1..]);
      (rest.0, [LabelOf(s, acts[0])] + rest.1)
  }

  /** Up to 32 identifiers every interleaving is a legal history of one atomic
      stack, which memory holds, however long any thread stalls. */
  lemma {:induction false} Linearizable(maxId: nat, s: State, stack: seq<nat>, acts: seq<Action>)
    requires 1 <= maxId <= 32 && Inv(maxId, s, stack) && Possible(s, acts)
    ensures var (s', labels) := Execute(s, acts);
            L.Legal(stack, labels) && Inv(maxId, s', L.Final(stack, labels))
    decreases |acts|
  {
    if acts != [] {
      StepLinearizes(maxId, s, stack, acts[0]);
      var l := LabelOf(s, acts[0]);
      var rest := Execute(Apply(s, acts[0]), acts[1..]).1;
      Linearizable(maxId, Apply(s, acts[0]), L.Effect(stack, l), acts[1..]);
      assert ([l] + rest)[1..] == rest;
    }
  }

  lemma StartInv(maxId: nat, s: State)
    requires 1 <= maxId <= 32 && Start(maxId, s)
    ensures Inv(maxId, s, [])
  {
    P.ConstructedOk(s.queue);
    I.StartInv(maxId, s.ids);
  }

  /** Every run of a queue constructed for MaxID is a legal history of a stack. */
  ghost predicate AlwaysLinearizable(maxId: nat) {
    forall s: State, acts: seq<Action> :: Start(maxId, s) && Possible(s, acts) ==> L.Legal([], Execute(s, acts).1)
  }

  // ----- Building runs -----

  ghost predicate Leads(start: State, acts: seq<Action>, s: State, stack: seq<nat>) {
    && Possible(start, acts)
    && var (end, labels) := Execute(start, acts);
       end == s && L.Legal([], labels) && L.Final([], labels) == stack
  }

  ghost predicate Reachable(maxId: nat, s: State, stack: seq<nat>) {
    exists start: State, acts: seq<Action> :: Start(maxId, start) && Leads(start, acts, s, stack)
  }

  lemma {:induction false} OneMore(start: State, acts: seq<Action>, a: Action)
    requires Possible(start, acts) && Enabled(Execute(start, acts).0, a)
    ensures Possible(start, acts + [a])
    ensures var (s, labels) := Execute(start, acts);
            Execute(start, acts + [a]) == (Apply(s, a), labels + [LabelOf(s, a)])
    decreases |acts|
  {
    if acts == [] {
      assert [a][1..] == [] && acts + [a] == [a];
      assert Execute(Apply(start, a), []) == (Apply(start, a), []);
      assert [] + [LabelOf(start, a)] == [LabelOf(start, a)] + [];
    } else {
      assert (acts + [a])[1..] == acts[1..] + [a];
      OneMore(Apply(start, acts[0]), acts[1..], a);
      var rest := Execute(Apply(start, acts[0]), acts[1..]).1;
      var s := Execute(start, acts).0;
      assert [LabelOf(start, acts[0])] + (rest + [LabelOf(s, a)]) == ([LabelOf(start, acts[0])] + rest) + [LabelOf(s, a)];
    }
  }

  /** One more step of a run: a legal one leads on, another refutes linearizability. */
  lemma Extend(maxId: nat, s: State, stack: seq<nat>, a: Action)
    requires Reachable(maxId, s, stack) && Enabled(s, a)
    ensures if L.Allowed(stack, LabelOf(s, a)) then Reachable(maxId, Apply(s, a), L.Effect(stack, LabelOf(s, a)))
            else !AlwaysLinearizable(maxId)
  {
    var start: State, acts: seq<Action> :| Start(maxId, start) && Leads(start, acts, s, stack);
    OneMore(start, acts, a);
    L.LegalMore([], Execute(start, acts).1, LabelOf(s, a));
    if L.Allowed(stack, LabelOf(s, a)) {
      assert Leads(start, acts + [a], Apply(s, a), L.Effect(stack, LabelOf(s, a)));
    }
  }

  ghost predicate Fine(s: State, stack: seq<nat>, a: Action) {
    Enabled(s, a) && L.Allowed(stack, LabelOf(s, a))
  }

  /** A claim about states and stacks that every legal step carries on. */
  ghost predicate CarriedOn(reached: (State, seq<nat>) -> bool) {
    forall s: State, stack: seq<nat>, a: Action {:trigger Fine(s, stack, a)} ::
      reached(s, stack) && Fine(s, stack, a) ==> reached(Apply(s, a), L.Effect(stack, LabelOf(s, a)))
  }

  lemma ReachableCarriedOn(maxId: nat)
    ensures CarriedOn((s: State, stack: seq<nat>) => Reachable(maxId, s, stack))
  {
    forall s: State, stack: seq<nat>, a: Action | Reachable(maxId, s, stack) && Fine(s, stack, a)
      ensures Reachable(maxId, Apply(s, a), L.Effect(stack, LabelOf(s, a)))
    {
      Extend(maxId, s, stack, a);
    }
  }

  // ----- Beyond 32 identifiers -----

  /** A step inside GetID or ReleaseID that does not begin a pop. */
  lemma IdThen(reached: (State, seq<nat>) -> bool, s: State, t: nat)
    requires CarriedOn(reached) && reached(s, []) && Enabled(s, IdStep(t))
    requires !I.Advance(s.ids, t).threads[t].Holds?
    ensures reached(s.(ids := I.Advance(s.ids, t)), [])
  {
    assert Apply(s, IdStep(t)) == s.(ids := I.Advance(s.ids, t));
    assert Fine(s, [], IdStep(t));
  }

  /** The step in which GetID succeeds. */
  lemma ClaimThen(reached: (State, seq<nat>) -> bool, s: State, t: nat, id: nat)
    requires CarriedOn(reached) && reached(s, []) && Enabled(s, IdStep(t))
    requires s.ids.threads[t].Claim? && I.Advance(s.ids, t).threads[t] == I.Holds(id)
    ensures reached(State(P.To(s.queue, t, P.PopStart(id)), I.Advance(s.ids, t)), [])
  {
    assert Apply(s, IdStep(t)) == State(P.To(s.queue, t, P.PopStart(id)), I.Advance(s.ids, t));
    assert Fine(s, [], IdStep(t));
  }

  ghost function Poppers(k: nat): (m: map<nat, P.Pc>)
    ensures m.Keys == I.Between(0, 34)
    ensures forall t :: t in m ==> m[t] == if t < k then P.PopStart(t + 1) else P.Idle
  {
    map t | t in I.Between(0, 34) :: if t < k then P.PopStart(t + 1) else P.Idle
  }

  ghost function EmptyQueue(threads: map<nat, P.Pc>): P.State {
    P.State(P.Word(0, 0), map[1 := 2, 2 := 0], threads, {1, 2})
  }

  /** The first k of 34 threads have begun to pop an empty queue. */
  ghost function Filled(maxId: nat, k: nat): State
    requires maxId >= 33 && k <= 32
  {
    State(EmptyQueue(Poppers(k)), I.Filled(maxId, k))
  }

  lemma TakeNext(maxId: nat, reached: (State, seq<nat>) -> bool, k: nat)
    requires maxId >= 33 && k < 32 && CarriedOn(reached) && reached(Filled(maxId, k), [])
    ensures reached(Filled(maxId, k + 1), [])
  {
    I.NextBit(maxId, k);
    GetFirst(reached, Filled(maxId, k), k, k);
    I.FilledNext(maxId, k);
    PoppersNext(k);
  }

  lemma PoppersNext(k: nat)
    requires k < 32
    ensures P.To(EmptyQueue(Poppers(k)), k, P.PopStart(k + 1)) == EmptyQueue(Poppers(k + 1))
  {
    assert Poppers(k)[k := P.PopStart(k + 1)] == Poppers(k + 1);
  }

  /** An undisturbed GetID that finds a clear bit in the first word. */
  lemma GetFirst(reached: (State, seq<nat>) -> bool, s: State, t: nat, bit: nat)
    requires CarriedOn(reached) && reached(s, []) && Enabled(s, IdStep(t)) && s.ids.threads[t].Idle?
    requires |s.ids.words| >= 1 && bit < 32 && bit !in s.ids.words[0] && forall c :: 0 <= c < bit ==> c in s.ids.words[0]
    ensures reached(State(P.To(s.queue, t, P.PopStart(bit + 1)), I.WithBit(s.ids, t, bit)), [])
  {
    IdThen(reached, s, t);
    var s1 := s.(ids := I.Advance(s.ids, t));
    IdThen(reached, s1, t);
    I.ClaimFrom(s.ids, t, bit);
    ClaimThen(reached, s1.(ids := I.Advance(s1.ids, t)), t, bit + 1);
  }

  lemma {:induction false} TakeMany(maxId: nat, reached: (State, seq<nat>) -> bool, k: nat)
    requires maxId >= 33 && k <= 32 && CarriedOn(reached) && reached(Filled(maxId, 0), [])
    ensures reached(Filled(maxId, k), [])
  {
    if k > 0 {
      TakeMany(maxId, reached, k - 1);
      TakeNext(maxId, reached, k - 1);
    }
  }

  /** The thirty-third popper is given the identifier of the fifth. */
  lemma LateComer(maxId: nat, reached: (State, seq<nat>) -> bool) returns (ids: I.State)
    requires maxId >= 33 && CarriedOn(reached) && reached(Filled(maxId, 32), [])
    ensures reached(State(EmptyQueue(Poppers(32)[32 := P.PopStart(5)]), ids), [])
    ensures 33 in ids.threads && ids.threads[33].Idle?
  {
    var s := Filled(maxId, 32);
    I.SecondWord(maxId);
    I.ClaimSecond(s.ids, 32);
    IdThen(reached, s, 32);
    var s1 := s.(ids := I.Advance(s.ids, 32));
    IdThen(reached, s1, 32);
    var s2 := s.(ids := I.Advance(s1.ids, 32));
    IdThen(reached, s2, 32);
    var s3 := s.(ids := I.Advance(s2.ids, 32));
    ClaimThen(reached, s3, 32, 5);
    ids := I.Advance(s3.ids, 32);
  }

  /** What the queue's own steps carry on while the identifiers stay as they are. */
  lemma QueueCarriedOn(reached: (State, seq<nat>) -> bool, ids: I.State, c: nat)
    requires CarriedOn(reached) && c in ids.threads && ids.threads[c].Idle?
    ensures P.CarriedOn(c, (q: P.State, stack: seq<nat>) => reached(State(q, ids), stack))
  {
    forall q: P.State, stack: seq<nat>, x: P.Action | reached(State(q, ids), stack) && P.Fine(c, q, stack, x)
      ensures reached(State(P.Apply(q, x), ids), L.Effect(stack, P.LabelOf(q, x)))
    {
      var s := State(q, ids);
      assert Fine(s, stack, QueueStep(x)) && LabelOf(s, QueueStep(x)) == P.LabelOf(q, x);
      assert Apply(s, QueueStep(x)) == State(P.Apply(q, x), ids);
    }
  }

  lemma TwoShare()
    ensures P.SharedId(EmptyQueue(Poppers(32)[32 := P.PopStart(5)]), 4, 32, 33, 5)
  {
    assert 4 in Poppers(32) && 33 in Poppers(32);
  }

  lemma SharedIdReached(maxId: nat, reached: (State, seq<nat>) -> bool) returns (s: State)
    requires maxId >= 33 && CarriedOn(reached) && reached(Filled(maxId, 0), [])
    ensures reached(s, []) && Enabled(s, QueueStep(P.Swap(33))) && !L.Allowed([], LabelOf(s, QueueStep(P.Swap(33))))
  {
    TakeMany(maxId, reached, 32);
    var ids := LateComer(maxId, reached);
    QueueCarriedOn(reached, ids, 33);
    TwoShare();
    var onQueue := (q: P.State, stack: seq<nat>) => reached(State(q, ids), stack);
    var end := P.SharedIdBreaks(onQueue, EmptyQueue(Poppers(32)[32 := P.PopStart(5)]), 4, 32, 33, 5);
    s := State(end, ids);
  }

  /** Beyond 32 identifiers a run of the queue, from its construction on, hands out
      an element that is not on the stack. */
  lemma BreaksBeyond32(maxId: nat)
    requires maxId >= 33
    ensures !AlwaysLinearizable(maxId)
  {
    I.FilledStart(maxId);
    var start := Filled(maxId, 0);
    assert Leads(start, [], start, []);
    ReachableCarriedOn(maxId);
    var s := SharedIdReached(maxId, (s: State, stack: seq<nat>) => Reachable(maxId, s, stack));
    Extend(maxId, s, [], QueueStep(P.Swap(33)));
  }

  /** The largest identifier that fits in the low bits, against the IDSET's word size. */
  lemma LargestId(lowBits: nat)
    ensures Pow2(lowBits) - 1 <= 32 <==> lowBits <= 5
  {
    assert Pow2(5) == 32;
    if lowBits < 5 { Pow2Monotone(lowBits, 5); }
    if lowBits > 5 { Pow2Monotone(5, lowBits); }
  }

  /** MaxID is 2^LowBits - 1: every run of the queue, with any number of threads and
      any stalls, is linearizable if and only if there are at most five low bits. */
  lemma LinearizableIff(lowBits: nat, maxId: nat)
    requires lowBits >= 1 && maxId == Pow2(lowBits) - 1
    ensures AlwaysLinearizable(maxId) <==> lowBits <= 5
  {
    LargestId(lowBits);
    if maxId <= 32 {
      forall s: State, acts: seq<Action> | Start(maxId, s) && Possible(s, acts) ensures L.Legal([], Execute(s, acts).1) {
        StartInv(maxId, s);
        Linearizable(maxId, s, [], acts);
      }
    } else {
      BreaksBeyond32(maxId);
    }
  }
}
