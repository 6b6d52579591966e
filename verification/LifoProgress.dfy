/** Whether LIFO_PTR is non-blocking, as its documentation says: how many steps a
    thread can take on the queue while no operation completes. */
module LifoProgress {
  import opened Bits
  import L = LifoStack
  import P = LifoPtr
  import I = IdSet
  import opened LifoQueue

  /** A part of a run in which no operation completes. */
  ghost predicate Quiet(s: State, acts: seq<Action>)
    requires Possible(s, acts)
    decreases |acts|
  {
    acts == [] || (LabelOf(s, acts[0]).Internal? && Quiet(Apply(s, acts[0]), acts[1..]))
  }

  /** A step of thread t on the queue. */
  predicate IsBy(a: Action, t: nat) {
    a.QueueStep? && !a.step.ClientWrite? && a.step.thread == t
  }

  ghost function StepsBy(acts: seq<Action>, t: nat): nat {
    if acts == [] then 0 else (if IsBy(acts[0], t) then 1 else 0) + StepsBy(acts[1..], t)
  }

  // ----- One pop at a time -----

  ghost predicate OnePop(q: P.State) {
    forall t, u :: t in q.threads && u in q.threads && q.threads[t].Popping() && q.threads[u].Popping() ==> t == u
  }

  /** No two pops are in progress at any time of the run. */
  ghost predicate Alone(s: State, acts: seq<Action>)
    requires Possible(s, acts)
    decreases |acts|
  {
    OnePop(s.queue) && (acts == [] || Alone(Apply(s, acts[0]), acts[1..]))
  }

  /** The pop has marked the head, and the head is as it left it. */
  predicate HasMark(pc: P.Pc, head: P.Word) {
    pc.Marked() && head == P.Word(pc.index, pc.id)
  }

  /** How often the head can still be marked before an operation completes. */
  ghost function MarksLeft(q: P.State): nat {
    if exists t :: t in q.threads && HasMark(q.threads[t], q.head) then 0 else 1
  }

  /** How many steps a thread has left before its swap succeeds; a mark of another
      thread can set it back by three. */
  ghost function Budget(pc: P.Pc, head: P.Word, left: nat): nat {
    match pc
    case Idle => 3 + 3 * left
    case PushStart(_) => 2 + 3 * left
    case PushLoaded(_, copy) => (if copy == head then 1 else 4) + 3 * left
    case PushLinked(_, copy) => (if copy == head then 0 else 3) + 3 * left
    case ClearStart => 1 + 3 * left
    case ClearLoaded(copy) => (if copy == head then 0 else 2) + 3 * left
    case PopStart(_) => 3
    case PopLoaded(_, copy) => if copy == head then 2 else 4
    case PopMarked(_, _) => if HasMark(pc, head) then 1 else 5
    case PopRead(_, _, _) => if HasMark(pc, head) then 0 else 4
  }

  /** The head changes in a quiet step only when the one pop marks it. */
  lemma HeadKept(s: State, a: Action)
    requires Enabled(s, a) && LabelOf(s, a).Internal? && OnePop(s.queue)
    ensures var q, q' := s.queue, Apply(s, a).queue;
            && q'.threads.Keys == q.threads.Keys
            && (q'.head == q.head || (a.QueueStep? && a.step.Mark? && MarksLeft(q) == 1))
            && (q'.head != q.head ==> MarksLeft(q') == 0)
            && MarksLeft(q') <= MarksLeft(q)
  {
    var q, q' := s.queue, Apply(s, a).queue;
    if a.QueueStep? && a.step.Mark? {
      var t := a.step.thread;
      assert q.threads[t].Popping() && !q.threads[t].Marked();
      if q'.head != q.head { assert HasMark(q'.threads[t], q'.head); }
    } else if MarksLeft(q) == 0 {
      var u :| u in q.threads && HasMark(q.threads[u], q.head);
      assert u in q'.threads && HasMark(q'.threads[u], q'.head);
    }
  }

  /** A thread's budget when some other thread moves. */
  lemma OtherStep(s: State, a: Action, t: nat)
    requires Enabled(s, a) && LabelOf(s, a).Internal? && OnePop(s.queue)
    requires t in s.queue.threads && t in Apply(s, a).queue.threads && Apply(s, a).queue.threads[t] == s.queue.threads[t]
    ensures var q, q' := s.queue, Apply(s, a).queue;
            Budget(q'.threads[t], q'.head, MarksLeft(q')) <= Budget(q.threads[t], q.head, MarksLeft(q))
  {
    HeadKept(s, a);
    var q, q' := s.queue, Apply(s, a).queue;
    if q'.head != q.head {
      var u := a.step.thread;
      assert q.threads[u].PopLoaded? && q'.threads[u].PopMarked?;
      assert !q.threads[t].Popping();
    }
  }

  /** A thread's budget when it takes a step on the queue itself. */
  lemma OwnStep(s: State, x: P.Action)
    requires Enabled(s, QueueStep(x)) && P.LabelOf(s.queue, x).Internal? && !x.ClientWrite? && OnePop(s.queue)
    ensures var q, q', t := s.queue, P.Apply(s.queue, x), x.thread;
            && t in q'.threads
            && Budget(q'.threads[t], q'.head, MarksLeft(q')) + 1 <= Budget(q.threads[t], q.head, MarksLeft(q))
  {
    HeadKept(s, QueueStep(x));
  }

  lemma QuietStep(s: State, a: Action, t: nat)
    requires Enabled(s, a) && LabelOf(s, a).Internal? && OnePop(s.queue) && t in s.queue.threads
    ensures var q, q' := s.queue, Apply(s, a).queue;
            && t in q'.threads
            && Budget(q'.threads[t], q'.head, MarksLeft(q')) + (if IsBy(a, t) then 1 else 0)
               <= Budget(q.threads[t], q.head, MarksLeft(q))
  {
    HeadKept(s, a);
    if IsBy(a, t) {
      OwnStep(s, a.step);
    } else if a.QueueStep? || a.thread != t {
      OtherStep(s, a, t);
    }
  }

  /** With at most one pop in progress at a time, no thread takes more than seven
      steps on the queue while no operation completes. */
  lemma {:induction false} OnePopNonBlocking(s: State, acts: seq<Action>, t: nat)
    requires Possible(s, acts) && Quiet(s, acts) && Alone(s, acts) && t in s.queue.threads
    ensures StepsBy(acts, t) <= Budget(s.queue.threads[t], s.queue.head, MarksLeft(s.queue)) <= 7
    decreases |acts|
  {
    if acts != [] {
      QuietStep(s, acts[0], t);
      OnePopNonBlocking(Apply(s, acts[0]), acts[1..], t);
    }
  }

  // ----- Two pops take turns -----

  lemma {:induction false} ThenRun(s: State, xs: seq<Action>, ys: seq<Action>, t: nat)
    requires Possible(s, xs) && Quiet(s, xs)
    requires Possible(Execute(s, xs).0, ys) && Quiet(Execute(s, xs).0, ys)
    ensures Possible(s, xs + ys) && Quiet(s, xs + ys)
    ensures Execute(s, xs + ys).0 == Execute(Execute(s, xs).0, ys).0
    ensures StepsBy(xs + ys, t) == StepsBy(xs, t) + StepsBy(ys, t)
    decreases |xs|
  {
    if xs == [] {
      assert xs + ys == ys;
    } else {
      assert (xs + ys)[1..] == xs[1..] + ys;
      ThenRun(Apply(s, xs[0]), xs[1..], ys, t);
    }
  }

  /** Quiet runs of queue steps from s to s', counted for thread t. */
  ghost predicate QuietTo(s: State, acts: seq<Action>, s': State, t: nat, steps: nat) {
    Possible(s, acts) && Quiet(s, acts) && Execute(s, acts).0 == s' && StepsBy(acts, t) == steps
  }

  lemma OneStep(s: State, x: P.Action, q: P.State, t: nat)
    requires Enabled(s, QueueStep(x)) && P.LabelOf(s.queue, x).Internal? && P.Apply(s.queue, x) == q
    ensures QuietTo(s, [QueueStep(x)], s.(queue := q), t, if IsBy(QueueStep(x), t) then 1 else 0)
  {
    assert [QueueStep(x)][1..] == [];
  }

  lemma Both(s: State, xs: seq<Action>, m: State, i: nat, ys: seq<Action>, s': State, j: nat, t: nat)
    requires QuietTo(s, xs, m, t, i) && QuietTo(m, ys, s', t, j)
    ensures QuietTo(s, xs + ys, s', t, i + j)
  {
    ThenRun(s, xs, ys, t);
  }

  /** A pop whose mark has been replaced finds out, starts over and marks again. */
  lemma MarkAgain(s: State, u: nat, id: nat, t: nat) returns (acts: seq<Action>)
    requires u in s.queue.threads && s.queue.threads[u] == P.PopMarked(id, s.queue.head.index)
    requires s.queue.head.index != 0 && s.queue.head.index in s.queue.next && s.queue.head.id != id
    ensures QuietTo(s, acts, s.(queue := s.queue.(head := P.Word(s.queue.head.index, id))), t, if u == t then 4 else 0)
  {
    var q, x, n := s.queue, s.queue.head.index, if u == t then 1 else 0;
    var q1, q2 := P.To(q, u, P.PopRead(id, x, q.next[x])), P.To(q, u, P.PopStart(id));
    OneStep(s, P.ReadNext(u), q1, t);
    assert q1.threads[u := P.PopStart(id)] == q2.threads;
    OneStep(s.(queue := q1), P.Swap(u), q2, t);
    Both(s, [QueueStep(P.ReadNext(u))], s.(queue := q1), n, [QueueStep(P.Swap(u))], s.(queue := q2), n, t);
    var first := [QueueStep(P.ReadNext(u))] + [QueueStep(P.Swap(u))];
    var more := LoadAndMark(s.(queue := q2), s, u, id, t);
    acts := first + more;
    Both(s, first, s.(queue := q2), n + n, more, s.(queue := q.(head := P.Word(x, id))), n + n, t);
  }

  lemma LoadAndMark(s: State, s0: State, u: nat, id: nat, t: nat) returns (acts: seq<Action>)
    requires u in s0.queue.threads && s0.queue.threads[u] == P.PopMarked(id, s0.queue.head.index)
    requires s0.queue.head.index != 0 && s == s0.(queue := P.To(s0.queue, u, P.PopStart(id)))
    ensures QuietTo(s, acts, s0.(queue := s0.queue.(head := P.Word(s0.queue.head.index, id))), t, if u == t then 2 else 0)
  {
    var q, n := s0.queue, if u == t then 1 else 0;
    var q1 := P.To(q, u, P.PopLoaded(id, q.head));
    assert s.queue.threads[u := P.PopLoaded(id, q.head)] == q1.threads;
    OneStep(s, P.LoadHead(u), q1, t);
    var q2 := q.(head := P.Word(q.head.index, id));
    assert q1.threads[u := P.PopMarked(id, q.head.index)] == q.threads;
    OneStep(s.(queue := q1), P.Mark(u), q2, t);
    Both(s, [QueueStep(P.LoadHead(u))], s.(queue := q1), n, [QueueStep(P.Mark(u))], s.(queue := q2), n, t);
    acts := [QueueStep(P.LoadHead(u))] + [QueueStep(P.Mark(u))];
  }

  /** Threads 0 and 1 have both marked the only element, thread 1 last. */
  ghost predicate TakingTurns(s: State) {
    && 0 in s.queue.threads && 1 in s.queue.threads
    && s.queue.threads[0] == P.PopMarked(1, 1) && s.queue.threads[1] == P.PopMarked(2, 1)
    && s.queue.head == P.Word(1, 2) && 1 in s.queue.next
  }

  lemma {:induction false} TurnsForEver(s: State, n: nat) returns (acts: seq<Action>)
    requires TakingTurns(s)
    ensures QuietTo(s, acts, s, 0, 4 * n)
  {
    acts := [];
    if n > 0 {
      var before := TurnsForEver(s, n - 1);
      var first := MarkAgain(s, 0, 1, 0);
      var m := s.(queue := s.queue.(head := P.Word(1, 1)));
      var second := MarkAgain(m, 1, 2, 0);
      assert m.(queue := m.queue.(head := P.Word(1, 2))) == s;
      Both(s, first, m, 4, second, s, 0, 0);
      Both(s, before, s, 4 * (n - 1), first + second, s, 4, 0);
      acts := before + (first + second);
    }
  }

  ghost function ThreeThreads(a: P.Pc, b: P.Pc): map<nat, P.Pc> { map[0 := a, 1 := b, 2 := P.Idle] }

  ghost function Queue(head: P.Word, threads: map<nat, P.Pc>, owned: set<nat>): P.State {
    P.State(head, map[1 := 0], threads, owned)
  }

  ghost function Beginning(maxId: nat): State {
    State(Queue(P.Word(0, 0), ThreeThreads(P.Idle, P.Idle), {1}),
          I.State(I.InitialWords(maxId), map[0 := I.Idle, 1 := I.Idle, 2 := I.Idle]))
  }

  /** Threads 0 and 1 have taken identifiers 1 and 2. */
  lemma TwoBegin(maxId: nat, reached: (State, seq<nat>) -> bool) returns (ids: I.State)
    requires maxId >= 2 && CarriedOn(reached) && reached(Beginning(maxId), [])
    ensures reached(State(Queue(P.Word(0, 0), ThreeThreads(P.PopStart(1), P.PopStart(2)), {1}), ids), [])
    ensures 2 in ids.threads && ids.threads[2].Idle?
  {
    var s := Beginning(maxId);
    FirstBits(maxId);
    GetFirst(reached, s, 0, 0);
    var s1 := State(Queue(P.Word(0, 0), ThreeThreads(P.PopStart(1), P.Idle), {1}), I.WithBit(s.ids, 0, 0));
    assert s.queue.threads[0 := P.PopStart(1)] == s1.queue.threads;
    GetFirst(reached, s1, 1, 1);
    ids := I.WithBit(s1.ids, 1, 1);
    assert s1.queue.threads[1 := P.PopStart(2)] == ThreeThreads(P.PopStart(1), P.PopStart(2));
  }

  lemma FirstBits(maxId: nat)
    requires maxId >= 2
    ensures |I.InitialWords(maxId)| >= 1 && 0 !in I.InitialWords(maxId)[0] && 1 !in I.InitialWords(maxId)[0]
  {
    var w := I.InitialWords(maxId)[0];
    assert w == if I.NumWords(maxId) == 1 && maxId % 32 != 0 then I.Between(maxId % 32, 32) else {};
  }

  /** Thread 2 pushes an element, and threads 0 and 1 mark it one after the other. */
  lemma BothMark(reached: (P.State, seq<nat>) -> bool)
    requires P.CarriedOn(2, reached)
    requires reached(Queue(P.Word(0, 0), ThreeThreads(P.PopStart(1), P.PopStart(2)), {1}), [])
    ensures reached(Queue(P.Word(1, 2), ThreeThreads(P.PopMarked(1, 1), P.PopMarked(2, 1)), {}), [1])
  {
    var q := Queue(P.Word(0, 0), ThreeThreads(P.PopStart(1), P.PopStart(2)), {1});
    P.DoPush(2, reached, q, [], [1]);
    assert q.next[1 := 0] == q.next && q.owned - L.Elements([1]) == {} && [1] + [] == [1];
    var q1 := Queue(P.Word(1, 0), q.threads, {});
    P.DoMark(2, reached, q1, [1], 0, 1);
    var q2 := Queue(P.Word(1, 1), ThreeThreads(P.PopMarked(1, 1), P.PopStart(2)), {});
    assert q1.threads[0 := P.PopMarked(1, 1)] == q2.threads;
    P.DoMark(2, reached, q2, [1], 1, 2);
    assert q2.threads[1 := P.PopMarked(2, 1)] == ThreeThreads(P.PopMarked(1, 1), P.PopMarked(2, 1));
  }

  lemma ReachTurns(maxId: nat, reached: (State, seq<nat>) -> bool) returns (s: State)
    requires maxId >= 2 && CarriedOn(reached) && reached(Beginning(maxId), [])
    ensures reached(s, [1]) && TakingTurns(s)
  {
    var ids := TwoBegin(maxId, reached);
    QueueCarriedOn(reached, ids, 2);
    BothMark((q: P.State, stack: seq<nat>) => reached(State(q, ids), stack));
    s := State(Queue(P.Word(1, 2), ThreeThreads(P.PopMarked(1, 1), P.PopMarked(2, 1)), {}), ids);
  }

  /** Once two identifiers can be out, a constructed queue can come to a state from
      which a pop takes any number of steps while no operation ever completes. */
  lemma Livelock(maxId: nat, steps: nat) returns (s: State, acts: seq<Action>)
    requires maxId >= 2
    ensures Reachable(maxId, s, [1]) && 0 in s.queue.threads
    ensures Possible(s, acts) && Quiet(s, acts) && StepsBy(acts, 0) == 4 * steps
  {
    ReachableCarriedOn(maxId);
    var start := Beginning(maxId);
    assert Start(maxId, start);
    assert Leads(start, [], start, []);
    s := ReachTurns(maxId, (s: State, stack: seq<nat>) => Reachable(maxId, s, stack));
    acts := TurnsForEver(s, steps);
  }

  // ----- The exact condition -----

  /** In every run of a queue constructed for MaxID, no thread takes more than
      `bound` steps on the queue while no operation completes. */
  ghost predicate NonBlocking(maxId: nat, bound: nat) {
    forall start: State, before: seq<Action>, acts: seq<Action>, t: nat ::
      Start(maxId, start) && Possible(start, before) && Possible(Execute(start, before).0, acts)
      && Quiet(Execute(start, before).0, acts) && t in Execute(start, before).0.queue.threads ==>
        StepsBy(acts, t) <= bound
  }

  /** One identifier, one pop. */
  lemma OneIdOnePop(s: State, stack: seq<nat>)
    requires Inv(1, s, stack)
    ensures OnePop(s.queue)
  {
    forall t, u | t in s.queue.threads && u in s.queue.threads && s.queue.threads[t].Popping() && s.queue.threads[u].Popping()
      ensures t == u
    {
      assert I.ThreadOk(1, s.ids.words[0], s.ids.threads[t]) && I.ThreadOk(1, s.ids.words[0], s.ids.threads[u]);
    }
  }

  lemma {:induction false} OneIdAlone(s: State, stack: seq<nat>, acts: seq<Action>)
    requires Inv(1, s, stack) && Possible(s, acts)
    ensures Alone(s, acts)
    decreases |acts|
  {
    OneIdOnePop(s, stack);
    if acts != [] {
      StepLinearizes(1, s, stack, acts[0]);
      OneIdAlone(Apply(s, acts[0]), L.Effect(stack, LabelOf(s, acts[0])), acts[1..]);
    }
  }

  lemma OneIdNonBlocking()
    ensures NonBlocking(1, 7)
  {
    forall start: State, before: seq<Action>, acts: seq<Action>, t: nat |
      Start(1, start) && Possible(start, before) && Possible(Execute(start, before).0, acts)
      && Quiet(Execute(start, before).0, acts) && t in Execute(start, before).0.queue.threads
      ensures StepsBy(acts, t) <= 7
    {
      StartInv(1, start);
      Linearizable(1, start, [], before);
      var (s, labels) := Execute(start, before);
      OneIdAlone(s, L.Final([], labels), acts);
      OnePopNonBlocking(s, acts, t);
    }
  }

  lemma LivelockRefutes(maxId: nat, bound: nat)
    requires maxId >= 2
    ensures !NonBlocking(maxId, bound)
  {
    var s, acts := Livelock(maxId, bound + 1);
    var start: State, before: seq<Action> :| Start(maxId, start) && Leads(start, before, s, [1]);
    assert Possible(start, before) && Execute(start, before).0 == s;
  }

  /** The queue keeps its promise to be non-blocking if and only if it has a single
      low bit, which lets one pop run at a time: with more, two pops can replace
      each other's marks for ever. */
  lemma NonBlockingIff(lowBits: nat, maxId: nat)
    requires lowBits >= 1 && maxId == Pow2(lowBits) - 1
    ensures (exists bound: nat :: NonBlocking(maxId, bound)) <==> lowBits == 1
  {
    if lowBits == 1 {
      OneIdNonBlocking();
    } else {
      Pow2Monotone(1, lowBits);
      forall bound: nat ensures !NonBlocking(maxId, bound) { LivelockRefutes(maxId, bound); }
    }
  }
}
