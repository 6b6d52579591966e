/** The non-blocking LIFO queue of atomic/lifo-ctr.hpp as a state machine: any
    number of threads interleave single loads, stores and compare-and-swaps on
    one head word that packs an element index with a wrapping counter. */
module LifoStack {
  import opened Bits

  /** The head word. Index 0 means "no element". */
  datatype Head = Head(index: nat, counter: nat)

  /** Where a thread stands in an operation. `copy` is its copy of the head word;
      `since` is history, not program state: how many swaps of the head had
      succeeded when the copy was made. */
  datatype Pc =
    | Idle
    | PushStart(list: seq<nat>)
    | PushLoaded(list: seq<nat>, copy: Head, since: nat)
    | PushLinked(list: seq<nat>, copy: Head, since: nat)
    | PopStart
    | PopLoaded(copy: Head, since: nat)
    | PopRead(copy: Head, next: nat, since: nat)
    | ClearStart
    | ClearLoaded(copy: Head, since: nat)
  {
    predicate Pushing() { PushStart? || PushLoaded? || PushLinked? }
    predicate HasCopy() { PushLoaded? || PushLinked? || PopLoaded? || PopRead? || ClearLoaded? }
    predicate AtSwap() { PushLinked? || PopRead? || ClearLoaded? }
  }

  /** `next` is the memory behind the `_next` fields. `swaps` and `owned` are
      history: the successful swaps so far, and the elements in clients' hands. */
  datatype State = State(head: Head, next: map<nat, nat>, threads: map<nat, Pc>, swaps: nat, owned: set<nat>)

  datatype Action =
    | BeginPush(thread: nat, list: seq<nat>)
    | BeginPop(thread: nat)
    | BeginClear(thread: nat)
    | LoadHead(thread: nat)
    | LinkTail(thread: nat)
    | ReadNext(thread: nat)
    | Swap(thread: nat)
    | ClientWrite(element: nat, value: nat)

  /** What an action does to the stack that clients see. */
  datatype Label =
    | Internal
    | Pushed(list: seq<nat>)
    | Popped(element: nat)
    | PoppedEmpty
    | Cleared(list: seq<nat>)

  // ----- Linked lists in memory -----

  /** The list from i through the `_next` fields spells l and ends in 0. */
  ghost predicate IsChain(next: map<nat, nat>, i: nat, l: seq<nat>)
    decreases |l|
  {
    if l == [] then i == 0
    else i == l[0] && i != 0 && i in next && IsChain(next, next[i], l[1..])
  }

  ghost function ListAt(next: map<nat, nat>, i: nat): seq<nat> {
    if exists l :: IsChain(next, i, l) then var l :| IsChain(next, i, l); l else []
  }

  /** Consecutive elements of l are linked; the last link is free. */
  ghost predicate Linked(next: map<nat, nat>, l: seq<nat>) {
    && (forall k :: 0 <= k < |l| ==> l[k] in next)
    && (forall k :: 0 <= k < |l| - 1 ==> next[l[k]] == l[k + 1])
  }

  ghost predicate NoDup(l: seq<nat>) {
    forall a, b :: 0 <= a < b < |l| ==> l[a] != l[b]
  }

  // ----- Transitions -----

  /** Clients push lists of elements they own, linked, and write only those. */
  ghost predicate Enabled(s: State, a: Action) {
    match a
    case BeginPush(t, l) =>
      && t in s.threads && s.threads[t].Idle?
      && l != [] && NoDup(l) && Linked(s.next, l) && (forall e :: e in l ==> e in s.owned)
    case BeginPop(t) => t in s.threads && s.threads[t].Idle?
    case BeginClear(t) => t in s.threads && s.threads[t].Idle?
    case LoadHead(t) => t in s.threads && (s.threads[t].PushStart? || s.threads[t].PopStart? || s.threads[t].ClearStart?)
    case LinkTail(t) => t in s.threads && s.threads[t].PushLoaded? && s.threads[t].list != []
    case ReadNext(t) => t in s.threads && s.threads[t].PopLoaded? && s.threads[t].copy.index in s.next
    case Swap(t) => t in s.threads && s.threads[t].AtSwap()
    case ClientWrite(e, _) => e in s.owned
  }

  ghost function Last(l: seq<nat>): nat
    requires l != []
  {
    l[|l| - 1]
  }

  /** One atomic step. m is 2^CounterBits, at which the counter wraps. */
  ghost function Apply(m: nat, s: State, a: Action): State
    requires m >= 1 && Enabled(s, a)
  {
    match a
    case BeginPush(t, l) => s.(threads := s.threads[t := PushStart(l)], owned := s.owned - Elements(l))
    case BeginPop(t) => s.(threads := s.threads[t := PopStart])
    case BeginClear(t) => s.(threads := s.threads[t := ClearStart])
    case LoadHead(t) =>
      var pc := match s.threads[t]
        case PushStart(l) => PushLoaded(l, s.head, s.swaps)
        case PopStart => if s.head.index == 0 then Idle else PopLoaded(s.head, s.swaps)
        case _ => ClearLoaded(s.head, s.swaps);
      s.(threads := s.threads[t := pc])
    case LinkTail(t) =>
      var pc := s.threads[t];
      s.(next := s.next[Last(pc.list) := pc.copy.index], threads := s.threads[t := PushLinked(pc.list, pc.copy, pc.since)])
    case ReadNext(t) =>
      var pc := s.threads[t];
      s.(threads := s.threads[t := PopRead(pc.copy, s.next[pc.copy.index], pc.since)])
    case Swap(t) =>
      var pc := s.threads[t];
      if s.head == pc.copy then
        s.(head := Head(NewIndex(pc), (pc.copy.counter + 1) % m), swaps := s.swaps + 1,
           threads := s.threads[t := Idle], owned := s.owned + Returned(s, pc))
      else
        s.(threads := s.threads[t := Retry(pc)])
    case ClientWrite(e, v) => s.(next := s.next[e := v])
  }

  ghost function Elements(l: seq<nat>): set<nat> { set e | e in l }

  ghost function NewIndex(pc: Pc): nat
    requires pc.AtSwap()
  {
    match pc
    case PushLinked(l, _, _) => if l == [] then 0 else l[0]
    case PopRead(_, next, _) => next
    case ClearLoaded(_, _) => 0
  }

  /** What a successful swap hands to the client. */
  ghost function Returned(s: State, pc: Pc): set<nat>
    requires pc.AtSwap()
  {
    match pc
    case PushLinked(_, _, _) => {}
    case PopRead(copy, _, _) => {copy.index}
    case ClearLoaded(copy, _) => Elements(ListAt(s.next, copy.index))
  }

  /** After a failed swap the operation starts over. */
  ghost function Retry(pc: Pc): Pc
    requires pc.AtSwap()
  {
    match pc
    case PushLinked(l, _, _) => PushStart(l)
    case PopRead(_, _, _) => PopStart
    case ClearLoaded(_, _) => ClearStart
  }

  /** The visible effect of a step, from what the code itself returns. */
  ghost function LabelOf(s: State, a: Action): Label
    requires Enabled(s, a)
  {
    match a
    case LoadHead(t) => if s.threads[t].PopStart? && s.head.index == 0 then PoppedEmpty else Internal
    case Swap(t) =>
      var pc := s.threads[t];
      if s.head != pc.copy then Internal
      else (match pc
        case PushLinked(l, _, _) => Pushed(l)
        case PopRead(copy, _, _) => Popped(copy.index)
        case ClearLoaded(copy, _) => Cleared(ListAt(s.next, copy.index)))
    case _ => Internal
  }

  // ----- The specification: an atomic stack -----

  ghost predicate Allowed(stack: seq<nat>, l: Label) {
    match l
    case Internal => true
    case Pushed(_) => true
    case Popped(e) => stack != [] && stack[0] == e
    case PoppedEmpty => stack == []
    case Cleared(list) => list == stack
  }

  ghost function Effect(stack: seq<nat>, l: Label): seq<nat>
    requires Allowed(stack, l)
  {
    match l
    case Internal => stack
    case Pushed(list) => list + stack
    case Popped(_) => stack[1..]
    case PoppedEmpty => stack
    case Cleared(_) => []
  }

  // ----- The invariant -----

  /** A thread's copy of the head is what the head was `swaps - since` swaps ago. */
  ghost predicate CopyOk(m: nat, s: State, copy: Head, since: nat)
    requires m >= 1
  {
    && since <= s.swaps
    && copy.counter == since % m
    && (since == s.swaps ==> copy == s.head)
  }

  ghost predicate ThreadOk(m: nat, s: State, stack: seq<nat>, pc: Pc)
    requires m >= 1
  {
    && (pc.HasCopy() ==> CopyOk(m, s, pc.copy, pc.since))
    && (pc.Pushing() ==>
        && pc.list != [] && NoDup(pc.list) && Linked(s.next, pc.list)
        && forall e :: e in pc.list ==> e != 0 && e !in stack && e !in s.owned)
    && (pc.PushLinked? ==> s.next[Last(pc.list)] == pc.copy.index)
    && (pc.PopLoaded? || pc.PopRead? ==> pc.copy.index != 0)
    && (pc.PopLoaded? ==> pc.copy.index in s.next)
    && (pc.PopRead? && pc.since == s.swaps ==> pc.copy.index in s.next && pc.next == s.next[pc.copy.index])
  }

  ghost predicate Inv(m: nat, s: State, stack: seq<nat>)
    requires m >= 1
  {
    && s.head.counter == s.swaps % m
    && IsChain(s.next, s.head.index, stack) && NoDup(stack)
    && (forall e :: e in stack ==> e !in s.owned)
    && (forall e :: e in s.owned ==> e != 0 && e in s.next)
    && (forall t :: t in s.threads ==> ThreadOk(m, s, stack, s.threads[t]))
    && (forall t, u :: t in s.threads && u in s.threads && t != u && s.threads[t].Pushing() && s.threads[u].Pushing() ==>
          Apart(s.threads[t].list, s.threads[u].list))
  }

  ghost predicate Apart(l: seq<nat>, k: seq<nat>) {
    forall e :: e in l ==> e !in k
  }

  /** A pop swaps after at most b swaps of the head since its load. Pushes and
      clears may stall for any time: their swaps do not use what they read. */
  ghost predicate Timely(b: nat, s: State, a: Action) {
    a.Swap? && a.thread in s.threads && s.threads[a.thread].PopRead? ==> s.swaps <= s.threads[a.thread].since + b
  }

  // ----- Chains under writes -----

  lemma {:induction false} ChainElements(next: map<nat, nat>, i: nat, l: seq<nat>)
    requires IsChain(next, i, l)
    ensures forall e :: e in l ==> e != 0 && e in next
    ensures i == 0 <==> l == []
    decreases |l|
  {
    if l != [] {
      ChainElements(next, next[i], l[1..]);
      assert l == [l[0]] + l[1..];
    }
  }

  lemma {:induction false} ChainKept(next: map<nat, nat>, i: nat, l: seq<nat>, e: nat, v: nat)
    requires IsChain(next, i, l) && e !in l
    ensures IsChain(next[e := v], i, l)
    decreases |l|
  {
    if l != [] { ChainKept(next, next[i], l[1..], e, v); }
  }

  lemma {:induction false} ChainUnique(next: map<nat, nat>, i: nat, l: seq<nat>, k: seq<nat>)
    requires IsChain(next, i, l) && IsChain(next, i, k)
    ensures l == k
    decreases |l|
  {
    if l != [] && k != [] {
      ChainUnique(next, next[i], l[1..], k[1..]);
      assert l == [l[0]] + l[1..] && k == [k[0]] + k[1..];
    }
  }

  /** A linked list whose tail points at a chain extends that chain. */
  lemma {:induction false} ChainExtended(next: map<nat, nat>, l: seq<nat>, i: nat, k: seq<nat>)
    requires l != [] && Linked(next, l) && next[Last(l)] == i && IsChain(next, i, k)
    requires forall e :: e in l ==> e != 0
    ensures IsChain(next, l[0], l + k)
    decreases |l|
  {
    assert l[0] in l;
    if |l| == 1 {
      assert (l + k)[1..] == k;
    } else {
      assert forall e :: e in l[1..] ==> e in l;
      ChainExtended(next, l[1..], i, k);
      assert (l + k)[1..] == l[1..] + k;
    }
  }

  lemma NoDupConcat(l: seq<nat>, k: seq<nat>)
    requires NoDup(l) && NoDup(k) && forall e :: e in l ==> e !in k
    ensures NoDup(l + k)
  {
    forall x, y | 0 <= x < y < |l + k| ensures (l + k)[x] != (l + k)[y] {
      if x < |l| { assert l[x] in l; }
      if y >= |l| { assert k[y - |l|] in k; }
    }
  }

  lemma TailApart(l: seq<nat>)
    requires l != [] && NoDup(l)
    ensures forall e :: e in l[1..] ==> e in l && e != l[0]
  {
  }

  /** A copy whose swap can still succeed in time is current: nobody swapped. */
  lemma CurrentCopy(m: nat, s: State, copy: Head, since: nat)
    requires m >= 1 && CopyOk(m, s, copy, since) && s.head.counter == s.swaps % m
    requires s.head == copy && s.swaps < since + m
    ensures since == s.swaps
  {
    if since < s.swaps { NearbyRemainders(since, s.swaps, m); }
  }

  // ----- Every step keeps the invariant -----

  /** A write outside the stack and outside a thread's list does not concern it. */
  lemma ThreadIgnoresWrite(m: nat, s: State, stack: seq<nat>, pc: Pc, e: nat, v: nat)
    requires m >= 1 && ThreadOk(m, s, stack, pc) && IsChain(s.next, s.head.index, stack)
    requires e !in stack && (pc.Pushing() ==> e !in pc.list)
    ensures ThreadOk(m, s.(next := s.next[e := v]), stack, pc)
  {
  }

  /** A successful swap by another thread only makes a thread's copy stale. */
  lemma ThreadIgnoresSwap(m: nat, s: State, stack: seq<nat>, pc: Pc, s': State, stack': seq<nat>)
    requires m >= 1 && ThreadOk(m, s, stack, pc)
    requires s'.next == s.next && s'.swaps == s.swaps + 1
    requires pc.Pushing() ==> forall e :: e in pc.list ==> e !in stack' && e !in s'.owned
    ensures ThreadOk(m, s', stack', pc)
  {
  }

  lemma BeginPushStep(m: nat, s: State, stack: seq<nat>, a: Action)
    requires m >= 1 && Inv(m, s, stack) && Enabled(s, a) && a.BeginPush?
    ensures Inv(m, Apply(m, s, a), stack)
  {
  }

  /** Steps that only move one thread's program counter, keeping its list. */
  lemma PcStep(m: nat, s: State, stack: seq<nat>, t: nat, pc: Pc)
    requires m >= 1 && Inv(m, s, stack) && t in s.threads && ThreadOk(m, s, stack, pc)
    requires pc.Pushing() ==> s.threads[t].Pushing() && pc.list == s.threads[t].list
    ensures Inv(m, s.(threads := s.threads[t := pc]), stack)
  {
  }

  lemma LoadStep(m: nat, s: State, stack: seq<nat>, a: Action)
    requires m >= 1 && Inv(m, s, stack) && Enabled(s, a) && a.LoadHead?
    ensures Allowed(stack, LabelOf(s, a)) && Inv(m, Apply(m, s, a), stack)
  {
    var t := a.thread;
    assert ThreadOk(m, s, stack, s.threads[t]);
    ChainElements(s.next, s.head.index, stack);
    if stack != [] { assert stack[0] in stack; }
    var pc := Apply(m, s, a).threads[t];
    assert ThreadOk(m, s, stack, pc);
    PcStep(m, s, stack, t, pc);
  }

  lemma ReadStep(m: nat, s: State, stack: seq<nat>, a: Action)
    requires m >= 1 && Inv(m, s, stack) && Enabled(s, a) && a.ReadNext?
    ensures Inv(m, Apply(m, s, a), stack)
  {
    assert ThreadOk(m, s, stack, s.threads[a.thread]);
    PcStep(m, s, stack, a.thread, Apply(m, s, a).threads[a.thread]);
  }

  lemma FailedSwapStep(m: nat, s: State, stack: seq<nat>, a: Action)
    requires m >= 1 && Inv(m, s, stack) && Enabled(s, a) && a.Swap? && s.head != s.threads[a.thread].copy
    ensures Inv(m, Apply(m, s, a), stack)
  {
    assert ThreadOk(m, s, stack, s.threads[a.thread]);
    PcStep(m, s, stack, a.thread, Apply(m, s, a).threads[a.thread]);
  }

  lemma WriteStep(m: nat, s: State, stack: seq<nat>, a: Action)
    requires m >= 1 && Inv(m, s, stack) && Enabled(s, a) && a.ClientWrite?
    ensures Inv(m, Apply(m, s, a), stack)
  {
    var s' := Apply(m, s, a);
    ChainKept(s.next, s.head.index, stack, a.element, a.value);
    forall t | t in s'.threads ensures ThreadOk(m, s', stack, s'.threads[t]) {
      assert ThreadOk(m, s, stack, s.threads[t]);
      ThreadIgnoresWrite(m, s, stack, s.threads[t], a.element, a.value);
    }
  }

  lemma LinkStep(m: nat, s: State, stack: seq<nat>, a: Action)
    requires m >= 1 && Inv(m, s, stack) && Enabled(s, a) && a.LinkTail?
    ensures Inv(m, Apply(m, s, a), stack)
  {
    var t := a.thread;
    var pc := s.threads[t];
    assert ThreadOk(m, s, stack, pc);
    var e := Last(pc.list);
    assert e in pc.list;
    ChainKept(s.next, s.head.index, stack, e, pc.copy.index);
    var s1 := s.(next := s.next[e := pc.copy.index]);
    var pc' := PushLinked(pc.list, pc.copy, pc.since);
    assert ThreadOk(m, s1, stack, pc');
    assert s1.(threads := s1.threads[t := pc']) == Apply(m, s, a);
    forall u | u in s.threads && u != t ensures ThreadOk(m, s1, stack, s.threads[u]) {
      assert ThreadOk(m, s, stack, s.threads[u]);
      if s.threads[u].Pushing() { assert Apart(pc.list, s.threads[u].list); }
      ThreadIgnoresWrite(m, s, stack, s.threads[u], e, pc.copy.index);
    }
    forall u | u in Apply(m, s, a).threads ensures ThreadOk(m, Apply(m, s, a), stack, Apply(m, s, a).threads[u]) {
      if u != t { assert ThreadOk(m, s1, stack, s.threads[u]); }
    }
  }

  /** A successful swap keeps the invariant when the new head spells the new
      stack and the elements handed over are nobody else's. */
  lemma SwapStep(m: nat, s: State, stack: seq<nat>, a: Action, stack': seq<nat>)
    requires m >= 1 && Inv(m, s, stack) && Enabled(s, a) && a.Swap? && s.head == s.threads[a.thread].copy
    requires IsChain(s.next, NewIndex(s.threads[a.thread]), stack') && NoDup(stack')
    requires forall e :: e in stack' ==> e !in s.owned && e !in Returned(s, s.threads[a.thread])
    requires forall e :: e in stack' ==> e in stack || (s.threads[a.thread].PushLinked? && e in s.threads[a.thread].list)
    requires forall e :: e in Returned(s, s.threads[a.thread]) ==> e in stack
    ensures Inv(m, Apply(m, s, a), stack')
  {
    var t := a.thread;
    var pc := s.threads[t];
    var s' := Apply(m, s, a);
    assert ThreadOk(m, s, stack, pc);
    NextCounter(s.swaps, m);
    ChainElements(s.next, s.head.index, stack);
    forall u | u in s'.threads ensures ThreadOk(m, s', stack', s'.threads[u]) {
      if u != t {
        assert ThreadOk(m, s, stack, s.threads[u]);
        if s.threads[u].Pushing() && pc.PushLinked? { assert Apart(s.threads[u].list, pc.list); }
        ThreadIgnoresSwap(m, s, stack, s.threads[u], s', stack');
      }
    }
  }

  lemma NextCounter(n: nat, m: nat)
    requires m >= 1
    ensures (n % m + 1) % m == (n + 1) % m
  {
    var q, r := n / m, n % m;
    assert n == m * q + r;
    if r + 1 < m {
      DivideUnique(n + 1, m, q, r + 1);
    } else {
      assert n + 1 == m * (q + 1) + 0;
      DivideUnique(n + 1, m, q + 1, 0);
    }
  }

  lemma PushSwapStep(m: nat, s: State, stack: seq<nat>, a: Action)
    requires m >= 1 && Inv(m, s, stack) && Enabled(s, a)
    requires a.Swap? && s.threads[a.thread].PushLinked? && s.head == s.threads[a.thread].copy
    ensures Inv(m, Apply(m, s, a), s.threads[a.thread].list + stack)
  {
    var pc := s.threads[a.thread];
    assert ThreadOk(m, s, stack, pc);
    ChainExtended(s.next, pc.list, s.head.index, stack);
    NoDupConcat(pc.list, stack);
    SwapStep(m, s, stack, a, pc.list + stack);
  }

  lemma PopSwapStep(m: nat, b: nat, s: State, stack: seq<nat>, a: Action)
    requires b < m && Inv(m, s, stack) && Enabled(s, a) && Timely(b, s, a)
    requires a.Swap? && s.threads[a.thread].PopRead? && s.head == s.threads[a.thread].copy
    ensures stack != [] && stack[0] == s.threads[a.thread].copy.index
    ensures Inv(m, Apply(m, s, a), stack[1..])
  {
    var pc := s.threads[a.thread];
    assert ThreadOk(m, s, stack, pc);
    CurrentCopy(m, s, pc.copy, pc.since);
    ChainElements(s.next, s.head.index, stack);
    assert stack[0] in stack;
    TailApart(stack);
    SwapStep(m, s, stack, a, stack[1..]);
  }

  lemma ClearSwapStep(m: nat, s: State, stack: seq<nat>, a: Action)
    requires m >= 1 && Inv(m, s, stack) && Enabled(s, a)
    requires a.Swap? && s.threads[a.thread].ClearLoaded? && s.head == s.threads[a.thread].copy
    ensures ListAt(s.next, s.threads[a.thread].copy.index) == stack
    ensures Inv(m, Apply(m, s, a), [])
  {
    ChainUnique(s.next, s.head.index, stack, ListAt(s.next, s.head.index));
    SwapStep(m, s, stack, a, []);
  }

  /** Each atomic step does to the visible stack what its label says: it is an
      internal step, or the linearization point of one operation. */
  lemma StepLinearizes(m: nat, b: nat, s: State, stack: seq<nat>, a: Action)
    requires b < m && Inv(m, s, stack) && Enabled(s, a) && Timely(b, s, a)
    ensures Allowed(stack, LabelOf(s, a))
    ensures Inv(m, Apply(m, s, a), Effect(stack, LabelOf(s, a)))
  {
    match a
    case BeginPush(_, _) => BeginPushStep(m, s, stack, a);
    case BeginPop(t) => PcStep(m, s, stack, t, PopStart);
    case BeginClear(t) => PcStep(m, s, stack, t, ClearStart);
    case LoadHead(_) => LoadStep(m, s, stack, a);
    case LinkTail(_) => LinkStep(m, s, stack, a);
    case ReadNext(_) => ReadStep(m, s, stack, a);
    case ClientWrite(_, _) => WriteStep(m, s, stack, a);
    case Swap(t) =>
      if s.head != s.threads[t].copy {
        FailedSwapStep(m, s, stack, a);
      } else {
        match s.threads[t]
        case PushLinked(_, _, _) => PushSwapStep(m, s, stack, a);
        case PopRead(_, _, _) => PopSwapStep(m, b, s, stack, a);
        case ClearLoaded(_, _) => ClearSwapStep(m, s, stack, a);
      }
  }

  // ----- Whole runs -----

  ghost predicate Possible(m: nat, s: State, acts: seq<Action>)
    requires m >= 1
    decreases |acts|
  {
    acts == [] || (Enabled(s, acts[0]) && Possible(m, Apply(m, s, acts[0]), acts[1..]))
  }

  ghost predicate AllTimely(m: nat, b: nat, s: State, acts: seq<Action>)
    requires m >= 1 && Possible(m, s, acts)
    decreases |acts|
  {
    acts == [] || (Timely(b, s, acts[0]) && AllTimely(m, b, Apply(m, s, acts[0]), acts[1..]))
  }

  ghost function Execute(m: nat, s: State, acts: seq<Action>): (r: (State, seq<Label>))
    requires m >= 1 && Possible(m, s, acts)
    ensures |r.1| == |acts|
    decreases |acts|
  {
    if acts == [] then (s, [])
    else
      var rest := Execute(m, Apply(m, s, acts[0]), acts[1..]);
      (rest.0, [LabelOf(s, acts[0])] + rest.1)
  }

  /** The labels, in order, are a legal history of an atomic stack. */
  ghost predicate Legal(stack: seq<nat>, labels: seq<Label>)
    decreases |labels|
  {
    labels == [] || (Allowed(stack, labels[0]) && Legal(Effect(stack, labels[0]), labels[1..]))
  }

  ghost function Final(stack: seq<nat>, labels: seq<Label>): seq<nat>
    requires Legal(stack, labels)
    decreases |labels|
  {
    if labels == [] then stack else Final(Effect(stack, labels[0]), labels[1..])
  }

  /** Linearizability: in every interleaving of any number of threads with timely
      pops, the operations' effects and results, at their linearization points, are
      those of one atomic stack, and memory holds exactly that stack. */
  lemma {:induction false} Linearizable(m: nat, b: nat, s: State, stack: seq<nat>, acts: seq<Action>)
    requires b < m && Inv(m, s, stack) && Possible(m, s, acts) && AllTimely(m, b, s, acts)
    ensures var (s', labels) := Execute(m, s, acts);
            Legal(stack, labels) && Inv(m, s', Final(stack, labels))
    decreases |acts|
  {
    if acts != [] {
      StepLinearizes(m, b, s, stack, acts[0]);
      var l := LabelOf(s, acts[0]);
      var rest := Execute(m, Apply(m, s, acts[0]), acts[1..]).1;
      Linearizable(m, b, Apply(m, s, acts[0]), Effect(stack, l), acts[1..]);
      assert ([l] + rest)[1..] == rest;
    }
  }

  /** A queue as it is constructed: empty, all elements in clients' hands. */
  ghost predicate Constructed(s: State) {
    && s.head == Head(0, 0) && s.swaps == 0
    && (forall e :: e in s.owned ==> e != 0 && e in s.next)
    && (forall t :: t in s.threads ==> s.threads[t].Idle?)
  }

  lemma ConstructedOk(m: nat, s: State)
    requires m >= 1 && Constructed(s)
    ensures Inv(m, s, [])
  {
  }

  /** Every run of a constructed queue in which no pop stalls for more than b swaps
      is a legal history of an atomic stack. */
  ghost predicate AlwaysLinearizable(m: nat, b: nat)
    requires m >= 1
  {
    forall s: State, acts: seq<Action> ::
      Constructed(s) && Possible(m, s, acts) && AllTimely(m, b, s, acts) ==> Legal([], Execute(m, s, acts).1)
  }

  // ----- Non-blocking -----

  /** A part of a run in which no operation completes: no swap succeeds and no pop
      finds the queue empty. */
  ghost predicate Quiet(m: nat, s: State, acts: seq<Action>)
    requires m >= 1 && Possible(m, s, acts)
    decreases |acts|
  {
    acts == [] || (LabelOf(s, acts[0]).Internal? && Quiet(m, Apply(m, s, acts[0]), acts[1..]))
  }

  predicate IsBy(a: Action, t: nat) { !a.ClientWrite? && a.thread == t }

  ghost function StepsBy(acts: seq<Action>, t: nat): nat {
    if acts == [] then 0 else (if IsBy(acts[0], t) then 1 else 0) + StepsBy(acts[1..], t)
  }

  /** How many steps a thread has left before its swap succeeds, while the head
      stays as it is. */
  ghost function Budget(pc: Pc, head: Head): nat {
    match pc
    case Idle => 3
    case PushStart(_) => 2
    case PushLoaded(_, copy, _) => if copy == head then 1 else 4
    case PushLinked(_, copy, _) => if copy == head then 0 else 3
    case PopStart => 2
    case PopLoaded(copy, _) => if copy == head then 1 else 4
    case PopRead(copy, _, _) => if copy == head then 0 else 3
    case ClearStart => 1
    case ClearLoaded(copy, _) => if copy == head then 0 else 2
  }

  lemma QuietStep(m: nat, s: State, a: Action, t: nat)
    requires m >= 1 && Enabled(s, a) && LabelOf(s, a).Internal? && t in s.threads
    ensures var s' := Apply(m, s, a);
            && s'.head == s.head && s'.threads.Keys == s.threads.Keys
            && Budget(s'.threads[t], s'.head) + (if IsBy(a, t) then 1 else 0) <= Budget(s.threads[t], s.head)
  {
  }

  /** While no operation completes, no thread takes more than four steps of its
      own: not even retries can go on unless some other operation succeeds. */
  lemma {:induction false} ThreadNonBlocking(m: nat, s: State, acts: seq<Action>, t: nat)
    requires m >= 1 && Possible(m, s, acts) && Quiet(m, s, acts) && t in s.threads
    ensures StepsBy(acts, t) <= Budget(s.threads[t], s.head) <= 4
    decreases |acts|
  {
    if acts != [] {
      QuietStep(m, s, acts[0], t);
      ThreadNonBlocking(m, Apply(m, s, acts[0]), acts[1..], t);
    }
  }

  /** The steps taken by threads of the set. */
  ghost function StepsIn(acts: seq<Action>, ts: set<nat>): nat {
    if acts == [] then 0
    else (if !acts[0].ClientWrite? && acts[0].thread in ts then 1 else 0) + StepsIn(acts[1..], ts)
  }

  lemma {:induction false} StepsInWithout(acts: seq<Action>, ts: set<nat>, t: nat)
    requires t in ts
    ensures StepsIn(acts, ts) == StepsIn(acts, ts - {t}) + StepsBy(acts, t)
  {
    if acts != [] { StepsInWithout(acts[1..], ts, t); }
  }

  lemma {:induction false} StepsInBound(acts: seq<Action>, ts: set<nat>)
    requires forall t :: t in ts ==> StepsBy(acts, t) <= 4
    ensures StepsIn(acts, ts) <= 4 * |ts|
    decreases |ts|
  {
    if ts == {} {
      NobodyMoves(acts);
    } else {
      var t :| t in ts;
      StepsInWithout(acts, ts, t);
      StepsInBound(acts, ts - {t});
      assert |ts| == |ts - {t}| + 1;
    }
  }

  lemma {:induction false} NobodyMoves(acts: seq<Action>)
    ensures StepsIn(acts, {}) == 0
  {
    if acts != [] { NobodyMoves(acts[1..]); }
  }

  /** A thread inside an operation can always take its next step: nobody waits. */
  lemma NobodyWaits(m: nat, s: State, stack: seq<nat>, t: nat) returns (a: Action)
    requires m >= 1 && Inv(m, s, stack) && t in s.threads && !s.threads[t].Idle?
    ensures Enabled(s, a) && IsBy(a, t)
  {
    assert ThreadOk(m, s, stack, s.threads[t]);
    a := match s.threads[t]
      case PushLoaded(_, _, _) => LinkTail(t)
      case PopLoaded(_, _) => ReadNext(t)
      case PushLinked(_, _, _) => Swap(t)
      case PopRead(_, _, _) => Swap(t)
      case ClearLoaded(_, _) => Swap(t)
      case _ => LoadHead(t);
  }

  /** Non-blocking: among n threads some operation completes in every part of a run
      that has more than 4n steps, however they interleave and whoever stalls. */
  lemma NonBlocking(m: nat, s: State, acts: seq<Action>)
    requires m >= 1 && Possible(m, s, acts) && StepsIn(acts, s.threads.Keys) > 4 * |s.threads.Keys|
    ensures !Quiet(m, s, acts)
  {
    if Quiet(m, s, acts) {
      forall t | t in s.threads.Keys ensures StepsBy(acts, t) <= 4 { ThreadNonBlocking(m, s, acts, t); }
      StepsInBound(acts, s.threads.Keys);
    }
  }

  // ----- No element is lost or duplicated -----

  ghost function InHands(s: State): set<nat> {
    set t, e | t in s.threads && s.threads[t].Pushing() && e in s.threads[t].list :: e
  }

  ghost function Everything(s: State, stack: seq<nat>): set<nat> {
    s.owned + Elements(stack) + InHands(s)
  }

  lemma HandsKept(s: State, s': State, t: nat)
    requires t in s.threads && t in s'.threads && s'.threads == s.threads[t := s'.threads[t]]
    requires s.threads[t].Pushing() <==> s'.threads[t].Pushing()
    requires s.threads[t].Pushing() ==> s.threads[t].list == s'.threads[t].list
    ensures InHands(s') == InHands(s)
  {
    forall e | e in InHands(s) ensures e in InHands(s') {
      var u :| u in s.threads && s.threads[u].Pushing() && e in s.threads[u].list;
      assert u in s'.threads && s'.threads[u].Pushing() && e in s'.threads[u].list;
    }
    forall e | e in InHands(s') ensures e in InHands(s) {
      var u :| u in s'.threads && s'.threads[u].Pushing() && e in s'.threads[u].list;
      assert u in s.threads && s.threads[u].Pushing() && e in s.threads[u].list;
    }
  }

  /** Giving a thread a list, or taking it away, changes the hands by that list. */
  lemma HandsChanged(s: State, s': State, t: nat, l: seq<nat>)
    requires t in s.threads && t in s'.threads && s'.threads == s.threads[t := s'.threads[t]]
    requires !s.threads[t].Pushing() && s'.threads[t].Pushing() && s'.threads[t].list == l
    ensures InHands(s') == InHands(s) + Elements(l)
  {
    forall e | e in InHands(s) ensures e in InHands(s') {
      var u :| u in s.threads && s.threads[u].Pushing() && e in s.threads[u].list;
      assert u in s'.threads && s'.threads[u].Pushing() && e in s'.threads[u].list;
    }
    forall e | e in Elements(l) ensures e in InHands(s') {
      assert e in s'.threads[t].list;
    }
    forall e | e in InHands(s') && e !in Elements(l) ensures e in InHands(s) {
      var u :| u in s'.threads && s'.threads[u].Pushing() && e in s'.threads[u].list;
      assert u in s.threads && s.threads[u].Pushing() && e in s.threads[u].list;
    }
  }

  /** Elements move between the stack, clients and pushers; none appears, none
      disappears. */
  lemma StepConserves(m: nat, b: nat, s: State, stack: seq<nat>, a: Action)
    requires b < m && Inv(m, s, stack) && Enabled(s, a) && Timely(b, s, a)
    ensures Allowed(stack, LabelOf(s, a))
    ensures Everything(Apply(m, s, a), Effect(stack, LabelOf(s, a))) == Everything(s, stack)
  {
    StepLinearizes(m, b, s, stack, a);
    match a
    case BeginPush(t, l) => BeginPushConserves(m, s, stack, t, l);
    case Swap(t) =>
      if s.head != s.threads[t].copy {
        QuietStepConserves(m, s, a);
      } else {
        SwapConserves(m, s, stack, t);
      }
    case _ => QuietStepConserves(m, s, a);
  }

  /** Steps that give no element to anybody. */
  lemma QuietStepConserves(m: nat, s: State, a: Action)
    requires m >= 1 && Enabled(s, a) && !a.BeginPush? && (a.Swap? ==> s.head != s.threads[a.thread].copy)
    ensures InHands(Apply(m, s, a)) == InHands(s) && Apply(m, s, a).owned == s.owned
  {
    if a.ClientWrite? {
      assert Apply(m, s, a).threads == s.threads;
    } else {
      HandsKept(s, Apply(m, s, a), a.thread);
    }
  }

  lemma BeginPushConserves(m: nat, s: State, stack: seq<nat>, t: nat, l: seq<nat>)
    requires m >= 1 && Enabled(s, BeginPush(t, l))
    ensures Everything(Apply(m, s, BeginPush(t, l)), stack) == Everything(s, stack)
  {
    HandsChanged(s, Apply(m, s, BeginPush(t, l)), t, l);
  }

  lemma SwapConserves(m: nat, s: State, stack: seq<nat>, t: nat)
    requires m >= 1 && Inv(m, s, stack) && Enabled(s, Swap(t))
    requires s.head == s.threads[t].copy && Allowed(stack, LabelOf(s, Swap(t)))
    ensures Everything(Apply(m, s, Swap(t)), Effect(stack, LabelOf(s, Swap(t)))) == Everything(s, stack)
  {
    var s', pc := Apply(m, s, Swap(t)), s.threads[t];
    match pc
    case PushLinked(l, _, _) =>
      HandsChanged(s', s, t, l);
      assert Elements(l + stack) == Elements(l) + Elements(stack);
    case PopRead(copy, _, _) =>
      HandsKept(s, s', t);
      assert stack == [copy.index] + stack[1..];
      assert Elements(stack) == {copy.index} + Elements(stack[1..]);
    case ClearLoaded(_, _) =>
      HandsKept(s, s', t);
      assert Elements([]) == {};
  }

  lemma {:induction false} RunConserves(m: nat, b: nat, s: State, stack: seq<nat>, acts: seq<Action>)
    requires b < m && Inv(m, s, stack) && Possible(m, s, acts) && AllTimely(m, b, s, acts)
    ensures var (s', labels) := Execute(m, s, acts);
            Legal(stack, labels) && Everything(s', Final(stack, labels)) == Everything(s, stack)
    decreases |acts|
  {
    Linearizable(m, b, s, stack, acts);
    if acts != [] {
      StepLinearizes(m, b, s, stack, acts[0]);
      StepConserves(m, b, s, stack, acts[0]);
      var l := LabelOf(s, acts[0]);
      var rest := Execute(m, Apply(m, s, acts[0]), acts[1..]).1;
      RunConserves(m, b, Apply(m, s, acts[0]), Effect(stack, l), acts[1..]);
      assert ([l] + rest)[1..] == rest;
    }
  }

  // ----- Building runs from whole operations -----

  /** Some run from the constructed queue leads to s, with a history that is legal
      so far and leaves the given stack. */
  ghost predicate Leads(m: nat, b: nat, start: State, acts: seq<Action>, s: State, stack: seq<nat>)
    requires m >= 1
  {
    && Possible(m, start, acts) && AllTimely(m, b, start, acts)
    && var (end, labels) := Execute(m, start, acts);
       end == s && Legal([], labels) && Final([], labels) == stack
  }

  ghost predicate Reachable(m: nat, b: nat, s: State, stack: seq<nat>)
    requires m >= 1
  {
    exists start: State, acts: seq<Action> :: Constructed(start) && Leads(m, b, start, acts, s, stack)
  }

  lemma {:induction false} OneMore(m: nat, b: nat, start: State, acts: seq<Action>, a: Action)
    requires m >= 1 && Possible(m, start, acts) && AllTimely(m, b, start, acts)
    requires var s := Execute(m, start, acts).0; Enabled(s, a) && Timely(b, s, a)
    ensures Possible(m, start, acts + [a]) && AllTimely(m, b, start, acts + [a])
    ensures var (s, labels) := Execute(m, start, acts);
            Execute(m, start, acts + [a]) == (Apply(m, s, a), labels + [LabelOf(s, a)])
    decreases |acts|
  {
    if acts == [] {
      assert [a][1..] == [] && acts + [a] == [a];
      assert Execute(m, Apply(m, start, a), []) == (Apply(m, start, a), []);
      assert [] + [LabelOf(start, a)] == [LabelOf(start, a)] + [];
    } else {
      assert (acts + [a])[1..] == acts[1..] + [a];
      OneMore(m, b, Apply(m, start, acts[0]), acts[1..], a);
      var rest := Execute(m, Apply(m, start, acts[0]), acts[1..]).1;
      var s := Execute(m, start, acts).0;
      assert [LabelOf(start, acts[0])] + (rest + [LabelOf(s, a)]) == ([LabelOf(start, acts[0])] + rest) + [LabelOf(s, a)];
    }
  }

  lemma {:induction false} LegalMore(stack: seq<nat>, labels: seq<Label>, l: Label)
    requires Legal(stack, labels)
    ensures Legal(stack, labels + [l]) <==> Allowed(Final(stack, labels), l)
    ensures Allowed(Final(stack, labels), l) ==> Final(stack, labels + [l]) == Effect(Final(stack, labels), l)
    decreases |labels|
  {
    if labels == [] {
      assert [l][1..] == [] && labels + [l] == [l];
    } else {
      assert (labels + [l])[1..] == labels[1..] + [l];
      LegalMore(Effect(stack, labels[0]), labels[1..], l);
    }
  }

  /** One more step of a run: a legal one leads on, another refutes linearizability. */
  lemma Extend(m: nat, b: nat, s: State, stack: seq<nat>, a: Action)
    requires m >= 1 && Reachable(m, b, s, stack) && Enabled(s, a) && Timely(b, s, a)
    ensures if Allowed(stack, LabelOf(s, a)) then Reachable(m, b, Apply(m, s, a), Effect(stack, LabelOf(s, a)))
            else !AlwaysLinearizable(m, b)
  {
    var start: State, acts: seq<Action> :| Constructed(start) && Leads(m, b, start, acts, s, stack);
    OneMore(m, b, start, acts, a);
    LegalMore([], Execute(m, start, acts).1, LabelOf(s, a));
    if Allowed(stack, LabelOf(s, a)) {
      assert Leads(m, b, start, acts + [a], Apply(m, s, a), Effect(stack, LabelOf(s, a)));
    }
  }

  /** A step that is possible, timely and, for the given stack, legal. */
  ghost predicate Fine(b: nat, s: State, stack: seq<nat>, a: Action) {
    Enabled(s, a) && Timely(b, s, a) && Allowed(stack, LabelOf(s, a))
  }

  /** A claim about states and stacks that every such step carries on, as being
      reachable is. The lemmas below need no more of it. */
  ghost predicate CarriedOn(m: nat, b: nat, reached: (State, seq<nat>) -> bool)
    requires m >= 1
  {
    forall s: State, stack: seq<nat>, a: Action {:trigger Fine(b, s, stack, a)} ::
      reached(s, stack) && Fine(b, s, stack, a) ==> reached(Apply(m, s, a), Effect(stack, LabelOf(s, a)))
  }

  lemma Then(m: nat, b: nat, reached: (State, seq<nat>) -> bool, s: State, stack: seq<nat>, a: Action, s': State, stack': seq<nat>)
    requires m >= 1 && CarriedOn(m, b, reached) && reached(s, stack)
    requires Enabled(s, a) && Timely(b, s, a) && Apply(m, s, a) == s'
    requires Allowed(stack, LabelOf(s, a)) && Effect(stack, LabelOf(s, a)) == stack'
    ensures reached(s', stack')
  {
    assert Fine(b, s, stack, a);
  }

  ghost function To(s: State, t: nat, pc: Pc): State { s.(threads := s.threads[t := pc]) }

  /** The queue after an undisturbed operation: every swap moves the counter. */
  ghost function Swapped(m: nat, s: State, index: nat, next: map<nat, nat>, owned: set<nat>): State
    requires m >= 1
  {
    State(Head(index, (s.head.counter + 1) % m), next, s.threads, s.swaps + 1, owned)
  }

  lemma DoPush(m: nat, b: nat, reached: (State, seq<nat>) -> bool, s: State, stack: seq<nat>, t: nat, l: seq<nat>)
    requires m >= 1 && CarriedOn(m, b, reached) && reached(s, stack) && Enabled(s, BeginPush(t, l))
    ensures reached(Swapped(m, s, l[0], s.next[Last(l) := s.head.index], s.owned - Elements(l)), l + stack)
  {
    var s1 := To(s, t, PushStart(l)).(owned := s.owned - Elements(l));
    Then(m, b, reached, s, stack, BeginPush(t, l), s1, stack);
    var s2 := To(s1, t, PushLoaded(l, s.head, s.swaps));
    Then(m, b, reached, s1, stack, LoadHead(t), s2, stack);
    var s3 := To(s2, t, PushLinked(l, s.head, s.swaps)).(next := s.next[Last(l) := s.head.index]);
    Then(m, b, reached, s2, stack, LinkTail(t), s3, stack);
    var s4 := Swapped(m, s, l[0], s3.next, s1.owned);
    assert s3.threads[t := Idle] == s.threads;
    assert Apply(m, s3, Swap(t)) == s4;
    Then(m, b, reached, s3, stack, Swap(t), s4, l + stack);
  }

  /** A pop up to its swap. */
  lemma StartPop(m: nat, b: nat, reached: (State, seq<nat>) -> bool, s: State, stack: seq<nat>, t: nat)
    requires m >= 1 && CarriedOn(m, b, reached) && reached(s, stack) && Enabled(s, BeginPop(t)) && s.head.index != 0 && s.head.index in s.next
    ensures reached(To(s, t, PopRead(s.head, s.next[s.head.index], s.swaps)), stack)
  {
    var s1, s2 := To(s, t, PopStart), To(s, t, PopLoaded(s.head, s.swaps));
    Then(m, b, reached, s, stack, BeginPop(t), s1, stack);
    assert s1.threads[t := PopLoaded(s.head, s.swaps)] == s2.threads;
    Then(m, b, reached, s1, stack, LoadHead(t), s2, stack);
    var s3 := To(s, t, PopRead(s.head, s.next[s.head.index], s.swaps));
    assert s2.threads[t := s3.threads[t]] == s3.threads;
    Then(m, b, reached, s2, stack, ReadNext(t), s3, stack);
  }

  lemma DoPop(m: nat, b: nat, reached: (State, seq<nat>) -> bool, s: State, stack: seq<nat>, t: nat)
    requires m >= 1 && CarriedOn(m, b, reached) && reached(s, stack) && Enabled(s, BeginPop(t)) && s.head.index != 0 && s.head.index in s.next
    requires stack != [] && stack[0] == s.head.index
    ensures reached(Swapped(m, s, s.next[s.head.index], s.next, s.owned + {s.head.index}), stack[1..])
  {
    StartPop(m, b, reached, s, stack, t);
    var s1 := To(s, t, PopRead(s.head, s.next[s.head.index], s.swaps));
    assert s1.threads[t := Idle] == s.threads;
    Then(m, b, reached, s1, stack, Swap(t), Swapped(m, s, s.next[s.head.index], s.next, s.owned + {s.head.index}), stack[1..]);
  }

  /** A clear up to its swap, which hands out what memory holds. */
  lemma StartClear(m: nat, b: nat, reached: (State, seq<nat>) -> bool, s: State, stack: seq<nat>, t: nat, held: seq<nat>)
    requires m >= 1 && CarriedOn(m, b, reached) && reached(s, stack) && Enabled(s, BeginClear(t)) && IsChain(s.next, s.head.index, held)
    ensures var s2 := To(s, t, ClearLoaded(s.head, s.swaps));
            reached(s2, stack) && LabelOf(s2, Swap(t)) == Cleared(held)
  {
    var s1, s2 := To(s, t, ClearStart), To(s, t, ClearLoaded(s.head, s.swaps));
    Then(m, b, reached, s, stack, BeginClear(t), s1, stack);
    assert s1.threads[t := ClearLoaded(s.head, s.swaps)] == s2.threads;
    Then(m, b, reached, s1, stack, LoadHead(t), s2, stack);
    ChainUnique(s.next, s.head.index, held, ListAt(s.next, s.head.index));
  }

  lemma DoClear(m: nat, b: nat, reached: (State, seq<nat>) -> bool, s: State, stack: seq<nat>, t: nat)
    requires m >= 1 && CarriedOn(m, b, reached) && reached(s, stack) && Enabled(s, BeginClear(t)) && IsChain(s.next, s.head.index, stack)
    ensures reached(Swapped(m, s, 0, s.next, s.owned + Elements(stack)), [])
  {
    StartClear(m, b, reached, s, stack, t, stack);
    var s2 := To(s, t, ClearLoaded(s.head, s.swaps));
    assert s2.threads[t := Idle] == s.threads;
    Then(m, b, reached, s2, stack, Swap(t), Swapped(m, s, 0, s.next, s.owned + Elements(stack)), []);
  }

  // ----- The bound on stalls is exact -----

  ghost function Threads(pc: Pc): map<nat, Pc> { map[0 := pc, 1 := Idle] }

  /** Thread 0 has read the head of [1, 2] and stalls; thread 1 has since cleared
      the stack, pushed 1 back, and done k rounds of pushing and popping 3. */
  ghost function Stalled(m: nat, k: nat): State
    requires m >= 2
  {
    State(Head(1, (3 + 2 * k) % m), map[1 := 0, 2 := 0, 3 := 1], Threads(PopRead(Head(1, 1), 2, 1)), 3 + 2 * k, {2, 3})
  }

  ghost function Beginning(): State {
    State(Head(0, 0), map[1 := 2, 2 := 0, 3 := 1], Threads(Idle), 0, {1, 2, 3})
  }

  lemma ReachStalled(m: nat, b: nat, reached: (State, seq<nat>) -> bool)
    requires m >= 2 && CarriedOn(m, b, reached) && reached(Beginning(), [])
    ensures reached(Stalled(m, 0), [1])
  {
    var s0, next := Beginning(), Beginning().next;
    DoPush(m, b, reached, s0, [], 1, [1, 2]);
    assert [1, 2] + [] == [1, 2] && s0.owned - Elements([1, 2]) == {3} && next[2 := 0] == next;
    var s1 := State(Head(1, 1), next, Threads(Idle), 1, {3});
    StartPop(m, b, reached, s1, [1, 2], 0);
    var s2 := s1.(threads := Threads(PopRead(Head(1, 1), 2, 1)));
    assert s1.threads[0 := PopRead(Head(1, 1), 2, 1)] == s2.threads;
    ClearAndPushBack(m, b, reached, s2);
  }

  lemma ClearAndPushBack(m: nat, b: nat, reached: (State, seq<nat>) -> bool, s2: State)
    requires m >= 2 && CarriedOn(m, b, reached) && reached(s2, [1, 2])
    requires s2 == State(Head(1, 1), map[1 := 2, 2 := 0, 3 := 1], Threads(PopRead(Head(1, 1), 2, 1)), 1, {3})
    ensures reached(Stalled(m, 0), [1])
  {
    assert IsChain(s2.next, 1, [1, 2]) by {
      assert [1, 2][1..] == [2] && [2][1..] == [];
    }
    DoClear(m, b, reached, s2, [1, 2], 1);
    assert Elements([1, 2]) == {1, 2};
    var s3 := State(Head(0, 2 % m), s2.next, s2.threads, 2, {1, 2, 3});
    assert s3 == Swapped(m, s2, 0, s2.next, s2.owned + Elements([1, 2]));
    DoPush(m, b, reached, s3, [], 1, [1]);
    NextCounter(2, m);
    assert s3.owned - Elements([1]) == {2, 3} && [1] + [] == [1];
    assert s3.next[1 := 0] == map[1 := 0, 2 := 0, 3 := 1];
    assert Swapped(m, s3, 1, s3.next[1 := 0], {2, 3}) == Stalled(m, 0);
  }

  /** Pushing and popping element 3 moves only the counter. */
  lemma Round(m: nat, b: nat, reached: (State, seq<nat>) -> bool, k: nat)
    requires m >= 2 && CarriedOn(m, b, reached) && reached(Stalled(m, k), [1])
    ensures reached(Stalled(m, k + 1), [1])
  {
    var s := Stalled(m, k);
    DoPush(m, b, reached, s, [1], 1, [3]);
    NextCounter(s.swaps, m);
    assert s.owned - Elements([3]) == {2} && [3] + [1] == [3, 1] && s.next[3 := 1] == s.next;
    var s1 := State(Head(3, (4 + 2 * k) % m), s.next, s.threads, 4 + 2 * k, {2});
    assert s1 == Swapped(m, s, 3, s.next, {2});
    DoPop(m, b, reached, s1, [3, 1], 1);
    NextCounter(s1.swaps, m);
    assert [3, 1][1..] == [1] && s1.next[3] == 1 && s1.owned + {3} == {2, 3};
    assert 5 + 2 * k == 3 + 2 * (k + 1);
    assert Swapped(m, s1, 1, s.next, {2, 3}) == Stalled(m, k + 1);
  }

  lemma {:induction false} Rounds(m: nat, b: nat, reached: (State, seq<nat>) -> bool, k: nat)
    requires m >= 2 && CarriedOn(m, b, reached) && reached(Beginning(), [])
    ensures reached(Stalled(m, k), [1])
  {
    if k == 0 {
      ReachStalled(m, b, reached);
    } else {
      Rounds(m, b, reached, k - 1);
      Round(m, b, reached, k - 1);
    }
  }

  /** For every even counter range a pop that stalls for just one wrap of the
      counter can pop the stack into an element that a client owns: the next clear
      hands out an element that is not on the stack. */
  lemma StallOfOneWrapBreaks(m: nat, h: nat, b: nat)
    requires h >= 1 && m == 2 * h && b >= m
    ensures !AlwaysLinearizable(m, b)
  {
    var reached := (s: State, stack: seq<nat>) => Reachable(m, b, s, stack);
    ReachableCarriedOn(m, b);
    assert Leads(m, b, Beginning(), [], Beginning(), []);
    Rounds(m, b, reached, h - 1);
    DivideUnique(m + 1, m, 1, 1);
    var s' := AfterStall(m, b, reached, Stalled(m, h - 1));
    assert IsChain(s'.next, 2, [2]) by { assert [2][1..] == []; }
    StartClear(m, b, reached, s', [], 1, [2]);
    Extend(m, b, To(s', 1, ClearLoaded(s'.head, s'.swaps)), [], Swap(1));
  }

  lemma ReachableCarriedOn(m: nat, b: nat)
    requires m >= 1
    ensures CarriedOn(m, b, (s: State, stack: seq<nat>) => Reachable(m, b, s, stack))
  {
    forall s: State, stack: seq<nat>, a: Action | Reachable(m, b, s, stack) && Fine(b, s, stack, a)
      ensures Reachable(m, b, Apply(m, s, a), Effect(stack, LabelOf(s, a)))
    {
      Extend(m, b, s, stack, a);
    }
  }

  /** The stalled pop's swap goes through. */
  lemma AfterStall(m: nat, b: nat, reached: (State, seq<nat>) -> bool, s: State) returns (s': State)
    requires m >= 2 && b >= m && CarriedOn(m, b, reached) && reached(s, [1])
    requires s == State(Head(1, 1), map[1 := 0, 2 := 0, 3 := 1], Threads(PopRead(Head(1, 1), 2, 1)), m + 1, {2, 3})
    ensures reached(s', []) && s'.head.index == 2 && s'.next == s.next && s'.threads == Threads(Idle)
  {
    s' := State(Head(2, 2 % m), s.next, Threads(Idle), m + 2, {1, 2, 3});
    assert s.threads[0 := Idle] == Threads(Idle) && s.owned + {1} == {1, 2, 3};
    assert [1][1..] == [];
    assert Apply(m, s, Swap(0)) == s';
    Then(m, b, reached, s, [1], Swap(0), s', []);
  }

  /** The documented bound is exact for every counter width: all runs of a
      constructed queue whose pops stall for at most b swaps are linearizable if
      and only if b is below 2^CounterBits. */
  lemma StallBoundIff(counterBits: nat, m: nat, b: nat)
    requires counterBits >= 1 && m == Pow2(counterBits)
    ensures AlwaysLinearizable(m, b) <==> b < m
  {
    if b < m {
      forall s: State, acts: seq<Action> | Constructed(s) && Possible(m, s, acts) && AllTimely(m, b, s, acts)
        ensures Legal([], Execute(m, s, acts).1)
      {
        ConstructedOk(m, s);
        Linearizable(m, b, s, [], acts);
      }
    } else {
      StallOfOneWrapBreaks(m, Pow2(counterBits - 1), b);
    }
  }
}
