/** The non-blocking LIFO queue of atomic/lifo-ptr.hpp as a state machine: a pop
    marks the head word with an identifier of its own before it reads behind it.
    The stack it implements is the one of LifoStack; whole runs, in which the
    identifiers come from the identifier set, are in LifoQueue. */
module LifoPtr {
  import L = LifoStack

  /** The head word: an element and the identifier in the pointer's low bits. */
  datatype Word = Word(index: nat, id: nat)

  datatype Pc =
    | Idle
    | PushStart(list: seq<nat>)
    | PushLoaded(list: seq<nat>, copy: Word)
    | PushLinked(list: seq<nat>, copy: Word)
    | PopStart(id: nat)
    | PopLoaded(id: nat, copy: Word)
    | PopMarked(id: nat, index: nat)
    | PopRead(id: nat, index: nat, next: nat)
    | ClearStart
    | ClearLoaded(copy: Word)
  {
    predicate Pushing() { PushStart? || PushLoaded? || PushLinked? }
    predicate Popping() { PopStart? || PopLoaded? || PopMarked? || PopRead? }
    predicate Marked() { PopMarked? || PopRead? }
    predicate AtSwap() { PushLinked? || PopRead? || ClearLoaded? }
  }

  /** `owned` is history: the elements in clients' hands. */
  datatype State = State(head: Word, next: map<nat, nat>, threads: map<nat, Pc>, owned: set<nat>)

  datatype Action =
    | BeginPush(thread: nat, list: seq<nat>)
    | BeginPop(thread: nat, id: nat)      // with the identifier GetID returned
    | BeginClear(thread: nat)
    | LoadHead(thread: nat)
    | LinkTail(thread: nat)
    | Mark(thread: nat)
    | ReadNext(thread: nat)
    | Swap(thread: nat)
    | ClientWrite(element: nat, value: nat)

  ghost predicate Enabled(s: State, a: Action) {
    match a
    case BeginPush(t, l) =>
      && t in s.threads && s.threads[t].Idle?
      && l != [] && L.NoDup(l) && L.Linked(s.next, l) && (forall e :: e in l ==> e in s.owned)
    case BeginPop(t, id) => t in s.threads && s.threads[t].Idle? && id != 0
    case BeginClear(t) => t in s.threads && s.threads[t].Idle?
    case LoadHead(t) => t in s.threads && (s.threads[t].PushStart? || s.threads[t].PopStart? || s.threads[t].ClearStart?)
    case LinkTail(t) => t in s.threads && s.threads[t].PushLoaded? && s.threads[t].list != []
    case Mark(t) => t in s.threads && s.threads[t].PopLoaded?
    case ReadNext(t) => t in s.threads && s.threads[t].PopMarked? && s.threads[t].index in s.next
    case Swap(t) => t in s.threads && s.threads[t].AtSwap()
    case ClientWrite(e, _) => e in s.owned
  }

  function To(s: State, t: nat, pc: Pc): State {
    s.(threads := s.threads[t := pc])
  }

  /** The word a swap expects to find. */
  function Expected(pc: Pc): Word
    requires pc.AtSwap()
  {
    if pc.PopRead? then Word(pc.index, pc.id) else pc.copy
  }

  ghost function Apply(s: State, a: Action): State
    requires Enabled(s, a)
  {
    match a
    case BeginPush(t, l) => To(s, t, PushStart(l)).(owned := s.owned - L.Elements(l))
    case BeginPop(t, id) => To(s, t, PopStart(id))
    case BeginClear(t) => To(s, t, ClearStart)
    case LoadHead(t) =>
      (match s.threads[t]
       case PushStart(l) => To(s, t, PushLoaded(l, s.head))
       case PopStart(id) => To(s, t, if s.head == Word(0, 0) then Idle else PopLoaded(id, s.head))
       case _ => To(s, t, ClearLoaded(s.head)))
    case LinkTail(t) =>
      var pc := s.threads[t];
      To(s, t, PushLinked(pc.list, pc.copy)).(next := s.next[L.Last(pc.list) := pc.copy.index])
    case Mark(t) =>
      var pc := s.threads[t];
      if s.head == pc.copy then To(s, t, PopMarked(pc.id, pc.copy.index)).(head := Word(pc.copy.index, pc.id))
      else To(s, t, PopStart(pc.id))
    case ReadNext(t) =>
      var pc := s.threads[t];
      To(s, t, PopRead(pc.id, pc.index, s.next[pc.index]))
    case Swap(t) =>
      var pc := s.threads[t];
      if s.head == Expected(pc) then
        (match pc
         case PushLinked(l, _) => To(s, t, Idle).(head := Word(if l == [] then 0 else l[0], 0))
         case PopRead(_, x, n) => To(s, t, Idle).(head := Word(n, 0), owned := s.owned + {x})
         case ClearLoaded(c) => To(s, t, Idle).(head := Word(0, 0), owned := s.owned + L.Elements(L.ListAt(s.next, c.index))))
      else
        (match pc
         case PushLinked(l, _) => To(s, t, PushStart(l))
         case PopRead(id, _, _) => To(s, t, PopStart(id))
         case ClearLoaded(_) => To(s, t, ClearStart))
    case ClientWrite(e, v) => s.(next := s.next[e := v])
  }

  ghost function LabelOf(s: State, a: Action): L.Label
    requires Enabled(s, a)
  {
    match a
    case LoadHead(t) => if s.threads[t].PopStart? && s.head == Word(0, 0) then L.PoppedEmpty else L.Internal
    case Swap(t) =>
      var pc := s.threads[t];
      if s.head != Expected(pc) then L.Internal
      else (match pc
        case PushLinked(l, _) => L.Pushed(l)
        case PopRead(_, x, _) => L.Popped(x)
        case ClearLoaded(c) => L.Cleared(L.ListAt(s.next, c.index)))
    case _ => L.Internal
  }

  /** A pop begins with an identifier that no other pop in progress has. */
  ghost predicate FreshId(s: State, a: Action) {
    a.BeginPop? ==> forall t :: t in s.threads && s.threads[t].Popping() ==> s.threads[t].id != a.id
  }

  // ----- The invariant -----

  ghost predicate ListOk(s: State, stack: seq<nat>, pc: Pc) {
    pc.Pushing() ==>
      && pc.list != [] && L.NoDup(pc.list) && L.Linked(s.next, pc.list)
      && (forall e :: e in pc.list ==> e != 0 && e !in stack && e !in s.owned)
      && (pc.PushLinked? ==> s.next[L.Last(pc.list)] == pc.copy.index)
  }

  /** A thread whose identifier is on the head has marked it and nobody has
      touched it since: what it read is still there. */
  ghost predicate MarkOk(s: State, pc: Pc) {
    pc.Popping() ==>
      && pc.id != 0
      && (pc.PopLoaded? ==> pc.copy != Word(0, 0))
      && (pc.id == s.head.id ==>
          pc.Marked() && pc.index == s.head.index && pc.index in s.next && (pc.PopRead? ==> pc.next == s.next[pc.index]))
  }

  ghost predicate Inv(s: State, stack: seq<nat>) {
    && L.IsChain(s.next, s.head.index, stack) && L.NoDup(stack)
    && (forall e :: e in stack ==> e !in s.owned)
    && (forall e :: e in s.owned ==> e != 0 && e in s.next)
    && (s.head.id != 0 ==> s.head.index != 0 && Marker(s))
    && (forall t :: t in s.threads ==> ListOk(s, stack, s.threads[t]) && MarkOk(s, s.threads[t]))
    && ListsApart(s) && IdsApart(s)
  }

  /** The identifier on the head belongs to a pop that has marked it. */
  ghost predicate Marker(s: State) {
    exists t :: t in s.threads && s.threads[t].Marked() && s.threads[t].id == s.head.id
  }

  ghost predicate ListsApart(s: State) {
    forall t, u :: t in s.threads && u in s.threads && t != u && s.threads[t].Pushing() && s.threads[u].Pushing() ==>
      L.Apart(s.threads[t].list, s.threads[u].list)
  }

  ghost predicate IdsApart(s: State) {
    forall t, u :: t in s.threads && u in s.threads && t != u && s.threads[t].Popping() && s.threads[u].Popping() ==>
      s.threads[t].id != s.threads[u].id
  }

  // ----- Every step keeps the invariant -----

  /** Moving one thread without touching memory or the head. */
  lemma PcStep(s: State, stack: seq<nat>, t: nat, pc: Pc)
    requires Inv(s, stack) && t in s.threads && ListOk(s, stack, pc) && MarkOk(s, pc)
    requires pc.Pushing() ==> s.threads[t].Pushing() && pc.list == s.threads[t].list
    requires pc.Popping() ==> forall u :: u in s.threads && u != t && s.threads[u].Popping() ==> s.threads[u].id != pc.id
    requires s.threads[t].Marked() && s.threads[t].id == s.head.id ==> pc.Marked() && pc.id == s.head.id
    ensures Inv(To(s, t, pc), stack)
  {
    var s' := To(s, t, pc);
    forall u | u in s'.threads ensures ListOk(s', stack, s'.threads[u]) && MarkOk(s', s'.threads[u]) {
      if u != t { assert ListOk(s, stack, s.threads[u]) && MarkOk(s, s.threads[u]); }
    }
    if s.head.id != 0 {
      var u :| u in s.threads && s.threads[u].Marked() && s.threads[u].id == s.head.id;
      assert u in s'.threads && s'.threads[u].Marked() && s'.threads[u].id == s'.head.id;
    }
  }

  lemma BeginPushStep(s: State, stack: seq<nat>, t: nat, l: seq<nat>)
    requires Inv(s, stack) && Enabled(s, BeginPush(t, l))
    ensures Inv(Apply(s, BeginPush(t, l)), stack)
  {
    var s' := Apply(s, BeginPush(t, l));
    forall u | u in s'.threads ensures ListOk(s', stack, s'.threads[u]) && MarkOk(s', s'.threads[u]) {
      if u != t { assert ListOk(s, stack, s.threads[u]) && MarkOk(s, s.threads[u]); }
    }
    forall u | u in s.threads && u != t && s.threads[u].Pushing() ensures L.Apart(s.threads[u].list, l) && L.Apart(l, s.threads[u].list) {
      assert ListOk(s, stack, s.threads[u]);
    }
    if s.head.id != 0 {
      var u :| u in s.threads && s.threads[u].Marked() && s.threads[u].id == s.head.id;
      assert u in s'.threads && s'.threads[u].Marked() && s'.threads[u].id == s'.head.id;
    }
  }

  lemma LoadStep(s: State, stack: seq<nat>, t: nat)
    requires Inv(s, stack) && Enabled(s, LoadHead(t))
    ensures L.Allowed(stack, LabelOf(s, LoadHead(t))) && Inv(Apply(s, LoadHead(t)), stack)
  {
    assert ListOk(s, stack, s.threads[t]) && MarkOk(s, s.threads[t]);
    L.ChainElements(s.next, s.head.index, stack);
    PcStep(s, stack, t, Apply(s, LoadHead(t)).threads[t]);
  }

  /** A write outside the stack and outside a thread's list does not concern it. */
  lemma ThreadIgnoresWrite(s: State, stack: seq<nat>, pc: Pc, e: nat, v: nat)
    requires ListOk(s, stack, pc) && MarkOk(s, pc) && L.IsChain(s.next, s.head.index, stack)
    requires s.head.id != 0 ==> s.head.index != 0
    requires e !in stack && (pc.Pushing() ==> e !in pc.list)
    ensures var s' := s.(next := s.next[e := v]); ListOk(s', stack, pc) && MarkOk(s', pc)
  {
    if pc.Pushing() { assert forall k :: 0 <= k < |pc.list| ==> pc.list[k] in pc.list; }
    L.ChainElements(s.next, s.head.index, stack);
    if stack != [] { assert stack[0] in stack; }
  }

  lemma WriteStep(s: State, stack: seq<nat>, e: nat, v: nat)
    requires Inv(s, stack) && Enabled(s, ClientWrite(e, v))
    ensures Inv(Apply(s, ClientWrite(e, v)), stack)
  {
    var s' := Apply(s, ClientWrite(e, v));
    L.ChainKept(s.next, s.head.index, stack, e, v);
    forall u | u in s'.threads ensures ListOk(s', stack, s'.threads[u]) && MarkOk(s', s'.threads[u]) {
      assert ListOk(s, stack, s.threads[u]) && MarkOk(s, s.threads[u]);
      ThreadIgnoresWrite(s, stack, s.threads[u], e, v);
    }
    if s.head.id != 0 {
      var u :| u in s.threads && s.threads[u].Marked() && s.threads[u].id == s.head.id;
      assert u in s'.threads && s'.threads[u].Marked() && s'.threads[u].id == s'.head.id;
    }
  }

  lemma LinkStep(s: State, stack: seq<nat>, t: nat)
    requires Inv(s, stack) && Enabled(s, LinkTail(t))
    ensures Inv(Apply(s, LinkTail(t)), stack)
  {
    var s', pc := Apply(s, LinkTail(t)), s.threads[t];
    assert ListOk(s, stack, pc);
    var e := L.Last(pc.list);
    assert e in pc.list;
    L.ChainKept(s.next, s.head.index, stack, e, pc.copy.index);
    forall u | u in s'.threads ensures ListOk(s', stack, s'.threads[u]) && MarkOk(s', s'.threads[u]) {
      if u != t {
        assert ListOk(s, stack, s.threads[u]) && MarkOk(s, s.threads[u]);
        if s.threads[u].Pushing() { assert L.Apart(pc.list, s.threads[u].list); }
        ThreadIgnoresWrite(s, stack, s.threads[u], e, pc.copy.index);
      }
    }
    if s.head.id != 0 {
      var u :| u in s.threads && s.threads[u].Marked() && s.threads[u].id == s.head.id;
      assert u in s'.threads && s'.threads[u].Marked() && s'.threads[u].id == s'.head.id;
    }
  }

  /** Marking changes the head word but not the stack, and unmarks everyone else. */
  lemma MarkStep(s: State, stack: seq<nat>, t: nat)
    requires Inv(s, stack) && Enabled(s, Mark(t))
    ensures Inv(Apply(s, Mark(t)), stack)
  {
    var s', pc := Apply(s, Mark(t)), s.threads[t];
    assert ListOk(s, stack, pc) && MarkOk(s, pc);
    if s.head != pc.copy {
      PcStep(s, stack, t, PopStart(pc.id));
    } else {
      L.ChainElements(s.next, s.head.index, stack);
      assert s.head.index != 0;
      assert stack[0] in stack;
      forall u | u in s'.threads ensures ListOk(s', stack, s'.threads[u]) && MarkOk(s', s'.threads[u]) {
        if u != t { assert ListOk(s, stack, s.threads[u]) && MarkOk(s, s.threads[u]); }
      }
      assert t in s'.threads && s'.threads[t].Marked() && s'.threads[t].id == s'.head.id;
    }
  }

  lemma ReadStep(s: State, stack: seq<nat>, t: nat)
    requires Inv(s, stack) && Enabled(s, ReadNext(t))
    ensures Inv(Apply(s, ReadNext(t)), stack)
  {
    assert ListOk(s, stack, s.threads[t]) && MarkOk(s, s.threads[t]);
    PcStep(s, stack, t, Apply(s, ReadNext(t)).threads[t]);
  }

  lemma FailedSwapStep(s: State, stack: seq<nat>, t: nat)
    requires Inv(s, stack) && Enabled(s, Swap(t)) && s.head != Expected(s.threads[t])
    ensures Inv(Apply(s, Swap(t)), stack)
  {
    assert ListOk(s, stack, s.threads[t]) && MarkOk(s, s.threads[t]);
    PcStep(s, stack, t, Apply(s, Swap(t)).threads[t]);
  }

  /** A successful swap leaves an unmarked head that spells the new stack. */
  lemma SwapStep(s: State, stack: seq<nat>, t: nat, stack': seq<nat>)
    requires Inv(s, stack) && Enabled(s, Swap(t)) && s.head == Expected(s.threads[t])
    requires var s' := Apply(s, Swap(t));
             && L.IsChain(s.next, s'.head.index, stack') && L.NoDup(stack')
             && (forall e :: e in stack' ==> e !in s'.owned)
             && (forall e :: e in s'.owned ==> e in s.owned || e in stack)
             && (forall e :: e in stack' ==> e in stack || (s.threads[t].PushLinked? && e in s.threads[t].list))
    ensures Inv(Apply(s, Swap(t)), stack')
  {
    var s', pc := Apply(s, Swap(t)), s.threads[t];
    L.ChainElements(s.next, s.head.index, stack);
    forall u | u in s'.threads ensures ListOk(s', stack', s'.threads[u]) && MarkOk(s', s'.threads[u]) {
      if u != t {
        assert ListOk(s, stack, s.threads[u]) && MarkOk(s, s.threads[u]);
        if s.threads[u].Pushing() && pc.PushLinked? { assert L.Apart(s.threads[u].list, pc.list); }
      }
    }
  }

  lemma PushSwapStep(s: State, stack: seq<nat>, t: nat)
    requires Inv(s, stack) && Enabled(s, Swap(t)) && s.threads[t].PushLinked? && s.head == Expected(s.threads[t])
    ensures Inv(Apply(s, Swap(t)), s.threads[t].list + stack)
  {
    var l := s.threads[t].list;
    assert ListOk(s, stack, s.threads[t]);
    L.ChainExtended(s.next, l, s.head.index, stack);
    L.NoDupConcat(l, stack);
    SwapStep(s, stack, t, l + stack);
  }

  lemma PopSwapStep(s: State, stack: seq<nat>, t: nat)
    requires Inv(s, stack) && Enabled(s, Swap(t)) && s.threads[t].PopRead? && s.head == Expected(s.threads[t])
    ensures stack != [] && stack[0] == s.threads[t].index
    ensures Inv(Apply(s, Swap(t)), stack[1..])
  {
    assert MarkOk(s, s.threads[t]);
    L.ChainElements(s.next, s.head.index, stack);
    L.TailApart(stack);
    assert stack[0] in stack;
    SwapStep(s, stack, t, stack[1..]);
  }

  lemma ClearSwapStep(s: State, stack: seq<nat>, t: nat)
    requires Inv(s, stack) && Enabled(s, Swap(t)) && s.threads[t].ClearLoaded? && s.head == Expected(s.threads[t])
    ensures L.ListAt(s.next, s.threads[t].copy.index) == stack
    ensures Inv(Apply(s, Swap(t)), [])
  {
    L.ChainUnique(s.next, s.head.index, stack, L.ListAt(s.next, s.head.index));
    SwapStep(s, stack, t, []);
  }

  /** Each atomic step does to the visible stack what its label says, provided that
      pops begin with fresh identifiers; LifoQueue shows when they do. */
  lemma StepLinearizes(s: State, stack: seq<nat>, a: Action)
    requires Inv(s, stack) && Enabled(s, a) && FreshId(s, a)
    ensures L.Allowed(stack, LabelOf(s, a))
    ensures Inv(Apply(s, a), L.Effect(stack, LabelOf(s, a)))
  {
    match a
    case BeginPush(t, l) => BeginPushStep(s, stack, t, l);
    case BeginPop(t, id) => PcStep(s, stack, t, PopStart(id));
    case BeginClear(t) => PcStep(s, stack, t, ClearStart);
    case LoadHead(t) => LoadStep(s, stack, t);
    case LinkTail(t) => LinkStep(s, stack, t);
    case Mark(t) => MarkStep(s, stack, t);
    case ReadNext(t) => ReadStep(s, stack, t);
    case ClientWrite(e, v) => WriteStep(s, stack, e, v);
    case Swap(t) =>
      if s.head != Expected(s.threads[t]) {
        FailedSwapStep(s, stack, t);
      } else {
        match s.threads[t]
        case PushLinked(_, _) => PushSwapStep(s, stack, t);
        case PopRead(_, _, _) => PopSwapStep(s, stack, t);
        case ClearLoaded(_) => ClearSwapStep(s, stack, t);
      }
  }

  /** A queue as it is constructed: empty, all elements in clients' hands. */
  ghost predicate Constructed(s: State) {
    && s.head == Word(0, 0)
    && (forall e :: e in s.owned ==> e != 0 && e in s.next)
    && (forall t :: t in s.threads ==> s.threads[t].Idle?)
  }

  lemma ConstructedOk(s: State)
    requires Constructed(s)
    ensures Inv(s, [])
  {
  }

  // ----- Two pops with one identifier -----

  /** No new pop, and new pushes and clears by thread c alone. */
  predicate OnlyBegins(c: nat, a: Action) {
    !a.BeginPop? && (a.BeginPush? || a.BeginClear? ==> a.thread == c)
  }

  ghost predicate Fine(c: nat, s: State, stack: seq<nat>, a: Action) {
    Enabled(s, a) && OnlyBegins(c, a) && L.Allowed(stack, LabelOf(s, a))
  }

  /** A claim about states and stacks that every legal such step carries on. */
  ghost predicate CarriedOn(c: nat, reached: (State, seq<nat>) -> bool) {
    forall s: State, stack: seq<nat>, a: Action {:trigger Fine(c, s, stack, a)} ::
      reached(s, stack) && Fine(c, s, stack, a) ==> reached(Apply(s, a), L.Effect(stack, LabelOf(s, a)))
  }

  lemma Then(c: nat, reached: (State, seq<nat>) -> bool, s: State, stack: seq<nat>, a: Action, s': State, stack': seq<nat>)
    requires CarriedOn(c, reached) && reached(s, stack)
    requires Enabled(s, a) && OnlyBegins(c, a) && Apply(s, a) == s'
    requires L.Allowed(stack, LabelOf(s, a)) && L.Effect(stack, LabelOf(s, a)) == stack'
    ensures reached(s', stack')
  {
    assert Fine(c, s, stack, a);
  }

  lemma DoPush(c: nat, reached: (State, seq<nat>) -> bool, s: State, stack: seq<nat>, l: seq<nat>)
    requires CarriedOn(c, reached) && reached(s, stack) && Enabled(s, BeginPush(c, l))
    ensures reached(State(Word(l[0], 0), s.next[L.Last(l) := s.head.index], s.threads, s.owned - L.Elements(l)), l + stack)
  {
    var s1 := To(s, c, PushStart(l)).(owned := s.owned - L.Elements(l));
    Then(c, reached, s, stack, BeginPush(c, l), s1, stack);
    var s2 := To(s1, c, PushLoaded(l, s.head));
    Then(c, reached, s1, stack, LoadHead(c), s2, stack);
    var s3 := To(s2, c, PushLinked(l, s.head)).(next := s.next[L.Last(l) := s.head.index]);
    Then(c, reached, s2, stack, LinkTail(c), s3, stack);
    var s4 := State(Word(l[0], 0), s3.next, s.threads, s1.owned);
    assert s3.threads[c := Idle] == s.threads;
    assert Apply(s3, Swap(c)) == s4;
    Then(c, reached, s3, stack, Swap(c), s4, l + stack);
  }

  /** A clear up to its swap, which hands out what memory holds. */
  lemma StartClear(c: nat, reached: (State, seq<nat>) -> bool, s: State, stack: seq<nat>, held: seq<nat>)
    requires CarriedOn(c, reached) && reached(s, stack) && Enabled(s, BeginClear(c)) && L.IsChain(s.next, s.head.index, held)
    ensures var s2 := To(s, c, ClearLoaded(s.head));
            reached(s2, stack) && LabelOf(s2, Swap(c)) == L.Cleared(held)
  {
    var s1, s2 := To(s, c, ClearStart), To(s, c, ClearLoaded(s.head));
    Then(c, reached, s, stack, BeginClear(c), s1, stack);
    assert s1.threads[c := ClearLoaded(s.head)] == s2.threads;
    Then(c, reached, s1, stack, LoadHead(c), s2, stack);
    L.ChainUnique(s.next, s.head.index, held, L.ListAt(s.next, s.head.index));
  }

  lemma DoClear(c: nat, reached: (State, seq<nat>) -> bool, s: State, stack: seq<nat>)
    requires CarriedOn(c, reached) && reached(s, stack) && Enabled(s, BeginClear(c)) && L.IsChain(s.next, s.head.index, stack)
    ensures reached(State(Word(0, 0), s.next, s.threads, s.owned + L.Elements(stack)), [])
  {
    StartClear(c, reached, s, stack, stack);
    var s2 := To(s, c, ClearLoaded(s.head));
    assert s2.threads[c := Idle] == s.threads;
    Then(c, reached, s2, stack, Swap(c), State(Word(0, 0), s.next, s.threads, s.owned + L.Elements(stack)), []);
  }

  /** A pop loads the head and marks it. */
  lemma DoMark(c: nat, reached: (State, seq<nat>) -> bool, s: State, stack: seq<nat>, t: nat, id: nat)
    requires CarriedOn(c, reached) && reached(s, stack)
    requires t in s.threads && s.threads[t] == PopStart(id) && s.head != Word(0, 0)
    ensures reached(To(s, t, PopMarked(id, s.head.index)).(head := Word(s.head.index, id)), stack)
  {
    var s1 := To(s, t, PopLoaded(id, s.head));
    Then(c, reached, s, stack, LoadHead(t), s1, stack);
    var s2 := To(s, t, PopMarked(id, s.head.index)).(head := Word(s.head.index, id));
    assert s1.threads[t := PopMarked(id, s.head.index)] == s2.threads;
    Then(c, reached, s1, stack, Mark(t), s2, stack);
  }

  /** An empty queue, two pops that start with one identifier, and a client c with
      the linked elements 1 and 2 in hand. */
  ghost predicate SharedId(s: State, p: nat, q: nat, c: nat, id: nat) {
    && p in s.threads && q in s.threads && c in s.threads && p != q && p != c && q != c
    && s.threads[p] == s.threads[q] == PopStart(id) && id != 0 && s.threads[c] == Idle
    && s.head == Word(0, 0) && s.next == map[1 := 2, 2 := 0] && s.owned == {1, 2}
  }

  /** The client pushes [1, 2]; p marks and reads the head. */
  lemma MarkAndRead(reached: (State, seq<nat>) -> bool, s: State, p: nat, q: nat, c: nat, id: nat)
    requires CarriedOn(c, reached) && SharedId(s, p, q, c, id) && reached(s, [])
    ensures reached(State(Word(1, id), s.next, s.threads[p := PopRead(id, 1, 2)], {}), [1, 2])
  {
    DoPush(c, reached, s, [], [1, 2]);
    assert [1, 2] + [] == [1, 2] && s.owned - L.Elements([1, 2]) == {} && s.next[2 := 0] == s.next;
    var s1 := State(Word(1, 0), s.next, s.threads, {});
    DoMark(c, reached, s1, [1, 2], p, id);
    var s2 := To(s1, p, PopMarked(id, 1)).(head := Word(1, id));
    var s3 := State(Word(1, id), s.next, s.threads[p := PopRead(id, 1, 2)], {});
    assert s2.threads[p := PopRead(id, 1, 2)] == s3.threads;
    Then(c, reached, s2, [1, 2], ReadNext(p), s3, [1, 2]);
  }

  /** The client clears the queue and pushes 1 back; q marks it with p's identifier. */
  lemma ClearAndMarkAgain(reached: (State, seq<nat>) -> bool, s: State, p: nat, q: nat, c: nat, id: nat)
    requires CarriedOn(c, reached) && SharedId(s, p, q, c, id)
    requires reached(State(Word(1, id), s.next, s.threads[p := PopRead(id, 1, 2)], {}), [1, 2])
    ensures reached(State(Word(1, id), map[1 := 0, 2 := 0], s.threads[p := PopRead(id, 1, 2)][q := PopMarked(id, 1)], {2}), [1])
  {
    var threads := s.threads[p := PopRead(id, 1, 2)];
    var s1 := State(Word(1, id), s.next, threads, {});
    assert L.IsChain(s.next, 1, [1, 2]) by { assert [1, 2][1..] == [2] && [2][1..] == []; }
    DoClear(c, reached, s1, [1, 2]);
    assert {} + L.Elements([1, 2]) == {1, 2};
    var s2 := State(Word(0, 0), s.next, threads, {1, 2});
    DoPush(c, reached, s2, [], [1]);
    assert [1] + [] == [1] && s2.owned - L.Elements([1]) == {2} && s.next[1 := 0] == map[1 := 0, 2 := 0];
    DoMark(c, reached, State(Word(1, 0), map[1 := 0, 2 := 0], threads, {2}), [1], q, id);
  }

  /** Whatever else is going on, two pops that share an identifier can pop the
      stack into an element that a client owns: then a clear hands out an element
      that is not on the stack. */
  lemma SharedIdBreaks(reached: (State, seq<nat>) -> bool, s: State, p: nat, q: nat, c: nat, id: nat) returns (end: State)
    requires CarriedOn(c, reached) && SharedId(s, p, q, c, id) && reached(s, [])
    ensures reached(end, []) && Enabled(end, Swap(c)) && !L.Allowed([], LabelOf(end, Swap(c)))
  {
    MarkAndRead(reached, s, p, q, c, id);
    ClearAndMarkAgain(reached, s, p, q, c, id);
    var next: map<nat, nat> := map[1 := 0, 2 := 0];
    var s1 := State(Word(1, id), next, s.threads[p := PopRead(id, 1, 2)][q := PopMarked(id, 1)], {2});
    var s2 := State(Word(2, 0), next, s1.threads[p := Idle], {1, 2});
    assert s1.owned + {1} == {1, 2} && [1][1..] == [];
    Then(c, reached, s1, [1], Swap(p), s2, []);
    assert L.IsChain(next, 2, [2]) by { assert [2][1..] == []; }
    StartClear(c, reached, s2, [], [2]);
    end := To(s2, c, ClearLoaded(s2.head));
  }
}
