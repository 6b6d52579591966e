/** The reader/writer lock of sync/reader-writer-lock-futex.hpp with the semaphore of
    sync/semaphore-futex.hpp, as a state machine of their atomic steps and the
    kernel's wait queue, over any number of threads. The inner lock is taken as an
    atomic object; its own protocol is SimpleLock. */
module ReaderWriterLock {
  import opened Basics

  /** The semaphore's word. */
  datatype Semaphore = Clear | Set | ClearWaiters

  /** Where a thread stands between two atomic steps. */
  datatype Pc =
    | Idle
    | ReadLocked      // ReadLock: has the inner lock, count not yet raised
    | ReadCounted     // ReadLock: count raised, inner lock not yet released
    | Reading
    | ReadSignal      // Unlock of the last reader: about to swap the semaphore to Set
    | ReadWake        // Set: saw ClearWaiters, about to wake the sleepers
    | WriteLocked     // WriteLock: has the inner lock, count not yet lowered
    | WriteLook       // Wait: about to load the semaphore
    | WriteSaw(seen: Semaphore)  // Wait: about to swap what it saw for ClearWaiters
    | WriteFutex      // Wait: about to enter the futex wait
    | WriteSleep      // in the kernel's queue
    | WriteWoken      // WriteLock: back from Wait, semaphore not yet cleared
    | Writing
    | WriteReset      // Unlock of a writer: about to store 0 in the count
    | WriteUnlock     // Unlock of a writer: about to release the inner lock
    | TryLocked       // TryWriteLock: has the inner lock
    | TryStore        // TryWriteLock: saw count 0, about to store -1
    | TryBackOff      // TryWriteLock: saw readers, about to release the inner lock
  {
    /** The thread is the holder of the inner lock. */
    predicate HasInner() {
      !Idle? && !Reading? && !ReadSignal? && !ReadWake?
    }

    /** The thread is counted as an active reader. */
    predicate Counted() { ReadCounted? || Reading? }

    /** The thread is in the Wait of WriteLock. */
    predicate InWait() { WriteLook? || WriteSaw? || WriteFutex? || WriteSleep? }
  }

  datatype State = State(inner: Option<nat>, count: int, semaphore: Semaphore, threads: map<nat, Pc>)

  /** The kernel may also end a sleep for no reason. */
  datatype Action =
    | BeginRead(thread: nat)
    | BeginWrite(thread: nat)
    | BeginTryWrite(thread: nat)
    | Step(thread: nat)
    | SpuriousWake(thread: nat)

  /** Beginning an operation takes the free inner lock; a sleeper does not move by
      itself. */
  predicate Enabled(s: State, a: Action) {
    && a.thread in s.threads
    && match a
       case Step(t) => !s.threads[t].Idle? && !s.threads[t].WriteSleep?
       case SpuriousWake(t) => s.threads[t].WriteSleep?
       case _ => s.threads[a.thread].Idle? && s.inner.None?
  }

  function To(s: State, t: nat, pc: Pc): State {
    s.(threads := s.threads[t := pc])
  }

  /** `Unlock`: lower the count and act on its previous value, for readers and
      writers alike. */
  function UnlockStep(s: State, t: nat): State {
    var s1 := s.(count := s.count - 1);
    if s.count == 0 then To(s1, t, ReadSignal)
    else if s.count == -1 then To(s1, t, WriteReset)
    else To(s1, t, Idle)
  }

  /** Everybody in the kernel's queue goes on. */
  function WakeAll(s: State): State {
    s.(threads := map u | u in s.threads :: if s.threads[u].WriteSleep? then WriteLook else s.threads[u])
  }

  function Apply(s: State, a: Action): State
    requires Enabled(s, a)
  {
    match a
    case BeginRead(t) => To(s.(inner := Some(t)), t, ReadLocked)
    case BeginWrite(t) => To(s.(inner := Some(t)), t, WriteLocked)
    case BeginTryWrite(t) => To(s.(inner := Some(t)), t, TryLocked)
    case SpuriousWake(t) => To(s, t, WriteLook)
    case Step(t) =>
      match s.threads[t]
      case Idle => s
      case ReadLocked => To(s.(count := s.count + 1), t, ReadCounted)
      case ReadCounted => To(s.(inner := None), t, Reading)
      case Reading => UnlockStep(s, t)
      case ReadSignal => To(s.(semaphore := Set), t, if s.semaphore.ClearWaiters? then ReadWake else Idle)
      case ReadWake => To(WakeAll(s), t, Idle)
      case WriteLocked => To(s.(count := s.count - 1), t, if s.count != 0 then WriteLook else Writing)
      case WriteLook => To(s, t, if s.semaphore.Set? then WriteWoken else WriteSaw(s.semaphore))
      case WriteSaw(seen) =>
        if s.semaphore == seen then To(s.(semaphore := ClearWaiters), t, WriteFutex)
        else To(s, t, if s.semaphore.Set? then WriteWoken else WriteSaw(s.semaphore))
      case WriteFutex => To(s, t, if s.semaphore.ClearWaiters? then WriteSleep else WriteLook)
      case WriteSleep => s
      case WriteWoken => To(s.(semaphore := if s.semaphore.Set? then Clear else s.semaphore), t, Writing)
      case Writing => UnlockStep(s, t)
      case WriteReset => To(s.(count := 0), t, WriteUnlock)
      case WriteUnlock => To(s.(inner := None), t, Idle)
      case TryLocked => To(s, t, if s.count == 0 then TryStore else TryBackOff)
      case TryStore => To(s.(count := -1), t, Writing)
      case TryBackOff => To(s.(inner := None), t, Idle)
  }

  // ----- The invariant -----

  ghost function Readers(s: State): set<nat> {
    set t | t in s.threads && s.threads[t].Counted()
  }

  ghost function Signallers(s: State): set<nat> {
    set t | t in s.threads && s.threads[t].ReadSignal?
  }

  ghost function Wakers(s: State): set<nat> {
    set t | t in s.threads && s.threads[t].ReadWake?
  }

  /** What the holder of the inner lock is doing; Idle when it is free. */
  ghost function HolderPc(s: State): Pc {
    if s.inner.Some? && s.inner.value in s.threads then s.threads[s.inner.value] else Idle
  }

  /** While a writer waits: the semaphore is set, or a reader is left, or exactly
      one thread is about to set it. */
  ghost predicate WaitOk(count: int, semaphore: Semaphore, readers: int, signals: nat) {
    && count == readers - 1
    && (semaphore.Set? ==> readers == 0)
    && signals == (if readers == 0 && !semaphore.Set? then 1 else 0)
  }

  /** The count, the semaphore and the pending signals and wake-ups in each
      situation. */
  ghost predicate Situation(h: Pc, count: int, semaphore: Semaphore, readers: int, signals: nat, wakers: nat) {
    match h
    case WriteLook => WaitOk(count, semaphore, readers, signals)
    case WriteSaw(seen) =>
      WaitOk(count, semaphore, readers, signals) && !seen.Set? && (semaphore == seen || semaphore.Set?)
    case WriteFutex => WaitOk(count, semaphore, readers, signals) && !semaphore.Clear?
    case WriteSleep =>
      WaitOk(count, semaphore, readers, signals) && !semaphore.Clear? && (semaphore.Set? ==> wakers >= 1)
    case WriteWoken => readers == 0 && count == -1 && semaphore.Set? && signals == 0
    case Writing => readers == 0 && count == -1 && semaphore.Clear? && signals == 0
    case WriteReset => readers == 0 && count == -2 && semaphore.Clear? && signals == 0
    case WriteUnlock => readers == 0 && count == 0 && semaphore.Clear? && signals == 0
    case TryStore => readers == 0 && count == 0 && semaphore.Clear? && signals == 0
    case _ => count == readers && semaphore.Clear? && signals == 0
  }

  ghost predicate Inv(s: State) {
    && InnerOk(s)
    && Situation(HolderPc(s), s.count, s.semaphore, |Readers(s)|, |Signallers(s)|, |Wakers(s)|)
  }

  ghost predicate Unlocked(s: State) {
    s.inner.None? && s.count == 0 && s.semaphore.Clear? && forall t :: t in s.threads ==> s.threads[t].Idle?
  }

  lemma InitialInv(s: State)
    requires Unlocked(s)
    ensures Inv(s)
  {
  }

  /** How a step of one thread changes the three sets. */
  lemma SetsAfter(s: State, s': State, t: nat)
    requires t in s.threads && t in s'.threads && s'.threads == s.threads[t := s'.threads[t]]
    ensures |Readers(s')| == |Readers(s)| + (if s'.threads[t].Counted() then 1 else 0) - (if s.threads[t].Counted() then 1 else 0)
    ensures |Signallers(s')| == |Signallers(s)| + (if s'.threads[t].ReadSignal? then 1 else 0) - (if s.threads[t].ReadSignal? then 1 else 0)
    ensures |Wakers(s')| == |Wakers(s)| + (if s'.threads[t].ReadWake? then 1 else 0) - (if s.threads[t].ReadWake? then 1 else 0)
  {
    SetsElsewhere(s, s', t);
    SizeAfter(Readers(s), Readers(s'), t);
    SizeAfter(Signallers(s), Signallers(s'), t);
    SizeAfter(Wakers(s), Wakers(s'), t);
  }

  lemma SetsElsewhere(s: State, s': State, t: nat)
    requires t in s.threads && t in s'.threads && s'.threads == s.threads[t := s'.threads[t]]
    ensures Readers(s') - {t} == Readers(s) - {t}
    ensures Signallers(s') - {t} == Signallers(s) - {t}
    ensures Wakers(s') - {t} == Wakers(s) - {t}
  {
  }

  lemma SizeAfter(a: set<nat>, b: set<nat>, t: nat)
    requires b - {t} == a - {t}
    ensures |b| == |a| + (if t in b then 1 else 0) - (if t in a then 1 else 0)
  {
    Without(a, t);
    Without(b, t);
  }

  lemma Without(a: set<nat>, t: nat)
    ensures |a| == |a - {t}| + (if t in a then 1 else 0)
  {
  }

  lemma NonEmpty(a: set<nat>, t: nat)
    requires t in a
    ensures |a| >= 1
  {
  }

  ghost predicate InnerOk(s: State) {
    && (forall t :: t in s.threads ==> (s.threads[t].HasInner() <==> s.inner == Some(t)))
    && (s.inner.Some? ==> s.inner.value in s.threads)
  }

  lemma InnerKept(s: State, s': State, t: nat)
    requires InnerOk(s) && t in s.threads && t in s'.threads && s'.threads == s.threads[t := s'.threads[t]]
    requires if s.inner == Some(t) then s'.inner == (if s'.threads[t].HasInner() then Some(t) else None)
             else if s'.threads[t].HasInner() then s.inner.None? && s'.inner == Some(t) else s'.inner == s.inner
    ensures InnerOk(s')
  {
    forall u | u in s'.threads ensures s'.threads[u].HasInner() <==> s'.inner == Some(u) {
      if u != t { assert s'.threads[u] == s.threads[u]; }
    }
  }

  /** Waking everybody turns a sleeping holder into a looking one. */
  lemma WakeAllKeepsInv(s: State)
    requires Inv(s)
    ensures var s' := WakeAll(s);
            Inv(s') && Readers(s') == Readers(s) && Signallers(s') == Signallers(s) && Wakers(s') == Wakers(s)
  {
    var s' := WakeAll(s);
    assert forall u :: u in s'.threads ==> (s'.threads[u].HasInner() <==> s.threads[u].HasInner());
    assert Readers(s') == Readers(s) && Signallers(s') == Signallers(s) && Wakers(s') == Wakers(s);
  }

  /** The holder of the inner lock moves, and the situation is as it should be. */
  lemma HolderMoves(s: State, s': State, t: nat)
    requires Inv(s) && s.inner == Some(t) && t in s'.threads && s'.threads == s.threads[t := s'.threads[t]]
    requires s'.inner == if s'.threads[t].HasInner() then Some(t) else None
    requires Situation(HolderPc(s'), s'.count, s'.semaphore,
               |Readers(s)| + (if s'.threads[t].Counted() then 1 else 0) - (if s.threads[t].Counted() then 1 else 0),
               |Signallers(s)|, |Wakers(s)|)
    requires !s'.threads[t].ReadSignal? && !s'.threads[t].ReadWake?
    ensures Inv(s')
  {
    SetsAfter(s, s', t);
    InnerKept(s, s', t);
  }

  /** The steps of the holder of the inner lock, first those of a waiting writer. */
  lemma WaiterStep(s: State, a: Action)
    requires Inv(s) && Enabled(s, a) && s.inner == Some(a.thread) && s.threads[a.thread].InWait()
    ensures Inv(Apply(s, a))
  {
    HolderMoves(s, Apply(s, a), a.thread);
  }

  lemma HolderStep(s: State, a: Action)
    requires Inv(s) && Enabled(s, a) && s.inner == Some(a.thread) && !s.threads[a.thread].InWait()
    ensures Inv(Apply(s, a))
  {
    if s.threads[a.thread].Counted() { NonEmpty(Readers(s), a.thread); }
    HolderMoves(s, Apply(s, a), a.thread);
  }

  lemma BeginStep(s: State, a: Action)
    requires Inv(s) && Enabled(s, a) && !a.Step? && !a.SpuriousWake?
    ensures Inv(Apply(s, a))
  {
    SetsAfter(s, Apply(s, a), a.thread);
    InnerKept(s, Apply(s, a), a.thread);
  }

  /** A reader's unlocking and the last reader's signal. */
  lemma LeaveStep(s: State, t: nat)
    requires Inv(s) && Enabled(s, Step(t)) && (s.threads[t].Reading? || s.threads[t].ReadSignal?)
    ensures Inv(Apply(s, Step(t)))
  {
    var s' := Apply(s, Step(t));
    SetsAfter(s, s', t);
    if s.threads[t].Reading? { NonEmpty(Readers(s), t); } else { NonEmpty(Signallers(s), t); }
    InnerKept(s, s', t);
  }

  /** Every atomic step keeps the invariant. */
  lemma StepKeepsInv(s: State, a: Action)
    requires Inv(s) && Enabled(s, a)
    ensures Inv(Apply(s, a))
  {
    if a.Step? && s.threads[a.thread].ReadWake? {
      WakeAllKeepsInv(s);
      var s1 := WakeAll(s);
      var s' := To(s1, a.thread, Idle);
      SetsAfter(s1, s', a.thread);
      InnerKept(s1, s', a.thread);
    } else if s.inner == Some(a.thread) {
      if s.threads[a.thread].InWait() { WaiterStep(s, a); } else { HolderStep(s, a); }
    } else if a.Step? {
      LeaveStep(s, a.thread);
    } else {
      BeginStep(s, a);
    }
  }

  // ----- Whole runs -----

  ghost predicate Possible(s: State, acts: seq<Action>)
    decreases |acts|
  {
    acts == [] || (Enabled(s, acts[0]) && Possible(Apply(s, acts[0]), acts[1..]))
  }

  ghost function Run(s: State, acts: seq<Action>): State
    requires Possible(s, acts)
    decreases |acts|
  {
    if acts == [] then s else Run(Apply(s, acts[0]), acts[1..])
  }

  lemma {:induction false} RunKeepsInv(s: State, acts: seq<Action>)
    requires Inv(s) && Possible(s, acts)
    ensures Inv(Run(s, acts))
    decreases |acts|
  {
    if acts != [] {
      StepKeepsInv(s, acts[0]);
      RunKeepsInv(Apply(s, acts[0]), acts[1..]);
    }
  }

  /** In every interleaving of any number of threads, a writer excludes every
      other writer and every reader. */
  lemma MutualExclusion(s: State, acts: seq<Action>, t: nat, u: nat)
    requires Unlocked(s) && Possible(s, acts)
    requires t in Run(s, acts).threads && u in Run(s, acts).threads && t != u
    ensures Run(s, acts).threads[t].Writing? ==>
      !Run(s, acts).threads[u].Writing? && !Run(s, acts).threads[u].Reading?
  {
    InitialInv(s);
    RunKeepsInv(s, acts);
    var r := Run(s, acts);
    if r.threads[t].Writing? && r.threads[u].Reading? {
      NonEmpty(Readers(r), u);
    }
  }

  /** The count's documented meaning: 0 when nobody has the lock, the number of
      readers without a waiting writer, one less with one, -1 for a writer. */
  lemma CountMeaning(s: State, acts: seq<Action>)
    requires Unlocked(s) && Possible(s, acts)
    ensures var r := Run(s, acts); var readers := |Readers(r)|;
            && (r.inner.None? ==> r.count == readers)
            && (HolderPc(r).InWait() ==> r.count == readers - 1)
            && (HolderPc(r).Writing? ==> r.count == -1 && readers == 0)
            && (r.inner.None? && readers == 0 ==> r.count == 0)
  {
    InitialInv(s);
    RunKeepsInv(s, acts);
  }

  /** No wake-up is lost: when the last reader is gone, the waiting writer's
      semaphore is set or exactly one thread is about to set it; and a writer that
      sleeps although the semaphore is set has a thread about to wake it. */
  lemma NoLostWakeup(s: State, acts: seq<Action>)
    requires Unlocked(s) && Possible(s, acts) && HolderPc(Run(s, acts)).InWait()
    ensures var r := Run(s, acts);
            && (Readers(r) == {} ==> r.semaphore.Set? || |Signallers(r)| == 1)
            && (HolderPc(r).WriteSleep? ==> r.semaphore.ClearWaiters? || (r.semaphore.Set? && Wakers(r) != {}))
  {
    InitialInv(s);
    RunKeepsInv(s, acts);
  }

  /** Some thread can step: the given one, or one that a sleeping writer waits for. */
  lemma SomeoneCanStep(s: State, t: nat) returns (u: nat)
    requires Inv(s) && t in s.threads && !s.threads[t].Idle?
    ensures Enabled(s, Step(u)) && (u == t || !s.threads[u].HasInner())
  {
    if !s.threads[t].WriteSleep? {
      u := t;
    } else if s.semaphore.Set? {
      u :| u in Wakers(s);
    } else if Readers(s) != {} {
      u :| u in Readers(s);
    } else {
      u :| u in Signallers(s);
    }
  }

  /** Deadlock freedom: in every reachable state in which some thread is inside an
      operation or has the lock, some thread's next step is possible. */
  lemma DeadlockFree(s: State, acts: seq<Action>, t: nat) returns (u: nat)
    requires Unlocked(s) && Possible(s, acts) && t in Run(s, acts).threads && !Run(s, acts).threads[t].Idle?
    ensures Enabled(Run(s, acts), Step(u))
  {
    InitialInv(s);
    RunKeepsInv(s, acts);
    u := SomeoneCanStep(Run(s, acts), t);
  }

  // ----- A waiting writer is next -----

  /** Thread w has the inner lock and waits for the readers to leave. */
  ghost predicate Waiting(s: State, w: nat) {
    s.inner == Some(w) && w in s.threads && (s.threads[w].InWait() || s.threads[w].WriteWoken?)
  }

  /** How far a writer is from its lock by its own steps. */
  ghost function Distance(pc: Pc, semaphore: Semaphore): nat {
    match pc
    case WriteLook => if semaphore.Set? then 3 else 7
    case WriteSaw(_) => if semaphore.Set? then 3 else 6
    case WriteFutex => if semaphore.Set? then 4 else 5
    case WriteSleep => 4
    case WriteWoken => 2
    case _ => 0
  }

  /** How many steps there can be at most before a waiting writer has the lock, if
      it is not woken for no reason. */
  ghost function StepsToWriter(s: State, w: nat): nat
    requires w in s.threads
  {
    6 * |Readers(s)| + 5 * |Signallers(s)| + 4 * |Wakers(s)| + Distance(s.threads[w], s.semaphore)
  }

  /** What a step does while a writer waits. */
  ghost predicate Nearer(s: State, s': State, w: nat, slack: int)
    requires w in s.threads
  {
    && Readers(s') <= Readers(s) && w in s'.threads
    && (Waiting(s', w) || (s'.inner == Some(w) && s'.threads[w].Writing? && Readers(s') == {}))
    && StepsToWriter(s', w) < StepsToWriter(s, w) + slack
  }

  lemma WakeNearer(s: State, t: nat, w: nat)
    requires Inv(s) && Waiting(s, w) && t in s.threads && s.threads[t].ReadWake?
    ensures Nearer(s, Apply(s, Step(t)), w, 0)
  {
    WakeAllKeepsInv(s);
    var s1 := WakeAll(s);
    var s' := To(s1, t, Idle);
    SetsAfter(s1, s', t);
    SetsElsewhere(s1, s', t);
    assert t != w && s'.threads[w] == s1.threads[w];
  }

  lemma WriterNearer(s: State, a: Action, w: nat)
    requires Inv(s) && Waiting(s, w) && Enabled(s, a) && a.thread == w
    ensures Nearer(s, Apply(s, a), w, if a.SpuriousWake? then 4 else 0)
  {
    SetsAfter(s, Apply(s, a), w);
    SetsElsewhere(s, Apply(s, a), w);
  }

  lemma LeaveNearer(s: State, t: nat, w: nat)
    requires Inv(s) && Waiting(s, w) && t in s.threads && t != w && (s.threads[t].Reading? || s.threads[t].ReadSignal?)
    ensures Nearer(s, Apply(s, Step(t)), w, 0)
  {
    LeaveStep(s, t);
    var s' := Apply(s, Step(t));
    SetsAfter(s, s', t);
    SetsElsewhere(s, s', t);
  }

  /** While a writer waits, no step of any thread adds a reader, and every step,
      spurious wake-ups apart, brings the writer nearer, until it writes. */
  lemma WaitingStep(s: State, a: Action, w: nat)
    requires Inv(s) && Waiting(s, w) && Enabled(s, a)
    ensures Nearer(s, Apply(s, a), w, if a.SpuriousWake? then 4 else 0)
  {
    var t := a.thread;
    assert s.threads[t].HasInner() <==> t == w;
    if t == w {
      WriterNearer(s, a, w);
    } else if s.threads[t].ReadWake? {
      WakeNearer(s, t, w);
    } else {
      LeaveNearer(s, t, w);
    }
  }

  ghost function Spurious(acts: seq<Action>): nat {
    if acts == [] then 0 else (if acts[0].SpuriousWake? then 1 else 0) + Spurious(acts[1..])
  }

  /** A part of a run is its first step and a part of the rest. */
  lemma {:induction false} RunPrefix(s: State, acts: seq<Action>, k: nat)
    requires Possible(s, acts) && 1 <= k <= |acts|
    ensures Possible(s, acts[..k]) && Possible(Apply(s, acts[0]), acts[1..][..k - 1])
    ensures Run(s, acts[..k]) == Run(Apply(s, acts[0]), acts[1..][..k - 1])
    decreases k
  {
    assert acts[..k][1..] == acts[1..][..k - 1];
    if k > 1 { RunPrefix(Apply(s, acts[0]), acts[1..], k - 1); }
  }

  /** No new reader gets in before a waiting writer, and the wait is bounded: every
      run long enough, whatever threads it lets run, comes to a point where the
      writer writes, and up to there only threads that were readers already have
      been reading. A wake-up for no reason costs four steps. */
  lemma {:induction false} WriterIsNext(s: State, acts: seq<Action>, w: nat) returns (k: nat)
    requires Inv(s) && Waiting(s, w) && Possible(s, acts) && |acts| >= StepsToWriter(s, w) + 4 * Spurious(acts)
    ensures k <= |acts| && Possible(s, acts[..k])
    ensures w in Run(s, acts[..k]).threads && Run(s, acts[..k]).threads[w].Writing?
    ensures forall i :: 0 <= i <= k ==> Possible(s, acts[..i]) && Readers(Run(s, acts[..i])) <= Readers(s)
    decreases |acts|
  {
    var s1 := Apply(s, acts[0]);
    WaitingStep(s, acts[0], w);
    StepKeepsInv(s, acts[0]);
    if s1.threads[w].Writing? {
      k := 1;
    } else {
      k := WriterIsNext(s1, acts[1..], w);
      k := k + 1;
    }
    forall i | 0 <= i <= k ensures Possible(s, acts[..i]) && Readers(Run(s, acts[..i])) <= Readers(s) {
      if i > 0 { RunPrefix(s, acts, i); }
    }
    RunPrefix(s, acts, k);
  }

  /** The same for every run of an unlocked lock that comes to a waiting writer. */
  lemma WriterPreferred(s: State, before: seq<Action>, acts: seq<Action>, w: nat) returns (k: nat)
    requires Unlocked(s) && Possible(s, before) && Waiting(Run(s, before), w)
    requires Possible(Run(s, before), acts) && |acts| >= StepsToWriter(Run(s, before), w) + 4 * Spurious(acts)
    ensures var r := Run(s, before);
            && k <= |acts| && Possible(r, acts[..k])
            && w in Run(r, acts[..k]).threads && Run(r, acts[..k]).threads[w].Writing?
            && forall i :: 0 <= i <= k ==> Possible(r, acts[..i]) && Readers(Run(r, acts[..i])) <= Readers(r)
  {
    InitialInv(s);
    RunKeepsInv(s, before);
    k := WriterIsNext(Run(s, before), acts, w);
  }

  // ----- Operations return, and with what -----

  predicate Begins(a: Action) { a.BeginRead? || a.BeginWrite? || a.BeginTryWrite? }

  ghost function StepsBy(acts: seq<Action>, t: nat): nat {
    if acts == [] then 0 else (if acts[0] == Step(t) then 1 else 0) + StepsBy(acts[1..], t)
  }

  ghost predicate NothingBegun(acts: seq<Action>, t: nat) {
    forall i :: 0 <= i < |acts| ==> !(Begins(acts[i]) && acts[i].thread == t)
  }

  /** How many steps a thread has left until it has returned from its operation, and
      from the Unlock after it. */
  function StepsLeft(pc: Pc): nat {
    match pc
    case ReadLocked => 5
    case ReadCounted => 4
    case Reading => 3
    case ReadSignal => 2
    case ReadWake => 1
    case TryLocked => 5
    case TryStore => 4
    case TryBackOff => 1
    case WriteWoken => 4
    case Writing => 3
    case WriteReset => 2
    case WriteUnlock => 1
    case _ => 0
  }

  /** The thread is not waiting for readers and will not. */
  predicate Unhindered(pc: Pc) { !pc.InWait() && !pc.WriteLocked? }

  lemma UnhinderedStep(s: State, a: Action, t: nat)
    requires Inv(s) && Enabled(s, a) && t in s.threads && Unhindered(s.threads[t])
    requires !(Begins(a) && a.thread == t)
    ensures var s' := Apply(s, a);
            && t in s'.threads && Unhindered(s'.threads[t])
            && StepsLeft(s'.threads[t]) + (if a == Step(t) then 1 else 0) <= StepsLeft(s.threads[t])
  {
    if a.thread == t && s.threads[t].Counted() { NonEmpty(Readers(s), t); }
  }

  /** ReadLock, TryWriteLock and Unlock do not wait for anybody: with the lock's own
      Unlock, a thread takes at most five steps until it has returned. */
  lemma {:induction false} OperationsReturn(s: State, acts: seq<Action>, t: nat)
    requires Inv(s) && Possible(s, acts) && NothingBegun(acts, t) && t in s.threads && Unhindered(s.threads[t])
    ensures StepsBy(acts, t) <= StepsLeft(s.threads[t]) <= 5
    decreases |acts|
  {
    if acts != [] {
      UnhinderedStep(s, acts[0], t);
      StepKeepsInv(s, acts[0]);
      OperationsReturn(Apply(s, acts[0]), acts[1..], t);
    }
  }

  /** The stages of ReadLock. */
  function ReadStage(i: nat): Pc { if i == 0 then ReadLocked else if i == 1 then ReadCounted else Reading }

  lemma ReadStageStep(s: State, a: Action, t: nat, i: nat)
    requires Inv(s) && Enabled(s, a) && t in s.threads && s.threads[t] == ReadStage(i) && !(Begins(a) && a.thread == t)
    requires a == Step(t) ==> i < 2
    ensures t in Apply(s, a).threads
    ensures Apply(s, a).threads[t] == ReadStage(if a == Step(t) then i + 1 else i)
  {
  }

  /** After two steps of its own in ReadLock a thread is reading, whatever the others
      do. */
  lemma {:induction false} ReadLockReads(s: State, acts: seq<Action>, t: nat, i: nat)
    requires Inv(s) && Possible(s, acts) && NothingBegun(acts, t) && t in s.threads
    requires s.threads[t] == ReadStage(i) && i + StepsBy(acts, t) == 2
    ensures t in Run(s, acts).threads && Run(s, acts).threads[t].Reading?
    decreases |acts|
  {
    if acts != [] {
      StepKeepsInv(s, acts[0]);
      ReadStageStep(s, acts[0], t, i);
      ReadLockReads(Apply(s, acts[0]), acts[1..], t, if acts[0] == Step(t) then i + 1 else i);
    }
  }

  /** TryWriteLock gets the lock if and only if there is no reader when it looks. */
  lemma TryWriteIff(s: State, t: nat)
    requires Inv(s) && t in s.threads && s.threads[t].TryLocked?
    ensures var s1 := Apply(s, Step(t));
            && Enabled(s1, Step(t))
            && (Apply(s1, Step(t)).threads[t].Writing? <==> Readers(s) == {})
            && (Readers(s) != {} ==> Apply(s1, Step(t)).threads[t].Idle? && Apply(s1, Step(t)).inner.None?)
  {
  }

  /** WriteLock has the lock at once if and only if there is no reader. */
  lemma WriteLockIff(s: State, t: nat)
    requires Inv(s) && t in s.threads && s.threads[t].WriteLocked?
    ensures Apply(s, Step(t)).threads[t].Writing? <==> Readers(s) == {}
    ensures Readers(s) != {} ==> Waiting(Apply(s, Step(t)), t)
  {
  }
}
