/** The futex lock of sync/simple-lock-futex.hpp as a state machine of its atomic
    steps, with the kernel's wait queue: mutual exclusion, and no sleeper is ever
    abandoned. */
module SimpleLock {

  const UNLOCKED: int := 0
  const LOCKED_NO_WAITERS: int := 1
  const LOCKED_MAYBE_WAITERS: int := 2

  datatype Pc =
    | Idle
    | Trying                // Lock: about to compare-and-swap, first or while spinning
    | Prepare(seen: int)    // Lock: done spinning, last saw a locked state
    | Looked(seen: int)     // Lock: at the test of the waiting loop
    | Waiting               // Lock: about to enter the futex wait
    | Sleeping              // in the kernel's queue
    | Woken                 // Lock: back from the wait, about to swap
    | Owner
    | Releasing             // Unlock: lowered the state from MAYBE_WAITERS
    | Waking                // Unlock: stored UNLOCKED, about to wake one waiter
  {
    /** From the atomic step that takes the lock to the one that gives it up. */
    predicate HasLock() { Owner? || Releasing? || this == Looked(UNLOCKED) }

    /** The thread will wake a sleeper or mark the lock as waited for. */
    predicate Rescuer() { Releasing? || Waking? || Woken? }
  }

  datatype State = State(word: int, threads: map<nat, Pc>)

  datatype Action =
    | BeginLock(thread: nat)
    | TryLock(thread: nat)
    | StopSpinning(thread: nat)   // a failed attempt that is not repeated
    | Unlock(thread: nat)
    | Step(thread: nat)
    | Wake(thread: nat, sleeper: nat)
    | SpuriousWake(thread: nat)

  ghost predicate NobodySleeps(s: State) {
    forall t :: t in s.threads ==> !s.threads[t].Sleeping?
  }

  /** Wake by a thread at Waking names the sleeper the kernel picks; when nobody
      sleeps the call just returns, by Step. */
  ghost predicate Enabled(s: State, a: Action) {
    && a.thread in s.threads
    && var pc := s.threads[a.thread];
       match a
       case BeginLock(_) => pc.Idle?
       case TryLock(_) => pc.Idle?
       case StopSpinning(_) => pc.Trying? && s.word != UNLOCKED
       case Unlock(_) => pc.Owner?
       case Step(_) => pc.Trying? || pc.Prepare? || pc.Looked? || pc.Waiting? || pc.Woken? || pc.Releasing?
                       || (pc.Waking? && NobodySleeps(s))
       case Wake(_, u) => pc.Waking? && u in s.threads && s.threads[u].Sleeping?
       case SpuriousWake(_) => pc.Sleeping?
  }

  function To(s: State, t: nat, pc: Pc): State {
    s.(threads := s.threads[t := pc])
  }

  ghost function Apply(s: State, a: Action): State
    requires Enabled(s, a)
  {
    match a
    case BeginLock(t) => To(s, t, Trying)
    case TryLock(t) => if s.word == UNLOCKED then To(s.(word := LOCKED_NO_WAITERS), t, Owner) else s
    case StopSpinning(t) => To(s, t, Prepare(s.word))
    case Unlock(t) =>
      var s1 := s.(word := s.word - 1);
      To(s1, t, if s.word != LOCKED_NO_WAITERS then Releasing else Idle)
    case Wake(t, u) => To(To(s, u, Woken), t, Idle)
    case SpuriousWake(t) => To(s, t, Woken)
    case Step(t) =>
      match s.threads[t]
      case Trying => if s.word == UNLOCKED then To(s.(word := LOCKED_NO_WAITERS), t, Owner) else s
      case Prepare(seen) =>
        if seen != LOCKED_MAYBE_WAITERS then To(s.(word := LOCKED_MAYBE_WAITERS), t, Looked(s.word))
        else To(s, t, Looked(seen))
      case Looked(seen) => To(s, t, if seen != UNLOCKED then Waiting else Owner)
      case Waiting => To(s, t, if s.word == LOCKED_MAYBE_WAITERS then Sleeping else Woken)
      case Woken => To(s.(word := LOCKED_MAYBE_WAITERS), t, Looked(s.word))
      case Releasing => To(s.(word := UNLOCKED), t, Waking)
      case Waking => To(s, t, Idle)
      case _ => s
  }

  /** One lock owner exactly when the word is not UNLOCKED. */
  ghost predicate OwnershipOk(s: State) {
    && (s.word != UNLOCKED <==> exists t :: t in s.threads && s.threads[t].HasLock())
    && (forall t, u :: t in s.threads && u in s.threads && s.threads[t].HasLock() && s.threads[u].HasLock() ==> t == u)
  }

  /** If a thread sleeps, the word says so or some thread is on its way to deal
      with it. */
  ghost predicate SleepersOk(s: State) {
    NobodySleeps(s) || s.word == LOCKED_MAYBE_WAITERS || exists t :: t in s.threads && s.threads[t].Rescuer()
  }

  ghost predicate Inv(s: State) {
    && s.word in {UNLOCKED, LOCKED_NO_WAITERS, LOCKED_MAYBE_WAITERS}
    && OwnershipOk(s) && SleepersOk(s)
    && (forall t :: t in s.threads && s.threads[t].Prepare? ==> s.threads[t].seen != UNLOCKED)
  }

  /** A step of thread t that keeps its ownership and the word's being locked. */
  lemma KeepsOwnership(s: State, s': State, t: nat)
    requires Inv(s) && t in s.threads && t in s'.threads && s'.threads == s.threads[t := s'.threads[t]]
    requires s'.threads[t].HasLock() <==> s.threads[t].HasLock()
    requires s'.word != UNLOCKED <==> s.word != UNLOCKED
    ensures OwnershipOk(s')
  {
    forall u | u in s'.threads ensures s'.threads[u].HasLock() <==> s.threads[u].HasLock() {
    }
    if s.word != UNLOCKED {
      var u :| u in s.threads && s.threads[u].HasLock();
      assert u in s'.threads && s'.threads[u].HasLock();
    }
  }

  /** A step of thread t that takes the free lock. */
  lemma TakesOwnership(s: State, s': State, t: nat)
    requires Inv(s) && t in s.threads && t in s'.threads && s'.threads == s.threads[t := s'.threads[t]]
    requires s.word == UNLOCKED != s'.word && s'.threads[t].HasLock()
    ensures OwnershipOk(s')
  {
  }

  /** A step of the owner that gives the lock up. */
  lemma GivesOwnership(s: State, s': State, t: nat)
    requires Inv(s) && t in s.threads && t in s'.threads && s'.threads == s.threads[t := s'.threads[t]]
    requires s.threads[t].HasLock() && !s'.threads[t].HasLock() && s'.word == UNLOCKED
    ensures OwnershipOk(s')
  {
    assert forall u :: u in s.threads && s.threads[u].HasLock() ==> u == t;
  }

  /** The sleepers are taken care of after a step of thread t. */
  lemma SleepersSafe(s: State, s': State, t: nat)
    requires Inv(s) && t in s.threads && t in s'.threads && s'.threads == s.threads[t := s'.threads[t]]
    requires s'.threads[t].Sleeping? ==> s'.word == LOCKED_MAYBE_WAITERS
    requires s.word == LOCKED_MAYBE_WAITERS ==> s'.word == LOCKED_MAYBE_WAITERS || s'.threads[t].Rescuer()
    requires s.threads[t].Rescuer() ==>
      s'.threads[t].Rescuer() || s'.word == LOCKED_MAYBE_WAITERS || NobodySleeps(s)
    ensures SleepersOk(s')
  {
    if !NobodySleeps(s') && s'.word != LOCKED_MAYBE_WAITERS && !s'.threads[t].Rescuer() {
      var v :| v in s'.threads && s'.threads[v].Sleeping?;
      assert v in s.threads && s.threads[v].Sleeping?;
      var u :| u in s.threads && s.threads[u].Rescuer();
      assert u in s'.threads && s'.threads[u].Rescuer();
    }
  }

  lemma OwnershipStep(s: State, a: Action)
    requires Inv(s) && Enabled(s, a) && !a.Wake?
    ensures OwnershipOk(Apply(s, a))
  {
    var t, s' := a.thread, Apply(s, a);
    assert s'.threads == s.threads[t := s'.threads[t]];
    if s.threads[t].HasLock() && !s'.threads[t].HasLock() {
      GivesOwnership(s, s', t);
    } else if !s.threads[t].HasLock() && s'.threads[t].HasLock() {
      TakesOwnership(s, s', t);
    } else {
      KeepsOwnership(s, s', t);
    }
  }

  /** Every atomic step keeps the invariant. */
  lemma StepKeepsInv(s: State, a: Action)
    requires Inv(s) && Enabled(s, a)
    ensures Inv(Apply(s, a))
  {
    if a.Wake? {
      WakeKeepsInv(s, a.thread, a.sleeper);
    } else {
      OwnershipStep(s, a);
      assert Apply(s, a).threads == s.threads[a.thread := Apply(s, a).threads[a.thread]];
      SleepersSafe(s, Apply(s, a), a.thread);
    }
  }

  lemma WakeKeepsInv(s: State, t: nat, v: nat)
    requires Inv(s) && Enabled(s, Wake(t, v))
    ensures Inv(Apply(s, Wake(t, v)))
  {
    var s', m := Apply(s, Wake(t, v)), To(s, v, Woken);
    KeepsOwnership(s, m, v);
    assert m.threads[v].Rescuer();
    assert Inv(m);
    KeepsOwnership(m, s', t);
    assert v in s'.threads && s'.threads[v].Rescuer();
  }

  // ----- Whole runs -----

  ghost predicate Possible(s: State, acts: seq<Action>)
    decreases |acts|
  {
    acts == [] || (Enabled(s, acts[0]) && Possible(Apply(s, acts[0]), acts[1..]))
  }

  ghost function Run(s: State, acts: seq<Action>): State
    requires Possible(s, acts)
    decreases |acts|
  {
    if acts == [] then s else Run(Apply(s, acts[0]), acts[1..])
  }

  ghost predicate Initial(s: State) {
    s.word == UNLOCKED && forall t :: t in s.threads ==> s.threads[t].Idle?
  }

  lemma {:induction false} RunKeepsInv(s: State, acts: seq<Action>)
    requires Inv(s) && Possible(s, acts)
    ensures Inv(Run(s, acts))
    decreases |acts|
  {
    if acts != [] {
      StepKeepsInv(s, acts[0]);
      RunKeepsInv(Apply(s, acts[0]), acts[1..]);
    }
  }

  /** In every interleaving at most one thread owns the lock. */
  lemma MutualExclusion(s: State, acts: seq<Action>, t: nat, u: nat)
    requires Initial(s) && Possible(s, acts)
    requires t in Run(s, acts).threads && u in Run(s, acts).threads && t != u
    ensures !(Run(s, acts).threads[t].Owner? && Run(s, acts).threads[u].Owner?)
  {
    RunKeepsInv(s, acts);
  }

  /** No lost wake-up: while a thread sleeps, another thread that does not sleep
      is bound to act for the sleepers: the lock's owner, who will find the word
      at MAYBE_WAITERS, or a thread already releasing, waking or woken. */
  lemma SleeperNotAbandoned(s: State, acts: seq<Action>, t: nat) returns (u: nat)
    requires Initial(s) && Possible(s, acts)
    requires t in Run(s, acts).threads && Run(s, acts).threads[t].Sleeping?
    ensures var r := Run(s, acts);
            u in r.threads && (r.threads[u].Rescuer() || (r.threads[u].HasLock() && r.word == LOCKED_MAYBE_WAITERS))
  {
    RunKeepsInv(s, acts);
    var r := Run(s, acts);
    if r.word == LOCKED_MAYBE_WAITERS {
      u :| u in r.threads && r.threads[u].HasLock();
    } else {
      u :| u in r.threads && r.threads[u].Rescuer();
    }
  }

  // ----- Progress -----

  /** A step of thread t itself, not a wake-up that the kernel gives it. */
  predicate IsBy(a: Action, t: nat) { a.thread == t && !a.SpuriousWake? }

  ghost function StepsBy(acts: seq<Action>, t: nat): nat {
    if acts == [] then 0 else (if IsBy(acts[0], t) then 1 else 0) + StepsBy(acts[1..], t)
  }

  ghost predicate Free(s: State) {
    forall t :: t in s.threads ==> !s.threads[t].HasLock()
  }

  /** Nobody has the lock at any point of the run. */
  ghost predicate StaysFree(s: State, acts: seq<Action>)
    requires Possible(s, acts)
    decreases |acts|
  {
    Free(s) && (acts == [] || StaysFree(Apply(s, acts[0]), acts[1..]))
  }

  /** How many steps a thread can take on a free lock without getting it. */
  function FreeBudget(pc: Pc): nat {
    match pc
    case Idle => 1
    case Prepare(seen) => if seen == LOCKED_MAYBE_WAITERS then 3 else 0
    case Looked(seen) => if seen != UNLOCKED then 2 else 0
    case Waiting => 1
    case Waking => 2
    case _ => 0
  }

  lemma FreeStep(s: State, a: Action, t: nat)
    requires Inv(s) && Enabled(s, a) && Free(s) && Free(Apply(s, a)) && t in s.threads
    ensures t in Apply(s, a).threads
    ensures FreeBudget(Apply(s, a).threads[t]) + (if IsBy(a, t) then 1 else 0) <= FreeBudget(s.threads[t])
  {
    assert s.word == UNLOCKED;
    var s' := Apply(s, a);
    assert a.thread in s'.threads && !s'.threads[a.thread].HasLock();
  }

  /** A free lock is taken: as long as nobody has it and nobody gets it, no thread
      takes more than three steps. */
  lemma {:induction false} FreeLockIsTaken(s: State, acts: seq<Action>, t: nat)
    requires Inv(s) && Possible(s, acts) && StaysFree(s, acts) && t in s.threads
    ensures StepsBy(acts, t) <= FreeBudget(s.threads[t]) <= 3
    decreases |acts|
  {
    if acts != [] {
      FreeStep(s, acts[0], t);
      StepKeepsInv(s, acts[0]);
      FreeLockIsTaken(Apply(s, acts[0]), acts[1..], t);
    }
  }

  /** TryLock gets the lock if and only if nobody has it. */
  lemma TryLockIff(s: State, t: nat)
    requires Inv(s) && Enabled(s, TryLock(t))
    ensures Apply(s, TryLock(t)).threads[t].Owner? <==> Free(s)
    ensures !Free(s) ==> Apply(s, TryLock(t)) == s
  {
  }

  /** Thread o has the lock at every point of the run. */
  ghost predicate StaysHeld(s: State, acts: seq<Action>, o: nat)
    requires Possible(s, acts)
    decreases |acts|
  {
    o in s.threads && s.threads[o].HasLock() && (acts == [] || StaysHeld(Apply(s, acts[0]), acts[1..], o))
  }

  /** The owner gives the lock up after at most two steps of its own: its return from
      Lock, if it has not returned yet, and one in Unlock. */
  lemma {:induction false} OwnerReleases(s: State, acts: seq<Action>, o: nat)
    requires Inv(s) && Possible(s, acts) && StaysHeld(s, acts, o)
    ensures StepsBy(acts, o) <= (if s.threads[o].Looked? then 2 else if s.threads[o].Owner? then 1 else 0)
    decreases |acts|
  {
    if acts != [] {
      StepKeepsInv(s, acts[0]);
      OwnerReleases(Apply(s, acts[0]), acts[1..], o);
    }
  }

  /** The thread is done spinning and about to block. */
  predicate Blocking(pc: Pc) { pc.Prepare? || pc.Looked? || pc.Waiting? || pc.Sleeping? || pc.Woken? }

  /** How many steps a blocking thread can take before it sleeps. */
  function HeldBudget(pc: Pc, word: int): nat {
    if word == LOCKED_MAYBE_WAITERS then
      (match pc
       case Prepare(_) => 3
       case Looked(_) => 2
       case Waiting => 1
       case Woken => 3
       case _ => 0)
    else
      (match pc
       case Prepare(seen) => if seen == LOCKED_MAYBE_WAITERS then 7 else 4
       case Looked(_) => 6
       case Waiting => 5
       case Woken => 4
       case _ => 0)
  }

  /** Wake-ups that the thread is given, by another thread or for no reason. */
  predicate Wakes(a: Action, t: nat) { (a.Wake? && a.sleeper == t) || (a.SpuriousWake? && a.thread == t) }

  ghost function WakesOf(acts: seq<Action>, t: nat): nat {
    if acts == [] then 0 else (if Wakes(acts[0], t) then 1 else 0) + WakesOf(acts[1..], t)
  }

  /** The owner's decrement can still take MAYBE_WAITERS off the word. */
  function DecrementLeft(pc: Pc): nat { if pc.Releasing? then 0 else 4 }

  lemma HeldStep(s: State, a: Action, o: nat, t: nat)
    requires Inv(s) && Enabled(s, a) && o in s.threads && s.threads[o].HasLock() && t in s.threads && t != o
    requires o in Apply(s, a).threads && Apply(s, a).threads[o].HasLock() && Blocking(s.threads[t])
    ensures var s' := Apply(s, a);
            && t in s'.threads && Blocking(s'.threads[t])
            && HeldBudget(s'.threads[t], s'.word) + DecrementLeft(s'.threads[o]) + (if IsBy(a, t) then 1 else 0)
               <= HeldBudget(s.threads[t], s.word) + DecrementLeft(s.threads[o]) + (if Wakes(a, t) then 4 else 0)
  {
    assert s.word != UNLOCKED && !s.threads[t].HasLock();
    StepKeepsInv(s, a);
    assert !Apply(s, a).threads[t].HasLock();
  }

  /** A thread that blocks on a held lock goes to sleep: it takes at most eleven steps,
      and four more for each wake-up it is given, while the owner stays the same. */
  lemma {:induction false} BlockingThreadSleeps(s: State, acts: seq<Action>, o: nat, t: nat)
    requires Inv(s) && Possible(s, acts) && StaysHeld(s, acts, o) && t in s.threads && t != o && Blocking(s.threads[t])
    ensures StepsBy(acts, t) <= HeldBudget(s.threads[t], s.word) + DecrementLeft(s.threads[o]) + 4 * WakesOf(acts, t)
    ensures HeldBudget(s.threads[t], s.word) + DecrementLeft(s.threads[o]) <= 11
    decreases |acts|
  {
    if acts != [] {
      HeldStep(s, acts[0], o, t);
      StepKeepsInv(s, acts[0]);
      BlockingThreadSleeps(Apply(s, acts[0]), acts[1..], o, t);
    }
  }
}
