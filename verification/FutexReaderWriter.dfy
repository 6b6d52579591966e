/** The reader/writer lock on top of its real inner lock: the machine of
    ReaderWriterLock, whose inner lock is one atomic object, run on the futex lock
    of SimpleLock step by step. */
module FutexReaderWriter {
  import opened Basics
  import S = SimpleLock
  import W = ReaderWriterLock

  datatype Want = Read | Write

  /** `wants` remembers for what a thread has called Lock. */
  datatype State = State(lock: S.State, rw: W.State, wants: map<nat, Want>)

  datatype Action =
    | CallLock(thread: nat, want: Want)  // ReadLock, WriteLock: enter the inner Lock
    | TryLock(thread: nat, want: Want)   // TryReadLock, TryWriteLock: one attempt
    | LockStep(step: S.Action)           // inside the inner Lock or Unlock
    | CallUnlock(thread: nat)            // release the inner lock
    | RwStep(move: W.Action)             // everything else

  /** The next step is to release the inner lock. */
  predicate Releases(pc: W.Pc) { pc.ReadCounted? || pc.WriteUnlock? || pc.TryBackOff? }

  ghost predicate Enabled(s: State, a: Action) {
    match a
    case CallLock(t, _) => S.Enabled(s.lock, S.BeginLock(t)) && t in s.rw.threads && s.rw.threads[t].Idle?
    case TryLock(t, _) => S.Enabled(s.lock, S.TryLock(t)) && t in s.rw.threads && s.rw.threads[t].Idle?
    case LockStep(l) => S.Enabled(s.lock, l) && (l.Step? || l.StopSpinning? || l.Wake? || l.SpuriousWake?)
    case CallUnlock(t) => S.Enabled(s.lock, S.Unlock(t)) && t in s.rw.threads && Releases(s.rw.threads[t])
    case RwStep(w) =>
      && W.Enabled(s.rw, w) && (w.Step? || w.SpuriousWake?) && w.thread in s.lock.threads
      && !Releases(s.rw.threads[w.thread])
      && (if s.rw.threads[w.thread].HasInner() then s.lock.threads[w.thread].Owner? else s.lock.threads[w.thread].Idle?)
  }

  /** The step of the inner lock's machine, if it is one. */
  function LockAction(a: Action): Option<S.Action> {
    match a
    case CallLock(t, _) => Some(S.BeginLock(t))
    case TryLock(t, _) => Some(S.TryLock(t))
    case LockStep(l) => Some(l)
    case CallUnlock(t) => Some(S.Unlock(t))
    case RwStep(_) => None
  }

  ghost function NewLock(s: State, a: Action): S.State
    requires Enabled(s, a)
  {
    if LockAction(a).Some? then S.Apply(s.lock, LockAction(a).value) else s.lock
  }

  ghost predicate HasLock(l: S.State, t: nat) { t in l.threads && l.threads[t].HasLock() }

  /** What a thread that gets the inner lock goes on with. */
  function Beginning(s: State, a: Action, t: nat): W.Action {
    match a
    case TryLock(_, Write) => W.BeginTryWrite(t)
    case TryLock(_, Read) => W.BeginRead(t)
    case _ => if t in s.wants && s.wants[t] == Write then W.BeginWrite(t) else W.BeginRead(t)
  }

  /** The step on the reader/writer lock with an atomic inner lock: the inner lock is
      taken when its owner changes to the thread, and released when it changes back. */
  ghost function Abstract(s: State, a: Action): Option<W.Action>
    requires Enabled(s, a)
  {
    if a.RwStep? then Some(a.move)
    else
      var t := LockAction(a).value.thread;
      var before, after := HasLock(s.lock, t), HasLock(NewLock(s, a), t);
      if !before && after then Some(Beginning(s, a, t))
      else if before && !after then Some(W.Step(t))
      else None
  }

  ghost function Apply(s: State, a: Action): State
    requires Enabled(s, a)
  {
    var w := Abstract(s, a);
    State(NewLock(s, a),
          if w.Some? && W.Enabled(s.rw, w.value) then W.Apply(s.rw, w.value) else s.rw,
          if a.CallLock? then s.wants[a.thread := a.want] else s.wants)
  }

  // ----- The simulation -----

  /** The futex lock's owner is the holder of the atomic lock; a thread inside Lock
      has not begun, and one inside Unlock is about to have released. */
  ghost predicate ThreadLinked(s: State, t: nat)
    requires t in s.lock.threads && t in s.rw.threads
  {
    var l, w := s.lock.threads[t], s.rw.threads[t];
    && (l.HasLock() <==> s.rw.inner == Some(t))
    && (l.Releasing? ==> Releases(w))
    && (!l.HasLock() && !l.Idle? && !l.Waking? ==> w.Idle?)
  }

  ghost predicate Linked(s: State) {
    && s.lock.threads.Keys == s.rw.threads.Keys
    && forall t :: t in s.lock.threads ==> ThreadLinked(s, t)
  }

  ghost predicate Inv(s: State) { S.Inv(s.lock) && W.Inv(s.rw) && Linked(s) }

  ghost predicate Unlocked(s: State) {
    S.Initial(s.lock) && W.Unlocked(s.rw) && s.lock.threads.Keys == s.rw.threads.Keys
  }

  lemma UnlockedInv(s: State)
    requires Unlocked(s)
    ensures Inv(s)
  {
    W.InitialInv(s.rw);
  }

  lemma LockKept(s: State, a: Action)
    requires Inv(s) && Enabled(s, a)
    ensures S.Inv(NewLock(s, a)) && NewLock(s, a).threads.Keys == s.lock.threads.Keys
  {
    if LockAction(a).Some? { S.StepKeepsInv(s.lock, LockAction(a).value); }
  }

  /** A thread gets the futex lock only while nobody has it. */
  lemma TakenWhenFree(s: State, l: S.Action)
    requires S.Inv(s.lock) && S.Enabled(s.lock, l) && !HasLock(s.lock, l.thread) && HasLock(S.Apply(s.lock, l), l.thread)
    ensures forall u :: !HasLock(s.lock, u)
  {
  }

  lemma NobodyInside(s: State)
    requires Inv(s) && forall u :: !HasLock(s.lock, u)
    ensures s.rw.inner.None?
  {
    forall u | u in s.lock.threads ensures s.rw.inner != Some(u) {
      assert ThreadLinked(s, u) && !HasLock(s.lock, u);
    }
  }

  /** The abstract step is possible whenever there is one. */
  lemma AbstractEnabled(s: State, a: Action)
    requires Inv(s) && Enabled(s, a) && Abstract(s, a).Some?
    ensures W.Enabled(s.rw, Abstract(s, a).value)
  {
    if !a.RwStep? {
      var l := LockAction(a).value;
      var t := l.thread;
      assert ThreadLinked(s, t);
      if !HasLock(s.lock, t) {
        TakenWhenFree(s, l);
        NobodyInside(s);
      }
    }
  }

  /** Who else moves in a step of the inner lock: the one that is woken. */
  lemma OthersInLock(s: State, l: S.Action, u: nat)
    requires S.Enabled(s.lock, l) && u in s.lock.threads && u != l.thread
    ensures var was, now := s.lock.threads[u], S.Apply(s.lock, l).threads[u];
            now == was || (l.Wake? && was.Sleeping? && now.Woken?)
  {
  }

  lemma BeginEffect(rw: W.State, w: W.Action)
    requires W.Enabled(rw, w) && !w.Step? && !w.SpuriousWake?
    ensures var rw' := W.Apply(rw, w); rw'.inner == Some(w.thread) && rw'.threads == rw.threads[w.thread := rw'.threads[w.thread]]
  {
  }

  lemma ReleaseEffect(rw: W.State, t: nat)
    requires t in rw.threads && Releases(rw.threads[t])
    ensures W.Enabled(rw, W.Step(t))
    ensures var rw' := W.Apply(rw, W.Step(t)); rw'.inner == None && rw'.threads == rw.threads[t := rw'.threads[t]]
  {
  }

  /** Other steps leave the inner lock alone, and every other thread where it is but
      for a sleeping writer. */
  lemma MoveEffect(rw: W.State, w: W.Action, u: nat)
    requires W.Enabled(rw, w) && (w.Step? || w.SpuriousWake?) && !Releases(rw.threads[w.thread]) && u in rw.threads
    ensures var rw' := W.Apply(rw, w);
            && rw'.inner == rw.inner && rw'.threads.Keys == rw.threads.Keys
            && (u != w.thread ==> (rw.threads[u].Idle? ==> rw'.threads[u].Idle?) && (Releases(rw.threads[u]) ==> Releases(rw'.threads[u])))
  {
  }

  /** What a step of the inner lock does on the other side. */
  lemma AbstractEffect(s: State, a: Action)
    requires Inv(s) && Enabled(s, a) && !a.RwStep?
    ensures var t, s' := LockAction(a).value.thread, Apply(s, a);
            && t in s'.rw.threads && s'.rw.threads == s.rw.threads[t := s'.rw.threads[t]]
            && s'.rw.inner == (if HasLock(s'.lock, t) then Some(t) else if HasLock(s.lock, t) then None else s.rw.inner)
            && (HasLock(s'.lock, t) == HasLock(s.lock, t) ==> s'.rw == s.rw)
  {
    var t := LockAction(a).value.thread;
    assert ThreadLinked(s, t);
    if Abstract(s, a).Some? {
      AbstractEnabled(s, a);
      if HasLock(s.lock, t) { ReleaseEffect(s.rw, t); } else { BeginEffect(s.rw, Abstract(s, a).value); }
    }
  }

  /** How the moving thread goes on inside the inner lock. */
  lemma MoverInLock(s: State, a: Action)
    requires Inv(s) && Enabled(s, a) && !a.RwStep?
    ensures var t := LockAction(a).value.thread;
            var was, now := s.lock.threads[t], NewLock(s, a).threads[t];
            && (now.Releasing? ==> was.HasLock() && Releases(s.rw.threads[t]))
            && (was.HasLock() && !now.HasLock() ==> now.Idle? || now.Waking?)
            && (!now.HasLock() && !now.Idle? && !now.Waking? ==> s.rw.threads[t].Idle?)
  {
    assert ThreadLinked(s, LockAction(a).value.thread);
  }

  lemma LockStepLinked(s: State, a: Action)
    requires Inv(s) && Enabled(s, a) && !a.RwStep?
    ensures Linked(Apply(s, a))
  {
    var l, s' := LockAction(a).value, Apply(s, a);
    var t := l.thread;
    LockKept(s, a);
    AbstractEffect(s, a);
    MoverInLock(s, a);
    assert ThreadLinked(s, t);
    forall u | u in s'.lock.threads ensures ThreadLinked(s', u) {
      if u != t { OthersLinked(s, a, u); }
    }
  }

  lemma OthersLinked(s: State, a: Action, u: nat)
    requires Inv(s) && Enabled(s, a) && !a.RwStep? && u in s.lock.threads && u != LockAction(a).value.thread
    requires u in Apply(s, a).lock.threads && u in Apply(s, a).rw.threads
    ensures ThreadLinked(Apply(s, a), u)
  {
    AbstractEffect(s, a);
    assert ThreadLinked(s, u);
    assert ThreadLinked(s, LockAction(a).value.thread);
    OthersInLock(s, LockAction(a).value, u);
    if HasLock(NewLock(s, a), LockAction(a).value.thread) && !HasLock(s.lock, LockAction(a).value.thread) {
      TakenWhenFree(s, LockAction(a).value);
      assert !HasLock(s.lock, u);
    }
  }

  lemma RwStepLinked(s: State, w: W.Action)
    requires Inv(s) && Enabled(s, RwStep(w))
    ensures Linked(Apply(s, RwStep(w)))
  {
    var s' := Apply(s, RwStep(w));
    MoveEffect(s.rw, w, w.thread);
    forall u | u in s'.lock.threads ensures ThreadLinked(s', u) {
      assert ThreadLinked(s, u);
      MoveEffect(s.rw, w, u);
    }
  }

  /** Every step of the composed lock is a step of the reader/writer lock with an
      atomic inner lock, or none. */
  lemma StepRefines(s: State, a: Action)
    requires Inv(s) && Enabled(s, a)
    ensures Inv(Apply(s, a))
    ensures var w := Abstract(s, a);
            if w.Some? then W.Enabled(s.rw, w.value) && Apply(s, a).rw == W.Apply(s.rw, w.value)
            else Apply(s, a).rw == s.rw
  {
    LockKept(s, a);
    if Abstract(s, a).Some? {
      AbstractEnabled(s, a);
      W.StepKeepsInv(s.rw, Abstract(s, a).value);
    }
    if a.RwStep? { RwStepLinked(s, a.move); } else { LockStepLinked(s, a); }
  }

  // ----- Whole runs -----

  ghost predicate Possible(s: State, acts: seq<Action>)
    decreases |acts|
  {
    acts == [] || (Enabled(s, acts[0]) && Possible(Apply(s, acts[0]), acts[1..]))
  }

  ghost function Run(s: State, acts: seq<Action>): State
    requires Possible(s, acts)
    decreases |acts|
  {
    if acts == [] then s else Run(Apply(s, acts[0]), acts[1..])
  }

  /** The steps of the reader/writer lock in a run, without those inside Lock and
      Unlock of the inner lock. */
  ghost function AbstractRun(s: State, acts: seq<Action>): seq<W.Action>
    requires Possible(s, acts)
    decreases |acts|
  {
    if acts == [] then []
    else
      var w := Abstract(s, acts[0]);
      (if w.Some? then [w.value] else []) + AbstractRun(Apply(s, acts[0]), acts[1..])
  }

  /** Every run of the composed lock is a run of the reader/writer lock with an atomic
      inner lock, with steps inside the inner lock in between. */
  lemma {:induction false} RunRefines(s: State, acts: seq<Action>)
    requires Inv(s) && Possible(s, acts)
    ensures Inv(Run(s, acts))
    ensures W.Possible(s.rw, AbstractRun(s, acts)) && W.Run(s.rw, AbstractRun(s, acts)) == Run(s, acts).rw
    decreases |acts|
  {
    if acts != [] {
      StepRefines(s, acts[0]);
      RunRefines(Apply(s, acts[0]), acts[1..]);
      var w, rest := Abstract(s, acts[0]), AbstractRun(Apply(s, acts[0]), acts[1..]);
      if w.Some? {
        assert ([w.value] + rest)[1..] == rest;
      } else {
        assert [] + rest == rest;
      }
    }
  }

  /** On the real inner lock too, a writer excludes everybody else, in every
      interleaving of the atomic steps of both locks. */
  lemma MutualExclusion(s: State, acts: seq<Action>, t: nat, u: nat)
    requires Unlocked(s) && Possible(s, acts) && t != u
    requires t in Run(s, acts).rw.threads && u in Run(s, acts).rw.threads && Run(s, acts).rw.threads[t].Writing?
    ensures !Run(s, acts).rw.threads[u].Writing? && !Run(s, acts).rw.threads[u].Reading?
  {
    UnlockedInv(s);
    RunRefines(s, acts);
    W.MutualExclusion(s.rw, AbstractRun(s, acts), t, u);
  }

  // ----- Deadlock freedom -----

  /** A thread's own next step inside an operation, or its waking of a sleeper: not
      the start of an operation, and not a wake-up for no reason. */
  predicate Proceeds(a: Action) {
    || (a.LockStep? && !a.step.SpuriousWake?)
    || a.CallUnlock?
    || (a.RwStep? && a.move.Step?)
  }

  /** A thread inside the inner lock, but not asleep, can move. */
  lemma LockCanMove(s: State, t: nat) returns (a: Action)
    requires Inv(s) && t in s.lock.threads
    requires !s.lock.threads[t].Idle? && !s.lock.threads[t].Owner? && !s.lock.threads[t].Sleeping?
    ensures Enabled(s, a) && Proceeds(a)
  {
    if s.lock.threads[t].Waking? && !S.NobodySleeps(s.lock) {
      var u :| u in s.lock.threads && s.lock.threads[u].Sleeping?;
      a := LockStep(S.Wake(t, u));
    } else {
      a := LockStep(S.Step(t));
    }
  }

  /** A thread inside an operation of the reader/writer lock, or somebody it waits
      for, can move. */
  lemma RwCanMove(s: State, t: nat) returns (a: Action)
    requires Inv(s) && t in s.rw.threads && !s.rw.threads[t].Idle?
    ensures Enabled(s, a) && Proceeds(a)
  {
    var u := W.SomeoneCanStep(s.rw, t);
    assert ThreadLinked(s, u);
    var l := s.lock.threads[u];
    if !l.Idle? && !l.Owner? && !l.Sleeping? {
      a := LockCanMove(s, u);
    } else if Releases(s.rw.threads[u]) {
      a := CallUnlock(u);
    } else {
      a := RwStep(W.Step(u));
    }
  }

  /** While a thread is inside an operation, asleep at the inner lock or not, or has
      the lock, some thread can move, without the help of spurious wake-ups. */
  lemma DeadlockFree(s: State, acts: seq<Action>, t: nat) returns (a: Action)
    requires Unlocked(s) && Possible(s, acts) && t in Run(s, acts).lock.threads
    requires !Run(s, acts).lock.threads[t].Idle? || (t in Run(s, acts).rw.threads && !Run(s, acts).rw.threads[t].Idle?)
    ensures Enabled(Run(s, acts), a) && Proceeds(a)
  {
    UnlockedInv(s);
    RunRefines(s, acts);
    var r := Run(s, acts);
    assert ThreadLinked(r, t);
    if !r.rw.threads[t].Idle? {
      a := RwCanMove(r, t);
    } else if !r.lock.threads[t].Sleeping? {
      a := LockCanMove(r, t);
    } else if r.lock.word == S.LOCKED_MAYBE_WAITERS {
      var u :| u in r.lock.threads && r.lock.threads[u].HasLock();
      assert ThreadLinked(r, u);
      a := RwCanMove(r, u);
    } else {
      var u :| u in r.lock.threads && r.lock.threads[u].Rescuer();
      a := LockCanMove(r, u);
    }
  }

  // ----- A free inner lock is taken -----

  /** The steps of the inner lock in a run. */
  ghost function LockRun(s: State, acts: seq<Action>): seq<S.Action>
    requires Possible(s, acts)
    decreases |acts|
  {
    if acts == [] then []
    else
      var l := LockAction(acts[0]);
      (if l.Some? then [l.value] else []) + LockRun(Apply(s, acts[0]), acts[1..])
  }

  /** Nobody has the inner lock at any point of the run. */
  ghost predicate InnerStaysFree(s: State, acts: seq<Action>)
    requires Possible(s, acts)
    decreases |acts|
  {
    S.Free(s.lock) && (acts == [] || InnerStaysFree(Apply(s, acts[0]), acts[1..]))
  }

  lemma {:induction false} FreeOnLock(s: State, acts: seq<Action>)
    requires Possible(s, acts) && InnerStaysFree(s, acts)
    ensures S.Possible(s.lock, LockRun(s, acts)) && S.StaysFree(s.lock, LockRun(s, acts))
    decreases |acts|
  {
    if acts != [] {
      FreeOnLock(Apply(s, acts[0]), acts[1..]);
      var l, rest := LockAction(acts[0]), LockRun(Apply(s, acts[0]), acts[1..]);
      if l.Some? {
        assert ([l.value] + rest)[1..] == rest;
      } else {
        assert [] + rest == rest;
      }
    }
  }

  /** In every run, as long as nobody has the inner lock and nobody gets it, no thread
      takes more than three steps inside it: Lock on a free inner lock returns. */
  lemma InnerLockIsTaken(s: State, before: seq<Action>, acts: seq<Action>, t: nat)
    requires Unlocked(s) && Possible(s, before) && Possible(Run(s, before), acts)
    requires InnerStaysFree(Run(s, before), acts) && t in Run(s, before).lock.threads
    ensures S.StepsBy(LockRun(Run(s, before), acts), t) <= 3
  {
    UnlockedInv(s);
    RunRefines(s, before);
    FreeOnLock(Run(s, before), acts);
    S.FreeLockIsTaken(Run(s, before).lock, LockRun(Run(s, before), acts), t);
  }

  /** The thread does not call a lock operation in the run. */
  ghost predicate NoCallBy(acts: seq<Action>, t: nat) {
    forall i :: 0 <= i < |acts| && (acts[i].CallLock? || acts[i].TryLock?) ==> acts[i].thread != t
  }

  lemma {:induction false} WantKept(s: State, acts: seq<Action>, t: nat)
    requires Possible(s, acts) && NoCallBy(acts, t) && t in s.wants
    ensures t in Run(s, acts).wants && Run(s, acts).wants[t] == s.wants[t]
    decreases |acts|
  {
    if acts != [] {
      assert acts[0].CallLock? ==> acts[0].thread != t;
      WantKept(Apply(s, acts[0]), acts[1..], t);
    }
  }

  /** Whatever happens between its call and the step in which it gets the inner lock,
      a thread goes on with the operation it called: ReadLock or WriteLock. */
  lemma CalledOperationBegins(s: State, t: nat, want: Want, acts: seq<Action>, l: S.Action)
    requires Inv(s) && Enabled(s, CallLock(t, want)) && Possible(Apply(s, CallLock(t, want)), acts) && NoCallBy(acts, t)
    requires var r := Run(Apply(s, CallLock(t, want)), acts);
             Enabled(r, LockStep(l)) && l.thread == t && !HasLock(r.lock, t) && HasLock(S.Apply(r.lock, l), t)
    ensures var r' := Apply(Run(Apply(s, CallLock(t, want)), acts), LockStep(l));
            t in r'.rw.threads && r'.rw.threads[t] == (if want == Read then W.ReadLocked else W.WriteLocked)
  {
    var s1 := Apply(s, CallLock(t, want));
    StepRefines(s, CallLock(t, want));
    RunRefines(s1, acts);
    WantKept(s1, acts, t);
    AbstractEnabled(Run(s1, acts), LockStep(l));
  }

  /** TryReadLock and TryWriteLock get past the inner lock if and only if nobody has
      it, and then go on as readers and as trying writers. */
  lemma TryLockIff(s: State, t: nat, want: Want)
    requires Inv(s) && Enabled(s, TryLock(t, want))
    ensures var s' := Apply(s, TryLock(t, want));
            && (s'.rw.inner == Some(t) <==> S.Free(s.lock))
            && (S.Free(s.lock) ==> t in s'.rw.threads && s'.rw.threads[t] == (if want == Read then W.ReadLocked else W.TryLocked))
            && (!S.Free(s.lock) ==> s'.lock == s.lock && s'.rw == s.rw)
  {
    S.TryLockIff(s.lock, t);
    assert ThreadLinked(s, t);
    AbstractEffect(s, TryLock(t, want));
    if Abstract(s, TryLock(t, want)).Some? { AbstractEnabled(s, TryLock(t, want)); }
  }

  // ----- A waiting writer is next -----

  /** The run up to any step of the reader/writer lock is a part of the run. */
  lemma {:induction false} PrefixOf(s: State, acts: seq<Action>, j: nat) returns (k: nat)
    requires Possible(s, acts) && j <= |AbstractRun(s, acts)|
    ensures k <= |acts| && Possible(s, acts[..k]) && AbstractRun(s, acts[..k]) == AbstractRun(s, acts)[..j]
    decreases |acts|
  {
    if j == 0 {
      k := 0;
    } else {
      var w, s1 := Abstract(s, acts[0]), Apply(s, acts[0]);
      var rest := AbstractRun(s1, acts[1..]);
      k := PrefixOf(s1, acts[1..], if w.Some? then j - 1 else j);
      var part := acts[1..][..k];
      k := k + 1;
      assert acts[..k][1..] == part && acts[..k][0] == acts[0];
      if w.Some? {
        assert ([w.value] + rest)[..j] == [w.value] + rest[..j - 1];
      } else {
        assert [] + rest == rest && [] + rest[..j] == rest[..j];
      }
    }
  }

  /** What is done of the reader/writer lock's steps after a part of the run. */
  lemma {:induction false} AbstractPrefix(s: State, acts: seq<Action>, i: nat)
    requires Possible(s, acts) && i <= |acts|
    ensures Possible(s, acts[..i]) && AbstractRun(s, acts[..i]) <= AbstractRun(s, acts)
    decreases i
  {
    if i > 0 {
      AbstractPrefix(Apply(s, acts[0]), acts[1..], i - 1);
      assert acts[..i][1..] == acts[1..][..i - 1] && acts[..i][0] == acts[0];
    }
  }

  /** At no point of the steps is anybody a reader who was not one to begin with. */
  ghost predicate OldReadersIn(rw: W.State, steps: seq<W.Action>) {
    forall n :: 0 <= n <= |steps| ==> W.Possible(rw, steps[..n]) && W.Readers(W.Run(rw, steps[..n])) <= W.Readers(rw)
  }

  ghost predicate OnlyOldReaders(r: State, acts: seq<Action>) {
    forall i :: 0 <= i <= |acts| ==> Possible(r, acts[..i]) && W.Readers(Run(r, acts[..i]).rw) <= W.Readers(r.rw)
  }

  /** What the reader/writer lock with the atomic inner lock promises. */
  lemma FirstSteps(rw: W.State, steps: seq<W.Action>, w: nat) returns (j: nat)
    requires W.Inv(rw) && W.Waiting(rw, w) && W.Possible(rw, steps)
    requires |steps| >= W.StepsToWriter(rw, w) + 4 * W.Spurious(steps)
    ensures j <= |steps| && W.Possible(rw, steps[..j]) && OldReadersIn(rw, steps[..j])
    ensures w in W.Run(rw, steps[..j]).threads && W.Run(rw, steps[..j]).threads[w].Writing?
  {
    j := W.WriterIsNext(rw, steps, w);
    assert forall n :: 0 <= n <= j ==> steps[..j][..n] == steps[..n];
  }

  lemma ReadersCarriedOver(r: State, part: seq<Action>)
    requires Inv(r) && Possible(r, part) && OldReadersIn(r.rw, AbstractRun(r, part))
    ensures OnlyOldReaders(r, part)
  {
    forall i | 0 <= i <= |part| ensures Possible(r, part[..i]) && W.Readers(Run(r, part[..i]).rw) <= W.Readers(r.rw) {
      AbstractPrefix(r, part, i);
      RunRefines(r, part[..i]);
      var steps, n := AbstractRun(r, part), |AbstractRun(r, part[..i])|;
      assert AbstractRun(r, part[..i]) == steps[..n];
    }
  }

  /** A waiting writer writes after a bounded number of steps of the reader/writer
      lock, however many steps other threads take inside the inner lock meanwhile,
      and up to there only threads that were readers already have been reading. */
  lemma WriterPreferred(s: State, before: seq<Action>, acts: seq<Action>, w: nat) returns (k: nat)
    requires Unlocked(s) && Possible(s, before) && W.Waiting(Run(s, before).rw, w)
    requires Possible(Run(s, before), acts)
    requires |AbstractRun(Run(s, before), acts)|
      >= W.StepsToWriter(Run(s, before).rw, w) + 4 * W.Spurious(AbstractRun(Run(s, before), acts))
    ensures var r := Run(s, before);
            && k <= |acts| && Possible(r, acts[..k]) && OnlyOldReaders(r, acts[..k])
            && w in Run(r, acts[..k]).rw.threads && Run(r, acts[..k]).rw.threads[w].Writing?
  {
    UnlockedInv(s);
    RunRefines(s, before);
    var r := Run(s, before);
    RunRefines(r, acts);
    var j := FirstSteps(r.rw, AbstractRun(r, acts), w);
    k := PrefixOf(r, acts, j);
    RunRefines(r, acts[..k]);
    ReadersCarriedOver(r, acts[..k]);
  }
}
