/** The non-blocking set of small identifiers of atomic/idset.hpp: threads take
    and release identifiers by compare-and-swap on words of used bits. A word is
    the set of its one bits. */
module IdSet {

  /** Where a thread stands: idle, searching word i, about to swap word i from
      `seen`, holding an identifier, or giving it back. */
  datatype Pc =
    | Idle
    | Search(i: nat)
    | Claim(i: nat, seen: set<nat>)
    | Holds(id: nat)
    | Release(id: nat)
    | Drop(id: nat, seen: set<nat>)
  {
    predicate HasId() { Holds? || Release? || Drop? }
  }

  datatype State = State(words: seq<set<nat>>, threads: map<nat, Pc>)

  predicate InRange(a: nat, x: nat, b: nat) { a <= x < b }

  /** The numbers from a up to but not including b. */
  function Between(a: nat, b: nat): (s: set<nat>)
    ensures forall x :: x in s <==> a <= x < b
  {
    var s := set x: nat | x < b && InRange(a, x, b);
    assert forall x: nat :: a <= x < b ==> InRange(a, x, b);
    s
  }

  function NumWords(maxId: nat): nat { (maxId + 31) / 32 }

  /** All bits clear, but for the positions of the last word beyond MaxID. */
  function InitialWords(maxId: nat): (w: seq<set<nat>>)
    ensures |w| == NumWords(maxId)
  {
    seq(NumWords(maxId), i =>
      if i == NumWords(maxId) - 1 && maxId % 32 != 0 then Between(maxId % 32, 32) else {})
  }

  /** The first clear bit at or above b, found by shifting ones out. */
  function LowestClear(w: set<nat>, b: nat): (r: nat)
    requires exists c: nat :: b <= c < 32 && c !in w
    ensures b <= r < 32 && r !in w && forall c :: b <= c < r ==> c in w
    decreases 32 - b
  {
    if b in w then LowestClear(w, b + 1) else b
  }

  predicate Full(w: set<nat>) { forall b :: 0 <= b < 32 ==> b in w }

  /** The identifier GetID returns for a bit of word i: the word's index is
      scaled by the bytes of a word, not by its bits. */
  function IdFor(i: nat, bit: nat): nat { i * 4 + bit + 1 }

  /** One atomic step of thread t. An idle thread asks for an identifier, one that
      holds an identifier starts to release it. */
  function Advance(s: State, t: nat): State
    requires t in s.threads
  {
    match s.threads[t]
    case Idle => s.(threads := s.threads[t := Search(0)])
    case Search(i) =>
      if i >= |s.words| then s.(threads := s.threads[t := Idle])
      else if Full(s.words[i]) then s.(threads := s.threads[t := Search(i + 1)])
      else s.(threads := s.threads[t := Claim(i, s.words[i])])
    case Claim(i, seen) =>
      if i < |s.words| && s.words[i] == seen && !Full(seen) then
        var bit := LowestClear(seen, 0);
        s.(words := s.words[i := seen + {bit}], threads := s.threads[t := Holds(IdFor(i, bit))])
      else s.(threads := s.threads[t := Search(i)])
    case Holds(id) => s.(threads := s.threads[t := Release(id)])
    case Release(id) =>
      var i := (id - 1) / 32;
      if 0 <= i < |s.words| then s.(threads := s.threads[t := Drop(id, s.words[i])]) else s
    case Drop(id, seen) =>
      var i := (id - 1) / 32;
      if 0 <= i < |s.words| && s.words[i] == seen then
        s.(words := s.words[i := seen - {(id - 1) % 32}], threads := s.threads[t := Idle])
      else s.(threads := s.threads[t := Release(id)])
  }

  ghost predicate Schedule(s: State, ts: seq<nat>) {
    forall k :: 0 <= k < |ts| ==> ts[k] in s.threads
  }

  ghost function Run(s: State, ts: seq<nat>): (r: State)
    requires Schedule(s, ts)
    ensures r.threads.Keys == s.threads.Keys
  {
    if ts == [] then s
    else
      var m := Run(s, ts[..|ts| - 1]);
      assert ts[|ts| - 1] in s.threads;
      Advance(m, ts[|ts| - 1])
  }

  /** No two threads have the same identifier. */
  ghost predicate Unique(s: State) {
    forall t, u :: t in s.threads && u in s.threads && t != u && s.threads[t].HasId() && s.threads[u].HasId() ==>
      s.threads[t].id != s.threads[u].id
  }

  ghost predicate Start(maxId: nat, s: State) {
    s.words == InitialWords(maxId) && forall t :: t in s.threads ==> s.threads[t].Idle?
  }

  // ----- Up to 32 identifiers -----

  ghost predicate ThreadOk(maxId: nat, w: set<nat>, pc: Pc) {
    && (pc.HasId() ==> 1 <= pc.id <= maxId && pc.id - 1 in w)
    && (pc.Claim? ==> pc.i == 0)
  }

  ghost predicate Taken(s: State, id: nat) {
    exists t :: t in s.threads && s.threads[t].HasId() && s.threads[t].id == id
  }

  /** One word: the taken bits and those beyond MaxID are set ... */
  ghost predicate Inv(maxId: nat, s: State) {
    && |s.words| == 1 && Unique(s)
    && (forall b :: maxId <= b < 32 ==> b in s.words[0])
    && (forall t :: t in s.threads ==> ThreadOk(maxId, s.words[0], s.threads[t]))
  }

  /** ... and no others are. */
  ghost predicate NoStrayBits(maxId: nat, s: State)
    requires |s.words| == 1
  {
    forall id {:trigger Taken(s, id)} :: 1 <= id <= maxId && id - 1 in s.words[0] ==> Taken(s, id)
  }

  lemma StartInv(maxId: nat, s: State)
    requires 1 <= maxId <= 32 && Start(maxId, s)
    ensures Inv(maxId, s) && NoStrayBits(maxId, s)
  {
    if maxId < 32 {
      assert maxId % 32 == maxId;
      assert s.words[0] == Between(maxId, 32);
    }
  }

  lemma AdvanceInv(maxId: nat, s: State, t: nat)
    requires 1 <= maxId <= 32 && Inv(maxId, s) && t in s.threads
    ensures Inv(maxId, Advance(s, t))
  {
    var s', pc := Advance(s, t), s.threads[t];
    assert ThreadOk(maxId, s.words[0], pc);
    forall u | u in s'.threads ensures ThreadOk(maxId, s'.words[0], s'.threads[u]) {
      if u != t {
        assert ThreadOk(maxId, s.words[0], s.threads[u]);
        if s.threads[u].HasId() && pc.Drop? { assert s.threads[u].id != pc.id; }
      }
    }
    if pc.Claim? && s.words[0] == pc.seen && !Full(pc.seen) {
      var bit := LowestClear(pc.seen, 0);
      forall u | u in s.threads && u != t && s.threads[u].HasId() ensures s.threads[u].id != IdFor(0, bit) {
        assert ThreadOk(maxId, s.words[0], s.threads[u]);
      }
    }
  }

  /** A bit that stays set stays taken: only its holder's release clears it. */
  lemma TakenKept(maxId: nat, s: State, t: nat, b: nat)
    requires 1 <= maxId <= 32 && Inv(maxId, s) && t in s.threads
    requires b in s.words[0] && Taken(s, b + 1) && b in Advance(s, t).words[0]
    ensures Taken(Advance(s, t), b + 1)
  {
    var s', pc := Advance(s, t), s.threads[t];
    assert ThreadOk(maxId, s.words[0], pc);
    var u :| u in s.threads && s.threads[u].HasId() && s.threads[u].id == b + 1;
    if u != t {
      assert s'.threads[u] == s.threads[u];
    } else {
      assert s'.threads[t].HasId() && s'.threads[t].id == b + 1;
    }
  }

  lemma NewBitTaken(maxId: nat, s: State, t: nat, b: nat)
    requires 1 <= maxId <= 32 && Inv(maxId, s) && t in s.threads
    requires b !in s.words[0] && b in Advance(s, t).words[0]
    ensures Taken(Advance(s, t), b + 1)
  {
    assert ThreadOk(maxId, s.words[0], s.threads[t]);
    var pc := Advance(s, t).threads[t];
    assert pc == Holds(b + 1);
  }

  lemma AdvanceBits(maxId: nat, s: State, t: nat)
    requires 1 <= maxId <= 32 && Inv(maxId, s) && NoStrayBits(maxId, s) && t in s.threads
    ensures Inv(maxId, Advance(s, t)) && NoStrayBits(maxId, Advance(s, t))
  {
    AdvanceInv(maxId, s, t);
    var s' := Advance(s, t);
    forall id | 1 <= id <= maxId && id - 1 in s'.words[0] ensures Taken(s', id) {
      if id - 1 in s.words[0] {
        TakenKept(maxId, s, t, id - 1);
      } else {
        NewBitTaken(maxId, s, t, id - 1);
      }
    }
  }

  /** Released identifiers are available again: GetID refuses only when, at the moment
      it looked, every identifier from 1 to MaxID was taken. */
  lemma RefusedOnlyWhenAllTaken(maxId: nat, s: State, ts: seq<nat>, t: nat, id: nat)
    requires 1 <= maxId <= 32 && Start(maxId, s) && Schedule(s, ts) && t in s.threads && 1 <= id <= maxId
    requires Run(s, ts).threads[t] == Search(0) && !Advance(Run(s, ts), t).threads[t].Claim?
    ensures Taken(Run(s, ts), id)
  {
    UniqueUpTo32(maxId, s, ts);
    assert Full(Run(s, ts).words[0]);
    assert id - 1 in Run(s, ts).words[0];
  }

  /** And when some identifier is not taken as it looks, and nothing comes in between,
      GetID returns one that nobody had. */
  lemma GetIdGives(maxId: nat, s: State, ts: seq<nat>, t: nat, id: nat)
    requires 1 <= maxId <= 32 && Start(maxId, s) && Schedule(s, ts) && t in s.threads && 1 <= id <= maxId
    requires Run(s, ts).threads[t] == Search(0) && !Taken(Run(s, ts), id)
    ensures var r := Run(s, ts);
            var pc := Advance(Advance(r, t), t).threads[t];
            pc.Holds? && 1 <= pc.id <= maxId && !Taken(r, pc.id)
  {
    UniqueUpTo32(maxId, s, ts);
    var r := Run(s, ts);
    TakenIff(maxId, r, id);
    var bit := LowestClear(r.words[0], 0);
    assert bit < maxId;
    TakenIff(maxId, r, bit + 1);
  }

  lemma TakenIff(maxId: nat, s: State, id: nat)
    requires Inv(maxId, s) && NoStrayBits(maxId, s) && 1 <= id <= maxId
    ensures id - 1 in s.words[0] <==> Taken(s, id)
  {
    forall t | t in s.threads && s.threads[t].HasId() && s.threads[t].id == id ensures id - 1 in s.words[0] {
      assert ThreadOk(maxId, s.words[0], s.threads[t]);
    }
  }

  /** Up to 32 identifiers, in every interleaving of any number of threads, no
      two threads ever have the same one, and all are within range. */
  lemma {:induction false} UniqueUpTo32(maxId: nat, s: State, ts: seq<nat>)
    requires 1 <= maxId <= 32 && Start(maxId, s) && Schedule(s, ts)
    ensures Inv(maxId, Run(s, ts)) && NoStrayBits(maxId, Run(s, ts))
    decreases |ts|
  {
    if ts == [] {
      StartInv(maxId, s);
    } else {
      UniqueUpTo32(maxId, s, ts[..|ts| - 1]);
      assert ts[|ts| - 1] in s.threads;
      AdvanceBits(maxId, Run(s, ts[..|ts| - 1]), ts[|ts| - 1]);
    }
  }

  // ----- Non-blocking -----

  /** Releasing an identifier stays inside the array of words. */
  ghost predicate IdsInRange(s: State) {
    forall t :: t in s.threads && s.threads[t].HasId() ==>
      1 <= s.threads[t].id && (s.threads[t].id - 1) / 32 < |s.words|
  }

  lemma AdvanceInRange(s: State, t: nat)
    requires IdsInRange(s) && t in s.threads
    ensures IdsInRange(Advance(s, t)) && |Advance(s, t).words| == |s.words|
  {
  }

  /** The step in which GetID or ReleaseID returns: a swap that succeeds, or a
      search that has seen every word full. */
  ghost predicate Returns(s: State, t: nat)
    requires t in s.threads
  {
    var pc := s.threads[t];
    || (pc.Search? && pc.i >= |s.words|)
    || (pc.Claim? && pc.i < |s.words| && s.words[pc.i] == pc.seen && !Full(pc.seen))
    || (pc.Drop? && 1 <= pc.id && (pc.id - 1) / 32 < |s.words| && s.words[(pc.id - 1) / 32] == pc.seen)
  }

  /** A part of a run in which no call returns. */
  ghost predicate Quiet(s: State, ts: seq<nat>)
    requires Schedule(s, ts)
    decreases |ts|
  {
    ts == [] || (!Returns(s, ts[0]) && Quiet(Advance(s, ts[0]), ts[1..]))
  }

  ghost function StepsBy(ts: seq<nat>, t: nat): nat {
    if ts == [] then 0 else (if ts[0] == t then 1 else 0) + StepsBy(ts[1..], t)
  }

  /** How many steps a thread has left while the words stay as they are. */
  ghost function Budget(s: State, pc: Pc): nat {
    var n := |s.words|;
    match pc
    case Idle => n + 1
    case Search(i) => if i < n then n - i else 0
    case Claim(i, seen) =>
      if i < n && s.words[i] == seen && !Full(seen) then 0 else if i < n then n - i + 1 else 1
    case Holds(_) => 2
    case Release(_) => 1
    case Drop(id, seen) => if 1 <= id && (id - 1) / 32 < n && s.words[(id - 1) / 32] == seen then 0 else 2
  }

  lemma QuietStep(s: State, u: nat, t: nat)
    requires IdsInRange(s) && u in s.threads && t in s.threads && !Returns(s, u)
    ensures var s' := Advance(s, u);
            && s'.words == s.words
            && Budget(s', s'.threads[t]) + (if u == t then 1 else 0) <= Budget(s, s.threads[t])
  {
    var pc := s.threads[u];
    if pc.Search? && !Full(s.words[pc.i]) { assert Advance(s, u).threads[u] == Claim(pc.i, s.words[pc.i]); }
    if pc.Release? { assert Advance(s, u).threads[u] == Drop(pc.id, s.words[(pc.id - 1) / 32]); }
  }

  lemma {:induction false} QuietBound(s: State, ts: seq<nat>, t: nat)
    requires IdsInRange(s) && Schedule(s, ts) && Quiet(s, ts) && t in s.threads
    ensures StepsBy(ts, t) <= Budget(s, s.threads[t]) <= |s.words| + 2
    decreases |ts|
  {
    if ts != [] {
      assert ts[0] in s.threads;
      QuietStep(s, ts[0], t);
      AdvanceInRange(s, ts[0]);
      QuietBound(Advance(s, ts[0]), ts[1..], t);
    }
  }

  lemma {:induction false} RunInRange(s: State, ts: seq<nat>)
    requires IdsInRange(s) && Schedule(s, ts)
    ensures IdsInRange(Run(s, ts)) && |Run(s, ts).words| == |s.words|
    decreases |ts|
  {
    if ts != [] {
      var n := |ts| - 1;
      RunInRange(s, ts[..n]);
      assert ts[n] in s.threads;
      AdvanceInRange(Run(s, ts[..n]), ts[n]);
    }
  }

  /** Non-blocking: in every run of a set built for MaxID, whatever it is, no thread
      takes more steps than there are words, and two, while no call of any thread
      returns. */
  lemma NonBlocking(maxId: nat, s: State, before: seq<nat>, ts: seq<nat>, t: nat)
    requires Start(maxId, s) && Schedule(s, before) && t in s.threads
    requires Schedule(Run(s, before), ts) && Quiet(Run(s, before), ts)
    ensures StepsBy(ts, t) <= NumWords(maxId) + 2
  {
    RunInRange(s, before);
    QuietBound(Run(s, before), ts, t);
  }

  // ----- Beyond 32 identifiers -----

  ghost function Holders(k: nat): (m: map<nat, Pc>)
    ensures forall t :: t in m <==> 0 <= t < 34
    ensures forall t :: t in m ==> m[t] == if t < k then Holds(t + 1) else Idle
  {
    map t | t in Between(0, 34) :: if t < k then Holds(t + 1) else Idle
  }

  /** Thirty-four threads, the first k of which hold 1 .. k. */
  ghost function Filled(maxId: nat, k: nat): State
    requires maxId >= 33 && k <= 32
  {
    State(InitialWords(maxId)[0 := Between(0, k)], Holders(k))
  }

  lemma OneMore(s: State, ts: seq<nat>, t: nat)
    requires Schedule(s, ts) && t in s.threads
    ensures Schedule(s, ts + [t]) && Run(s, ts + [t]) == Advance(Run(s, ts), t)
  {
  }

  /** Thread k searches, claims bit k of the first word, and holds k + 1. */
  lemma TakeNext(maxId: nat, s0: State, ts: seq<nat>, k: nat)
    requires maxId >= 33 && k < 32 && Schedule(s0, ts) && Run(s0, ts) == Filled(maxId, k)
    ensures Schedule(s0, ts + [k] + [k] + [k]) && Run(s0, ts + [k] + [k] + [k]) == Filled(maxId, k + 1)
  {
    OneMore(s0, ts, k);
    OneMore(s0, ts + [k], k);
    OneMore(s0, ts + [k] + [k], k);
    TakeThreeSteps(maxId, k);
  }

  lemma NextBit(maxId: nat, k: nat)
    requires maxId >= 33 && k < 32
    ensures var s := Filled(maxId, k);
            && k in s.threads && s.threads[k].Idle? && |s.words| >= 1
            && k !in s.words[0] && forall c :: 0 <= c < k ==> c in s.words[0]
  {
  }

  /** Thread t holds the identifier of the given bit of the first word. */
  ghost function WithBit(s: State, t: nat, bit: nat): State
    requires |s.words| >= 1
  {
    s.(words := s.words[0 := s.words[0] + {bit}], threads := s.threads[t := Holds(bit + 1)])
  }

  lemma FilledNext(maxId: nat, k: nat)
    requires maxId >= 33 && k < 32
    ensures WithBit(Filled(maxId, k), k, k) == Filled(maxId, k + 1)
  {
    var s := Filled(maxId, k);
    assert Between(0, k) + {k} == Between(0, k + 1);
    assert s.words[0 := s.words[0] + {k}] == Filled(maxId, k + 1).words;
    assert s.threads[k := Holds(k + 1)] == Filled(maxId, k + 1).threads;
  }

  lemma TakeThreeSteps(maxId: nat, k: nat)
    requires maxId >= 33 && k < 32
    ensures Advance(Advance(Advance(Filled(maxId, k), k), k), k) == Filled(maxId, k + 1)
  {
    NextBit(maxId, k);
    ClaimFrom(Filled(maxId, k), k, k);
    FilledNext(maxId, k);
  }

  /** An undisturbed thread takes the lowest clear bit of the first word. */
  lemma ClaimFrom(s: State, t: nat, bit: nat)
    requires t in s.threads && s.threads[t].Idle? && |s.words| >= 1
    requires bit < 32 && bit !in s.words[0] && forall c :: 0 <= c < bit ==> c in s.words[0]
    ensures Advance(Advance(Advance(s, t), t), t) == WithBit(s, t, bit)
  {
    var claim := Advance(Advance(s, t), t);
    assert claim.threads[t] == Claim(0, s.words[0]) && claim.words == s.words;
    assert LowestClear(s.words[0], 0) == bit;
    assert Advance(claim, t).threads == s.threads[t := Holds(bit + 1)];
  }

  /** An undisturbed thread that finds the first word full takes the lowest clear
      bit of the second. */
  lemma ClaimSecond(s: State, t: nat)
    requires t in s.threads && s.threads[t].Idle? && |s.words| >= 2
    requires Full(s.words[0]) && 0 !in s.words[1]
    ensures var end := Advance(Advance(Advance(Advance(s, t), t), t), t);
            end.threads == s.threads[t := Holds(5)]
  {
  }

  lemma {:induction false} TakeMany(maxId: nat, k: nat) returns (ts: seq<nat>)
    requires maxId >= 33 && k <= 32
    ensures Schedule(Filled(maxId, 0), ts) && Run(Filled(maxId, 0), ts) == Filled(maxId, k)
  {
    if k == 0 {
      ts := [];
    } else {
      var before := TakeMany(maxId, k - 1);
      TakeNext(maxId, Filled(maxId, 0), before, k - 1);
      ts := before + [k - 1] + [k - 1] + [k - 1];
    }
  }

  lemma FilledStart(maxId: nat)
    requires maxId >= 33
    ensures Start(maxId, Filled(maxId, 0))
  {
    assert InitialWords(maxId)[0] == {};
    assert Between(0, 0) == {};
    assert InitialWords(maxId)[0 := {}] == InitialWords(maxId);
  }

  /** With MaxID above 32 the thirty-third thread is given identifier 5, which
      thread 4 holds. */
  lemma DuplicateBeyond32(maxId: nat) returns (s: State, ts: seq<nat>)
    requires maxId >= 33
    ensures Start(maxId, s) && Schedule(s, ts) && !Unique(Run(s, ts))
  {
    FilledStart(maxId);
    s := Filled(maxId, 0);
    var before := TakeMany(maxId, 32);
    SecondWord(maxId);
    ts := LateComer(s, before, Filled(maxId, 32), 32, 4);
  }

  lemma LateComer(s: State, before: seq<nat>, m: State, t: nat, u: nat) returns (ts: seq<nat>)
    requires Schedule(s, before) && Run(s, before) == m
    requires t in m.threads && m.threads[t].Idle? && u in m.threads && m.threads[u] == Holds(5)
    requires |m.words| >= 2 && Full(m.words[0]) && 0 !in m.words[1]
    ensures Schedule(s, ts) && !Unique(Run(s, ts))
  {
    FourMore(s, before, t);
    ts := before + [t] + [t] + [t] + [t];
    ClaimSecond(m, t);
    var end := Run(s, ts);
    assert end.threads[t] == Holds(5) && end.threads[u] == Holds(5) && t != u;
  }

  lemma FourMore(s: State, ts: seq<nat>, t: nat)
    requires Schedule(s, ts) && t in s.threads
    ensures Schedule(s, ts + [t] + [t] + [t] + [t])
    ensures Run(s, ts + [t] + [t] + [t] + [t]) == Advance(Advance(Advance(Advance(Run(s, ts), t), t), t), t)
  {
    OneMore(s, ts, t);
    OneMore(s, ts + [t], t);
    OneMore(s, ts + [t] + [t], t);
    OneMore(s, ts + [t] + [t] + [t], t);
  }

  lemma SecondWord(maxId: nat)
    requires maxId >= 33
    ensures |Filled(maxId, 32).words| >= 2 && Full(Filled(maxId, 32).words[0]) && 0 !in Filled(maxId, 32).words[1]
  {
    var w := InitialWords(maxId)[1];
    assert Filled(maxId, 32).words[1] == w;
    assert w == if NumWords(maxId) == 2 && maxId % 32 != 0 then Between(maxId % 32, 32) else {};
  }

  /** Every run of a set built for `maxId` hands out different identifiers. */
  ghost predicate AlwaysUnique(maxId: nat)
    requires maxId >= 1
  {
    forall s: State, ts: seq<nat> :: Start(maxId, s) && Schedule(s, ts) ==> Unique(Run(s, ts))
  }

  /** Identifiers are unique in every run exactly when MaxID is at most 32. */
  lemma UniqueIff(maxId: nat)
    requires maxId >= 1
    ensures AlwaysUnique(maxId) <==> maxId <= 32
  {
    if maxId <= 32 {
      forall s: State, ts: seq<nat> | Start(maxId, s) && Schedule(s, ts) ensures Unique(Run(s, ts)) {
        UniqueUpTo32(maxId, s, ts);
      }
    } else {
      var s, ts := DuplicateBeyond32(maxId);
    }
  }
}
