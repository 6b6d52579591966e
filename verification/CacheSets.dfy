/** The two cache set policies: the state they update in place, the FIFO queue
    that state stands for, and the classes that hold it. Tag 0 means "empty". */
module CacheSets {
  import opened Bits
  import opened Geometry

  /** What a set object stores. A ring keeps `last + 1` of its slots in use and
      writes them downwards from `next`, wrapping from slot 0 to slot `last`. The
      used slots must be in the array and countable by a signed 32-bit index. */
  datatype SetState =
    | DirectMapped(tag: Address)
    | RoundRobin(tags: seq<Address>, last: nat, next: nat)
  {
    ghost predicate Valid() {
      RoundRobin? ==> next <= last < |tags| && last < 0x8000_0000
    }

    ghost function Ways(): nat {
      if DirectMapped? then 1 else last + 1
    }

    ghost predicate Find(t: Address)
      requires Valid()
    {
      if DirectMapped? then tag == t else t in tags[..last + 1]
    }

    ghost function Replace(t: Address): (s: SetState)
      requires Valid()
      ensures s.Valid() && s.Ways() == Ways()
    {
      if DirectMapped? then DirectMapped(t)
      else RoundRobin(tags[next := t], last, if next == 0 then last else next - 1)
    }

    ghost function Flush(): (s: SetState)
      requires Valid()
      ensures s.Valid() && s.Ways() == Ways()
    {
      if DirectMapped? then DirectMapped(0)
      else RoundRobin(Zeros(last + 1) + tags[last + 1..], last, last)
    }

    /** The slots in the order in which they will be replaced, oldest first:
        cyclically downwards from the replacement index. */
    ghost function Queue(): (q: seq<Address>)
      requires Valid()
      ensures |q| == Ways()
    {
      if DirectMapped? then [tag]
      else seq(last + 1, k requires 0 <= k <= last => tags[Slot(k)])
    }

    ghost function Slot(k: nat): nat
      requires RoundRobin? && k <= last && next <= last
    {
      if k <= next then next - k else last + 1 + next - k
    }
  }

  ghost function Zeros(n: nat): (z: seq<Address>)
    ensures |z| == n && forall k :: 0 <= k < n ==> z[k] == 0
  {
    seq(n, _ => 0)
  }

  /** Find is membership in the queue. */
  lemma FindIsMembership(s: SetState, t: Address)
    requires s.Valid()
    ensures s.Find(t) <==> t in s.Queue()
  {
    if s.RoundRobin? {
      var q := s.Queue();
      if t in s.tags[..s.last + 1] {
        var i :| 0 <= i <= s.last && s.tags[i] == t;
        var k := if i <= s.next then s.next - i else s.last + 1 + s.next - i;
        assert s.Slot(k) == i && q[k] == t;
      }
      if t in q {
        var k :| 0 <= k < |q| && q[k] == t;
        assert s.tags[..s.last + 1][s.Slot(k)] == t;
      }
    }
  }

  /** Replace drops the oldest entry and appends the new tag as the youngest. */
  lemma ReplaceIsEnqueue(s: SetState, t: Address)
    requires s.Valid()
    ensures s.Replace(t).Queue() == s.Queue()[1..] + [t]
  {
    if s.RoundRobin? {
      var r, q := s.Replace(t), s.Queue()[1..] + [t];
      forall k | 0 <= k <= s.last ensures r.Queue()[k] == q[k] {
        if k < s.last {
          assert q[k] == s.Queue()[k + 1] == s.tags[s.Slot(k + 1)];
          assert r.Slot(k) == s.Slot(k + 1) != s.next;
        } else {
          assert r.Slot(k) == s.next;
        }
      }
      assert r.Queue() == q;
    }
  }

  lemma FlushIsEmptyQueue(s: SetState)
    requires s.Valid()
    ensures s.Flush().Queue() == Zeros(s.Ways())
  {
  }

  /** The operations a cache performs on one of its sets. */
  datatype SetOp = FindOp(tag: Address) | ReplaceOp(tag: Address) | FlushOp

  ghost function StepSet(s: SetState, op: SetOp): (r: (SetState, bool))
    requires s.Valid()
    ensures r.0.Valid() && r.0.Ways() == s.Ways()
  {
    match op
    case FindOp(t) => (s, s.Find(t))
    case ReplaceOp(t) => (s.Replace(t), true)
    case FlushOp => (s.Flush(), true)
  }

  /** The same operations on a plain bounded queue. */
  ghost function StepFifo(q: seq<Address>, op: SetOp): (r: (seq<Address>, bool))
    requires |q| >= 1
    ensures |r.0| == |q|
  {
    match op
    case FindOp(t) => (q, t in q)
    case ReplaceOp(t) => (q[1..] + [t], true)
    case FlushOp => (Zeros(|q|), true)
  }

  ghost function RunSet(s: SetState, ops: seq<SetOp>): (SetState, seq<bool>)
    requires s.Valid()
    decreases |ops|
  {
    if ops == [] then (s, [])
    else
      var (s1, b) := StepSet(s, ops[0]);
      var (s2, bs) := RunSet(s1, ops[1..]);
      (s2, [b] + bs)
  }

  ghost function RunFifo(q: seq<Address>, ops: seq<SetOp>): (seq<Address>, seq<bool>)
    requires |q| >= 1
    decreases |ops|
  {
    if ops == [] then (q, [])
    else
      var (q1, b) := StepFifo(q, ops[0]);
      var (q2, bs) := RunFifo(q1, ops[1..]);
      (q2, [b] + bs)
  }

  lemma StepRefinesFifo(s: SetState, op: SetOp)
    requires s.Valid()
    ensures StepFifo(s.Queue(), op) == (StepSet(s, op).0.Queue(), StepSet(s, op).1)
  {
    match op
    case FindOp(t) => FindIsMembership(s, t);
    case ReplaceOp(t) => ReplaceIsEnqueue(s, t);
    case FlushOp => FlushIsEmptyQueue(s);
  }

  /** Over every operation sequence the ring answers as the queue does, its
      queue is the queue's, and its replacement index stays among the used slots. */
  lemma {:induction false} RingRefinesFifo(s: SetState, ops: seq<SetOp>)
    requires s.Valid()
    ensures var (s', answers) := RunSet(s, ops);
            s'.Valid() && s'.Ways() == s.Ways() && RunFifo(s.Queue(), ops) == (s'.Queue(), answers)
    decreases |ops|
  {
    if ops != [] {
      StepRefinesFifo(s, ops[0]);
      RingRefinesFifo(StepSet(s, ops[0]).0, ops[1..]);
    }
  }

  class DirectMappedSet {
    var tag: Address

    ghost function State(): SetState
      reads this
    {
      DirectMapped(tag)
    }

    constructor ()
      ensures State() == DirectMapped(0)
    {
      tag := 0;
    }

    method Find(t: Address) returns (found: bool)
      ensures found == State().Find(t)
    {
      found := tag == t;
    }

    method Replace(t: Address)
      modifies this
      ensures State() == old(State()).Replace(t)
    {
      tag := t;
    }

    method Flush()
      modifies this
      ensures State() == old(State()).Flush()
    {
      tag := 0;
    }
  }

  class RoundRobinSet {
    const tags: array<Address>
    var tagsLastIndex: Word32
    var nextReplaceIndex: Word32

    ghost predicate Valid()
      reads this
    {
      nextReplaceIndex <= tagsLastIndex < tags.Length && tagsLastIndex < 0x8000_0000
    }

    ghost function State(): SetState
      reads this, tags
    {
      RoundRobin(tags[..], tagsLastIndex, nextReplaceIndex)
    }

    /** What the assertion lets through, also an associativity of 0, whose last
        index wraps, and one that a signed index cannot count. The set is usable
        exactly otherwise. */
    constructor (maxAssociativity: Word32, associativity: Word32)
      requires associativity <= maxAssociativity
      ensures fresh(tags) && (Valid() <==> 1 <= associativity <= 0x8000_0000)
      ensures State() == RoundRobin(Zeros(maxAssociativity), (associativity - 1) % WORD32, (associativity - 1) % WORD32)
    {
      tags := new Address[maxAssociativity](_ => 0);
      tagsLastIndex := (associativity - 1) % WORD32;
      nextReplaceIndex := (associativity - 1) % WORD32;
      new;
      // the loop index is a signed 32-bit word
      var index: int := if tagsLastIndex < 0x8000_0000 then tagsLastIndex else tagsLastIndex - WORD32;
      while index >= 0
        invariant index < 0 || index < associativity
        invariant tags[..] == Zeros(maxAssociativity)
        modifies tags
      {
        tags[index] := 0;
        index := index - 1;
      }
    }

    /** Changes the number of ways in use; the stored tags stay. */
    method SetAssociativity(associativity: Word32)
      requires associativity <= tags.Length
      modifies this
      ensures Valid() <==> 1 <= associativity <= 0x8000_0000
      ensures State() == RoundRobin(old(State()).tags, (associativity - 1) % WORD32, (associativity - 1) % WORD32)
    {
      tagsLastIndex := (associativity - 1) % WORD32;
      nextReplaceIndex := tagsLastIndex;
    }

    method Find(t: Address) returns (found: bool)
      requires Valid()
      ensures found == State().Find(t)
    {
      var index: int := tagsLastIndex;
      while index >= 0
        invariant -1 <= index <= tagsLastIndex
        invariant forall i :: index < i <= tagsLastIndex ==> tags[i] != t
      {
        if tags[index] == t {
          assert tags[..][..tagsLastIndex + 1][index] == t;
          return true;
        }
        index := index - 1;
      }
      found := false;
    }

    method Replace(t: Address)
      requires Valid()
      modifies this, tags
      ensures Valid() && State() == old(State()).Replace(t)
    {
      var index := nextReplaceIndex;
      tags[index] := t;
      nextReplaceIndex := if index == 0 then tagsLastIndex else index - 1;
    }

    method Flush()
      requires Valid()
      modifies this, tags
      ensures Valid() && State() == old(State()).Flush()
    {
      ClearSlots();
      nextReplaceIndex := tagsLastIndex;
      FlushedSlots(old(tags[..]), tags[..], tagsLastIndex);
    }

    /** The loop of Flush. */
    method ClearSlots()
      requires Valid()
      modifies tags
      ensures forall i :: 0 <= i < tags.Length ==> tags[i] == if i <= tagsLastIndex then 0 else old(tags[i])
    {
      var index: int := tagsLastIndex;
      while index >= 0
        invariant -1 <= index <= tagsLastIndex
        invariant forall i :: 0 <= i < tags.Length ==>
          tags[i] == if index < i <= tagsLastIndex then 0 else old(tags[i])
      {
        tags[index] := 0;
        index := index - 1;
      }
    }
  }

  lemma FlushedSlots(was: seq<Address>, now: seq<Address>, last: nat)
    requires |now| == |was| && last < |was|
    requires forall i :: 0 <= i < |was| ==> now[i] == if i <= last then 0 else was[i]
    ensures now == Zeros(last + 1) + was[last + 1..]
  {
  }
}
