/** The cache object: an array of set objects and the counters, updated in
    place, proved against the transition system of CacheModel. */
module CacheObject {
  import opened Bits
  import opened Geometry
  import opened CacheSets
  import opened CacheModel

  /** The set type of a cache, one of the two policies. */
  datatype SetPolicy = DirectMappedSets | RoundRobinSets(maxAssociativity: nat)

  /** A set object embedded in a cache. */
  datatype SetObject = OneSlot(d: DirectMappedSet) | Ring(r: RoundRobinSet) {
    ghost function Footprint(): set<object> {
      if OneSlot? then {d} else {r, r.tags}
    }

    ghost predicate Valid()
      reads Footprint()
    {
      Ring? ==> r.Valid()
    }

    ghost function State(): (s: SetState)
      requires Valid()
      reads Footprint()
      ensures s.Valid()
    {
      if OneSlot? then d.State() else r.State()
    }

    method Find(t: Address) returns (found: bool)
      requires Valid()
      ensures found == State().Find(t)
    {
      if OneSlot? { found := d.Find(t); } else { found := r.Find(t); }
    }

    method Replace(t: Address)
      requires Valid()
      modifies Footprint()
      ensures Valid() && State() == old(State()).Replace(t)
    {
      if OneSlot? { d.Replace(t); } else { r.Replace(t); }
    }

    method Flush()
      requires Valid()
      modifies Footprint()
      ensures Valid() && State() == old(State()).Flush()
    {
      if OneSlot? { d.Flush(); } else { r.Flush(); }
    }
  }

  /** What a set of the given policy holds when the cache is new. */
  ghost function InitialSet(policy: SetPolicy, associativity: nat): (s: SetState)
    requires PolicyAccepts(policy, associativity)
    ensures s.Valid() && s.Ways() == associativity
  {
    match policy
    case DirectMappedSets => DirectMapped(0)
    case RoundRobinSets(m) => RoundRobin(Zeros(m), associativity - 1, associativity - 1)
  }

  /** A new set of either policy is an empty queue of its ways. */
  lemma NewSetIsEmpty(policy: SetPolicy, associativity: nat)
    requires PolicyAccepts(policy, associativity)
    ensures InitialSet(policy, associativity).Queue() == Zeros(associativity)
  {
  }

  /** The assertions of the set constructors, and a signed index that can count
      the slots. */
  predicate PolicyAccepts(policy: SetPolicy, associativity: nat) {
    match policy
    case DirectMappedSets => associativity == 1
    case RoundRobinSets(m) => 1 <= associativity <= m <= 0x8000_0000
  }

  /** `_lineShift` and `_setIndexMask` of an accepted geometry. */
  method ComputedParameters(g: Geometry) returns (shift: nat, mask: nat)
    requires g.Accepted() && g.NumSets() >= 1
    ensures g.lineSize == Pow2(shift) && shift <= 31
    ensures mask + 1 == g.NumSets() && IsPow2(g.NumSets())
  {
    NumSetsIsQuotient(g);
    IsPower2Meaning(g.NumSets());
    LineSizePositive(g);
    shift := FloorLog2(g.lineSize);
    LineSizeIsPow2(g, shift);
    mask := g.SetIndexMask();
  }

  lemma LineSizePositive(g: Geometry)
    requires g.SetBytes() != 0
    ensures g.lineSize > 0
  {
  }

  /** A set after the last one in use keeps the default number of ways. */
  ghost function UnusedSet(policy: SetPolicy): SetState {
    match policy
    case DirectMappedSets => DirectMapped(0)
    case RoundRobinSets(m) => RoundRobin(Zeros(m), if m == 0 then 0 else m - 1, if m == 0 then 0 else m - 1)
  }

  ghost function InitialSets(policy: SetPolicy, associativity: nat, numSets: nat, maxSets: nat): (s: seq<SetState>)
    requires PolicyAccepts(policy, associativity)
    ensures |s| == maxSets
    ensures forall i :: 0 <= i < maxSets ==> s[i] == if i < numSets then InitialSet(policy, associativity) else UnusedSet(policy)
  {
    seq(maxSets, i => if i < numSets then InitialSet(policy, associativity) else UnusedSet(policy))
  }

  /** The embedded array of sets: default construction, then SetAssociativity on
      the sets in use. */
  method MakeSets(maxSets: nat, policy: SetPolicy, numSets: nat, associativity: nat)
    returns (sets: seq<SetObject>, ghost objects: set<object>)
    requires PolicyAccepts(policy, associativity) && numSets <= maxSets
    ensures |sets| == maxSets
    ensures fresh(objects) && forall o :: o in objects ==> !(o is Cache)
    ensures forall i :: 0 <= i < maxSets ==> sets[i].Footprint() <= objects
    ensures forall i :: 0 <= i < maxSets ==> sets[i].Valid()
    ensures forall i :: 0 <= i < maxSets ==>
      sets[i].State() == if i < numSets then InitialSet(policy, associativity) else UnusedSet(policy)
    ensures forall i, j :: 0 <= i < j < maxSets ==> sets[i].Footprint() !! sets[j].Footprint()
  {
    sets, objects := [], {};
    for n := 0 to maxSets
      invariant |sets| == n
      invariant fresh(objects) && forall o :: o in objects ==> !(o is Cache)
      invariant forall i :: 0 <= i < n ==> sets[i].Footprint() <= objects
      invariant forall i :: 0 <= i < n ==> sets[i].Valid()
      invariant forall i :: 0 <= i < n ==>
        sets[i].State() == if i < numSets then InitialSet(policy, associativity) else UnusedSet(policy)
      invariant forall i, j :: 0 <= i < j < n ==> sets[i].Footprint() !! sets[j].Footprint()
    {
      var s := MakeSet(policy, associativity, n < numSets);
      sets, objects := sets + [s], objects + s.Footprint();
    }
  }

  method MakeSet(policy: SetPolicy, associativity: nat, used: bool) returns (s: SetObject)
    requires PolicyAccepts(policy, associativity)
    ensures fresh(s.Footprint()) && s.Valid()
    ensures s.State() == if used then InitialSet(policy, associativity) else UnusedSet(policy)
  {
    match policy
    case DirectMappedSets =>
      var d := new DirectMappedSet();
      s := OneSlot(d);
    case RoundRobinSets(m) =>
      var r := new RoundRobinSet(m, m);
      if used { r.SetAssociativity(associativity); }
      s := Ring(r);
  }

  /** The whole visit equals what is done so far followed by the lines left. */
  ghost predicate Unrolled(cfg: Config, start: seq<SetState>, all: seq<Address>, allocate: bool,
                           hitsSoFar: bool, now: seq<SetState>, left: seq<Address>) {
    && cfg.Valid() && SetsOk(cfg, start) && SetsOk(cfg, now)
    && var rest := TouchAll(cfg, now, left, allocate);
       TouchAll(cfg, start, all, allocate) == (rest.0, hitsSoFar && rest.1)
  }

  lemma UnrolledStep(cfg: Config, start: seq<SetState>, all: seq<Address>, allocate: bool,
                     hitsSoFar: bool, now: seq<SetState>, left: seq<Address>)
    requires left != [] && Unrolled(cfg, start, all, allocate, hitsSoFar, now, left)
    ensures var (next, hit) := Touch(cfg, now, left[0], allocate);
            Unrolled(cfg, start, all, allocate, hitsSoFar && hit, next, left[1..])
  {
  }

  lemma VisitedStep(cfg: Config, a: Address, high: Address)
    requires cfg.Valid() && high <= WORD64 - cfg.LineSize()
    ensures var next := cfg.NextLine(a);
            && Visited(cfg, a, high)[0] == TagOf(cfg.lineShift, a)
            && Visited(cfg, a, high)[1..] == (if next < high then Visited(cfg, next, high) else [])
            && (next < high ==> (if a < high then a < next else next == 0))
  {
    NextLineLaw(cfg, a);
  }

  class Cache {
    const lineSize: nat
    const lineShift: nat
    const setIndexMask: nat
    const allocateOnStore: bool
    const sets: seq<SetObject>
    var access: seq<nat>  // the rows of `_access`, one after the other
    var numberOfFlushes: Word32
    var numberOfResets: Word32

    ghost var contents: seq<SetState>
    ghost const objects: set<object>

    function NumSets(): nat { setIndexMask + 1 }

    /** The position of `_access[kind][hit]`. */
    static function Cell(kind: AccessType, hit: bool): nat {
      (if kind == Load then 0 else 2) + (if hit then 1 else 0)
    }

    function Parameters(): Config {
      Config(lineShift, NumSets(), allocateOnStore)
    }

    ghost predicate Structure() {
      && Parameters().Valid()
      && lineSize == Pow2(lineShift)
      && IsPow2(NumSets())
      && NumSets() <= |sets|
      && this !in objects
      && (forall i :: 0 <= i < |sets| ==> sets[i].Footprint() <= objects)
      && (forall i, j :: 0 <= i < j < |sets| ==> sets[i].Footprint() !! sets[j].Footprint())
    }

    ghost predicate Valid()
      reads this, objects
    {
      && Structure()
      && |access| == 4
      && |contents| == |sets|
      && (forall i :: 0 <= i < |sets| ==> sets[i].Valid() && sets[i].State() == contents[i])
    }

    ghost function State(): (st: CacheState)
      requires Valid()
      reads this, objects
      ensures SetsOk(Parameters(), st.sets)
    {
      CacheState(
        contents,
        Counters(access[Cell(Load, true)], access[Cell(Load, false)], access[Cell(Store, true)], access[Cell(Store, false)]),
        numberOfFlushes, numberOfResets)
    }

    /** Builds the cache of an accepted geometry with at least one set. The flush
        and reset counts start out unspecified. */
    constructor (g: Geometry, policy: SetPolicy, allocate: bool)
      requires g.Accepted() && g.NumSets() >= 1
      requires PolicyAccepts(policy, g.associativity)
      ensures Valid() && fresh(objects)
      ensures lineSize == g.lineSize && allocateOnStore == allocate
      ensures NumSets() == g.NumSets() && |sets| == g.maxSets
      ensures IsFresh(policy, g.associativity)
    {
      var shift, mask := ComputedParameters(g);
      var made, reached := MakeSets(g.maxSets, policy, g.NumSets(), g.associativity);
      lineSize := g.lineSize;
      lineShift := shift;
      setIndexMask := mask;
      allocateOnStore := allocate;
      sets := made;
      objects := reached;
      contents := InitialSets(policy, g.associativity, mask + 1, |made|);
      access := [0, 0, 0, 0];
    }

    /** A state as the constructor leaves it: empty sets, zero counters. */
    ghost predicate IsFresh(policy: SetPolicy, associativity: nat)
      requires Valid() && PolicyAccepts(policy, associativity)
      reads this, objects
    {
      && State().counters == Counters(0, 0, 0, 0)
      && forall i :: 0 <= i < NumSets() ==> contents[i] == InitialSet(policy, associativity)
    }

    /** `SplitAddress`: tag by shifting, set index by masking. */
    method SplitAddress(addr: Address) returns (tag: Address, setIndex: nat)
      requires Structure()
      ensures tag == TagOf(lineShift, addr)
      ensures setIndex == tag % NumSets()
    {
      tag := TagOf(lineShift, addr);
      setIndex := BitAnd(tag, setIndexMask);
      var k: nat :| NumSets() == Pow2(k);
      AndLowMask(tag, k);
    }

    /** One iteration of an access: look up, and insert on an allocating miss. */
    method TouchLine(addr: Address, kind: AccessType) returns (hit: bool)
      requires Valid()
      modifies `contents, objects
      ensures Valid() && access == old(access)
      ensures (contents, hit) == Touch(Parameters(), old(contents), TagOf(lineShift, addr), Parameters().Allocates(kind))
    {
      var tag, setIndex := SplitAddress(addr);
      hit := sets[setIndex].Find(tag);
      if !hit && (kind == Load || allocateOnStore) {
        ReplaceIn(setIndex, tag);
      }
    }

    method ReplaceIn(i: nat, tag: Address)
      requires Valid() && i < |sets|
      modifies `contents, objects
      ensures Valid() && access == old(access)
      ensures contents == old(contents)[i := old(contents)[i].Replace(tag)]
    {
      sets[i].Replace(tag);
      contents := contents[i := contents[i].Replace(tag)];
      assert forall j :: 0 <= j < |sets| && j != i ==> sets[j].Footprint() !! sets[i].Footprint();
    }

    method FlushIn(i: nat)
      requires Valid() && i < |sets|
      modifies `contents, objects
      ensures Valid() && access == old(access)
      ensures contents == old(contents)[i := old(contents)[i].Flush()]
    {
      sets[i].Flush();
      contents := contents[i := contents[i].Flush()];
      assert forall j :: 0 <= j < |sets| && j != i ==> sets[j].Footprint() !! sets[i].Footprint();
    }

    /** Adds one to `_access[kind][hit]`. */
    method Count(kind: AccessType, hit: bool)
      requires Valid()
      modifies `access
      ensures Valid()
      ensures State() == old(State()).(counters := old(State()).counters.Record(kind, hit))
    {
      access := access[Cell(kind, hit) := access[Cell(kind, hit)] + 1];
    }

    method Access(addr: Address, size: Word32, kind: AccessType) returns (allHit: bool)
      requires Valid() && Halts(Parameters(), addr, size)
      modifies this, objects
      ensures Valid()
      ensures (State(), allHit) == Step(Parameters(), old(State()), CacheModel.Access(addr, size, kind))
    {
      allHit := TouchRange(addr, size, kind);
      Count(kind, allHit);
    }

    /** The do-while loop of Access. */
    method TouchRange(addr: Address, size: Word32, kind: AccessType) returns (allHit: bool)
      requires Valid() && Halts(Parameters(), addr, size)
      modifies `contents, objects
      ensures Valid() && access == old(access)
      ensures (contents, allHit) == TouchAll(Parameters(), old(contents),
        Visited(Parameters(), addr, HighAddr(addr, size)), Parameters().Allocates(kind))
    {
      ghost var cfg, start, alloc := Parameters(), contents, Parameters().Allocates(kind);
      var highAddr := HighAddr(addr, size);
      ghost var all := Visited(cfg, addr, highAddr);
      ghost var left := all;
      allHit := true;
      var a: Address := addr;
      var more := true;
      while more
        invariant Valid() && access == old(access)
        invariant left == if more then Visited(cfg, a, highAddr) else []
        invariant Unrolled(cfg, start, all, alloc, allHit, contents, left)
        decreases more, if a < highAddr then highAddr - a else highAddr + 1
      {
        VisitedStep(cfg, a, highAddr);
        UnrolledStep(cfg, start, all, alloc, allHit, contents, left);
        var localHit := TouchLine(a, kind);
        allHit := allHit && localHit;
        left := left[1..];
        a := NextAddress(a);
        more := a < highAddr;
      }
    }

    /** The start of the next cache line. */
    method NextAddress(a: Address) returns (next: Address)
      requires Structure()
      ensures next == Parameters().NextLine(a)
    {
      Pow2AtMost31(lineShift);
      var notLineMask := WORD64 - lineSize;
      next := (BitAnd(a, notLineMask) + lineSize) % WORD64;
    }

    method AccessSingleLine(addr: Address, kind: AccessType) returns (hit: bool)
      requires Valid()
      modifies this, objects
      ensures Valid()
      ensures (State(), hit) == Step(Parameters(), old(State()), CacheModel.AccessSingleLine(addr, kind))
    {
      hit := TouchLine(addr, kind);
      Count(kind, hit);
    }

    method Flush()
      requires Valid() && (NumSets() < |sets| || NumSets() >= 0x8000_0000)
      modifies this, objects
      ensures Valid()
      ensures State() == Step(Parameters(), old(State()), CacheModel.Flush).0
    {
      // the loop index is a signed 32-bit word
      var index: int := if NumSets() < 0x8000_0000 then NumSets() else NumSets() - WORD32;
      ghost var first := index;
      while index >= 0
        invariant -1 <= index <= first <= NumSets() || index == first < -1
        invariant Valid() && access == old(access)
        invariant numberOfFlushes == old(numberOfFlushes) && numberOfResets == old(numberOfResets)
        invariant |contents| == |old(contents)|
        invariant forall i :: 0 <= i < |contents| ==>
          contents[i] == if index < i <= first then old(contents)[i].Flush() else old(contents)[i]
      {
        FlushIn(index);
        index := index - 1;
      }
      numberOfFlushes := (numberOfFlushes + 1) % WORD32;
      assert contents == FlushSets(Parameters(), old(contents));
    }

    method ResetStats()
      requires Valid()
      modifies this
      ensures Valid()
      ensures State() == Step(Parameters(), old(State()), CacheModel.ResetStats).0
    {
      for t := 0 to 2
        invariant Valid() && contents == old(contents)
        invariant numberOfFlushes == old(numberOfFlushes) && numberOfResets == old(numberOfResets)
        invariant t >= 1 ==> access[Cell(Load, true)] == access[Cell(Load, false)] == 0
        invariant t >= 2 ==> access[Cell(Store, true)] == access[Cell(Store, false)] == 0
      {
        var kind := if t == 0 then Load else Store;
        access := access[Cell(kind, false) := 0];
        access := access[Cell(kind, true) := 0];
      }
      numberOfResets := (numberOfResets + 1) % WORD32;
    }

    /** `Hits()` and `Misses()`: the sum over the access types. */
    method SumAccess(hit: bool) returns (sum: nat)
      requires Valid()
      ensures sum == if hit then State().counters.Hits() else State().counters.Misses()
    {
      sum := 0;
      for t := 0 to 2
        invariant t == 0 ==> sum == 0
        invariant t == 1 ==> sum == access[Cell(Load, hit)]
        invariant t == 2 ==> sum == access[Cell(Load, hit)] + access[Cell(Store, hit)]
      {
        sum := sum + access[Cell(if t == 0 then Load else Store, hit)];
      }
    }
  }
}
