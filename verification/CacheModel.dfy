/** The cache as a transition system: which lines an access visits, what one
    visit does to its set, and what each public operation does to the cache. */
module CacheModel {
  import opened Bits
  import opened Geometry
  import opened CacheSets

  /** The parameters that fix a cache's behaviour once it is constructed. */
  datatype Config = Config(lineShift: nat, numSets: nat, allocateOnStore: bool) {
    ghost predicate Valid() {
      && lineShift <= 31
      && 1 <= numSets < WORD32
    }

    function LineSize(): nat { Pow2(lineShift) }

    /** How many lines the 64-bit address space has. */
    function Lines(): nat
      requires lineShift <= 64
    {
      Pow2(64 - lineShift)
    }

    /** `(addr & notLineMask) + lineSize`, the start of the next line, mod 2^64. */
    function NextLine(addr: Address): Address
      requires lineShift <= 31
    {
      Pow2AtMost31(lineShift);
      (BitAnd(addr, WORD64 - LineSize()) + LineSize()) % WORD64
    }

    predicate Allocates(kind: AccessType) {
      kind == Load || allocateOnStore
    }
  }

  datatype AccessType = Load | Store

  /** `addr + size`, mod 2^64. */
  function HighAddr(addr: Address, size: Word32): Address {
    (addr + size) % WORD64
  }

  /** When the loop of Access comes to an end (see LoopHaltsIff). */
  predicate Halts(cfg: Config, addr: Address, size: Word32) {
    HighAddr(addr, size) <= WORD64 - cfg.LineSize()
  }

  lemma Pow2AtMost31(k: nat)
    requires k <= 31
    ensures Pow2(k) <= 0x8000_0000
  {
    Pow2Words();
    Pow2AtLeast(k, 31);
  }

  /** One step of the address, in line numbers: the next line, wrapping to 0. */
  lemma NextLineLaw(cfg: Config, addr: Address)
    requires cfg.Valid()
    ensures TagOf(cfg.lineShift, addr) < cfg.Lines()
    ensures var t := TagOf(cfg.lineShift, addr);
            && addr < Shl(t + 1, cfg.lineShift) <= addr + cfg.LineSize()
            && (t + 1 == cfg.Lines() <==> Shl(t + 1, cfg.lineShift) == WORD64)
            && cfg.NextLine(addr) == (if t + 1 == cfg.Lines() then 0 else Shl(t + 1, cfg.lineShift))
            && TagOf(cfg.lineShift, cfg.NextLine(addr)) == (if t + 1 == cfg.Lines() then 0 else t + 1)
  {
    var k := cfg.lineShift;
    var t: nat := TagOf(k, addr);
    NextLineMasked(cfg, addr);
    LineBounds(k, addr);
    MaskIsBand(k);
    if t + 1 == cfg.Lines() {
      ShrZero(k);
    } else {
      LastLine(k);
      ShlLeShr(t + 1, WORD64 - 1, k);
      ShrShl(t + 1, k);
    }
  }

  lemma NextLineMasked(cfg: Config, addr: Address)
    requires cfg.Valid()
    ensures cfg.NextLine(addr) == Shl(TagOf(cfg.lineShift, addr) + 1, cfg.lineShift) % WORD64
  {
    var n := AddressWidth();
    AndHighMask(addr, cfg.lineShift, n);
    ShlSuccessor(TagOf(cfg.lineShift, addr), cfg.lineShift);
  }

  lemma LineBounds(k: nat, addr: Address)
    requires k <= 31
    ensures TagOf(k, addr) < Pow2(64 - k)
    ensures Shl(TagOf(k, addr), k) <= addr < Shl(TagOf(k, addr) + 1, k) <= addr + Pow2(k)
  {
    var n := AddressWidth();
    ShrBound(addr, k, n - k);
    ShrBracket(addr, k);
  }

  lemma MaskIsBand(k: nat)
    requires k <= 31
    ensures Shl(Pow2(64 - k) - 1, k) == WORD64 - Pow2(k)
    ensures Shl(Pow2(64 - k), k) == WORD64
  {
    var n := AddressWidth();
    BandIsDifference(k, n);
  }

  lemma LastLine(k: nat)
    requires k <= 31
    ensures Shr(WORD64 - 1, k) == Pow2(64 - k) - 1
  {
    var n := AddressWidth();
    ShrOfAllOnes(k, n);
  }

  lemma {:induction false} ShrZero(k: nat)
    ensures Shr(0, k) == 0
  {
    if k > 0 { ShrZero(k - 1); }
  }

  /** The lines visited by the do-while loop of Access, in order. */
  function Visited(cfg: Config, addr: Address, high: Address): (lines: seq<Address>)
    requires cfg.lineShift <= 31 && high <= WORD64 - cfg.LineSize() && cfg.numSets >= 1 && cfg.numSets < WORD32
    ensures |lines| >= 1
    decreases if addr < high then high - addr else high + 1
  {
    NextLineLaw(cfg, addr);
    var next := cfg.NextLine(addr);
    [TagOf(cfg.lineShift, addr)] + (if next < high then Visited(cfg, next, high) else [])
  }

  /** One visit: look the tag up in its set, insert it on an allocating miss. */
  ghost function Touch(cfg: Config, sets: seq<SetState>, tag: Address, allocate: bool): (r: (seq<SetState>, bool))
    requires cfg.Valid() && SetsOk(cfg, sets)
    ensures SetsOk(cfg, r.0) && |r.0| == |sets|
  {
    var i := tag % cfg.numSets;
    if sets[i].Find(tag) then (sets, true)
    else if allocate then (sets[i := sets[i].Replace(tag)], false)
    else (sets, false)
  }

  ghost predicate SetsOk(cfg: Config, sets: seq<SetState>) {
    cfg.numSets <= |sets| && forall i :: 0 <= i < |sets| ==> sets[i].Valid()
  }

  ghost function TouchAll(cfg: Config, sets: seq<SetState>, tags: seq<Address>, allocate: bool): (r: (seq<SetState>, bool))
    requires cfg.Valid() && SetsOk(cfg, sets)
    ensures SetsOk(cfg, r.0) && |r.0| == |sets|
    decreases |tags|
  {
    if tags == [] then (sets, true)
    else
      var (sets1, hit) := Touch(cfg, sets, tags[0], allocate);
      var (sets2, hits) := TouchAll(cfg, sets1, tags[1..], allocate);
      (sets2, hit && hits)
  }

  /** Flush runs a signed 32-bit index from NumSets() down to 0: it also clears
      the set after the last one in use, and clears nothing from 2^31 sets on. */
  ghost function FlushSets(cfg: Config, sets: seq<SetState>): (r: seq<SetState>)
    requires cfg.Valid() && SetsOk(cfg, sets)
    ensures SetsOk(cfg, r) && |r| == |sets|
  {
    seq(|sets|, i requires 0 <= i < |sets| =>
      if i <= cfg.numSets < 0x8000_0000 then sets[i].Flush() else sets[i])
  }

  /** `_access`, one count per access type and outcome. */
  datatype Counters = Counters(loadHits: nat, loadMisses: nat, storeHits: nat, storeMisses: nat) {
    ghost function Record(kind: AccessType, hit: bool): Counters {
      match (kind, hit)
      case (Load, true) => this.(loadHits := loadHits + 1)
      case (Load, false) => this.(loadMisses := loadMisses + 1)
      case (Store, true) => this.(storeHits := storeHits + 1)
      case (Store, false) => this.(storeMisses := storeMisses + 1)
    }

    ghost function Hits(): nat { loadHits + storeHits }
    ghost function Misses(): nat { loadMisses + storeMisses }
    ghost function Accesses(kind: AccessType): nat {
      if kind == Load then loadHits + loadMisses else storeHits + storeMisses
    }
  }

  datatype CacheState = CacheState(sets: seq<SetState>, counters: Counters, flushes: Word32, resets: Word32)

  datatype Op =
    | Access(addr: Address, size: Word32, kind: AccessType)
    | AccessSingleLine(addr: Address, kind: AccessType)
    | Flush
    | ResetStats

  /** The calls on which the code is defined: an access whose loop ends, and a
      flush whose indices are inside the array of sets. */
  ghost predicate Callable(cfg: Config, st: CacheState, op: Op) {
    match op
    case Access(addr, size, _) => Halts(cfg, addr, size)
    case AccessSingleLine(_, _) => true
    case Flush => cfg.numSets < |st.sets| || cfg.numSets >= 0x8000_0000
    case ResetStats => true
  }

  ghost function Step(cfg: Config, st: CacheState, op: Op): (r: (CacheState, bool))
    requires cfg.Valid() && SetsOk(cfg, st.sets) && Callable(cfg, st, op)
    ensures SetsOk(cfg, r.0.sets) && |r.0.sets| == |st.sets|
  {
    match op
    case Access(addr, size, kind) =>
      var (sets, hit) := TouchAll(cfg, st.sets, Visited(cfg, addr, HighAddr(addr, size)), cfg.Allocates(kind));
      (st.(sets := sets, counters := st.counters.Record(kind, hit)), hit)
    case AccessSingleLine(addr, kind) =>
      var (sets, hit) := Touch(cfg, st.sets, TagOf(cfg.lineShift, addr), cfg.Allocates(kind));
      (st.(sets := sets, counters := st.counters.Record(kind, hit)), hit)
    case Flush =>
      (st.(sets := FlushSets(cfg, st.sets), flushes := (st.flushes + 1) % WORD32), true)
    case ResetStats =>
      (st.(counters := Counters(0, 0, 0, 0), resets := (st.resets + 1) % WORD32), true)
  }

  ghost predicate AllCallable(cfg: Config, st: CacheState, ops: seq<Op>) {
    forall i :: 0 <= i < |ops| ==> Callable(cfg, st, ops[i])
  }

  /** A whole run: the final state and what each operation returned. */
  ghost function Run(cfg: Config, st: CacheState, ops: seq<Op>): (r: (CacheState, seq<bool>))
    requires cfg.Valid() && SetsOk(cfg, st.sets) && AllCallable(cfg, st, ops)
    ensures SetsOk(cfg, r.0.sets) && |r.0.sets| == |st.sets| && |r.1| == |ops|
    decreases |ops|
  {
    if ops == [] then (st, [])
    else
      var (st1, hit) := Step(cfg, st, ops[0]);
      assert AllCallable(cfg, st1, ops[1..]) by {
        forall i | 0 <= i < |ops| - 1 ensures Callable(cfg, st1, ops[1..][i]) {
          assert Callable(cfg, st, ops[i + 1]);
        }
      }
      var (st2, hits) := Run(cfg, st1, ops[1..]);
      (st2, [hit] + hits)
  }
}
