/** The do-while loop of Access: when it ends, and which lines it visits. */
module AccessLoop {
  import opened Bits
  import opened Geometry
  import opened CacheModel

  /** The loop's address after n iterations, whatever the loop test says. */
  ghost function AddrAfter(cfg: Config, addr: Address, n: nat): Address
    requires cfg.Valid()
  {
    if n == 0 then addr else cfg.NextLine(AddrAfter(cfg, addr, n - 1))
  }

  lemma {:induction false} AddrAfterShift(cfg: Config, addr: Address, n: nat)
    requires cfg.Valid()
    ensures AddrAfter(cfg, cfg.NextLine(addr), n) == AddrAfter(cfg, addr, n + 1)
  {
    if n > 0 { AddrAfterShift(cfg, addr, n - 1); }
  }

  lemma {:induction false} ShlMonotone(a: nat, b: nat, k: nat)
    requires a <= b
    ensures Shl(a, k) <= Shl(b, k)
  {
    if k > 0 { ShlMonotone(a, b, k - 1); }
  }

  /** A step always lands on the start of a line, so never above the last one. */
  lemma NextLineBound(cfg: Config, addr: Address)
    requires cfg.Valid()
    ensures cfg.NextLine(addr) <= WORD64 - cfg.LineSize()
  {
    NextLineLaw(cfg, addr);
    Pow2AtMost31(cfg.lineShift);
    var t: nat := TagOf(cfg.lineShift, addr);
    if t + 1 < cfg.Lines() {
      ShlMonotone(t + 2, cfg.Lines(), cfg.lineShift);
      ShlSuccessor(t + 1, cfg.lineShift);
      MaskIsBand(cfg.lineShift);
    }
  }

  lemma {:induction false} VisitedReachesHigh(cfg: Config, addr: Address, high: Address)
    requires cfg.Valid() && high <= WORD64 - cfg.LineSize()
    ensures AddrAfter(cfg, addr, |Visited(cfg, addr, high)|) >= high
    decreases if addr < high then high - addr else high + 1
  {
    NextLineLaw(cfg, addr);
    var next := cfg.NextLine(addr);
    if next < high {
      VisitedReachesHigh(cfg, next, high);
      AddrAfterShift(cfg, addr, |Visited(cfg, next, high)|);
    } else {
      assert AddrAfter(cfg, addr, 1) == cfg.NextLine(AddrAfter(cfg, addr, 0));
    }
  }

  /** The loop leaves through its test after some number of iterations exactly
      when the wrapped end address is no higher than the start of the last line. */
  lemma LoopHaltsIff(cfg: Config, addr: Address, size: Word32)
    requires cfg.Valid()
    ensures (exists n: nat :: n >= 1 && AddrAfter(cfg, addr, n) >= HighAddr(addr, size)) <==> Halts(cfg, addr, size)
  {
    if Halts(cfg, addr, size) {
      VisitedReachesHigh(cfg, addr, HighAddr(addr, size));
    } else {
      forall n: nat | n >= 1 ensures AddrAfter(cfg, addr, n) < HighAddr(addr, size) {
        NextLineBound(cfg, AddrAfter(cfg, addr, n - 1));
      }
    }
  }

  /** An access that ends inside the last line of the address space never ends:
      four bytes at 2^64 - 8 with lines of 64 bytes. */
  lemma EndlessAccess(cfg: Config)
    requires cfg.Valid() && cfg.lineShift == 6
    ensures var addr: Address := WORD64 - 8;
            forall n: nat :: n >= 1 ==> AddrAfter(cfg, addr, n) < HighAddr(addr, 4)
  {
    assert Pow2(6) == 64;
    LoopHaltsIff(cfg, WORD64 - 8, 4);
  }

  ghost function Range(a: nat, b: nat): (r: seq<nat>)
    requires a <= b
    ensures |r| == b - a && forall j :: 0 <= j < |r| ==> r[j] == a + j
  {
    seq(b - a, j => a + j)
  }

  /** The first line number whose start is not below `high`. */
  ghost function HighLine(cfg: Config, high: nat): nat {
    if high == 0 then 0 else Shr(high - 1, cfg.lineShift) + 1
  }

  lemma BelowHigh(cfg: Config, t: nat, high: nat)
    ensures Shl(t, cfg.lineShift) < high <==> t < HighLine(cfg, high)
  {
    if high > 0 { ShlLeShr(t, high - 1, cfg.lineShift); }
  }

  /** From the start of line t the loop visits every line below the end. */
  lemma {:induction false} VisitedFromLineStart(cfg: Config, t: nat, a: Address, high: Address)
    requires cfg.Valid() && high <= WORD64 - cfg.LineSize()
    requires a == Shl(t, cfg.lineShift) && a < high
    ensures t < HighLine(cfg, high)
    ensures Visited(cfg, a, high) == Range(t, HighLine(cfg, high))
    decreases high - a
  {
    LineStartStep(cfg, t, a, high);
    if cfg.NextLine(a) < high {
      VisitedFromLineStart(cfg, t + 1, cfg.NextLine(a), high);
      assert Range(t, HighLine(cfg, high)) == [t] + Range(t + 1, HighLine(cfg, high));
    } else {
      assert Range(t, HighLine(cfg, high)) == [t];
    }
  }

  lemma LineStartStep(cfg: Config, t: nat, a: Address, high: Address)
    requires cfg.Valid() && high <= WORD64 - cfg.LineSize()
    requires a == Shl(t, cfg.lineShift) && a < high
    ensures TagOf(cfg.lineShift, a) == t < HighLine(cfg, high)
    ensures a < cfg.NextLine(a) == Shl(t + 1, cfg.lineShift)
    ensures cfg.NextLine(a) < high <==> t + 1 < HighLine(cfg, high)
  {
    BelowHigh(cfg, t, high);
    ShrShl(t, cfg.lineShift);
    NextLineLaw(cfg, a);
    Pow2AtMost31(cfg.lineShift);
    BelowHigh(cfg, t + 1, high);
  }

  /** The lines the loop visits, in closed form. */
  lemma VisitedClosedForm(cfg: Config, addr: Address, high: Address)
    requires cfg.Valid() && high <= WORD64 - cfg.LineSize()
    ensures var t: nat := TagOf(cfg.lineShift, addr);
            Visited(cfg, addr, high) ==
              [t] + (if t + 1 == cfg.Lines() then Range(0, HighLine(cfg, high))
                     else if t + 1 < HighLine(cfg, high) then Range(t + 1, HighLine(cfg, high)) else [])
  {
    var t: nat := TagOf(cfg.lineShift, addr);
    NextLineLaw(cfg, addr);
    var next := cfg.NextLine(addr);
    var first: nat := if t + 1 == cfg.Lines() then 0 else t + 1;
    ShlZero(0, cfg.lineShift);
    BelowHigh(cfg, first, high);
    if next < high {
      VisitedFromLineStart(cfg, first, next, high);
    } else {
      assert t + 1 == cfg.Lines() ==> Range(0, HighLine(cfg, high)) == [];
    }
  }

  /** Consecutive line numbers below `lines`, the last one being followed by 0. */
  ghost predicate Consecutive(v: seq<Address>, lines: nat) {
    && v != [] && v[0] < lines
    && if v[0] == lines - 1 then |v| <= lines && forall j :: 0 < j < |v| ==> v[j] == j - 1
       else forall j :: 0 <= j < |v| ==> v[j] == v[0] + j
  }

  lemma VisitedAt(cfg: Config, addr: Address, high: Address)
    requires cfg.Valid() && high <= WORD64 - cfg.LineSize()
    ensures var v := Visited(cfg, addr, high);
            v[0] == TagOf(cfg.lineShift, addr) && Consecutive(v, cfg.Lines())
  {
    VisitedClosedForm(cfg, addr, high);
    HighLineBelowLast(cfg, high);
    InLastLine(cfg, addr);
  }

  /** How many lines meet the bytes addr .. addr+size-1 (one when size is 0). */
  ghost function LinesSpanned(cfg: Config, addr: Address, size: Word32): nat {
    if size == 0 then 1
    else
      ShrMonotone(addr, addr + size - 1, cfg.lineShift);
      Shr(addr + size - 1, cfg.lineShift) - Shr(addr, cfg.lineShift) + 1
  }

  lemma {:induction false} ShrMonotone(x: nat, y: nat, k: nat)
    requires x <= y
    ensures Shr(x, k) <= Shr(y, k)
    decreases k
  {
    if k > 0 { ShrMonotone(x / 2, y / 2, k - 1); }
  }

  /** The lines of the bytes addr .. addr+size-1 in address order, the address
      space taken as a ring. */
  ghost function CyclicLines(cfg: Config, addr: Address, size: Word32): seq<nat>
    requires cfg.Valid()
  {
    seq(LinesSpanned(cfg, addr, size), j => (TagOf(cfg.lineShift, addr) + j) % cfg.Lines())
  }

  /** A range in the address space that does not start in the last line: exactly
      its lines, each once, in increasing order. */
  lemma VisitsExactlyTheRange(cfg: Config, addr: Address, size: Word32)
    requires cfg.Valid() && Halts(cfg, addr, size)
    requires addr + size < WORD64 && addr < WORD64 - cfg.LineSize()
    ensures Visited(cfg, addr, HighAddr(addr, size))
         == Range(TagOf(cfg.lineShift, addr), TagOf(cfg.lineShift, addr) + LinesSpanned(cfg, addr, size))
    ensures TagOf(cfg.lineShift, addr) + LinesSpanned(cfg, addr, size) < cfg.Lines()
  {
    var t: nat, n := TagOf(cfg.lineShift, addr), LinesSpanned(cfg, addr, size);
    var high: nat := addr + size;
    SmallRemainder(high, WORD64);
    VisitedClosedForm(cfg, addr, high);
    InLastLine(cfg, addr);
    HighLineBelowLast(cfg, high);
    RangeEnd(cfg, addr, size);
    assert Range(t, t + n) == [t] + Range(t + 1, t + n);
  }

  /** The line number at which a range ends. */
  lemma RangeEnd(cfg: Config, addr: Address, size: Word32)
    ensures size == 0 ==> HighLine(cfg, addr) <= Shr(addr, cfg.lineShift) + 1
    ensures size > 0 ==> HighLine(cfg, addr + size) == Shr(addr, cfg.lineShift) + LinesSpanned(cfg, addr, size)
    ensures LinesSpanned(cfg, addr, size) >= 1
  {
    if size > 0 {
      ShrMonotone(addr, addr + size - 1, cfg.lineShift);
    } else if addr > 0 {
      ShrMonotone(addr - 1, addr, cfg.lineShift);
    }
  }

  lemma InLastLine(cfg: Config, addr: Address)
    requires cfg.Valid()
    ensures TagOf(cfg.lineShift, addr) + 1 == cfg.Lines() <==> addr >= WORD64 - cfg.LineSize()
    ensures TagOf(cfg.lineShift, addr) < cfg.Lines()
  {
    var k := cfg.lineShift;
    MaskIsBand(k);
    LineBounds(k, addr);
    ShlLeShr(cfg.Lines() - 1, addr, k);
  }

  lemma HighLineBelowLast(cfg: Config, high: Address)
    requires cfg.Valid() && high <= WORD64 - cfg.LineSize()
    ensures HighLine(cfg, high) < cfg.Lines()
    ensures high == WORD64 - cfg.LineSize() ==> HighLine(cfg, high) >= 1
  {
    Pow2AtMost31(cfg.lineShift);
    if high > 0 { InLastLine(cfg, high - 1); }
  }

  lemma {:induction false} ShrAddMultiple(m: nat, x: nat, k: nat)
    ensures Shr(Shl(m, k) + x, k) == m + Shr(x, k)
    decreases k
  {
    if k > 0 {
      assert (Shl(m, k) + x) / 2 == Shl(m, k - 1) + x / 2;
      ShrAddMultiple(m, x / 2, k - 1);
    }
  }

  /** A halting access visits exactly the lines of its bytes, the address space
      taken as a ring, if and only if it runs past the top of the address space
      exactly when it starts in the last line. */
  lemma VisitedExactIff(cfg: Config, addr: Address, size: Word32)
    requires cfg.Valid() && Halts(cfg, addr, size)
    ensures Visited(cfg, addr, HighAddr(addr, size)) == CyclicLines(cfg, addr, size)
       <==> (addr + size >= WORD64 <==> addr >= WORD64 - cfg.LineSize())
  {
    InLastLine(cfg, addr);
    if addr + size < WORD64 && addr < WORD64 - cfg.LineSize() {
      VisitsExactlyTheRange(cfg, addr, size);
      var t: nat, n := TagOf(cfg.lineShift, addr), LinesSpanned(cfg, addr, size);
      forall j | 0 <= j < n ensures CyclicLines(cfg, addr, size)[j] == t + j {
        SmallRemainder(t + j, cfg.Lines());
      }
      assert CyclicLines(cfg, addr, size) == Range(t, t + n);
    } else if addr + size < WORD64 {
      ZeroSizeInLastLine(cfg, addr, size);
    } else if addr < WORD64 - cfg.LineSize() {
      WrapAfterFirstLine(cfg, addr, size);
    } else {
      WrapFromLastLine(cfg, addr, size);
    }
  }

  /** A zero-byte access at the start of the last line visits every line. */
  lemma ZeroSizeInLastLine(cfg: Config, addr: Address, size: Word32)
    requires cfg.Valid() && Halts(cfg, addr, size)
    requires addr + size < WORD64 && addr >= WORD64 - cfg.LineSize()
    ensures size == 0 && |Visited(cfg, addr, HighAddr(addr, size))| == cfg.Lines() > LinesSpanned(cfg, addr, size)
  {
    SmallRemainder(addr + size, WORD64);
    InLastLine(cfg, addr);
    VisitedClosedForm(cfg, addr, addr);
    LinesBelowLast(cfg);
  }

  lemma LinesBelowLast(cfg: Config)
    requires cfg.Valid()
    ensures cfg.LineSize() <= WORD64 && cfg.Lines() >= 2
    ensures HighLine(cfg, WORD64 - cfg.LineSize()) == cfg.Lines() - 1
  {
    Pow2AtMost31(cfg.lineShift);
    Pow2AtLeast(1, 64 - cfg.lineShift);
    HighLineBelowLast(cfg, WORD64 - cfg.LineSize());
    MaskIsBand(cfg.lineShift);
    ShlSuccessor(cfg.Lines() - 2, cfg.lineShift);
    BelowHigh(cfg, cfg.Lines() - 2, WORD64 - cfg.LineSize());
  }

  /** A range that crosses the top from below the last line is cut after one line. */
  lemma WrapAfterFirstLine(cfg: Config, addr: Address, size: Word32)
    requires cfg.Valid() && Halts(cfg, addr, size)
    requires addr + size >= WORD64 && addr < WORD64 - cfg.LineSize()
    ensures |Visited(cfg, addr, HighAddr(addr, size))| == 1 < LinesSpanned(cfg, addr, size)
  {
    assert HighAddr(addr, size) == addr + size - WORD64;
    InLastLine(cfg, addr);
    NextLineLaw(cfg, addr);
    LastLine(cfg.lineShift);
    ShrMonotone(WORD64 - 1, addr + size - 1, cfg.lineShift);
  }

  lemma WrapFromLastLine(cfg: Config, addr: Address, size: Word32)
    requires cfg.Valid() && Halts(cfg, addr, size)
    requires addr + size >= WORD64 && addr >= WORD64 - cfg.LineSize()
    ensures Visited(cfg, addr, HighAddr(addr, size)) == CyclicLines(cfg, addr, size)
  {
    var high := HighAddr(addr, size);
    assert high == addr + size - WORD64;
    InLastLine(cfg, addr);
    VisitedClosedForm(cfg, addr, high);
    HighLineBelowLast(cfg, high);
    WrapSpan(cfg, addr, size);
    CyclicFromLast(cfg, addr, size, HighLine(cfg, high));
  }

  lemma WrapSpan(cfg: Config, addr: Address, size: Word32)
    requires cfg.Valid() && addr + size >= WORD64 && addr >= WORD64 - cfg.LineSize()
    ensures LinesSpanned(cfg, addr, size) == HighLine(cfg, addr + size - WORD64) + 1
  {
    var high: nat := addr + size - WORD64;
    InLastLine(cfg, addr);
    MaskIsBand(cfg.lineShift);
    if high == 0 {
      LastLine(cfg.lineShift);
    } else {
      ShrAddMultiple(cfg.Lines(), high - 1, cfg.lineShift);
    }
  }

  lemma CyclicFromLast(cfg: Config, addr: Address, size: Word32, more: nat)
    requires cfg.Valid() && addr >= WORD64 - cfg.LineSize()
    requires LinesSpanned(cfg, addr, size) == more + 1 && more < cfg.Lines()
    ensures CyclicLines(cfg, addr, size) == [cfg.Lines() - 1] + Range(0, more)
  {
    InLastLine(cfg, addr);
    var c, lines := CyclicLines(cfg, addr, size), cfg.Lines();
    forall j | 0 <= j < more + 1 ensures c[j] == if j == 0 then lines - 1 else j - 1 {
      if j == 0 {
        SmallRemainder(lines - 1, lines);
      } else {
        DivideUnique(lines - 1 + j, lines, 1, j - 1);
      }
    }
  }
}
