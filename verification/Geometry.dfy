/** The integer logarithms and the address arithmetic of CACHE_BASE: what the
    constructor accepts and how an address splits into tag, set and line index. */
module Geometry {
  import opened Bits

  type Word32 = x: int | 0 <= x < WORD32
  type Address = x: int | 0 <= x < WORD64

  /** `(n & (n - 1)) == 0` on a 32-bit word; 0 - 1 wraps to all ones. */
  predicate IsPower2(n: Word32) {
    BitAnd(n, (n - 1) % WORD32) == 0
  }

  /** Position of the most significant set bit, by five masked halvings. */
  method FloorLog2(n: Word32) returns (p: int)
    ensures n == 0 ==> p == -1
    ensures n > 0 ==> 0 <= p < 32 && Pow2(p) <= n < Pow2(p + 1)
  {
    if n == 0 { return -1; }
    StageMasks();
    WordRemains(n);
    var k: nat, m: nat := 0, n;
    k, m := Halve(n, k, m, 16, 0xffff_0000);
    k, m := Halve(n, k, m, 8, 0x0000_ff00);
    k, m := Halve(n, k, m, 4, 0x0000_00f0);
    k, m := Halve(n, k, m, 2, 0x0000_000c);
    k, m := Halve(n, k, m, 1, 0x0000_0002);
    ShrToOne(n, k);
    LogOfWord(n, k);
    return k;
  }

  lemma WordRemains(n: Word32)
    requires n > 0
    ensures Remains(n, 0, n, 32)
  {
    Pow2Words();
  }

  lemma LogOfWord(n: Word32, k: nat)
    requires Pow2(k) <= n
    ensures k < 32
  {
    if 32 <= k {
      Pow2AtLeast(32, k);
      Pow2Words();
    }
  }

  /** One of the five tests: when a bit under the mask is set, count its a places
      and shift them out. */
  method Halve(ghost n: nat, k: nat, m: nat, a: nat, mask: nat) returns (k': nat, m': nat)
    requires Remains(n, k, m, a + a) && mask == Shl(Pow2(a) - 1, a)
    ensures Remains(n, k', m', a)
  {
    Stage(n, k, m, a, mask);
    if BitAnd(m, mask) != 0 { k', m' := k + a, Shr(m, a); } else { k', m' := k, m; }
  }

  lemma Pow2AtLeast(a: nat, b: nat)
    requires a <= b
    ensures Pow2(a) <= Pow2(b)
  {
    if a < b { Pow2Monotone(a, b); }
  }

  /** The number of bits needed for values below n. At 0 the subtraction wraps
      and the result is 32, not the -1 that the source comment announces. */
  method CeilLog2(n: Word32) returns (p: int)
    ensures n == 0 ==> p == 32
    ensures n >= 1 ==> 0 <= p <= 32 && n <= Pow2(p) && (p > 0 ==> Pow2(p - 1) < n)
  {
    p := FloorLog2((n - 1) % WORD32);
    if n == 0 { AllOnesLog(p); }
    p := p + 1;
  }

  lemma AllOnesLog(p: nat)
    requires p < 32 && WORD32 - 1 < Pow2(p + 1)
    ensures p == 31
  {
    Pow2Words();
    if p < 31 { Pow2Monotone(p + 1, 32); }
  }

  /** The five masks are bands of ones over as many zeros. */
  lemma StageMasks()
    ensures Shl(Pow2(16) - 1, 16) == 0xffff_0000 && Shl(Pow2(8) - 1, 8) == 0xff00
    ensures Shl(Pow2(4) - 1, 4) == 0xf0 && Shl(Pow2(2) - 1, 2) == 0xc && Shl(Pow2(1) - 1, 1) == 2
  {
    Pow2Words();
    assert Pow2(8) == 256 && Pow2(4) == 16;
    ShlIsProduct(0xffff, 16);
    ShlIsProduct(0xff, 8);
    ShlIsProduct(0xf, 4);
  }

  /** What is left of n after p places have been shifted out, in `width` bits. */
  ghost predicate Remains(n: nat, p: nat, m: nat, width: nat) {
    m == Shr(n, p) && 1 <= m < Pow2(width)
  }

  /** One masked test halves the width of what is left. */
  lemma Stage(n: nat, p: nat, m: nat, a: nat, mask: nat)
    requires Remains(n, p, m, a + a) && mask == Shl(Pow2(a) - 1, a)
    ensures BitAnd(m, mask) != 0 ==> Remains(n, p + a, Shr(m, a), a)
    ensures BitAnd(m, mask) == 0 ==> Remains(n, p, m, a)
  {
    AndBand(m, a, a);
    ShrTwice(n, p, a);
    ShrIsDivision(m, a);
    ShlZero(Shr(m, a), a);
    if Shr(m, a) == 0 { assert m == m % Pow2(a); }
  }

  lemma {:induction false} ShlZero(y: nat, k: nat)
    ensures Shl(y, k) == 0 <==> y == 0
  {
    if k > 0 { ShlZero(y, k - 1); }
  }

  lemma {:induction false} ShrTwice(n: nat, p: nat, q: nat)
    ensures Shr(Shr(n, p), q) == Shr(n, p + q)
    decreases p
  {
    if p > 0 { ShrTwice(n / 2, p - 1, q); }
  }

  lemma ShrToOne(n: nat, p: nat)
    requires Shr(n, p) == 1
    ensures Pow2(p) <= n < Pow2(p + 1)
  {
    ShrIsDivision(n, p);
    ShlIsProduct(1, p);
  }

  /** IsPower2 accepts exactly zero and the powers of two. */
  lemma IsPower2Meaning(n: Word32)
    ensures IsPower2(n) <==> n == 0 || IsPow2(n)
  {
    if n > 0 {
      SmallRemainder(n - 1, WORD32);
      AndPredecessor(n);
    }
  }

  /** The arguments and the template bound of a cache. */
  datatype Geometry = Geometry(cacheSize: Word32, lineSize: Word32, associativity: Word32, maxSets: Word32) {

    /** `associativity * lineSize` in 32-bit arithmetic. */
    function SetBytes(): Word32 {
      associativity * lineSize % WORD32
    }

    /** `_setIndexMask + 1`, where `_setIndexMask` is the quotient minus one. */
    function NumSets(): Word32
      requires SetBytes() != 0
    {
      (SetIndexMask() + 1) % WORD32
    }

    function SetIndexMask(): Word32
      requires SetBytes() != 0
    {
      (cacheSize / SetBytes() - 1) % WORD32
    }

    /** The constructors divide by SetBytes and then check three assertions. */
    predicate Accepted() {
      && SetBytes() != 0
      && IsPower2(lineSize)
      && IsPower2(NumSets())
      && NumSets() <= maxSets
    }
  }

  function TagOf(lineShift: nat, addr: Address): Address {
    ShrBoundSelf(addr, lineShift);
    Shr(addr, lineShift)
  }

  lemma {:induction false} ShrBoundSelf(x: nat, k: nat)
    ensures Shr(x, k) <= x
    decreases k
  {
    if k > 0 { ShrBoundSelf(x / 2, k - 1); }
  }

  lemma NumSetsIsQuotient(g: Geometry)
    requires g.SetBytes() != 0
    ensures g.NumSets() == g.cacheSize / g.SetBytes()
    ensures g.NumSets() >= 1 <==> g.cacheSize >= g.SetBytes()
    ensures g.NumSets() >= 1 ==> g.SetIndexMask() == g.NumSets() - 1
    ensures g.NumSets() == 0 ==> g.SetIndexMask() == WORD32 - 1
  {
    Quotient(g.cacheSize, g.SetBytes());
  }

  lemma Quotient(c: Word32, d: Word32)
    requires d != 0
    ensures 0 <= c / d <= c && (c / d >= 1 <==> c >= d)
    ensures ((c / d - 1) % WORD32 + 1) % WORD32 == c / d
    ensures c / d >= 1 ==> (c / d - 1) % WORD32 == c / d - 1
    ensures c / d == 0 ==> (c / d - 1) % WORD32 == WORD32 - 1
  {
    var q := c / d;
    assert c == d * q + c % d;
    if q >= 1 { MulGap(d, 0, q); }
    assert q <= c by { if q > c { MulGap(q, 0, d); } }
  }

  /** What the constructor accepts, without its mask tests: a line size that is a
      power of two (or 0), and a number of sets that is one (or 0) and fits. */
  lemma AcceptedIff(g: Geometry)
    ensures g.Accepted()
       <==> && g.associativity * g.lineSize % WORD32 != 0
            && (g.lineSize == 0 || IsPow2(g.lineSize))
            && var q := g.cacheSize / (g.associativity * g.lineSize % WORD32);
               (q == 0 || IsPow2(q)) && q <= g.maxSets
  {
    IsPower2Meaning(g.lineSize);
    if g.SetBytes() != 0 {
      NumSetsIsQuotient(g);
      IsPower2Meaning(g.NumSets());
    }
  }

  /** Splitting an address: the tag is its line number, the line index its offset
      in the line, and the set index the line number modulo the number of sets. */
  lemma SplitAddressLaw(g: Geometry, lineShift: nat, addr: Address)
    requires g.Accepted() && g.NumSets() >= 1
    requires Pow2(lineShift) <= g.lineSize < Pow2(lineShift + 1)
    ensures g.lineSize == Pow2(lineShift)
    ensures TagOf(lineShift, addr) == addr / g.lineSize
    ensures BitAnd(addr, g.lineSize - 1) == addr % g.lineSize
    ensures addr == TagOf(lineShift, addr) * g.lineSize + BitAnd(addr, g.lineSize - 1)
    ensures BitAnd(TagOf(lineShift, addr), g.SetIndexMask()) == TagOf(lineShift, addr) % g.NumSets()
    ensures BitAnd(TagOf(lineShift, addr), g.SetIndexMask()) < g.NumSets() <= g.maxSets
  {
    LineSizeIsPow2(g, lineShift);
    ShrIsDivision(addr, lineShift);
    ShlIsProduct(Shr(addr, lineShift), lineShift);
    AndLowMask(addr, lineShift);
    NumSetsIsQuotient(g);
    IsPower2Meaning(g.NumSets());
    var k: nat :| g.NumSets() == Pow2(k);
    AndLowMask(TagOf(lineShift, addr), k);
  }

  lemma LineSizeIsPow2(g: Geometry, lineShift: nat)
    requires g.Accepted()
    requires Pow2(lineShift) <= g.lineSize < Pow2(lineShift + 1)
    ensures g.lineSize == Pow2(lineShift)
  {
    IsPower2Meaning(g.lineSize);
    var k: nat :| g.lineSize == Pow2(k);
    if k < lineShift { Pow2Monotone(k, lineShift); }
    if lineShift < k && lineShift + 1 != k { Pow2Monotone(lineShift + 1, k); }
  }

  /** Two addresses get the same tag exactly when they lie in the same line. */
  lemma SameTagIffSameLine(g: Geometry, lineShift: nat, a: Address, b: Address)
    requires g.Accepted() && g.NumSets() >= 1
    requires Pow2(lineShift) <= g.lineSize < Pow2(lineShift + 1)
    ensures TagOf(lineShift, a) == TagOf(lineShift, b)
       <==> a - a % g.lineSize <= b < a - a % g.lineSize + g.lineSize
  {
    SplitAddressLaw(g, lineShift, a);
    SplitAddressLaw(g, lineShift, b);
    var d, p, q := g.lineSize, a / g.lineSize, b / g.lineSize;
    assert a == p * d + a % d && b == q * d + b % d;
    if p < q { MulGap(d, p, q); }
    if q < p { MulGap(d, q, p); }
  }

  /** The constructor's assertions do not keep the set index inside the array:
      they do exactly when the cache holds at least one set. */
  lemma SetIndexInBoundsIff(g: Geometry, lineShift: nat)
    requires g.Accepted()
    requires Pow2(lineShift) <= g.lineSize < Pow2(lineShift + 1)
    ensures (forall addr: Address :: BitAnd(TagOf(lineShift, addr), g.SetIndexMask()) < g.maxSets)
       <==> g.cacheSize >= g.SetBytes()
  {
    NumSetsIsQuotient(g);
    if g.cacheSize >= g.SetBytes() {
      forall addr: Address ensures BitAnd(TagOf(lineShift, addr), g.SetIndexMask()) < g.maxSets {
        SplitAddressLaw(g, lineShift, addr);
      }
    } else {
      var addr := EscapingAddress(lineShift, g.lineSize);
      assert BitAnd(TagOf(lineShift, addr), g.SetIndexMask()) == WORD32 - 1;
    }
  }

  /** A cache of 0 bytes with 64-byte lines is accepted, and sends the address
      (2^32 - 1) * 64 to set 2^32 - 1 of an array of one. */
  lemma NoSetEscapes()
    ensures var g, addr: Address := Geometry(0, 64, 1, 1), 0xffff_ffff * 64;
            && g.Accepted() && Pow2(6) == 64
            && BitAnd(TagOf(6, addr), g.SetIndexMask()) == 0xffff_ffff >= g.maxSets
  {
    var g := Geometry(0, 64, 1, 1);
    assert Pow2(6) == 64;
    assert g.SetBytes() == 64;
    NumSetsIsQuotient(g);
    IsPower2Meaning(64);
    IsPower2Meaning(0);
    ShlIsProduct(0xffff_ffff, 6);
    ShrShl(0xffff_ffff, 6);
    AndSelf(0xffff_ffff);
  }

  /** One-byte lines in 2^31 sets, in an array with room for one more. */
  function ManySets(): Geometry { Geometry(0x8000_0000, 1, 1, 0x8000_0001) }

  lemma ManySetsAccepted()
    ensures ManySets().Accepted() && ManySets().NumSets() == 0x8000_0000
  {
    assert ManySets().SetBytes() == 1;
    NumSetsIsQuotient(ManySets());
    Pow2Words();
    assert Pow2(0) == 1;
    IsPower2Meaning(1);
    IsPower2Meaning(0x8000_0000);
  }

  lemma EscapingAddress(lineShift: nat, lineSize: Word32) returns (addr: Address)
    requires Pow2(lineShift) <= lineSize
    ensures BitAnd(TagOf(lineShift, addr), WORD32 - 1) == WORD32 - 1
  {
    var x := Shl(WORD32 - 1, lineShift);
    ShlIsProduct(WORD32 - 1, lineShift);
    assert (WORD32 - 1) * Pow2(lineShift) < WORD64 by {
      assert (WORD32 - 1) * Pow2(lineShift) <= (WORD32 - 1) * WORD32;
    }
    addr := x;
    ShrShl(WORD32 - 1, lineShift);
    AndSelf(WORD32 - 1);
  }

  lemma {:induction false} ShrShl(y: nat, k: nat)
    ensures Shr(Shl(y, k), k) == y
  {
    if k > 0 {
      assert Shl(y, k) / 2 == Shl(y, k - 1);
      ShrShl(y, k - 1);
    }
  }
}
