/** Unsigned machine words as natural numbers: powers of two and the bitwise
    `and` of the cache arithmetic, defined bit by bit, with the laws that turn
    mask tests into division and remainder. */
module Bits {

  const WORD32: nat := 0x1_0000_0000
  const WORD64: nat := 0x1_0000_0000_0000_0000

  function Pow2(k: nat): (p: nat)
    ensures p >= 1
  {
    if k == 0 then 1 else 2 * Pow2(k - 1)
  }

  /** Bitwise `x & y`, one bit at a time. */
  function BitAnd(x: nat, y: nat): nat {
    if x == 0 || y == 0 then 0
    else 2 * BitAnd(x / 2, y / 2) + (if x % 2 == 1 && y % 2 == 1 then 1 else 0)
  }

  /** `x >> k` and `y << k`, one bit at a time. */
  function Shr(x: nat, k: nat): nat
    decreases k
  {
    if k == 0 then x else Shr(x / 2, k - 1)
  }

  function Shl(y: nat, k: nat): nat {
    if k == 0 then y else 2 * Shl(y, k - 1)
  }

  ghost predicate IsPow2(n: nat) {
    exists k: nat :: n == Pow2(k)
  }

  lemma {:induction false} Pow2Add(a: nat, b: nat)
    ensures Pow2(a + b) == Pow2(a) * Pow2(b)
  {
    if a > 0 {
      Pow2Add(a - 1, b);
      assert Pow2(a) * Pow2(b) == 2 * (Pow2(a - 1) * Pow2(b));
    }
  }

  lemma {:induction false} Pow2Monotone(a: nat, b: nat)
    requires a < b
    ensures 2 * Pow2(a) <= Pow2(b)
  {
    if a + 1 < b { Pow2Monotone(a, b - 1); }
  }

  lemma Pow2Words()
    ensures Pow2(16) == 0x1_0000 && Pow2(31) == 0x8000_0000
    ensures Pow2(32) == WORD32 && Pow2(64) == WORD64
  {
    assert Pow2(8) == 256;
    Pow2Add(8, 8);
    Pow2Add(16, 16);
    Pow2Add(32, 32);
  }

  /** The width of an address. */
  lemma AddressWidth() returns (n: nat)
    ensures n == 64 && Pow2(n) == WORD64
  {
    Pow2Words();
    n := 64;
  }

  /** Halving first, then dividing by p, is dividing by 2p. */
  lemma HalveThenDivide(x: nat, p: nat)
    requires p >= 1
    ensures x / (2 * p) == (x / 2) / p
    ensures x % (2 * p) == 2 * ((x / 2) % p) + x % 2
  {
    var h := x / 2;
    var q, r := h / p, h % p;
    assert h == p * q + r;
    assert x == (2 * p) * q + (2 * r + x % 2);
    DivideUnique(x, 2 * p, q, 2 * r + x % 2);
  }

  lemma DivideUnique(x: nat, d: nat, q: nat, r: nat)
    requires d >= 1 && r < d && x == d * q + r
    ensures x / d == q && x % d == r
  {
    QuotientUnique(d, q, r, x / d, x % d);
  }

  lemma QuotientUnique(d: nat, q: nat, r: nat, q': nat, r': nat)
    requires r < d && r' < d && d * q + r == d * q' + r'
    ensures q == q' && r == r'
  {
    if q < q' {
      MulGap(d, q, q');
    } else if q' < q {
      MulGap(d, q', q);
    }
  }

  lemma MulGap(d: nat, a: nat, b: nat)
    requires a < b
    ensures d * b >= d * a + d
  {
    var k := b - a - 1;
    assert d * b == d * a + d + d * k;
    assert d * k >= 0;
  }

  /** Numbers less than n apart have different remainders modulo n. */
  lemma NearbyRemainders(a: nat, b: nat, n: nat)
    requires n >= 1 && a < b < a + n
    ensures a % n != b % n
  {
    var q, r, d := a / n, a % n, b - a;
    assert a == n * q + r;
    if r + d < n {
      DivideUnique(b, n, q, r + d);
    } else {
      assert n * (q + 1) == n * q + n;
      DivideUnique(b, n, q + 1, r + d - n);
    }
  }

  /** Masking with 2^k - 1 is the remainder modulo 2^k. */
  lemma {:induction false} AndLowMask(x: nat, k: nat)
    ensures BitAnd(x, Pow2(k) - 1) == x % Pow2(k)
  {
    if k == 0 {
    } else if x == 0 {
      assert 0 % Pow2(k) == 0;
    } else {
      var p := Pow2(k - 1);
      AndLowMask(x / 2, k - 1);
      HalveThenDivide(x, p);
      assert (2 * p - 1) / 2 == p - 1 && (2 * p - 1) % 2 == 1;
    }
  }

  /** Shifting right by k divides by 2^k and drops the remainder. */
  lemma {:induction false} ShrIsDivision(x: nat, k: nat)
    ensures Shr(x, k) == x / Pow2(k)
    ensures x == Shl(Shr(x, k), k) + x % Pow2(k)
  {
    if k == 0 {
    } else {
      ShrIsDivision(x / 2, k - 1);
      HalveThenDivide(x, Pow2(k - 1));
    }
  }

  lemma {:induction false} ShlIsProduct(y: nat, k: nat)
    ensures Shl(y, k) == y * Pow2(k)
  {
    if k > 0 {
      ShlIsProduct(y, k - 1);
      Double(y, Pow2(k - 1));
    }
  }

  lemma Double(y: nat, p: nat)
    ensures y * (2 * p) == 2 * (y * p)
  {
  }

  /** A mask whose low a bits are clear only sees the bits above them. */
  lemma {:induction false} AndShifted(x: nat, y: nat, a: nat)
    ensures BitAnd(x, Shl(y, a)) == Shl(BitAnd(Shr(x, a), y), a)
    decreases a
  {
    if a > 0 {
      AndShifted(x / 2, y, a - 1);
      AndEven(x, Shl(y, a - 1));
    }
  }

  lemma AndEven(x: nat, z: nat)
    ensures BitAnd(x, 2 * z) == 2 * BitAnd(x / 2, z)
  {
    if x > 0 && z > 0 { assert (2 * z) / 2 == z && (2 * z) % 2 == 0; }
  }

  /** A band mask (b ones above a zeros) keeps an (a+b)-bit word's upper part. */
  lemma AndBand(x: nat, a: nat, b: nat)
    requires x < Pow2(a + b)
    ensures Shr(x, a) < Pow2(b)
    ensures BitAnd(x, Shl(Pow2(b) - 1, a)) == Shl(Shr(x, a), a)
  {
    ShrBound(x, a, b);
    AndShifted(x, Pow2(b) - 1, a);
    AndLowMask(Shr(x, a), b);
    SmallRemainder(Shr(x, a), Pow2(b));
  }

  lemma {:induction false} ShlLeShr(t: nat, x: nat, k: nat)
    ensures Shl(t, k) <= x <==> t <= Shr(x, k)
    decreases k
  {
    if k > 0 { ShlLeShr(t, x / 2, k - 1); }
  }

  lemma {:induction false} ShlSuccessor(t: nat, k: nat)
    ensures Shl(t + 1, k) == Shl(t, k) + Pow2(k)
  {
    if k > 0 { ShlSuccessor(t, k - 1); }
  }

  /** A number lies between the multiples of 2^k that its shift names. */
  lemma ShrBracket(x: nat, k: nat)
    ensures Shl(Shr(x, k), k) <= x < Shl(Shr(x, k) + 1, k) <= x + Pow2(k)
  {
    ShrIsDivision(x, k);
    ShlSuccessor(Shr(x, k), k);
  }

  lemma BandIsDifference(k: nat, n: nat)
    requires k <= n
    ensures Shl(Pow2(n - k), k) == Pow2(n)
    ensures Shl(Pow2(n - k) - 1, k) == Pow2(n) - Pow2(k)
  {
    ShlIsProduct(Pow2(n - k), k);
    Pow2Add(n - k, k);
    ShlSuccessor(Pow2(n - k) - 1, k);
  }

  /** Masking an n-bit word with 2^n - 2^k clears its low k bits. */
  lemma AndHighMask(x: nat, k: nat, n: nat)
    requires k <= n && x < Pow2(n)
    ensures Pow2(n) >= Pow2(k)
    ensures BitAnd(x, Pow2(n) - Pow2(k)) == Shl(Shr(x, k), k)
  {
    BandIsDifference(k, n);
    BandOf(x, k, n - k, Pow2(n));
  }

  lemma BandOf(x: nat, a: nat, b: nat, p: nat)
    requires p == Pow2(a + b) && x < p
    ensures BitAnd(x, Shl(Pow2(b) - 1, a)) == Shl(Shr(x, a), a)
  {
    AndBand(x, a, b);
  }

  lemma ShrOfAllOnes(k: nat, n: nat)
    requires k <= n
    ensures Shr(Pow2(n) - 1, k) == Pow2(n - k) - 1
  {
    ShrBound(Pow2(n) - 1, k, n - k);
    BandIsDifference(k, n);
    ShlLeShr(Pow2(n - k) - 1, Pow2(n) - 1, k);
  }

  lemma SmallRemainder(x: nat, d: nat)
    requires x < d
    ensures x % d == x && x / d == 0
  {
  }

  lemma {:induction false} ShrBound(x: nat, a: nat, b: nat)
    requires x < Pow2(a + b)
    ensures Shr(x, a) < Pow2(b)
    decreases a
  {
    if a > 0 { ShrBound(x / 2, a - 1, b); }
  }

  /** n & (n-1) clears the lowest set bit: it is zero exactly on powers of two. */
  lemma {:induction false} AndPredecessor(n: nat)
    requires n >= 1
    ensures BitAnd(n, n - 1) == 0 <==> IsPow2(n)
  {
    if n == 1 {
      assert Pow2(0) == 1;
    } else if n % 2 == 0 {
      var h := n / 2;
      AndPredecessor(h);
      assert BitAnd(2 * h, 2 * h - 1) == 2 * BitAnd(h, h - 1);
      HalfIsPow2(h);
    } else {
      assert BitAnd(n, n - 1) == 2 * BitAnd(n / 2, n / 2);
      AndSelf(n / 2);
      OddIsNotPow2(n);
    }
  }

  lemma HalfIsPow2(h: nat)
    requires h >= 1
    ensures IsPow2(2 * h) <==> IsPow2(h)
  {
    if IsPow2(h) {
      var k: nat :| h == Pow2(k);
      assert 2 * h == Pow2(k + 1);
    }
    if IsPow2(2 * h) {
      var k: nat :| 2 * h == Pow2(k);
      assert h == Pow2(k - 1);
    }
  }

  lemma OddIsNotPow2(n: nat)
    requires n > 1 && n % 2 == 1
    ensures !IsPow2(n)
  {
  }

  lemma {:induction false} AndSelf(n: nat)
    ensures BitAnd(n, n) == n
  {
    if n > 0 { AndSelf(n / 2); }
  }
}
