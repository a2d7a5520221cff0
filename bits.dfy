/** Machine words of a 64-bit target and the bitwise operators the
    strategies use, defined on natural numbers so that packed words
    and sequence lengths live in the same arithmetic. */
module Bits {

  /** 2^k */
  function Pow2(k: nat): (r: nat)
    ensures r >= 1
  {
    if k == 0 then 1 else 2 * Pow2(k - 1)
  }

  const HALF: nat := 0x1_0000_0000               // 2^32
  const WORD: nat := 0x1_0000_0000_0000_0000     // 2^64

  /** `usize` on a 64-bit target, and `u32`. */
  type usize = x: nat | x < WORD
  type u32 = x: nat | x < HALF

  const U32_MAX: u32 := 0xFFFF_FFFF
  const USIZE_MAX: usize := 0xFFFF_FFFF_FFFF_FFFF

  /** Bitwise `a & b` on unbounded naturals. */
  function BitAnd(a: nat, b: nat): (r: nat)
    ensures r <= a && r <= b
    decreases a
  {
    if a == 0 || b == 0 then 0
    else 2 * BitAnd(a / 2, b / 2) + (if a % 2 == 1 && b % 2 == 1 then 1 else 0)
  }

  /** Bitwise `a | b` on unbounded naturals. */
  function BitOr(a: nat, b: nat): (r: nat)
    ensures a <= r && b <= r && r <= a + b
    decreases a
  {
    if a == 0 then b
    else if b == 0 then a
    else 2 * BitOr(a / 2, b / 2) + (if a % 2 == 1 || b % 2 == 1 then 1 else 0)
  }

  /** The k low bits of x, read off one bit at a time. */
  function Low(x: nat, k: nat): nat
  {
    if k == 0 then 0 else 2 * Low(x / 2, k - 1) + x % 2
  }

  /** x shifted right by k bits, one bit at a time. */
  function High(x: nat, k: nat): nat
  {
    if k == 0 then x else High(x / 2, k - 1)
  }

  /** `a & b` on `usize`. */
  function And(a: usize, b: usize): usize
  {
    BitAnd(a, b)
  }

  /** `a | b` on `usize`. */
  function Or(a: usize, b: usize): usize
  {
    Pow2Word();
    OrBelow(a, b, 64);
    BitOr(a, b)
  }

  /** `!x` on `u32`. */
  function Not32(x: u32): u32
  {
    U32_MAX - x
  }

  /** `!x` on `usize`. */
  function Not64(x: usize): usize
  {
    USIZE_MAX - x
  }

  /** Zero-extension `x as usize` of a `u32`. */
  function Widen(x: u32): usize
  {
    x
  }

  /** `x << 32` on `usize`: the bits shifted past bit 63 are lost. */
  function Shl32(x: usize): usize
  {
    (x * HALF) % WORD
  }

  /** `x >> 32` on `usize`. */
  function Shr32(x: usize): (r: usize)
    ensures r <= x
  {
    x / HALF
  }

  /** Eight doublings multiply by 256. */
  lemma Pow2Eight(k: nat)
    ensures Pow2(k + 8) == 256 * Pow2(k)
  {
    assert Pow2(k + 8) == 2 * Pow2(k + 7);
    assert Pow2(k + 7) == 2 * Pow2(k + 6);
    assert Pow2(k + 6) == 2 * Pow2(k + 5);
    assert Pow2(k + 5) == 2 * Pow2(k + 4);
    assert Pow2(k + 4) == 2 * Pow2(k + 3);
    assert Pow2(k + 3) == 2 * Pow2(k + 2);
    assert Pow2(k + 2) == 2 * Pow2(k + 1);
    assert Pow2(k + 1) == 2 * Pow2(k);
  }

  lemma Pow2Word()
    ensures Pow2(32) == HALF && Pow2(64) == WORD
  {
    Pow2Eight(0); Pow2Eight(8); Pow2Eight(16); Pow2Eight(24);
    Pow2Eight(32); Pow2Eight(40); Pow2Eight(48); Pow2Eight(56);
  }

  lemma MulAtLeast(d: int, m: int)
    requires d > 0 && m >= 1
    ensures d * m >= d
  {
    if m > 1 {
      MulAtLeast(d, m - 1);
      assert d * m == d * (m - 1) + d;
    }
  }

  /** Quotient and remainder are determined by x == d * q + r, 0 <= r < d. */
  lemma DivModUnique(x: int, d: int, q: int, r: int)
    requires d > 0 && 0 <= r < d && x == d * q + r
    ensures x / d == q && x % d == r
  {
    var q0, r0 := x / d, x % d;
    assert x == d * q0 + r0;
    if q > q0 {
      assert d * (q - q0) == d * q - d * q0;
      MulAtLeast(d, q - q0);
    } else if q < q0 {
      assert d * (q0 - q) == d * q0 - d * q;
      MulAtLeast(d, q0 - q);
    }
  }

  /** The k low bits and the rest are remainder and quotient by 2^k. */
  lemma {:induction false} LowHigh(x: nat, k: nat)
    ensures Low(x, k) < Pow2(k)
    ensures x == Pow2(k) * High(x, k) + Low(x, k)
  {
    if k > 0 {
      var p, h, l := Pow2(k - 1), High(x / 2, k - 1), Low(x / 2, k - 1);
      LowHigh(x / 2, k - 1);
      assert Pow2(k) == 2 * p && High(x, k) == h && Low(x, k) == 2 * l + x % 2;
      assert x / 2 == p * h + l && l < p;
      assert x == 2 * (p * h) + (2 * l + x % 2);
      assert (2 * p) * h == 2 * (p * h);
    }
  }

  /** Zero has no bits set. */
  lemma {:induction false} LowOfZero(k: nat)
    ensures Low(0, k) == 0
  {
    if k > 0 {
      LowOfZero(k - 1);
    }
  }

  /** Masking with k low one-bits keeps the k low bits. */
  lemma {:induction false} AndLowOnes(x: nat, k: nat)
    ensures BitAnd(x, Pow2(k) - 1) == Low(x, k)
  {
    if k > 0 {
      var p := Pow2(k - 1);
      var m := Pow2(k) - 1;
      assert m == 2 * p - 1 && m % 2 == 1 && m / 2 == p - 1;
      AndLowOnes(x / 2, k - 1);
      if x == 0 {
        LowOfZero(k - 1);
      }
    }
  }

  /** Lower powers are smaller. */
  lemma {:induction false} Pow2Monotone(k: nat, n: nat)
    requires k <= n
    ensures Pow2(k) <= Pow2(n)
  {
    if k < n {
      Pow2Monotone(k, n - 1);
    }
  }

  /** The mask whose one-bits are bits k..n-1. */
  function RangeMask(k: nat, n: nat): nat
    requires k <= n
  {
    if k == 0 then Pow2(n) - 1 else 2 * RangeMask(k - 1, n - 1)
  }

  /** That mask is 2^n - 2^k. */
  lemma {:induction false} RangeMaskValue(k: nat, n: nat)
    requires k <= n
    ensures Pow2(k) <= Pow2(n)
    ensures RangeMask(k, n) == Pow2(n) - Pow2(k)
  {
    Pow2Monotone(k, n);
    if k > 0 {
      RangeMaskValue(k - 1, n - 1);
    }
  }

  /** Masking with the one-bits k..n-1 keeps bits k..n-1 of x. */
  lemma {:induction false} AndRangeOnes(x: nat, k: nat, n: nat)
    requires k <= n
    ensures BitAnd(x, RangeMask(k, n)) + Low(x, k) == Low(x, n)
  {
    if k == 0 {
      AndLowOnes(x, n);
    } else if x == 0 {
      LowOfZero(n);
      LowOfZero(k);
    } else {
      var m := RangeMask(k, n);
      AndRangeOnes(x / 2, k - 1, n - 1);
      assert m % 2 == 0 && m / 2 == RangeMask(k - 1, n - 1);
      if m == 0 {
        assert BitAnd(x / 2, 0) == 0;
      }
    }
  }

  /** Or-ing a number below 2^k with one whose k low bits are clear adds them. */
  lemma {:induction false} OrDisjoint(a: nat, b: nat, k: nat)
    requires a < Pow2(k) && Low(b, k) == 0
    ensures BitOr(a, b) == a + b
  {
    if a > 0 && b > 0 {
      assert k > 0;
      assert b % 2 == 0 && Low(b / 2, k - 1) == 0;
      assert a / 2 < Pow2(k - 1);
      OrDisjoint(a / 2, b / 2, k - 1);
    }
  }

  /** Or-ing two numbers below 2^k stays below 2^k. */
  lemma {:induction false} OrBelow(a: nat, b: nat, k: nat)
    requires a < Pow2(k) && b < Pow2(k)
    ensures BitOr(a, b) < Pow2(k)
  {
    if a > 0 && b > 0 {
      assert a / 2 < Pow2(k - 1) && b / 2 < Pow2(k - 1);
      OrBelow(a / 2, b / 2, k - 1);
    }
  }

  /** The 32 and 64 low bits of a word are its residues. */
  lemma LowIsMod(x: usize)
    ensures Low(x, 32) == x % HALF
    ensures Low(x, 64) == x
  {
    Pow2Word();
    LowHigh(x, 32);
    DivModUnique(x, HALF, High(x, 32), Low(x, 32));
    LowHigh(x, 64);
    DivModUnique(x, WORD, High(x, 64), Low(x, 64));
    DivModUnique(x, WORD, 0, x);
  }

  /** `x & u32::MAX` keeps the low half of a word. */
  lemma LowHalf(x: usize)
    ensures And(x, U32_MAX) == x % HALF
  {
    Pow2Word();
    AndLowOnes(x, 32);
    LowIsMod(x);
  }

  /** `x & !(u32::MAX as usize)` keeps the high half of a word. */
  lemma HighHalf(x: usize)
    ensures And(x, Not64(U32_MAX)) == x - x % HALF
  {
    Pow2Word();
    RangeMaskValue(32, 64);
    AndRangeOnes(x, 32, 64);
    LowIsMod(x);
  }

  /** `lo | (hi << 32)` puts two halves side by side. */
  lemma JoinHalves(lo: usize, hi: usize)
    requires lo < HALF && hi < HALF
    ensures Shl32(hi) == hi * HALF
    ensures Or(lo, Shl32(hi)) == lo + hi * HALF
  {
    var b := hi * HALF;
    assert b < WORD;
    DivModUnique(b, WORD, 0, b);
    LowIsMod(b);
    DivModUnique(b, HALF, hi, 0);
    Pow2Word();
    OrDisjoint(lo, b, 32);
  }

  /** The high half shifted down is the quotient by 2^32. */
  lemma ShrHigh(x: usize)
    ensures Shr32(x - x % HALF) == x / HALF
  {
    DivModUnique(x - x % HALF, HALF, x / HALF, 0);
  }

  /** A word made of a low and a high half gives both halves back. */
  lemma SplitWord(lo: nat, hi: nat)
    requires lo < HALF
    ensures (lo + hi * HALF) % HALF == lo
    ensures (lo + hi * HALF) / HALF == hi
    ensures lo + hi * HALF >= HALF <==> hi != 0
  {
    DivModUnique(lo + hi * HALF, HALF, hi, lo);
  }
}
