/** Integer models of the bit operations used by the virtual texture and sphere mesh code:
    shifts by powers of two, bitwise and/or on naturals, and 32-bit two's-complement patterns. */
module Bits {

  type int32 = x: int | -0x8000_0000 <= x < 0x8000_0000
  type uint32 = x: int | 0 <= x < 0x1_0000_0000
  type uint16 = x: int | 0 <= x < 0x1_0000

  /** 2^k, i.e. `1 << k` without overflow. */
  function Pow2(k: nat): (r: nat)
    ensures r >= 1
  {
    if k == 0 then 1 else 2 * Pow2(k - 1)
  }

  /** x is 1, 2, 4, 8, ... */
  predicate IsPowerOfTwo(x: int)
    decreases if x > 0 then x else 0
  {
    x == 1 || (x >= 2 && x % 2 == 0 && IsPowerOfTwo(x / 2))
  }

  /** The exponent of a power of two (floor of log base 2 in general). */
  function Log2(x: nat): (k: nat)
    requires x >= 1
    ensures Pow2(k) <= x < 2 * Pow2(k)
  {
    if x == 1 then 0 else Log2(x / 2) + 1
  }

  /** `x << k` without overflow, by doubling k times. */
  function Shl(x: int, k: nat): int
  {
    if k == 0 then x else 2 * Shl(x, k - 1)
  }

  /** `x >> k` on a non-negative integer, by halving k times. */
  function Shr(x: nat, k: nat): nat
  {
    if k == 0 then x else Shr(x / 2, k - 1)
  }

  /** `x & y` on non-negative integers. */
  function BitAnd(x: nat, y: nat): nat
  {
    if x == 0 || y == 0 then 0
    else 2 * BitAnd(x / 2, y / 2) + (if x % 2 == 1 && y % 2 == 1 then 1 else 0)
  }

  /** `x | y` on non-negative integers. */
  function BitOr(x: nat, y: nat): nat
  {
    if x == 0 then y
    else if y == 0 then x
    else 2 * BitOr(x / 2, y / 2) + (if x % 2 == 1 || y % 2 == 1 then 1 else 0)
  }

  /** Bit k of x: `(x >> k) & 1`. */
  function Bit(x: nat, k: nat): nat
  {
    Shr(x, k) % 2
  }

  /** The 32-bit pattern of a two's-complement value (what `(uint) x` gives). */
  function U32(x: int): uint32
  {
    x % 0x1_0000_0000
  }

  /** A mathematical integer reduced to a 32-bit signed int with wrap-around. */
  function WrapInt32(x: int): int32
  {
    (x + 0x8000_0000) % 0x1_0000_0000 - 0x8000_0000
  }

  // ---------------------------------------------------------------------------
  // Arithmetic facts

  lemma {:induction false} MulAtLeast(d: int, k: int)
    requires d > 0 && k >= 1
    ensures d * k >= d
  {
  }

  lemma {:induction false} DivModUnique(x: int, d: int, q: int, r: int)
    requires d > 0 && 0 <= r < d && x == d * q + r
    ensures x / d == q && x % d == r
  {
    var q', r' := x / d, x % d;
    assert d * q' + r' == d * q + r;
    assert d * (q' - q) == r - r' by {
      assert d * (q' - q) == d * q' - d * q;
    }
    if q' > q {
      MulAtLeast(d, q' - q);
    } else if q' < q {
      MulAtLeast(d, q - q');
    }
  }

  lemma {:induction false} DivBelow(x: nat, d: nat, k: nat)
    requires d > 0 && x < k * d
    ensures x / d < k
  {
    var q := x / d;
    assert x == d * q + x % d;
    if q >= k {
      MulMonotone(d, k, q);
    }
  }

  /** A quotient of x by d is below k when x is below k * d. */
  lemma {:induction false} QuotientBelow(x: nat, d: nat, q: nat, r: nat, k: nat)
    requires d > 0 && q * d + r == x && x < k * d
    ensures q < k
  {
    if q >= k {
      MulMonotone(d, k, q);
    }
  }

  lemma {:induction false} MulMonotone(d: nat, a: nat, b: nat)
    requires a <= b
    ensures d * a <= d * b
  {
  }

  lemma {:induction false} DivDiv(x: nat, m: nat, n: nat)
    requires m > 0 && n > 0
    ensures x / m / n == x / (m * n)
  {
    var q1, r1 := x / m, x % m;
    var q2, r2 := q1 / n, q1 % n;
    assert x == m * (n * q2 + r2) + r1;
    assert m * (n * q2 + r2) == (m * n) * q2 + m * r2;
    MulMonotone(m, r2, n - 1);
    assert m * r2 + r1 < m * n;
    DivModUnique(x, m * n, q2, m * r2 + r1);
  }

  lemma {:induction false} Pow2Add(a: nat, b: nat)
    ensures Pow2(a + b) == Pow2(a) * Pow2(b)
  {
    if a > 0 {
      Pow2Add(a - 1, b);
    }
  }

  lemma {:induction false} Pow2Monotone(a: nat, b: nat)
    requires a <= b
    ensures Pow2(a) <= Pow2(b)
  {
    if a < b {
      Pow2Monotone(a, b - 1);
    }
  }

  /** Shifting left by k multiplies by 2^k. */
  lemma {:induction false} ShlIsMul(x: int, k: nat)
    ensures Shl(x, k) == x * Pow2(k)
  {
    if k > 0 {
      ShlIsMul(x, k - 1);
    }
  }

  /** Shifting right by k divides by 2^k. */
  lemma {:induction false} ShrIsDiv(x: nat, k: nat)
    ensures Shr(x, k) == x / Pow2(k)
  {
    if k > 0 {
      ShrIsDiv(x / 2, k - 1);
      DivDiv(x, 2, Pow2(k - 1));
    }
  }

  lemma {:induction false} Pow2Div(a: nat, b: nat)
    requires b <= a
    ensures Pow2(a) / Pow2(b) == Pow2(a - b)
    ensures Pow2(a) % Pow2(b) == 0
  {
    Pow2Add(b, a - b);
    DivModUnique(Pow2(a), Pow2(b), Pow2(a - b), 0);
  }

  /** `x >> (a + b) == (x >> a) >> b`. */
  lemma {:induction false} ShiftCompose(x: nat, a: nat, b: nat)
    ensures x / Pow2(a) / Pow2(b) == x / Pow2(a + b)
  {
    Pow2Add(a, b);
    DivDiv(x, Pow2(a), Pow2(b));
  }

  /** Shifting back and forth: `(x >> k) << k` plus the low k bits gives x. */
  lemma {:induction false} ShiftSplit(x: nat, k: nat)
    ensures x == (x / Pow2(k)) * Pow2(k) + x % Pow2(k)
  {
  }

  lemma {:induction false} PowerOfTwoPow2(k: nat)
    ensures IsPowerOfTwo(Pow2(k))
  {
    if k > 0 {
      PowerOfTwoPow2(k - 1);
      assert Pow2(k) / 2 == Pow2(k - 1);
    }
  }

  lemma {:induction false} PowerOfTwoIsPow2(x: int)
    requires IsPowerOfTwo(x)
    ensures x >= 1 && x == Pow2(Log2(x))
  {
    if x != 1 {
      PowerOfTwoIsPow2(x / 2);
    }
  }

  /** No power of two lies strictly between 2^k and 2^(k+1). */
  lemma {:induction false} NoPowerOfTwoBetween(k: nat, p: int)
    requires Pow2(k) < p < 2 * Pow2(k)
    ensures !IsPowerOfTwo(p)
  {
    if k > 0 && p % 2 == 0 {
      NoPowerOfTwoBetween(k - 1, p / 2);
    }
  }

  lemma {:induction false} ModDouble(x: nat, p: nat)
    requires p > 0
    ensures x % (2 * p) == 2 * ((x / 2) % p) + x % 2
  {
    var q := x / 2;
    var s, t := q / p, q % p;
    assert x == 2 * q + x % 2;
    assert x == (2 * p) * s + (2 * t + x % 2);
    DivModUnique(x, 2 * p, s, 2 * t + x % 2);
  }

  /** The powers of two the two core files use as constants. */
  lemma {:induction false} Pow2Constants()
    ensures Pow2(1) == 2 && Pow2(5) == 32 && Pow2(6) == 64 && Pow2(10) == 1024 && Pow2(11) == 2048
    ensures Pow2(16) == 0x1_0000 && Pow2(31) == 0x8000_0000 && Pow2(32) == 0x1_0000_0000
  {
    assert Pow2(1) == 2;
    assert Pow2(2) == 4;
    assert Pow2(3) == 8;
    assert Pow2(4) == 16;
    assert Pow2(5) == 32;
    assert Pow2(6) == 64;
    Pow2Add(5, 5);
    assert Pow2(11) == 2 * Pow2(10);
    Pow2Add(10, 6);
    Pow2Add(16, 16);
    assert Pow2(32) == 2 * Pow2(31);
  }

  lemma {:induction false} Pow2AtLeast(k: nat)
    ensures Pow2(k) >= k + 1
  {
    if k > 0 {
      Pow2AtLeast(k - 1);
    }
  }

  // ---------------------------------------------------------------------------
  // Bitwise facts

  lemma {:induction false} BitAndSelf(x: nat)
    ensures BitAnd(x, x) == x
  {
    if x > 0 {
      BitAndSelf(x / 2);
    }
  }

  /** `x & (1 << k)` keeps exactly bit k. */
  lemma {:induction false} BitAndPow2(x: nat, k: nat)
    ensures BitAnd(x, Pow2(k)) == Bit(x, k) * Pow2(k)
  {
    if k > 0 && x > 0 {
      var p := Pow2(k - 1);
      assert Pow2(k) == 2 * p;
      assert Pow2(k) / 2 == p && Pow2(k) % 2 == 0;
      assert BitAnd(x, Pow2(k)) == 2 * BitAnd(x / 2, p);
      BitAndPow2(x / 2, k - 1);
      assert Bit(x / 2, k - 1) == Bit(x, k);
      calc {
        BitAnd(x, Pow2(k));
        2 * (Bit(x, k) * p);
        Bit(x, k) * (2 * p);
      }
    } else if x == 0 {
      ShrIsDiv(0, k);
    } else {
      assert BitAnd(x, 1) == 2 * BitAnd(x / 2, 0) + x % 2;
    }
  }

  /** `x & ((1 << k) - 1)` keeps the low k bits: it is `x mod 2^k`. */
  lemma {:induction false} BitAndLowMask(x: nat, k: nat)
    ensures BitAnd(x, Pow2(k) - 1) == x % Pow2(k)
    ensures BitAnd(x, Pow2(k) - 1) < Pow2(k)
  {
    if k > 0 && x > 0 {
      BitAndLowMask(x / 2, k - 1);
      assert (Pow2(k) - 1) / 2 == Pow2(k - 1) - 1;
      assert (Pow2(k) - 1) % 2 == 1;
      ModDouble(x, Pow2(k - 1));
    }
  }

  /** Or-ing bit b at position k with bit a at position k+1 gives the two-bit number 2a+b at k. */
  lemma {:induction false} BitOrAdjacent(a: nat, b: nat, k: nat)
    requires a < 2 && b < 2
    ensures BitOr(a * Pow2(k) * 2, b * Pow2(k)) == (2 * a + b) * Pow2(k)
  {
    if k > 0 && a != 0 && b != 0 {
      BitOrAdjacent(a, b, k - 1);
      assert Pow2(k) == 2 * Pow2(k - 1);
      assert (a * Pow2(k) * 2) / 2 == a * Pow2(k - 1) * 2;
      assert (b * Pow2(k)) / 2 == b * Pow2(k - 1);
    }
  }

  /** The classic test: for x >= 1, `x & (x - 1)` is zero exactly when x is a power of two. */
  lemma {:induction false} BitAndPredecessor(x: nat)
    requires x >= 1
    ensures BitAnd(x, x - 1) == 0 <==> IsPowerOfTwo(x)
  {
    if x > 1 {
      if x % 2 == 1 {
        assert (x - 1) / 2 == x / 2;
        BitAndSelf(x / 2);
        assert BitAnd(x, x - 1) == 2 * (x / 2);
      } else {
        assert (x - 1) / 2 == x / 2 - 1;
        BitAndPredecessor(x / 2);
        assert BitAnd(x, x - 1) == 2 * BitAnd(x / 2, x / 2 - 1);
      }
    }
  }
}
