/** Powers of two and the bitwise operators the two gindex implementations use,
    on unbounded naturals. Machine widths are written out where they matter. */
module Bits {

  type uint64 = x: int | 0 <= x < 0x1_0000_0000_0000_0000

  function Pow2(n: nat): (p: nat)
    ensures p >= 1
  {
    if n == 0 then 1 else 2 * Pow2(n - 1)
  }

  /** The position of the highest set bit. */
  function FloorLog2(x: nat): (d: nat)
    requires x >= 1
    ensures Pow2(d) <= x < Pow2(d + 1)
  {
    if x == 1 then 0 else 1 + FloorLog2(x / 2)
  }

  /** x << k, without truncation. */
  function Shl(x: nat, k: nat): (r: nat)
    ensures x <= r
    decreases k, x
  {
    if k == 0 then x else 2 * Shl(x, k - 1)
  }

  /** x >> k. */
  function Shr(x: nat, k: nat): nat
    decreases k, x
  {
    if k == 0 then x else Shr(x / 2, k - 1)
  }

  /** The k low bits of x. */
  function LowBits(x: nat, k: nat): (r: nat)
    ensures r < Pow2(k)
    decreases k, x
  {
    if k == 0 then 0 else 2 * LowBits(x / 2, k - 1) + x % 2
  }

  /** `<<` on a uint64, which drops the bits that leave the word. */
  function Shl64(x: nat, k: nat): nat
  {
    LowBits(Shl(x, k), 64)
  }

  function BitOr(a: nat, b: nat): (r: nat)
    ensures a <= r
  {
    if a == 0 then b
    else if b == 0 then a
    else 2 * BitOr(a / 2, b / 2) + (if a % 2 == 1 || b % 2 == 1 then 1 else 0)
  }

  function BitXor(a: nat, b: nat): nat
  {
    if a == 0 then b
    else if b == 0 then a
    else 2 * BitXor(a / 2, b / 2) + (if a % 2 == b % 2 then 0 else 1)
  }

  function BitAnd(a: nat, b: nat): nat
  {
    if a == 0 || b == 0 then 0
    else 2 * BitAnd(a / 2, b / 2) + (if a % 2 == 1 && b % 2 == 1 then 1 else 0)
  }

  // ----- powers of two

  lemma DoubleLeft(a: nat, b: nat)
    ensures (2 * a) * b == 2 * (a * b)
  {
  }

  lemma {:induction false} Pow2Add(m: nat, n: nat)
    ensures Pow2(m + n) == Pow2(m) * Pow2(n)
  {
    if m > 0 {
      Pow2Add(m - 1, n);
      DoubleLeft(Pow2(m - 1), Pow2(n));
    }
  }

  lemma {:induction false} Pow2Monotone(m: nat, n: nat)
    requires m <= n
    ensures Pow2(m) <= Pow2(n)
  {
    if m < n {
      Pow2Monotone(m, n - 1);
    }
  }

  /** The powers that occur as list limits and machine widths. */
  lemma Pow2Values()
    ensures Pow2(8) == 256 && Pow2(11) == 0x800 && Pow2(16) == 0x1_0000 && Pow2(18) == 0x4_0000
    ensures Pow2(32) == 0x1_0000_0000 && Pow2(40) == 0x100_0000_0000
    ensures Pow2(64) == 0x1_0000_0000_0000_0000
  {
    assert Pow2(8) == 256;
    Pow2Add(8, 3);
    assert Pow2(3) == 8;
    Pow2Add(8, 8);
    Pow2Add(16, 2);
    assert Pow2(2) == 4;
    Pow2Add(16, 16);
    Pow2Add(32, 8);
    Pow2Add(32, 32);
  }

  lemma FloorLog2Unique(x: nat, d: nat)
    requires x >= 1 && Pow2(d) <= x < Pow2(d + 1)
    ensures FloorLog2(x) == d
  {
    var e := FloorLog2(x);
    if e < d {
      Pow2Monotone(e + 1, d);
    } else if d < e {
      Pow2Monotone(d + 1, e);
    }
  }

  /** The gindex of slot `low` at depth d has depth d. */
  lemma LogOfSlot(d: nat, low: nat)
    requires low < Pow2(d)
    ensures FloorLog2(Pow2(d) + low) == d
  {
    FloorLog2Unique(Pow2(d) + low, d);
  }

  lemma Pow2Double(d: nat)
    ensures Pow2(d + 1) == 2 * Pow2(d)
  {
  }

  // ----- shifts

  lemma {:induction false} ShlIsTimes(x: nat, k: nat)
    ensures Shl(x, k) == x * Pow2(k)
  {
    if k > 0 {
      ShlIsTimes(x, k - 1);
      DoubleLeft(Pow2(k - 1), x);
    }
  }

  lemma {:induction false} ShlShl(x: nat, j: nat, k: nat)
    ensures Shl(Shl(x, j), k) == Shl(x, j + k)
  {
    if k > 0 {
      ShlShl(x, j, k - 1);
    }
  }

  lemma {:induction false} ShlDouble(x: nat, k: nat)
    ensures Shl(2 * x, k) == Shl(x, k + 1)
  {
    if k > 0 {
      ShlDouble(x, k - 1);
    }
  }

  lemma {:induction false} ShlByParity(x: nat, k: nat)
    ensures Shl(x, k) == Shl(x / 2, k + 1) + (if x % 2 == 1 then Pow2(k) else 0)
  {
    if k > 0 {
      ShlByParity(x, k - 1);
    }
  }

  lemma {:induction false} ShlLess(x: nat, bound: nat, k: nat, low: nat)
    requires x < bound && low < Pow2(k)
    ensures Shl(x, k) + low < Shl(bound, k)
  {
    if k > 0 {
      ShlLess(x, bound, k - 1, low / 2);
    }
  }

  lemma {:induction false} ShlBelow(x: nat, bits: nat, k: nat, low: nat)
    requires x < Pow2(bits) && low < Pow2(k)
    ensures Shl(x, k) + low < Pow2(bits + k)
  {
    if k > 0 {
      ShlBelow(x, bits, k - 1, low / 2);
    }
  }

  lemma {:induction false} ShrStep(x: nat, k: nat)
    ensures Shr(x, k + 1) == Shr(x, k) / 2
  {
    if k > 0 {
      ShrStep(x / 2, k - 1);
    }
  }

  lemma ShrSmall(x: nat)
    ensures Shr(x, 0) == x && Shr(x, 1) == x / 2 && Shr(x, 2) == x / 4 && Shr(x, 3) == x / 8
  {
    hide Shr;
    ShrZero(x);
    ShrStep(x, 0);
    ShrStep(x, 1);
    ShrStep(x, 2);
  }

  lemma ShrZero(x: nat)
    ensures Shr(x, 0) == x
  {
  }

  lemma {:induction false} ShrShr(x: nat, j: nat, k: nat)
    ensures Shr(Shr(x, j), k) == Shr(x, j + k)
  {
    if j > 0 {
      ShrShr(x / 2, j - 1, k);
    }
  }

  /** A number is its high part shifted back plus its low bits. */
  lemma {:induction false} SplitAt(x: nat, k: nat)
    ensures x == Shl(Shr(x, k), k) + LowBits(x, k)
  {
    if k > 0 {
      SplitAt(x / 2, k - 1);
    }
  }

  lemma {:induction false} SplitUnique(high: nat, k: nat, low: nat)
    requires low < Pow2(k)
    ensures Shr(Shl(high, k) + low, k) == high
    ensures LowBits(Shl(high, k) + low, k) == low
  {
    if k > 0 {
      SplitUnique(high, k - 1, low / 2);
      assert (Shl(high, k) + low) / 2 == Shl(high, k - 1) + low / 2;
    }
  }

  lemma LowBitsOfSmall(x: nat, k: nat)
    requires x < Pow2(k)
    ensures LowBits(x, k) == x
  {
    SplitUnique(0, k, x);
    ShlIsTimes(0, k);
  }

  lemma LowBitsStep(x: nat, k: nat)
    requires k > 0
    ensures LowBits(x, k) == 2 * LowBits(x / 2, k - 1) + x % 2
  {
  }

  lemma {:induction false} LowBitsOfShift(x: nat, d: nat, low: nat, k: nat)
    requires low < Pow2(d)
    ensures LowBits(Shl(x, d) + low, d + k) == Shl(LowBits(x, k), d) + low
  {
    if d > 0 {
      LowBitsOfShift(x, d - 1, low / 2, k);
      var y := Shl(x, d) + low;
      assert y / 2 == Shl(x, d - 1) + low / 2 && y % 2 == low % 2;
      LowBitsStep(y, d + k);
    }
  }

  lemma {:induction false} LowBitsOfLowBits(x: nat, k: nat, j: nat)
    ensures LowBits(LowBits(x, k + j), k) == LowBits(x, k)
  {
    if k > 0 {
      hide LowBits;
      LowBitsOfLowBits(x / 2, k - 1, j);
      LowBitsStep(x, k + j);
      LowBitsStep(x, k);
      var low := LowBits(x, k + j);
      assert low / 2 == LowBits(x / 2, k + j - 1) && low % 2 == x % 2;
      LowBitsStep(low, k);
    }
  }

  /** LowBits is the remainder modulo the power of two. */
  lemma LowBitsIsMod(x: nat, k: nat)
    ensures LowBits(x, k) == x % Pow2(k)
  {
    SplitAt(x, k);
    ShlIsTimes(Shr(x, k), k);
    ModUnique(Pow2(k), Shr(x, k), LowBits(x, k));
  }

  lemma ModUnique(m: nat, q: nat, r: nat)
    requires r < m
    ensures (q * m + r) % m == r
  {
    var x := q * m + r;
    var d := q - x / m;
    assert d * m == x % m - r;
    MultipleAtLeast(d, m);
  }

  lemma MultipleAtLeast(d: int, m: nat)
    ensures d >= 1 ==> d * m >= m
    ensures d <= -1 ==> d * m + m <= 0
  {
  }

  // ----- single bits

  function Bit(x: nat, k: nat): nat
  {
    Shr(x, k) % 2
  }

  lemma {:induction false} BitOfOr(a: nat, b: nat, k: nat)
    ensures Bit(BitOr(a, b), k) == if Bit(a, k) == 1 || Bit(b, k) == 1 then 1 else 0
  {
    OrHalves(a, b);
    if k > 0 {
      hide BitOr;
      BitOfOr(a / 2, b / 2, k - 1);
    }
  }

  lemma {:induction false} BitOfShl(x: nat, d: nat, k: nat)
    ensures Bit(Shl(x, d), k) == if k < d then 0 else Bit(x, k - d)
    decreases d
  {
    if d > 0 && k > 0 {
      BitOfShl(x, d - 1, k - 1);
    }
  }

  lemma {:induction false} BitBeyond(x: nat, n: nat, k: nat)
    requires x < Pow2(n) && n <= k
    ensures Bit(x, k) == 0
    decreases k
  {
    if n > 0 {
      BitBeyond(x / 2, n - 1, k - 1);
    } else if k > 0 {
      BitBeyond(x / 2, 0, k - 1);
    }
  }

  /** Numbers with the same bits are equal. */
  lemma {:induction false} SameBits(x: nat, y: nat)
    requires forall k: nat :: Bit(x, k) == Bit(y, k)
    ensures x == y
    decreases x + y
  {
    if x + y > 0 {
      assert Bit(x, 0) == x % 2 && Bit(y, 0) == y % 2;
      forall k: nat
        ensures Bit(x / 2, k) == Bit(y / 2, k)
      {
        assert Bit(x, k + 1) == Bit(x / 2, k) && Bit(y, k + 1) == Bit(y / 2, k);
      }
      SameBits(x / 2, y / 2);
    }
  }

  // ----- OR, XOR and AND on disjoint or aligned bits

  lemma OrHalves(a: nat, b: nat)
    ensures BitOr(a, b) == 2 * BitOr(a / 2, b / 2) + (if a % 2 == 1 || b % 2 == 1 then 1 else 0)
  {
  }

  /** OR works separately on the bits above and below position k. */
  lemma {:induction false} OrSplits(a: nat, k: nat, high: nat, low: nat)
    requires low < Pow2(k)
    ensures BitOr(Shl(a, k), Shl(high, k) + low) == Shl(BitOr(a, high), k) + low
  {
    if k > 0 {
      hide BitOr;
      OrSplits(a, k - 1, high, low / 2);
      OrHalves(Shl(a, k), Shl(high, k) + low);
      assert (Shl(high, k) + low) / 2 == Shl(high, k - 1) + low / 2;
    } else {
      assert low == 0;
    }
  }

  /** OR-ing a value into the freed low bits of a shift is addition. */
  lemma OrOfDisjointIsSum(a: nat, k: nat, low: nat)
    requires low < Pow2(k)
    ensures BitOr(Shl(a, k), low) == Shl(a, k) + low
  {
    OrSplits(a, k, 0, low);
    ShlIsTimes(0, k);
  }

  lemma {:induction false} OrBelow(a: nat, b: nat, k: nat)
    requires a < Pow2(k) && b < Pow2(k)
    ensures BitOr(a, b) < Pow2(k)
  {
    if k > 0 {
      OrBelow(a / 2, b / 2, k - 1);
    }
  }

  lemma {:induction false} OrAtMostSum(a: nat, b: nat)
    ensures BitOr(a, b) <= a + b
  {
    if a > 0 && b > 0 {
      OrAtMostSum(a / 2, b / 2);
    }
  }

  lemma {:induction false} OrCommutes(a: nat, b: nat)
    ensures BitOr(a, b) == BitOr(b, a)
  {
    if a > 0 && b > 0 {
      OrCommutes(a / 2, b / 2);
    }
  }

  /** XOR-ing away the leading one subtracts it. */
  lemma {:induction false} XorLeadingOne(g: nat, d: nat)
    requires Pow2(d) <= g < Pow2(d + 1)
    ensures BitXor(g, Pow2(d)) == g - Pow2(d)
  {
    if d > 0 {
      XorLeadingOne(g / 2, d - 1);
    } else {
      assert Pow2(1) == 2;
      assert BitXor(1, 1) == 2 * BitXor(0, 0) == 0;
    }
  }

  /** The sibling position: XOR with one flips the last bit. */
  lemma XorOne(p: nat)
    ensures BitXor(p, 1) == if p % 2 == 0 then p + 1 else p - 1
  {
    if p > 0 {
      assert BitXor(p / 2, 0) == p / 2;
    }
  }

  /** Masking with k ones keeps the k low bits. */
  lemma {:induction false} AndOnes(v: nat, k: nat)
    ensures BitAnd(v, Pow2(k) - 1) == LowBits(v, k)
  {
    if k > 0 {
      AndOnes(v / 2, k - 1);
      assert (Pow2(k) - 1) / 2 == Pow2(k - 1) - 1;
    }
  }

  /** A byte mask at position k keeps exactly that byte. */
  lemma {:induction false} AndByteMask(v: nat, k: nat)
    ensures BitAnd(v, Shl(255, k)) == Shl(Shr(v, k) % 256, k)
  {
    if k == 0 {
      AndOnes(v, 8);
      LowBitsIsMod(v, 8);
      assert Pow2(8) == 256;
    } else {
      AndByteMask(v / 2, k - 1);
    }
  }
}
