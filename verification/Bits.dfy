/**
 Machine words as unbounded integers with the wrap-around written out: powers of
 two, prefixes (a number with its low bits cut off), single bits, and the 64-bit
 left shift with which the bin tries read a size bit by bit.
 */
module Bits {

  import opened Common

  const HALF_WORD: nat := 0x8000_0000_0000_0000

  function Pow2(n: nat): (r: nat)
    ensures r >= 1
  {
    if n == 0 then 1 else 2 * Pow2(n - 1)
  }

  /** `x >> b`. */
  function Prefix(x: nat, b: nat): nat
    decreases b
  {
    if b == 0 then x else Prefix(x / 2, b - 1)
  }

  /** `x` times `2^k`. */
  function Scale(x: nat, k: nat): nat {
    if k == 0 then x else 2 * Scale(x, k - 1)
  }

  /** Bit `k` of `x`. */
  function Bit(x: nat, k: nat): (r: nat)
    ensures r <= 1
  {
    Prefix(x, k) % 2
  }

  /** The 64-bit `x << k`: bits shifted out of the word are lost. */
  function Shl(x: nat, k: nat): (r: nat)
    requires x < WORD
    ensures r < WORD
  {
    if k == 0 then x else Double(Shl(x, k - 1))
  }

  function Double(x: nat): (r: nat)
    requires x < WORD
    ensures r == if x < HALF_WORD then 2 * x else 2 * x - WORD
  {
    (2 * x) % WORD
  }

  /** The sign bit of a 64-bit word. */
  function TopBit(x: nat): (r: nat)
    requires x < WORD
    ensures r <= 1
  {
    x / HALF_WORD
  }

  /** Unsigned 64-bit subtraction. */
  function Sub64(x: nat, y: nat): (r: nat)
    requires x < WORD && y < WORD
    ensures r == if y <= x then x - y else WORD + x - y
  {
    (x - y) % WORD
  }

  lemma {:induction false} Pow2Mono(a: nat, b: nat)
    requires a <= b
    ensures Pow2(a) <= Pow2(b)
    decreases b
  {
    if a < b {
      Pow2Mono(a, b - 1);
    }
  }

  lemma Pow2Byte(k: nat)
    ensures Pow2(k + 8) == 256 * Pow2(k)
  {
    assert Pow2(k + 2) == 4 * Pow2(k) && Pow2(k + 4) == 4 * Pow2(k + 2);
    assert Pow2(k + 6) == 4 * Pow2(k + 4) && Pow2(k + 8) == 4 * Pow2(k + 6);
  }

  lemma Pow2Values()
    ensures Pow2(7) == 128 && Pow2(8) == 256 && Pow2(14) == 0x4000 && Pow2(15) == 0x8000 && Pow2(16) == 0x1_0000
    ensures Pow2(22) == 0x40_0000 && Pow2(23) == 0x80_0000 && Pow2(24) == 0x100_0000
    ensures Pow2(32) == 0x1_0000_0000 && Pow2(63) == HALF_WORD && Pow2(64) == WORD
  {
    assert Pow2(6) == 64 && Pow2(7) == 128 && Pow2(8) == 256;
    Pow2Byte(6);
    Pow2Byte(7);
    Pow2Byte(8);
    Pow2Byte(14);
    Pow2Byte(15);
    Pow2Byte(16);
    Pow2Byte(24);
    Pow2Byte(23);
    Pow2Byte(31);
    Pow2Byte(32);
    Pow2Byte(39);
    Pow2Byte(40);
    Pow2Byte(47);
    Pow2Byte(48);
    Pow2Byte(55);
    Pow2Byte(56);
  }

  /** Cutting in two steps. */
  lemma {:induction false} PrefixTwice(x: nat, a: nat, b: nat)
    ensures Prefix(Prefix(x, a), b) == Prefix(x, a + b)
    decreases a
  {
    if a > 0 {
      PrefixTwice(x / 2, a - 1, b);
    }
  }

  /** Taking away a high power of two leaves the lower bits alone. */
  lemma {:induction false} PrefixMinusPow(x: nat, n: nat, b: nat)
    requires b <= n && Pow2(n) <= x
    ensures Pow2(n - b) <= Prefix(x, b) && Prefix(x - Pow2(n), b) == Prefix(x, b) - Pow2(n - b)
    decreases b
  {
    if b > 0 {
      assert Pow2(n) == 2 * Pow2(n - 1);
      assert (x - Pow2(n)) / 2 == x / 2 - Pow2(n - 1);
      PrefixMinusPow(x / 2, n - 1, b - 1);
    }
  }

  lemma BitMinusPow(x: nat, n: nat, k: nat)
    requires k < n && Pow2(n) <= x
    ensures Bit(x - Pow2(n), k) == Bit(x, k)
  {
    PrefixMinusPow(x, n, k);
    assert Pow2(n - k) == 2 * Pow2(n - k - 1);
  }

  // ---------------------------------------------------------------- the key register of a walk

  lemma {:induction false} ScaleOrder(x: nat, y: nat, k: nat)
    ensures x < y <==> Scale(x, k) < Scale(y, k)
    decreases k
  {
    if k > 0 {
      ScaleOrder(x, y, k - 1);
    }
  }

  lemma {:induction false} ScaleMinus(x: nat, y: nat, k: nat)
    requires y <= x
    ensures Scale(x - y, k) == Scale(x, k) - Scale(y, k)
    decreases k
  {
    if k > 0 {
      ScaleMinus(x, y, k - 1);
    }
  }

  lemma {:induction false} ScalePow(b: nat, k: nat)
    ensures Scale(Pow2(b), k) == Pow2(b + k)
    ensures Scale(2 * Pow2(b), k) == 2 * Pow2(b + k) && Scale(3 * Pow2(b), k) == 3 * Pow2(b + k)
    decreases k
  {
    if k > 0 {
      ScalePow(b, k - 1);
    }
  }

  /**
   The register holds the offset into a range of length `2^b`, moved to the top of
   the word: its sign bit tells the half, and doubling it moves on to that half.
   */
  lemma KeyStep(d: nat, b: nat)
    requires 0 < b <= 64 && d < Pow2(b)
    ensures Scale(d, 64 - b) < WORD
    ensures TopBit(Scale(d, 64 - b)) == 1 <==> d >= Pow2(b - 1)
    ensures Double(Scale(d, 64 - b)) == Scale(if d >= Pow2(b - 1) then d - Pow2(b - 1) else d, 65 - b)
  {
    ScalePow(b, 64 - b);
    ScalePow(b - 1, 64 - b);
    Pow2Values();
    ScaleOrder(d, Pow2(b), 64 - b);
    ScaleOrder(d, Pow2(b - 1), 64 - b);
    if d >= Pow2(b - 1) {
      ScaleMinus(d, Pow2(b - 1), 65 - b);
      ScalePow(b - 1, 65 - b);
    }
  }

  lemma DoubleMod(u: nat)
    ensures Double(u % WORD) == (2 * u) % WORD
  {
    var q, r := u / WORD, u % WORD;
    if r < HALF_WORD {
      Remainder(2 * u, 2 * q, 2 * r);
    } else {
      Remainder(2 * u, 2 * q + 1, 2 * r - WORD);
    }
  }

  lemma Remainder(u: nat, q: nat, r: nat)
    requires u == WORD * q + r && r < WORD
    ensures u % WORD == r
  {
  }

  lemma {:induction false} ShlIsMod(x: nat, k: nat)
    requires x < WORD
    ensures Shl(x, k) == Scale(x, k) % WORD
    decreases k
  {
    if k > 0 {
      ShlIsMod(x, k - 1);
      DoubleMod(Scale(x, k - 1));
    }
  }

  /** The shift that starts a walk pushes the start of the range out of the word. */
  lemma KeyStart(s: nat, lo: nat, b: nat, k: nat)
    requires b + k == 64 && lo <= s < WORD && s < lo + Pow2(b)
    requires lo == 0 || lo == 2 * Pow2(b) || lo == 3 * Pow2(b)
    ensures Shl(s, k) == Scale(s - lo, k)
  {
    Pow2Values();
    ShlIsMod(s, k);
    ScaleMinus(s, lo, k);
    ScalePow(b, k);
    ScaleZero(k);
    ScaleOrder(s - lo, Pow2(b), k);
    ModDrop(Scale(s - lo, k), Scale(s, k));
  }

  lemma {:induction false} ScaleZero(k: nat)
    ensures Scale(0, k) == 0
    decreases k
  {
    if k > 0 {
      ScaleZero(k - 1);
    }
  }

  lemma ModDrop(y: nat, z: nat)
    requires y < WORD && (z == y || z == y + 2 * WORD || z == y + 3 * WORD)
    ensures z % WORD == y
  {
  }
}
