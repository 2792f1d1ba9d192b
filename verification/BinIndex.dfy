/**
 Which tree bin a chunk size belongs to (`compute_tree_index` and its companions).
 There are two bins per power of two; the last bin takes everything larger.
 The source computes the index from a 32-bit variable, so the model truncates too.
 */
module BinIndex {
  import opened Common
  import opened Bits

  const NTREEBINS: nat := 32
  const TREEBIN_SHIFT: nat := 8

  /** Position of the highest set bit (31 minus the count of leading zeros). */
  function HighBit(x: nat): (k: nat)
    requires x > 0
    ensures Pow2(k) <= x < Pow2(k + 1)
  {
    if x == 1 then 0 else 1 + HighBit(x / 2)
  }

  /** The 32-bit variable `X`: the size in units of 256 bytes. */
  function Shifted(s: nat): nat {
    s / 256 % 0x1_0000_0000
  }

  /** `compute_tree_index`. */
  function TreeIndex(s: nat): (i: nat)
    ensures i < NTREEBINS
  {
    IndexFrom(Shifted(s), s)
  }

  function IndexFrom(x: nat, s: nat): (i: nat)
    ensures i < NTREEBINS
  {
    if x == 0 then 0
    else if x > 0xFFFF then NTREEBINS - 1
    else
      HighBitOf16(x);
      2 * HighBit(x) + Bit(s, HighBit(x) + TREEBIN_SHIFT - 1)
  }

  /** `minsize_for_tree_index`. */
  function MinSize(i: nat): nat {
    Pow2(i / 2 + TREEBIN_SHIFT) + if i % 2 == 0 then 0 else Pow2(i / 2 + TREEBIN_SHIFT - 1)
  }

  /** `leftshift_for_tree_index`. */
  function LeftShift(i: nat): (k: nat)
    requires i < NTREEBINS
    ensures k <= 63
  {
    if i == NTREEBINS - 1 then 0 else 63 - (i / 2 + TREEBIN_SHIFT - 2)
  }

  /** How many low bits of a size the bin leaves undecided. */
  function OpenBits(i: nat): (b: nat)
    requires i < NTREEBINS
    ensures LeftShift(i) + b == 64
  {
    if i == NTREEBINS - 1 then 64 else i / 2 + TREEBIN_SHIFT - 1
  }

  /** Where the bin's range of length `2^OpenBits` starts. */
  function BinLow(i: nat): nat {
    if i == NTREEBINS - 1 then 0 else MinSize(i)
  }

  /** The range the bin index stands for. */
  predicate InBin(s: nat, i: nat) {
    MinSize(i) <= s && (i < NTREEBINS - 1 ==> s < MinSize(i + 1))
  }

  /** Sizes for which the 32-bit computation of the index is right. */
  predicate Indexable(s: nat) {
    MIN_LARGE <= s < WORD && (s < 0x100_0000_0000 || Shifted(s) >= 0xC000)
  }

  lemma HighBitOf16(x: nat)
    requires 0 < x <= 0xFFFF
    ensures HighBit(x) <= 15
    ensures HighBit(x) == 15 <==> x >= 0x8000
  {
    Pow2Values();
    var k := HighBit(x);
    if k > 15 {
      Pow2Mono(16, k);
    } else if k < 15 {
      Pow2Mono(k + 1, 15);
    }
  }

  lemma MinSizeStep(i: nat)
    ensures MinSize(i + 1) == MinSize(i) + Pow2(i / 2 + TREEBIN_SHIFT - 1)
  {
    if i % 2 == 0 {
      assert (i + 1) / 2 == i / 2;
    } else {
      assert (i + 1) / 2 == i / 2 + 1;
    }
  }

  lemma {:induction false} MinSizeMono(i: nat, j: nat)
    requires i <= j
    ensures MinSize(i) <= MinSize(j)
    decreases j
  {
    if i < j {
      MinSizeMono(i, j - 1);
      MinSizeStep(j - 1);
    }
  }

  /** The two leading bits of a number between `2^(m+1)` and `2^(m+2)`. */
  lemma {:induction false} LeadingBits(s: nat, m: nat)
    requires 2 * Pow2(m) <= s < 4 * Pow2(m)
    ensures Prefix(s, m) == if s < 3 * Pow2(m) then 2 else 3
    decreases m
  {
    if m > 0 {
      LeadingBits(s / 2, m - 1);
    }
  }

  /** Scaling the 16-bit variable's bounds back to the size. */
  lemma {:induction false} ScaleBounds(s: nat, k: nat, b: nat)
    requires Pow2(k) <= Prefix(s, b) < Pow2(k + 1)
    ensures Pow2(k + b) <= s < Pow2(k + b + 1)
    decreases b
  {
    if b > 0 {
      ScaleBounds(s / 2, k, b - 1);
    }
  }

  lemma MinSizeOfPair(k: nat)
    ensures MinSize(2 * k) == Pow2(k + 8)
    ensures MinSize(2 * k + 1) == Pow2(k + 8) + Pow2(k + 7)
  {
    assert (2 * k) / 2 == k && (2 * k) % 2 == 0;
    assert (2 * k + 1) / 2 == k && (2 * k + 1) % 2 == 1;
  }

  lemma MinSizeOfLastTwo()
    ensures MinSize(30) == 0x80_0000 && MinSize(31) == 0xC0_0000
  {
    Pow2Values();
    MinSizeOfPair(15);
  }

  /** A size below 2^24 gets the bin of its two leading bits. */
  lemma LowBins(s: nat)
    requires 256 <= s < 0x100_0000
    ensures InBin(s, TreeIndex(s))
  {
    var k := IndexOfShort(s);
    SecondLeading(s, k + 7, Pow2(k + 7));
    HalfBins(s, k, TreeIndex(s), Pow2(k + 7));
  }

  lemma IndexOfShort(s: nat) returns (k: nat)
    requires 256 <= s < 0x100_0000
    ensures Pow2(k + 8) <= s < Pow2(k + 9) && TreeIndex(s) == 2 * k + Bit(s, k + 7)
  {
    var x := s / 256;
    k := HighBit(x);
    assert Shifted(s) == x;
    assert Pow2(k + 8) <= s < Pow2(k + 9) by {
      PrefixOf8(s);
      ShortBounds(s, x, k, 8);
    }
  }

  lemma ShortBounds(s: nat, x: nat, k: nat, b: nat)
    requires x == Prefix(s, b) && 0 < x && k == HighBit(x)
    ensures Pow2(k + b) <= s < Pow2(k + b + 1)
  {
    ScaleBounds(s, k, b);
  }

  lemma SecondLeading(s: nat, m: nat, h: nat)
    requires h == Pow2(m) && 2 * h <= s < 4 * h
    ensures Bit(s, m) == if s < 3 * h then 0 else 1
  {
    LeadingBits(s, m);
  }

  /** The two bins of an octave meet in its middle. */
  lemma HalfBins(s: nat, k: nat, i: nat, h: nat)
    requires h == Pow2(k + 7) && 2 * h <= s < 4 * h && i == if s < 3 * h then 2 * k else 2 * k + 1
    ensures InBin(s, i)
  {
    if s < 3 * h {
      LowerHalf(s, k, i, h);
    } else {
      UpperHalf(s, k, i, h);
    }
  }

  lemma LowerHalf(s: nat, k: nat, i: nat, h: nat)
    requires h == Pow2(k + 7) && 2 * h <= s < 3 * h && i == 2 * k
    ensures InBin(s, i)
  {
    Within(s, i, 2 * h, 3 * h) by {
      MinSizeEven(i, k, h);
      MinSizeOdd(i + 1, k, h);
    }
  }

  lemma UpperHalf(s: nat, k: nat, i: nat, h: nat)
    requires h == Pow2(k + 7) && 3 * h <= s < 4 * h && i == 2 * k + 1
    ensures InBin(s, i)
  {
    Within(s, i, 3 * h, 4 * h) by {
      MinSizeOdd(i, k, h);
      MinSizeEven(i + 1, k + 1, 2 * h);
    }
  }

  lemma Within(s: nat, i: nat, lo: nat, hi: nat)
    requires MinSize(i) == lo && MinSize(i + 1) == hi && lo <= s < hi
    ensures InBin(s, i)
  {
  }

  lemma MinSizeEven(i: nat, k: nat, h: nat)
    requires i == 2 * k && h == Pow2(k + 7)
    ensures MinSize(i) == 2 * h
  {
  }

  lemma MinSizeOdd(i: nat, k: nat, h: nat)
    requires i == 2 * k + 1 && h == Pow2(k + 7)
    ensures MinSize(i) == 3 * h
  {
  }

  lemma PrefixOf8(s: nat)
    ensures Prefix(s, 8) == s / 256
  {
    assert Prefix(s, 8) == s / 2 / 2 / 2 / 2 / 2 / 2 / 2 / 2;
  }

  /** Exactly the upper half of the last 16-bit octave and beyond goes to the last bin. */
  lemma LastBin(s: nat)
    ensures TreeIndex(s) == NTREEBINS - 1 <==> Shifted(s) >= 0xC000
  {
    var x := Shifted(s);
    if 0 < x <= 0xFFFF {
      HighBitOf16(x);
      if x >= 0x8000 {
        SecondBit(s, x, HighBit(x) - 1);
      }
    }
  }

  lemma SecondBit(s: nat, x: nat, m: nat)
    requires x == Shifted(s) && 0x8000 <= x <= 0xFFFF && m == 14
    ensures Bit(s, m + 8) == if x < 0xC000 then 0 else 1
  {
    BitKept(s, m);
    assert Pow2(m) == 0x4000 by {
      Pow2Values();
    }
    LeadingBits(x, m);
  }

  /** Bit `k + 8` of the size survives as bit `k` of the 32-bit variable. */
  lemma BitKept(s: nat, k: nat)
    requires k < 32
    ensures Bit(s, k + 8) == Bit(Shifted(s), k)
  {
    PrefixTwice(s, 8, k);
    PrefixOf8(s);
    LowBits32(s / 256, k);
  }

  /** Truncating to 32 bits keeps the bits below 32. */
  lemma {:induction false} LowBits32(y: nat, j: nat)
    requires j < 32
    ensures Bit(y % 0x1_0000_0000, j) == Bit(y, j)
    decreases y
  {
    if y >= 0x1_0000_0000 {
      LowBits32(y - 0x1_0000_0000, j);
      Mod32Minus(y);
      Pow2Values();
      BitMinusPow(y, 32, j);
    }
  }

  lemma Mod32Minus(y: nat)
    requires y >= 0x1_0000_0000
    ensures (y - 0x1_0000_0000) % 0x1_0000_0000 == y % 0x1_0000_0000
  {
  }

  /** Every indexable size lies in the range of its bin. */
  lemma IndexableInBin(s: nat)
    requires Indexable(s)
    ensures InBin(s, TreeIndex(s))
  {
    LastBin(s);
    if TreeIndex(s) == NTREEBINS - 1 {
      MinSizeOfLastTwo();
    } else {
      LowBins(s);
    }
  }

  /** The range of a bin, as a walk needs it: its start, its length and the start of the key. */
  lemma BinRange(s: nat, i: nat)
    requires i < NTREEBINS && InBin(s, i) && s < WORD
    ensures BinLow(i) <= s < BinLow(i) + Pow2(OpenBits(i))
    ensures Shl(s, LeftShift(i)) == Scale(s - BinLow(i), 64 - OpenBits(i))
  {
    var b := OpenBits(i);
    if i == NTREEBINS - 1 {
      Pow2Values();
    } else {
      MinSizeStep(i);
      assert Pow2(b + 1) == 2 * Pow2(b);
    }
    KeyStart(s, BinLow(i), b, LeftShift(i));
  }

  /** The 32-bit index is right for exactly the indexable sizes. */
  lemma IndexCorrectIff(s: nat)
    requires MIN_LARGE <= s < WORD
    ensures InBin(s, TreeIndex(s)) <==> Indexable(s)
  {
    if Indexable(s) {
      IndexableInBin(s);
    } else {
      LastBin(s);
      MinSizeMono(TreeIndex(s) + 1, 31);
      MinSizeOfLastTwo();
    }
  }

  /** A concrete size that the truncation puts into the wrong bin: 2^40 lands in bin 0. */
  lemma IndexWrongAt2To40(s: nat)
    requires s == 0x100_0000_0000
    ensures TreeIndex(s) == 0 && !InBin(s, TreeIndex(s))
  {
    assert Shifted(s) == 0;
    MinSizeOfPair(0);
    assert Pow2(8) == 256 && Pow2(7) == 128 by {
      Pow2Values();
    }
  }

  /** Bins are ordered: everything in a lower bin is smaller. */
  lemma BinsOrdered(s: nat, i: nat, s': nat, j: nat)
    requires i < j < NTREEBINS && InBin(s, i) && InBin(s', j)
    ensures s < s'
  {
    MinSizeMono(i + 1, j);
  }
}
