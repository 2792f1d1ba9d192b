/**
 `pmm_init`: every available entry of the memory map is cut into 4K, 2M and 1G ranges,
 and every frame of every range is freed into the new manager.
 */
module PmmInit {
  import opened Common
  import opened FramePool
  import opened FrameManager
  import opened FrameList
  import opened FrameMoves
  import Memory = MemoryMap
  import MapSort

  /** From here on the alignment macros wrap around. */
  const ALIGN_END: nat := WORD - 0x4000_0000
  const AVAILABLE: nat := 1

  /** `PAGE_ALIGN`, `PAGE_ALIGN_2M`, `PAGE_ALIGN_1G`. */
  function Up(size: nat, x: nat): nat {
    (x + PageBytes(size) - 1) / PageBytes(size) * PageBytes(size)
  }

  /** `PAGE_ALIGN_REVERSE` and its large forms. */
  function Down(size: nat, x: nat): nat {
    x / PageBytes(size) * PageBytes(size)
  }

  lemma UpFacts(size: nat, x: nat)
    ensures x <= Up(size, x) < x + PageBytes(size) && Up(size, x) % PageBytes(size) == 0
  {
    if size == 0 {
    } else if size == 1 {
    } else {
    }
  }

  lemma DownFacts(size: nat, x: nat)
    ensures Down(size, x) <= x < Down(size, x) + PageBytes(size) && Down(size, x) % PageBytes(size) == 0
  {
    if size == 0 {
    } else if size == 1 {
    } else {
    }
  }

  /** Multiples of a size are multiples of every smaller one, and neighbours lie a whole size apart. */
  lemma Multiples(size: nat, y: nat)
    requires size < 2 && y % PageBytes(size + 1) == 0
    ensures y % PageBytes(size) == 0
  {
    if size == 0 {
      Multiple4K(512 * (y / 0x20_0000));
    } else {
      Multiple2M(512 * (y / 0x4000_0000));
    }
  }

  lemma Neighbours(size: nat, y: nat, z: nat)
    requires y % PageBytes(size) == 0 && z % PageBytes(size) == 0 && y < z
    ensures y + PageBytes(size) <= z
  {
    if size == 0 {
    } else if size == 1 {
    } else {
    }
  }

  /** Finer alignment cuts less off. */
  lemma UpOrder(size: nat, x: nat)
    requires size < 2
    ensures Up(size, x) <= Up(size + 1, x)
  {
    UpFacts(size, x);
    UpFacts(size + 1, x);
    Multiples(size, Up(size + 1, x));
    if Up(size + 1, x) < Up(size, x) {
      Neighbours(size, Up(size + 1, x), Up(size, x));
    }
  }

  lemma DownOrder(size: nat, x: nat)
    requires size < 2
    ensures Down(size + 1, x) <= Down(size, x)
  {
    DownFacts(size, x);
    DownFacts(size + 1, x);
    Multiples(size, Down(size + 1, x));
    if Down(size, x) < Down(size + 1, x) {
      Neighbours(size, Down(size, x), Down(size + 1, x));
    }
  }

  // ---------------------------------------------------------------- pushing

  /** `p'` is a pool that holds what `p` holds and the addresses from `lo` up to `hi`. */
  ghost predicate Added(p: Pool, p': Pool, lo: nat, hi: nat) {
    Inv(p') && p'.initialized == p.initialized && Grown(p, p', lo, hi)
  }

  /** `pmm_push_range`. */
  method PushRange(pmm: Pmm, start: nat, end: nat, size: nat, enable1g: bool)
    requires pmm.Valid() && size < 3 && 0 < start && end <= ADDRESS_END && start % PageBytes(size) == 0 && end % PageBytes(size) == 0
    modifies pmm
    ensures pmm.Valid() && Filled(old(pmm.Pool()), pmm.Pool(), start, end, PushSize(size, enable1g))
  {
    if size == 2 && !enable1g {
      Multiples(1, start);
      Multiples(1, end);
      PushFrames(pmm, start, end, 1);
    } else {
      PushFrames(pmm, start, end, size);
    }
  }

  /** Without 1G pages a 1G range is pushed as 2M frames. */
  function PushSize(size: nat, enable1g: bool): nat {
    if size == 2 && !enable1g then 1 else size
  }

  predicate Aligned(size: nat, x: nat) {
    x % PageBytes(size) == 0
  }

  lemma FrameNext(size: nat, addr: nat, end: nat)
    requires 0 < addr < end <= ADDRESS_END && Aligned(size, addr) && Aligned(size, end)
    ensures FrameOk(size, addr) && addr + PageBytes(size) <= end && Aligned(size, addr + PageBytes(size))
  {
    Neighbours(size, addr, end);
    NextMultiple(size, addr);
  }

  method PushFrames(pmm: Pmm, start: nat, end: nat, size: nat)
    requires pmm.Valid() && size < 3 && 0 < start && end <= ADDRESS_END && Aligned(size, start) && Aligned(size, end)
    modifies pmm
    ensures pmm.Valid() && Filled(old(pmm.Pool()), pmm.Pool(), start, end, size)
  {
    ghost var p := pmm.Pool();
    var addr := start;
    NothingFilled(p, start, start, size);
    while addr < end
      invariant pmm.Valid() && start <= addr && (start < end ==> addr <= end) && (start >= end ==> pmm.Pool() == p) && Aligned(size, addr)
      invariant Filled(p, pmm.Pool(), start, addr, size)
      decreases end - addr
    {
      FrameNext(size, addr, end);
      ghost var before := pmm.Pool();
      pmm.Free(size, GetZone(size, addr), addr);
      FilledMore(p, before, pmm.Pool(), start, addr, size);
      addr := addr + PageBytes(size);
    }
    if start >= end {
      NothingFilled(p, start, end, size);
    }
  }

  /** The addresses from `lo` up to `hi` were added, as frames of size `size`. */
  ghost predicate Filled(p: Pool, p': Pool, lo: nat, hi: nat, size: nat) {
    Added(p, p', lo, hi) && Counted(p, p', FramesIn(lo, hi, size))
  }

  lemma NothingFilled(p: Pool, lo: nat, hi: nat, size: nat)
    requires Inv(p) && hi <= lo
    ensures Filled(p, p, lo, hi, size)
  {
    NothingAdded(p, lo, hi);
  }

  lemma FilledMore(p: Pool, p1: Pool, p2: Pool, start: nat, addr: nat, size: nat)
    requires Inv(p1) && size < 3 && start <= addr && Filled(p, p1, start, addr, size) && Freed(p1, p2, size, GetZone(size, addr), addr)
    ensures Filled(p, p2, start, addr + PageBytes(size), size)
  {
    AddedMore(p, p1, p2, start, addr, addr + PageBytes(size));
    CountedPush(p1, p2, size, GetZone(size, addr), addr);
    CountedMore(p, p1, p2, FramesIn(start, addr, size), CountsFor(size, 1));
    OnePiece(size, start, addr);
  }

  /** The frames of a range, by size. */
  function FramesIn(start: nat, end: nat, size: nat): Counts {
    CountsFor(size, Pieces(size, start, end))
  }

  function Pieces(size: nat, start: nat, end: nat): nat
    decreases end - start
  {
    if start < end then 1 + Pieces(size, start + PageBytes(size), end) else 0
  }

  lemma {:induction false} Small(start: nat, end: nat, n: nat)
    requires end == start + 0x1000 * n
    ensures FramesIn(start, end, 0) == Counts(n, 0, 0)
    decreases n
  {
    if n > 0 {
      Small(start + 0x1000, end, n - 1);
    }
  }

  lemma {:induction false} Large(start: nat, end: nat, n: nat)
    requires end == start + 0x20_0000 * n
    ensures FramesIn(start, end, 1) == Counts(0, n, 0)
    decreases n
  {
    if n > 0 {
      Large(start + 0x20_0000, end, n - 1);
    }
  }

  lemma {:induction false} OnePiece(size: nat, start: nat, addr: nat)
    requires start <= addr
    ensures Pieces(size, start, addr + PageBytes(size)) == Pieces(size, start, addr) + 1
    decreases addr - start
  {
    var next := start + PageBytes(size);
    if next <= addr {
      OnePiece(size, next, addr);
    } else {
      assert Pieces(size, next, addr) == 0 && Pieces(size, next, addr + PageBytes(size)) == if start < addr then 1 else 0;
    }
  }

  lemma NothingAdded(p: Pool, lo: nat, hi: nat)
    requires Inv(p) && hi <= lo
    ensures Added(p, p, lo, hi)
  {
    forall x: nat ensures In(lo, hi, x) == 0 {
    }
  }

  lemma AddedMore(p: Pool, p': Pool, p'': Pool, lo: nat, mid: nat, hi: nat)
    requires lo <= mid <= hi && Added(p, p', lo, mid) && Added(p', p'', mid, hi)
    ensures Added(p, p'', lo, hi)
  {
    forall x: nat ensures Held(p'', x) == Held(p, x) + In(lo, hi, x) {
      assert Held(p', x) == Held(p, x) + In(lo, mid, x);
    }
  }

  lemma NextMultiple(size: nat, addr: nat)
    requires addr % PageBytes(size) == 0
    ensures (addr + PageBytes(size)) % PageBytes(size) == 0
  {
    if size == 0 {
    } else if size == 1 {
    } else {
    }
  }

  // ---------------------------------------------------------------- one entry

  datatype Bounds = Bounds(start: nat, end: nat, start2: nat, end2: nat, start1: nat, end1: nat)

  /** The aligned bounds of an entry; both addresses of an entry are inclusive. */
  function BoundsOf(first: nat, last: nat): Bounds {
    Bounds(Up(0, first), Down(0, last + 1), Up(1, first), Down(1, last + 1), Up(2, first), Down(2, last + 1))
  }

  /** The 64-bit subtraction in the loop that lowers `end_2m`. */
  function Minus(end2: nat, split: nat): nat {
    (end2 - split * 0x20_0000) % WORD
  }

  /** The loop that lowers `end_2m` where 1G pages are disabled. */
  method LowerEnd(start2: nat, end2: nat) returns (low: nat)
    requires start2 <= end2 < WORD
    ensures low == Lowered(start2, end2)
  {
    var split := 4;
    while split >= 0 && (Minus(end2, split) < LIMIT_DMA32 + 1 || Minus(end2, split) < start2)
      invariant -1 <= split <= 4 && Lowered(start2, end2) == LoweredFrom(start2, end2, split)
    {
      split := split - 1;
    }
    low := if split > 0 then Minus(end2, split) else end2;
  }

  function LoweredFrom(start2: nat, end2: nat, split: int): nat
    decreases split + 1
  {
    if split <= 0 then end2
    else if Minus(end2, split) < LIMIT_DMA32 + 1 || Minus(end2, split) < start2 then LoweredFrom(start2, end2, split - 1)
    else Minus(end2, split)
  }

  function Lowered(start2: nat, end2: nat): nat {
    LoweredFrom(start2, end2, 4)
  }

  /** The bounds the ranges are pushed for. */
  function Ranges(first: nat, last: nat, enable1g: bool): Bounds {
    var b := BoundsOf(first, last);
    if !enable1g && b.start2 <= b.end2 then b.(end2 := Lowered(b.start2, b.end2)) else b
  }

  /** How often the ranges cover byte `x`. */
  function PushedAt(b: Bounds, x: nat): nat {
    if b.start1 <= b.end1 then In(b.start, b.start2, x) + In(b.end2, b.end, x) + In(b.start2, b.start1, x) + In(b.end1, b.end2, x) + In(b.start1, b.end1, x)
    else if b.start2 <= b.end2 then In(b.start, b.start2, x) + In(b.end2, b.end, x) + In(b.start2, b.end2, x)
    else In(b.start, b.end, x)
  }

  /** The ranges cover the aligned entry, every byte once. */
  ghost predicate Tiles(first: nat, last: nat, enable1g: bool) {
    forall x: nat {:trigger PushedAt(Ranges(first, last, enable1g), x)} :: PushedAt(Ranges(first, last, enable1g), x) == In(Up(0, first), Down(0, last + 1), x)
  }

  lemma BoundsOrder(first: nat, last: nat)
    ensures var b := BoundsOf(first, last); b.start <= b.start2 <= b.start1 && b.end1 <= b.end2 <= b.end
  {
    UpOrder(0, first);
    UpOrder(1, first);
    DownOrder(0, last + 1);
    DownOrder(1, last + 1);
  }

  /** With 1G pages, every entry is tiled exactly once. */
  lemma TilesWith1G(first: nat, last: nat)
    ensures Tiles(first, last, true)
  {
    BoundsOrder(first, last);
  }

  // ---------------------------------------------------------------- without 1G pages

  lemma {:induction false} LoweredFacts(start2: nat, end2: nat, split: int)
    requires start2 <= end2 < WORD && end2 % 0x20_0000 == 0 && split <= 4
    ensures var low := LoweredFrom(start2, end2, split);
            low >= start2 && low < WORD && low % 0x20_0000 == 0 && (low <= end2 || low >= WORD - 0x80_0000)
    decreases split + 1
  {
    if split > 0 {
      MinusFacts(end2, split);
      LoweredFacts(start2, end2, split - 1);
    }
  }

  lemma MinusFacts(end2: nat, split: nat)
    requires end2 < WORD && end2 % 0x20_0000 == 0 && split <= 4
    ensures Minus(end2, split) == (if split * 0x20_0000 <= end2 then end2 - split * 0x20_0000 else WORD + end2 - split * 0x20_0000)
    ensures Minus(end2, split) % 0x20_0000 == 0
  {
    var q := end2 / 0x20_0000;
    assert end2 == 0x20_0000 * q;
    if split <= q {
      Multiple2M(q - split);
    } else {
      Multiple2M(0x800_0000_0000 + q - split);
    }
  }

  /** The lowered end neither wraps around nor cuts into the 1G range. */
  predicate LoweredWell(first: nat, last: nat) {
    var b := BoundsOf(first, last);
    var low := Lowered(b.start2, b.end2);
    b.start2 <= b.end2 ==> low <= b.end2 && (b.start1 <= b.end1 ==> b.end1 <= low)
  }

  /** How many 2M pages the loop splits: at most four, above 4G and above the start. */
  function Splits(start2: nat, end2: nat): nat {
    var low := if start2 < LIMIT_DMA32 + 1 then LIMIT_DMA32 + 1 else start2;
    if end2 < low then 0
    else if (end2 - low) / 0x20_0000 < 4 then (end2 - low) / 0x20_0000
    else 4
  }

  /** What an entry has to meet: 8M or more below its end, and room for the split pages behind its 1G range. */
  predicate EndFits(first: nat, last: nat) {
    var b := BoundsOf(first, last);
    b.start2 <= b.end2 ==> b.end2 >= 0x80_0000 && (b.start1 <= b.end1 ==> b.end2 - b.end1 >= 0x20_0000 * Splits(b.start2, b.end2))
  }

  lemma {:induction false} LoweredBy(start2: nat, end2: nat, split: nat)
    requires start2 <= end2 < WORD && 0x80_0000 <= end2 && end2 % 0x20_0000 == 0 && split <= 4
    ensures var s := Splits(start2, end2); LoweredFrom(start2, end2, split) == end2 - 0x20_0000 * if s < split then s else split
    decreases split
  {
    if split > 0 {
      MinusFacts(end2, split);
      LoweredBy(start2, end2, split - 1);
    }
  }

  lemma WellIff(first: nat, last: nat)
    requires last < ALIGN_END
    ensures LoweredWell(first, last) <==> EndFits(first, last)
  {
    var b := BoundsOf(first, last);
    DownFacts(1, last + 1);
    if b.start2 <= b.end2 {
      if b.end2 < 0x80_0000 {
        MinusFacts(b.end2, 4);
      } else {
        LoweredBy(b.start2, b.end2, 4);
      }
    }
  }

  /** Without 1G pages an entry is tiled exactly once if and only if its end fits. */
  lemma TilesWithout1G(first: nat, last: nat)
    requires last < ALIGN_END
    ensures Tiles(first, last, false) <==> EndFits(first, last)
  {
    WellIff(first, last);
    BoundsOrder(first, last);
    var b := BoundsOf(first, last);
    DownFacts(1, last + 1);
    DownFacts(0, last + 1);
    if b.start2 <= b.end2 {
      LoweredFacts(b.start2, b.end2, 4);
      var r := Ranges(first, last, false);
      if LoweredWell(first, last) {
        forall x: nat ensures PushedAt(r, x) == In(b.start, b.end, x) {
          TiledAt(r, x);
        }
      } else {
        var x := TooMuch(first, last);
      }
    }
  }

  /** Where the end does not fit, a byte of the entry is pushed twice, or one near the end of the address space is pushed. */
  lemma TooMuch(first: nat, last: nat) returns (x: nat)
    requires last < ALIGN_END && !EndFits(first, last)
    ensures PushedAt(Ranges(first, last, false), x) > In(Up(0, first), Down(0, last + 1), x)
    ensures Up(0, first) <= x < Down(0, last + 1) || x >= ALIGN_END
  {
    WellIff(first, last);
    BoundsOrder(first, last);
    DownFacts(1, last + 1);
    DownFacts(0, last + 1);
    var b := BoundsOf(first, last);
    LoweredFacts(b.start2, b.end2, 4);
    var r := Ranges(first, last, false);
    x := if r.end2 <= b.end2 then r.end2 else r.end2 - 1;
  }

  lemma TiledAt(r: Bounds, x: nat)
    requires r.start <= r.start2 <= r.start1 && r.end1 <= r.end && r.start2 <= r.end2 <= r.end && (r.start1 <= r.end1 ==> r.end1 <= r.end2)
    ensures PushedAt(r, x) == In(r.start, r.end, x)
  {
  }

  /** The end of 2M frames at 6G is lowered below the end of the 1G range: 8M are pushed twice. */
  lemma OverlapExample()
    ensures !Tiles(0x1_0000_0000, 0x1_7FFF_FFFF, false)
  {
    TilesWithout1G(0x1_0000_0000, 0x1_7FFF_FFFF);
  }

  /** Below 8M the subtraction wraps around: nearly all of the address space is pushed. */
  lemma WrapExample()
    ensures !Tiles(0x10_0000, 0x2F_FFFF, false)
  {
    TilesWithout1G(0x10_0000, 0x2F_FFFF);
  }

  // ---------------------------------------------------------------- the pushes

  /** What the pushes need: aligned bounds, and nothing at address 0. */
  predicate BoundsFit(b: Bounds) {
    && b.start % PageBytes(0) == 0 && b.end % PageBytes(0) == 0 && b.start2 % PageBytes(0) == 0 && b.end2 % PageBytes(0) == 0
    && b.start2 % PageBytes(1) == 0 && b.end2 % PageBytes(1) == 0 && b.start1 % PageBytes(1) == 0 && b.end1 % PageBytes(1) == 0
    && b.start1 % PageBytes(2) == 0 && b.end1 % PageBytes(2) == 0
    && 0 < b.start && 0 < b.start2 && 0 < b.start1 && (b.start1 <= b.end1 || b.start2 <= b.end2 ==> 0 < b.end2)
    && b.start2 <= ADDRESS_END && b.start1 <= ADDRESS_END && b.end <= ADDRESS_END && b.end2 <= ADDRESS_END && b.end1 <= ADDRESS_END
  }

  lemma RangesFit(first: nat, last: nat, enable1g: bool)
    requires 0 < first <= last < ALIGN_END
    ensures BoundsFit(Ranges(first, last, enable1g))
  {
    var b := BoundsOf(first, last);
    UpFacts(0, first);
    UpFacts(1, first);
    UpFacts(2, first);
    DownFacts(0, last + 1);
    DownFacts(1, last + 1);
    DownFacts(2, last + 1);
    BoundsOrder(first, last);
    if b.start2 <= b.end2 {
      LoweredFacts(b.start2, b.end2, 4);
    }
    var r := Ranges(first, last, enable1g);
    Multiples(0, r.start2);
    Multiples(0, r.end2);
    Multiples(1, r.start1);
    Multiples(1, r.end1);
  }

  /** `p'` holds what `p` holds and what the ranges of `b` cover. */
  ghost predicate Stocked(p: Pool, p': Pool, b: Bounds) {
    && Inv(p') && p'.initialized == p.initialized
    && forall x: nat {:trigger Held(p', x)} :: Held(p', x) == Held(p, x) + PushedAt(b, x)
  }

  method PushIf(pmm: Pmm, start: nat, end: nat, size: nat, enable1g: bool)
    requires pmm.Valid() && size < 3 && 0 < start && end <= ADDRESS_END && start % PageBytes(size) == 0 && end % PageBytes(size) == 0
    modifies pmm
    ensures pmm.Valid() && Filled(old(pmm.Pool()), pmm.Pool(), start, end, PushSize(size, enable1g))
  {
    if start <= end {
      PushRange(pmm, start, end, size, enable1g);
    } else {
      NothingFilled(pmm.Pool(), start, end, PushSize(size, enable1g));
    }
  }

  method PushBounds(pmm: Pmm, b: Bounds, enable1g: bool)
    requires pmm.Valid() && BoundsFit(b)
    modifies pmm
    ensures pmm.Valid() && Stocked(old(pmm.Pool()), pmm.Pool(), b) && Counted(old(pmm.Pool()), pmm.Pool(), PushCount(b, enable1g))
  {
    ghost var p := pmm.Pool();
    if b.start1 <= b.end1 {
      PushIf(pmm, b.start, b.start2, 0, enable1g);
      ghost var p1 := pmm.Pool();
      PushIf(pmm, b.end2, b.end, 0, enable1g);
      ghost var p2 := pmm.Pool();
      PushIf(pmm, b.start2, b.start1, 1, enable1g);
      ghost var p3 := pmm.Pool();
      PushIf(pmm, b.end1, b.end2, 1, enable1g);
      ghost var p4 := pmm.Pool();
      PushRange(pmm, b.start1, b.end1, 2, enable1g);
      FiveRanges(p, p1, p2, p3, p4, pmm.Pool(), b);
      FiveCounts(p, p1, p2, p3, p4, pmm.Pool(), b, enable1g);
    } else if b.start2 <= b.end2 {
      PushIf(pmm, b.start, b.start2, 0, enable1g);
      ghost var p1 := pmm.Pool();
      PushIf(pmm, b.end2, b.end, 0, enable1g);
      ghost var p2 := pmm.Pool();
      PushRange(pmm, b.start2, b.end2, 1, enable1g);
      ThreeRanges(p, p1, p2, pmm.Pool(), b);
      ThreeCounts(p, p1, p2, pmm.Pool(), b, enable1g);
    } else {
      PushIf(pmm, b.start, b.end, 0, enable1g);
    }
  }

  lemma FiveRanges(p: Pool, p1: Pool, p2: Pool, p3: Pool, p4: Pool, p5: Pool, b: Bounds)
    requires b.start1 <= b.end1 && Added(p, p1, b.start, b.start2) && Added(p1, p2, b.end2, b.end) && Added(p2, p3, b.start2, b.start1)
    requires Added(p3, p4, b.end1, b.end2) && Added(p4, p5, b.start1, b.end1)
    ensures Stocked(p, p5, b)
  {
    forall x: nat ensures Held(p5, x) == Held(p, x) + PushedAt(b, x) {
      assert Held(p4, x) == Held(p3, x) + In(b.end1, b.end2, x) && Held(p3, x) == Held(p2, x) + In(b.start2, b.start1, x);
      assert Held(p2, x) == Held(p1, x) + In(b.end2, b.end, x) && Held(p1, x) == Held(p, x) + In(b.start, b.start2, x);
    }
  }

  lemma ThreeRanges(p: Pool, p1: Pool, p2: Pool, p3: Pool, b: Bounds)
    requires b.start1 > b.end1 && b.start2 <= b.end2 && Added(p, p1, b.start, b.start2) && Added(p1, p2, b.end2, b.end) && Added(p2, p3, b.start2, b.end2)
    ensures Stocked(p, p3, b)
  {
    forall x: nat ensures Held(p3, x) == Held(p, x) + PushedAt(b, x) {
      assert Held(p2, x) == Held(p1, x) + In(b.end2, b.end, x) && Held(p1, x) == Held(p, x) + In(b.start, b.start2, x);
    }
  }

  /** How many frames of each size the ranges of `b` are pushed as. */
  function PushCount(b: Bounds, enable1g: bool): Counts {
    var small := Plus(FramesIn(b.start, b.start2, 0), FramesIn(b.end2, b.end, 0));
    if b.start1 <= b.end1 then Plus(Plus(Plus(small, FramesIn(b.start2, b.start1, 1)), FramesIn(b.end1, b.end2, 1)), FramesIn(b.start1, b.end1, PushSize(2, enable1g)))
    else if b.start2 <= b.end2 then Plus(small, FramesIn(b.start2, b.end2, 1))
    else FramesIn(b.start, b.end, 0)
  }

  lemma FiveCounts(p: Pool, p1: Pool, p2: Pool, p3: Pool, p4: Pool, p5: Pool, b: Bounds, enable1g: bool)
    requires b.start1 <= b.end1 && Counted(p, p1, FramesIn(b.start, b.start2, 0)) && Counted(p1, p2, FramesIn(b.end2, b.end, 0))
    requires Counted(p2, p3, FramesIn(b.start2, b.start1, 1)) && Counted(p3, p4, FramesIn(b.end1, b.end2, 1)) && Counted(p4, p5, FramesIn(b.start1, b.end1, PushSize(2, enable1g)))
    ensures Counted(p, p5, PushCount(b, enable1g))
  {
    var c1, c2, c3, c4 := FramesIn(b.start, b.start2, 0), FramesIn(b.end2, b.end, 0), FramesIn(b.start2, b.start1, 1), FramesIn(b.end1, b.end2, 1);
    CountedMore(p, p1, p2, c1, c2);
    CountedMore(p, p2, p3, Plus(c1, c2), c3);
    CountedMore(p, p3, p4, Plus(Plus(c1, c2), c3), c4);
    CountedMore(p, p4, p5, Plus(Plus(Plus(c1, c2), c3), c4), FramesIn(b.start1, b.end1, PushSize(2, enable1g)));
  }

  lemma ThreeCounts(p: Pool, p1: Pool, p2: Pool, p3: Pool, b: Bounds, enable1g: bool)
    requires b.start1 > b.end1 && b.start2 <= b.end2 && Counted(p, p1, FramesIn(b.start, b.start2, 0)) && Counted(p1, p2, FramesIn(b.end2, b.end, 0))
    requires Counted(p2, p3, FramesIn(b.start2, b.end2, 1))
    ensures Counted(p, p3, PushCount(b, enable1g))
  {
    var c1, c2 := FramesIn(b.start, b.start2, 0), FramesIn(b.end2, b.end, 0);
    CountedMore(p, p1, p2, c1, c2);
    CountedMore(p, p2, p3, Plus(c1, c2), FramesIn(b.start2, b.end2, 1));
  }

  /** The pushes of `pmm_init` for one available entry. */
  method InitEntry(pmm: Pmm, first: nat, last: nat, enable1g: bool)
    requires pmm.Valid() && 0 < first <= last < ALIGN_END
    modifies pmm
    ensures pmm.Valid() && Stocked(old(pmm.Pool()), pmm.Pool(), Ranges(first, last, enable1g)) && Counted(old(pmm.Pool()), pmm.Pool(), PushCount(Ranges(first, last, enable1g), enable1g))
  {
    var b := BoundsOf(first, last);
    if !enable1g && b.start2 <= b.end2 {
      DownFacts(1, last + 1);
      var low := LowerEnd(b.start2, b.end2);
      b := b.(end2 := low);
    }
    RangesFit(first, last, enable1g);
    PushBounds(pmm, b, enable1g);
  }

  // ---------------------------------------------------------------- the whole map

  /** How often the pushes for the first `n` entries of a map cover byte `x`. */
  function PushedBy(es: seq<Memory.Entry>, n: nat, enable1g: bool, x: nat): nat
    requires n <= |es|
  {
    if n == 0 then 0
    else PushedBy(es, n - 1, enable1g, x) + if es[n - 1].kind == AVAILABLE then PushedAt(Ranges(es[n - 1].start, es[n - 1].end, enable1g), x) else 0
  }

  /** How many frames of each size the first `n` entries are pushed as. */
  function PushedCounts(es: seq<Memory.Entry>, n: nat, enable1g: bool): Counts
    requires n <= |es|
  {
    if n == 0 then Counts(0, 0, 0)
    else if es[n - 1].kind == AVAILABLE then Plus(PushedCounts(es, n - 1, enable1g), PushCount(Ranges(es[n - 1].start, es[n - 1].end, enable1g), enable1g))
    else PushedCounts(es, n - 1, enable1g)
  }

  /** Available entries leave out address 0 and the end of the address space. */
  predicate Usable(es: seq<Memory.Entry>) {
    forall k :: 0 <= k < |es| && es[k].kind == AVAILABLE ==> 0 < es[k].start <= es[k].end < ALIGN_END
  }

  /** The loop of `pmm_init` over the memory map. */
  method Init(es: seq<Memory.Entry>, pages: seq<nat>, enable1g: bool) returns (pmm: Pmm)
    requires |pages| == 9 && Usable(es)
    ensures fresh(pmm) && pmm.Valid() && !pmm.initialized
    ensures forall x: nat {:trigger Held(pmm.Pool(), x)} :: Held(pmm.Pool(), x) == PushedBy(es, |es|, enable1g, x)
    ensures FewEach(PushedCounts(es, |es|, enable1g)) ==> StaticOnly(pmm.Pool()) && CountOf(pmm.Pool()) == PushedCounts(es, |es|, enable1g)
  {
    pmm := new Pmm(pages);
    ghost var empty := pmm.Pool();
    NothingCounted(empty);
    StockedStart(empty, es, enable1g);
    var n := 0;
    while n < |es|
      invariant 0 <= n <= |es| && pmm.Valid() && !pmm.initialized && StockedBy(empty, pmm.Pool(), es, n, enable1g)
      modifies pmm
    {
      InitNext(pmm, empty, es, n, enable1g);
      n := n + 1;
    }
    StockedAll(empty, pmm.Pool(), PushedCounts(es, |es|, enable1g));
  }

  method InitNext(pmm: Pmm, ghost empty: Pool, es: seq<Memory.Entry>, n: nat, enable1g: bool)
    requires pmm.Valid() && !pmm.initialized && n < |es| && Usable(es) && StockedBy(empty, pmm.Pool(), es, n, enable1g)
    modifies pmm
    ensures pmm.Valid() && !pmm.initialized && StockedBy(empty, pmm.Pool(), es, n + 1, enable1g)
  {
    ghost var p := pmm.Pool();
    if es[n].kind == AVAILABLE {
      InitEntry(pmm, es[n].start, es[n].end, enable1g);
    }
    StockedMore(empty, p, pmm.Pool(), es, n, enable1g);
  }

  lemma StockedStart(p: Pool, es: seq<Memory.Entry>, enable1g: bool)
    requires forall x: nat {:trigger Held(p, x)} :: Held(p, x) == 0
    ensures StockedBy(p, p, es, 0, enable1g)
  {
  }

  lemma StockedAll(p: Pool, p': Pool, c: Counts)
    requires !p.initialized && StaticOnly(p) && CountOf(p) == Counts(0, 0, 0) && Counted(p, p', c)
    ensures FewEach(c) ==> StaticOnly(p') && CountOf(p') == c
  {
  }

  /** `p'` is the empty pool `p` after the pushes for the first `n` entries. */
  ghost predicate StockedBy(p: Pool, p': Pool, es: seq<Memory.Entry>, n: nat, enable1g: bool)
    requires n <= |es|
  {
    && Counted(p, p', PushedCounts(es, n, enable1g))
    && forall x: nat {:trigger Held(p', x)} :: Held(p', x) == PushedBy(es, n, enable1g, x)
  }

  lemma StockedMore(p: Pool, p1: Pool, p2: Pool, es: seq<Memory.Entry>, n: nat, enable1g: bool)
    requires n < |es| && StockedBy(p, p1, es, n, enable1g)
    requires var b := Ranges(es[n].start, es[n].end, enable1g); if es[n].kind == AVAILABLE then Stocked(p1, p2, b) && Counted(p1, p2, PushCount(b, enable1g)) else p2 == p1
    ensures StockedBy(p, p2, es, n + 1, enable1g)
  {
    if es[n].kind == AVAILABLE {
      CountedMore(p, p1, p2, PushedCounts(es, n, enable1g), PushCount(Ranges(es[n].start, es[n].end, enable1g), enable1g));
    }
    forall x: nat ensures Held(p2, x) == PushedBy(es, n + 1, enable1g, x) {
      assert Held(p1, x) == PushedBy(es, n, enable1g, x);
    }
  }

  lemma NothingCounted(p: Pool)
    requires Inv(p) && NothingLeft(p, 0, STD, STD)
    ensures StaticOnly(p) && CountOf(p) == Counts(0, 0, 0)
  {
    assert forall s: nat, z: nat {:trigger At(p, s, z)} :: s < 3 && z < 3 ==> Exhausted(p, s, z);
  }

  /** `pmm_init` with the list of reserved pages: too few 4K frames for it, and a 2M frame to split, leave it unsorted. */
  method InitList(es: seq<Memory.Entry>, pages: seq<nat>, enable1g: bool) returns (pmm: Pmm)
    requires |pages| == 9 && Usable(es)
    ensures fresh(pmm) && pmm.Valid() && pmm.initialized && |pmm.list| == PAGE_FRAMES
    ensures forall x: nat {:trigger Held(pmm.Pool(), x)} :: Held(pmm.Pool(), x) == PushedBy(es, |es|, enable1g, x)
    ensures var c := PushedCounts(es, |es|, enable1g); FewEach(c) && c.small < PAGE_FRAMES - 1 && c.large > 0 ==> !Descending(pmm.list)
  {
    pmm := Init(es, pages, enable1g);
    ghost var p, c := pmm.Pool(), PushedCounts(es, |es|, enable1g);
    if FewEach(c) && c.small < PAGE_FRAMES - 1 && c.large > 0 {
      FewDoNotFall(p);
    }
    pmm.FillList();
    forall x: nat ensures Held(pmm.Pool(), x) == PushedBy(es, |es|, enable1g, x) {
      assert Held(p, x) == PushedBy(es, |es|, enable1g, x);
    }
  }

  function LowEntries(): (es: seq<Memory.Entry>)
    ensures Usable(es)
  {
    [Memory.Entry(AVAILABLE, 0x1000, 0x9_EFFF), Memory.Entry(AVAILABLE, 0x10_0000, 0x7FF_FFFF)]
  }

  /** 158 and 256 frames of 4K below 2M, and 63 of 2M up to 128M: the list of reserved pages does not descend. */
  method LowMemory(pages: seq<nat>, enable1g: bool) returns (pmm: Pmm)
    requires |pages| == 9
    ensures pmm.Valid() && pmm.initialized && |pmm.list| == PAGE_FRAMES && !Descending(pmm.list)
  {
    var es := LowEntries();
    LowCounts(es, enable1g);
    pmm := InitList(es, pages, enable1g);
  }

  lemma LowCounts(es: seq<Memory.Entry>, enable1g: bool)
    requires es == LowEntries()
    ensures PushedCounts(es, |es|, enable1g) == Counts(414, 63, 0)
  {
    LowSmall(es[0].start, es[0].end, enable1g);
    LowLarge(es[1].start, es[1].end, enable1g);
    TwoEntries(es, enable1g, Counts(158, 0, 0), Counts(256, 63, 0));
  }

  lemma TwoEntries(es: seq<Memory.Entry>, enable1g: bool, c: Counts, c': Counts)
    requires |es| == 2 && es[0].kind == AVAILABLE == es[1].kind
    requires PushCount(Ranges(es[0].start, es[0].end, enable1g), enable1g) == c && PushCount(Ranges(es[1].start, es[1].end, enable1g), enable1g) == c'
    ensures PushedCounts(es, |es|, enable1g) == Plus(c, c')
  {
    assert PushedCounts(es, 1, enable1g) == Plus(PushedCounts(es, 0, enable1g), c);
  }

  lemma LowSmall(first: nat, last: nat, enable1g: bool)
    requires first == 0x1000 && last == 0x9_EFFF
    ensures PushCount(Ranges(first, last, enable1g), enable1g) == Counts(158, 0, 0)
  {
    var b := Bounds(0x1000, 0x9_F000, 0x20_0000, 0, 0x4000_0000, 0);
    assert BoundsOf(first, last) == b;
    Small(b.start, b.end, 158);
  }

  lemma LowLarge(first: nat, last: nat, enable1g: bool)
    requires first == 0x10_0000 && last == 0x7FF_FFFF
    ensures PushCount(Ranges(first, last, enable1g), enable1g) == Counts(256, 63, 0)
  {
    var b := Bounds(0x10_0000, 0x800_0000, 0x20_0000, 0x800_0000, 0x4000_0000, 0);
    assert BoundsOf(first, last) == b;
    LowUnlowered(b.start2, b.end2);
    assert Ranges(first, last, enable1g) == b;
    TwoSizes(b, enable1g, 256, 0, 63);
  }

  lemma LowUnlowered(start2: nat, end2: nat)
    requires start2 == 0x20_0000 && end2 == 0x800_0000
    ensures Lowered(start2, end2) == end2
  {
    LoweredBy(start2, end2, 4);
  }

  lemma TwoSizes(b: Bounds, enable1g: bool, n: nat, m: nat, k: nat)
    requires b.start1 > b.end1 && b.start2 == b.start + 0x1000 * n && b.end == b.end2 + 0x1000 * m && b.end2 == b.start2 + 0x20_0000 * k
    ensures PushCount(b, enable1g) == Counts(n + m, k, 0)
  {
    Small(b.start, b.start2, n);
    Small(b.end2, b.end, m);
    Large(b.start2, b.end2, k);
  }

  /** The whole page of byte `x` is available. */
  ghost predicate PageAvailable(es: seq<Memory.Entry>, x: nat) {
    forall y: nat {:trigger Memory.TypeAt(es, y)} :: Down(0, x) <= y < Down(0, x) + FRAME ==> Memory.TypeAt(es, y) == AVAILABLE
  }

  /** Byte `x` lies in a whole page of an available entry. */
  predicate InPart(e: Memory.Entry, x: nat) {
    e.kind == AVAILABLE && Up(0, e.start) <= x < Down(0, e.end + 1)
  }

  /** Every available entry is tiled. */
  predicate AllFit(es: seq<Memory.Entry>, enable1g: bool) {
    Usable(es) && (enable1g || forall k :: 0 <= k < |es| && es[k].kind == AVAILABLE ==> EndFits(es[k].start, es[k].end))
  }

  lemma PushedOne(es: seq<Memory.Entry>, n: nat, enable1g: bool, x: nat)
    requires n < |es| && AllFit(es, enable1g)
    ensures PushedBy(es, n + 1, enable1g, x) == PushedBy(es, n, enable1g, x) + if InPart(es[n], x) then 1 else 0
  {
    if es[n].kind == AVAILABLE {
      var first, last := es[n].start, es[n].end;
      if enable1g { TilesWith1G(first, last); } else { TilesWithout1G(first, last); }
      assert PushedAt(Ranges(first, last, enable1g), x) == In(Up(0, first), Down(0, last + 1), x);
    }
  }

  lemma {:induction false} PushedNone(es: seq<Memory.Entry>, n: nat, enable1g: bool, x: nat)
    requires n <= |es| && AllFit(es, enable1g) && forall k :: 0 <= k < n ==> !InPart(es[k], x)
    ensures PushedBy(es, n, enable1g, x) == 0
  {
    if n > 0 {
      PushedOne(es, n - 1, enable1g, x);
      PushedNone(es, n - 1, enable1g, x);
    }
  }

  lemma PartInside(e: Memory.Entry, x: nat)
    requires InPart(e, x)
    ensures e.start <= x <= e.end && e.start <= Down(0, x) && Down(0, x) + FRAME - 1 <= e.end
  {
    UpFacts(0, e.start);
    DownFacts(0, e.end + 1);
    DownFacts(0, x);
    if Down(0, x) < Up(0, e.start) { Neighbours(0, Down(0, x), Up(0, e.start)); }
    Neighbours(0, Down(0, x), Down(0, e.end + 1));
  }

  lemma {:induction false} PushedOnce(es: seq<Memory.Entry>, n: nat, i: nat, enable1g: bool, x: nat)
    requires i < n <= |es| && AllFit(es, enable1g) && Memory.AllOk(es) && Memory.Settled(es) && InPart(es[i], x)
    ensures PushedBy(es, n, enable1g, x) == 1
  {
    PushedOne(es, n - 1, enable1g, x);
    if n - 1 == i {
      forall k | 0 <= k < i ensures !InPart(es[k], x) {
        PartElsewhere(es, i, k, x);
      }
      PushedNone(es, i, enable1g, x);
    } else {
      PartElsewhere(es, i, n - 1, x);
      PushedOnce(es, n - 1, i, enable1g, x);
    }
  }

  lemma PartElsewhere(es: seq<Memory.Entry>, i: nat, k: nat, x: nat)
    requires i < |es| && k < |es| && i != k && Memory.AllOk(es) && Memory.Settled(es) && InPart(es[i], x)
    ensures !InPart(es[k], x)
  {
    PartInside(es[i], x);
    Memory.SettledMeans(es, i, k);
    if InPart(es[k], x) {
      PartInside(es[k], x);
    }
  }

  /** In a settled map a page is available as a whole if and only if one entry holds it. */
  lemma PageInEntry(es: seq<Memory.Entry>, i: nat, x: nat)
    requires Memory.AllOk(es) && Memory.Settled(es) && i < |es| && InPart(es[i], x)
    ensures PageAvailable(es, x)
  {
    PartInside(es[i], x);
    forall y: nat | Down(0, x) <= y < Down(0, x) + FRAME ensures Memory.TypeAt(es, y) == AVAILABLE {
      Memory.TypeOfEntry(es, i, y);
    }
  }

  lemma EntryOfPage(es: seq<Memory.Entry>, x: nat) returns (i: nat)
    requires Memory.AllOk(es) && Memory.Settled(es) && PageAvailable(es, x)
    ensures i < |es| && InPart(es[i], x)
  {
    var a := Down(0, x);
    DownFacts(0, x);
    assert Memory.TypeAt(es, a) == AVAILABLE;
    i := Memory.EntryOfType(es, a);
    var e := es[i];
    if e.end < a + FRAME - 1 {
      assert Memory.TypeAt(es, e.end + 1) == AVAILABLE;
      var j := Memory.EntryOfType(es, e.end + 1);
      Memory.SettledMeans(es, i, j);
      assert false;
    }
    UpFacts(0, e.start);
    DownFacts(0, e.end + 1);
    if a < Up(0, e.start) { Neighbours(0, a, Up(0, e.start)); }
    if Down(0, e.end + 1) < a + FRAME { NextMultiple(0, a); Neighbours(0, Down(0, e.end + 1), a + FRAME); }
  }

  /** From a settled map with fitting ends, a byte is pushed once if its whole page is available, and else not at all. */
  lemma PushedIffAvailable(es: seq<Memory.Entry>, enable1g: bool, x: nat)
    requires Memory.AllOk(es) && Memory.Settled(es) && AllFit(es, enable1g)
    ensures PushedBy(es, |es|, enable1g, x) == if PageAvailable(es, x) then 1 else 0
  {
    if PageAvailable(es, x) {
      var i := EntryOfPage(es, x);
      PushedOnce(es, |es|, i, enable1g, x);
    } else {
      forall k | 0 <= k < |es| ensures !InPart(es[k], x) {
        if InPart(es[k], x) {
          PageInEntry(es, k, x);
        }
      }
      PushedNone(es, |es|, enable1g, x);
    }
  }

  /** Where no byte at 0 or near the end of the address space is available, a settled map is usable. */
  lemma SettledUsable(es: seq<Memory.Entry>)
    requires Memory.AllOk(es) && Memory.Settled(es) && Memory.TypeAt(es, 0) != AVAILABLE
    requires forall x: nat {:trigger Memory.TypeAt(es, x)} :: x >= ALIGN_END ==> Memory.TypeAt(es, x) != AVAILABLE
    ensures Usable(es)
  {
    forall k | 0 <= k < |es| && es[k].kind == AVAILABLE ensures 0 < es[k].start <= es[k].end < ALIGN_END {
      assert Memory.EntryOk(es[k]);
      Memory.TypeOfEntry(es, k, es[k].end);
      Memory.TypeOfEntry(es, k, es[k].start);
    }
  }

  lemma {:induction false} PushedAtLeast(es: seq<Memory.Entry>, n: nat, i: nat, enable1g: bool, x: nat)
    requires i < n <= |es| && es[i].kind == AVAILABLE
    ensures PushedBy(es, n, enable1g, x) >= PushedAt(Ranges(es[i].start, es[i].end, enable1g), x)
  {
    if i < n - 1 {
      PushedAtLeast(es, n - 1, i, enable1g, x);
    }
  }

  /** Where an end does not fit, a byte is pushed too often. */
  lemma PushedTooOften(es: seq<Memory.Entry>, enable1g: bool) returns (x: nat)
    requires Memory.AllOk(es) && Memory.Settled(es) && Usable(es) && !AllFit(es, enable1g)
    ensures PushedBy(es, |es|, enable1g, x) > if PageAvailable(es, x) then 1 else 0
  {
    var i :| 0 <= i < |es| && es[i].kind == AVAILABLE && !EndFits(es[i].start, es[i].end);
    x := TooMuch(es[i].start, es[i].end);
    PushedAtLeast(es, |es|, i, enable1g, x);
    if x >= ALIGN_END && PageAvailable(es, x) {
      var k := EntryOfPage(es, x);
      PartInside(es[k], x);
      assert false;
    }
  }

  /** The addresses from `first` to `last` are available, and neither neighbour is. */
  ghost predicate WholeRun(es: seq<Memory.Entry>, first: nat, last: nat) {
    && first <= last && (forall y: nat {:trigger Memory.TypeAt(es, y)} :: first <= y <= last ==> Memory.TypeAt(es, y) == AVAILABLE)
    && (first > 0 ==> Memory.TypeAt(es, first - 1) != AVAILABLE) && Memory.TypeAt(es, last + 1) != AVAILABLE
  }

  /** Every run of available addresses is tiled. */
  ghost predicate RunsFit(es: seq<Memory.Entry>, enable1g: bool) {
    enable1g || forall first: nat, last: nat {:trigger WholeRun(es, first, last)} :: WholeRun(es, first, last) ==> EndFits(first, last)
  }

  /** The available entries of a settled map are its runs. */
  lemma EntryIsRun(es: seq<Memory.Entry>, i: nat)
    requires Memory.AllOk(es) && Memory.Settled(es) && i < |es| && es[i].kind == AVAILABLE
    ensures WholeRun(es, es[i].start, es[i].end)
  {
    var e := es[i];
    assert Memory.EntryOk(e);
    forall y: nat | e.start <= y <= e.end ensures Memory.TypeAt(es, y) == AVAILABLE {
      Memory.TypeOfEntry(es, i, y);
    }
    if Memory.TypeAt(es, e.end + 1) == AVAILABLE {
      NotNextTo(es, i, e.end + 1);
    }
    if e.start > 0 && Memory.TypeAt(es, e.start - 1) == AVAILABLE {
      NotNextTo(es, i, e.start - 1);
    }
  }

  lemma NotNextTo(es: seq<Memory.Entry>, i: nat, y: nat)
    requires Memory.AllOk(es) && Memory.Settled(es) && i < |es| && es[i].kind == AVAILABLE == Memory.TypeAt(es, y)
    ensures y != es[i].end + 1 && y + 1 != es[i].start
  {
    var j := Memory.EntryOfType(es, y);
    if j != i {
      Memory.SettledMeans(es, i, j);
      Memory.SettledMeans(es, j, i);
    }
  }

  lemma RunIsEntry(es: seq<Memory.Entry>, first: nat, last: nat) returns (i: nat)
    requires Memory.AllOk(es) && Memory.Settled(es) && WholeRun(es, first, last)
    ensures i < |es| && es[i].kind == AVAILABLE && es[i].start == first && es[i].end == last
  {
    assert Memory.TypeAt(es, first) == AVAILABLE;
    i := Memory.EntryOfType(es, first);
    EntryIsRun(es, i);
  }

  lemma SameRuns(es: seq<Memory.Entry>, es': seq<Memory.Entry>, first: nat, last: nat)
    requires Memory.SameTypes(es, es') && WholeRun(es', first, last)
    ensures WholeRun(es, first, last)
  {
    forall y: nat | first <= y <= last ensures Memory.TypeAt(es, y) == AVAILABLE {
      assert Memory.TypeAt(es', y) == AVAILABLE;
    }
    assert Memory.TypeAt(es', last + 1) == Memory.TypeAt(es, last + 1);
    assert first > 0 ==> Memory.TypeAt(es', first - 1) == Memory.TypeAt(es, first - 1);
  }

  lemma TypesSwap(es: seq<Memory.Entry>, es': seq<Memory.Entry>)
    requires Memory.SameTypes(es, es')
    ensures Memory.SameTypes(es', es)
  {
    forall x: nat ensures Memory.TypeAt(es, x) == Memory.TypeAt(es', x) {
      assert Memory.TypeAt(es', x) == Memory.TypeAt(es, x);
    }
  }

  lemma FitIffRunsFit(es: seq<Memory.Entry>, es': seq<Memory.Entry>, enable1g: bool)
    requires Memory.AllOk(es') && Memory.Settled(es') && Usable(es') && Memory.SameTypes(es, es')
    ensures AllFit(es', enable1g) <==> RunsFit(es, enable1g)
  {
    if AllFit(es', enable1g) && !enable1g {
      forall first: nat, last: nat | WholeRun(es, first, last) ensures EndFits(first, last) {
        TypesSwap(es, es');
        SameRuns(es', es, first, last);
        var i := RunIsEntry(es', first, last);
      }
    }
    if RunsFit(es, enable1g) && !enable1g {
      forall k | 0 <= k < |es'| && es'[k].kind == AVAILABLE ensures EndFits(es'[k].start, es'[k].end) {
        EntryIsRun(es', k);
        SameRuns(es, es', es'[k].start, es'[k].end);
      }
    }
  }

  const AUX_PAGES: nat := 64

  /**
   `pmm_init` from the firmware's map: each byte whose whole page has no higher type than available is
   held once, by the pool or as auxiliary memory, and no other byte is, if and only if every run of
   available addresses fits.
   */
  method Boot(memory: Memory.Map, pages: seq<nat>, enable1g: bool) returns (pmm: Pmm, aux: seq<nat>)
    requires memory.Valid() && |pages| == 9 && Memory.TypeAt(memory.entries, 0) != AVAILABLE
    requires forall x: nat {:trigger Memory.TypeAt(memory.entries, x)} :: x >= ALIGN_END ==> Memory.TypeAt(memory.entries, x) != AVAILABLE
    modifies memory
    ensures pmm.Valid() && pmm.initialized
    ensures |aux| == AUX_PAGES && ZeroTail(aux) && (|Nonzero(aux)| < AUX_PAGES ==> NothingLeft(pmm.Pool(), 0, STD, STD))
    ensures old(RunsFit(memory.entries, enable1g)) <==> HoldsAvailable(pmm.Pool(), Nonzero(aux), old(memory.entries))
  {
    ghost var firmware := memory.entries;
    var es := SortedMap(memory);
    pmm := InitList(es, pages, enable1g);
    ghost var p := pmm.Pool();
    aux := pmm.Draw(AUX_PAGES);
    FitIffRunsFit(firmware, es, enable1g);
    HeldIffFit(p, pmm.Pool(), Nonzero(aux), firmware, es, enable1g);
  }

  /** `mm_map_sanitize`: the entries of the list, sorted. */
  method SortedMap(memory: Memory.Map) returns (es: seq<Memory.Entry>)
    requires memory.Valid() && Memory.TypeAt(memory.entries, 0) != AVAILABLE
    requires forall x: nat {:trigger Memory.TypeAt(memory.entries, x)} :: x >= ALIGN_END ==> Memory.TypeAt(memory.entries, x) != AVAILABLE
    modifies memory
    ensures Memory.AllOk(es) && Memory.Settled(es) && MapSort.Ascending(es) && Memory.SameTypes(old(memory.entries), es) && Usable(es)
  {
    ghost var before := memory.entries;
    memory.Sanitize();
    es := MapSort.SortEntries(memory.entries);
    forall x: nat ensures Memory.TypeAt(es, x) == Memory.TypeAt(before, x) {
      assert Memory.TypeAt(memory.entries, x) == Memory.TypeAt(before, x);
    }
    SettledUsable(es);
  }

  /** Every byte of a wholly available page is held once, every other one not at all. */
  ghost predicate HoldsAvailable(p: Pool, aux: seq<nat>, es: seq<Memory.Entry>) {
    forall x: nat {:trigger Held(p, x)} :: Held(p, x) + FramesHold(0, aux, x) == if PageAvailable(es, x) then 1 else 0
  }

  lemma HeldIffFit(p: Pool, p': Pool, aux: seq<nat>, es: seq<Memory.Entry>, es': seq<Memory.Entry>, enable1g: bool)
    requires Memory.AllOk(es') && Memory.Settled(es') && Usable(es') && Memory.SameTypes(es, es')
    requires forall x: nat {:trigger Held(p, x)} :: Held(p, x) == PushedBy(es', |es'|, enable1g, x)
    requires forall x: nat {:trigger Held(p', x)} :: Held(p', x) + FramesHold(0, aux, x) == Held(p, x)
    ensures AllFit(es', enable1g) <==> HoldsAvailable(p', aux, es)
  {
    if AllFit(es', enable1g) {
      forall x: nat ensures Held(p', x) + FramesHold(0, aux, x) == if PageAvailable(es, x) then 1 else 0 {
        PushedIffAvailable(es', enable1g, x);
        SamePages(es, es', x);
        assert Held(p, x) == PushedBy(es', |es'|, enable1g, x);
      }
    } else {
      var x := PushedTooOften(es', enable1g);
      SamePages(es, es', x);
      assert Held(p, x) == PushedBy(es', |es'|, enable1g, x);
      assert Held(p', x) + FramesHold(0, aux, x) != if PageAvailable(es, x) then 1 else 0;
    }
  }

  lemma SamePages(es: seq<Memory.Entry>, es': seq<Memory.Entry>, x: nat)
    requires Memory.SameTypes(es, es')
    ensures PageAvailable(es, x) <==> PageAvailable(es', x)
  {
    if PageAvailable(es', x) {
      forall y: nat | Down(0, x) <= y < Down(0, x) + FRAME ensures Memory.TypeAt(es, y) == AVAILABLE {
        assert Memory.TypeAt(es', y) == AVAILABLE;
      }
    }
  }
}
