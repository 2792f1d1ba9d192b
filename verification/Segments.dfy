/**
 The user address space of a process: a list of blocks, free or allocated, that is
 split on allocation and merged on release.
 */
module Segments {

  import opened Common

  const USER_START: nat := 0x1000
  const VM_USER_END: nat := 0x7FFF_FFFF_FFFF
  const FRAME_SIZE: nat := 4096

  /** The access flags of a free block are never read. */
  datatype State = Free | Allocated(flags: nat)

  /** A block; both bounds are inclusive. */
  datatype SegBlock = SegBlock(start: nat, end: nat, state: State)

  // ---------------------------------------------------------------- lists of blocks

  /** The blocks follow each other from `lo` to before `hi`. */
  predicate Tiles(bs: seq<SegBlock>, lo: nat, hi: nat) {
    if bs == [] then lo == hi
    else bs[0].start == lo <= bs[0].end && Tiles(bs[1..], bs[0].end + 1, hi)
  }

  predicate Apart(bs: seq<SegBlock>) {
    forall i :: 0 <= i < |bs| - 1 ==> !(bs[i].state.Free? && bs[i + 1].state.Free?)
  }

  function Live(bs: seq<SegBlock>): set<SegBlock> {
    set b | b in bs && !b.state.Free?
  }

  lemma {:induction false} TilesConcat(a: seq<SegBlock>, b: seq<SegBlock>, lo: nat, mid: nat, hi: nat)
    requires Tiles(a, lo, mid) && Tiles(b, mid, hi)
    ensures Tiles(a + b, lo, hi)
    decreases |a|
  {
    if a == [] {
      assert a + b == b;
    } else {
      TilesConcat(a[1..], b, a[0].end + 1, mid, hi);
      assert (a + b)[1..] == a[1..] + b;
    }
  }

  lemma {:induction false} TilesSplit(bs: seq<SegBlock>, lo: nat, hi: nat, i: nat)
    requires Tiles(bs, lo, hi) && i < |bs|
    ensures Tiles(bs[..i], lo, bs[i].start) && Tiles(bs[i..], bs[i].start, hi)
    decreases i
  {
    if i > 0 {
      TilesSplit(bs[1..], bs[0].end + 1, hi, i - 1);
      assert bs[..i][1..] == bs[1..][..i - 1] && bs[1..][i - 1..] == bs[i..];
    }
  }

  lemma {:induction false} TilesBounds(bs: seq<SegBlock>, lo: nat, hi: nat)
    requires Tiles(bs, lo, hi)
    ensures lo <= hi && forall b :: b in bs ==> lo <= b.start <= b.end < hi
    decreases |bs|
  {
    if bs != [] {
      TilesBounds(bs[1..], bs[0].end + 1, hi);
    }
  }

  /** Every address of the range lies in exactly one block. */
  lemma {:induction false} TilesCover(bs: seq<SegBlock>, lo: nat, hi: nat, x: nat) returns (i: nat)
    requires Tiles(bs, lo, hi) && lo <= x < hi
    ensures i < |bs| && bs[i].start <= x <= bs[i].end
    ensures forall j :: 0 <= j < |bs| && bs[j].start <= x <= bs[j].end ==> j == i
    decreases |bs|
  {
    TilesBounds(bs[1..], bs[0].end + 1, hi);
    if x <= bs[0].end {
      i := 0;
      forall j | 0 < j < |bs| ensures x < bs[j].start {
        assert bs[j] == bs[1..][j - 1];
      }
    } else {
      var k := TilesCover(bs[1..], bs[0].end + 1, hi, x);
      i := k + 1;
      forall j | 0 <= j < |bs| && bs[j].start <= x <= bs[j].end ensures j == i {
        assert j > 0 ==> bs[j] == bs[1..][j - 1];
      }
    }
  }

  // ---------------------------------------------------------------- the live blocks determine the list

  /** No two lists without adjacent free blocks have the same allocated blocks. */
  lemma {:induction false} Canonical(a: seq<SegBlock>, b: seq<SegBlock>, lo: nat, hi: nat)
    requires Tiles(a, lo, hi) && Tiles(b, lo, hi) && Apart(a) && Apart(b) && Live(a) == Live(b)
    ensures a == b
    decreases |a|
  {
    if a == [] {
      TilesBounds(b, lo, hi);
    } else {
      TilesBounds(a, lo, hi);
      assert b != [];
      SameHead(a, b, lo, hi);
      LiveTail(a, lo, hi);
      LiveTail(b, lo, hi);
      ApartTail(a);
      ApartTail(b);
      Canonical(a[1..], b[1..], a[0].end + 1, hi);
      assert a == [a[0]] + a[1..] && b == [b[0]] + b[1..];
    }
  }

  lemma ApartTail(a: seq<SegBlock>)
    requires a != [] && Apart(a)
    ensures Apart(a[1..])
  {
    assert forall i :: 0 <= i < |a| - 1 ==> a[1..][i] == a[i + 1];
  }

  lemma LiveTail(a: seq<SegBlock>, lo: nat, hi: nat)
    requires Tiles(a, lo, hi) && a != []
    ensures Live(a[1..]) == Live(a) - {a[0]}
  {
    TilesBounds(a[1..], a[0].end + 1, hi);
    assert a == [a[0]] + a[1..];
  }

  lemma SameHead(a: seq<SegBlock>, b: seq<SegBlock>, lo: nat, hi: nat)
    requires Tiles(a, lo, hi) && Tiles(b, lo, hi) && Apart(a) && Apart(b) && Live(a) == Live(b) && a != [] && b != []
    ensures a[0] == b[0]
  {
    if !a[0].state.Free? {
      HeadOf(a, b, lo, hi);
    } else if !b[0].state.Free? {
      HeadOf(b, a, lo, hi);
    } else {
      NotLonger(a, b, lo, hi);
      NotLonger(b, a, lo, hi);
    }
  }

  lemma HeadOf(a: seq<SegBlock>, b: seq<SegBlock>, lo: nat, hi: nat)
    requires Tiles(a, lo, hi) && Tiles(b, lo, hi) && Live(a) == Live(b) && a != [] && b != [] && !a[0].state.Free?
    ensures a[0] == b[0]
  {
    assert a[0] in Live(b);
    TilesBounds(b[1..], b[0].end + 1, hi);
    assert b == [b[0]] + b[1..];
  }

  /** Behind a free head comes an allocated block, which cuts the free head of the other list. */
  lemma NotLonger(a: seq<SegBlock>, b: seq<SegBlock>, lo: nat, hi: nat)
    requires Tiles(a, lo, hi) && Tiles(b, lo, hi) && Apart(a) && Live(a) == Live(b) && a != [] && b != [] && a[0].state.Free? && b[0].state.Free?
    ensures b[0].end <= a[0].end
  {
    TilesBounds(b, lo, hi);
    if |a| == 1 {
      assert a[1..] == [];
    } else {
      assert a[1..][0] == a[1] && !a[1].state.Free? && a[1] in Live(b);
      TilesBounds(b[1..], b[0].end + 1, hi);
      assert b == [b[0]] + b[1..];
    }
  }

  // ---------------------------------------------------------------- taking a range out of a block

  function LeftPart(b: SegBlock, addr: nat): seq<SegBlock> {
    if b.start < addr then [SegBlock(b.start, addr - 1, Free)] else []
  }

  function RightPart(b: SegBlock, next: nat): seq<SegBlock> {
    if next <= b.end then [SegBlock(next, b.end, Free)] else []
  }

  predicate Inside(b: SegBlock, addr: nat, size: nat) {
    size > 0 && b.start <= addr && addr + size - 1 <= b.end
  }

  function NewBlock(addr: nat, size: nat, flags: nat): SegBlock
    requires size > 0
  {
    SegBlock(addr, addr + size - 1, Allocated(flags))
  }

  function Pieces(b: SegBlock, addr: nat, size: nat, flags: nat): seq<SegBlock>
    requires size > 0
  {
    LeftPart(b, addr) + [NewBlock(addr, size, flags)] + RightPart(b, addr + size)
  }

  function Taken(bs: seq<SegBlock>, i: nat, addr: nat, size: nat, flags: nat): seq<SegBlock>
    requires i < |bs| && size > 0
  {
    bs[..i] + Pieces(bs[i], addr, size, flags) + bs[i + 1..]
  }

  lemma PiecesTile(b: SegBlock, addr: nat, size: nat, flags: nat)
    requires Inside(b, addr, size)
    ensures Tiles(Pieces(b, addr, size, flags), b.start, b.end + 1)
  {
    var l, m, r := LeftPart(b, addr), [NewBlock(addr, size, flags)], RightPart(b, addr + size);
    assert Tiles(l, b.start, addr);
    assert Tiles(m, addr, addr + size);
    assert Tiles(r, addr + size, b.end + 1);
    TilesConcat(l, m, b.start, addr, addr + size);
    TilesConcat(l + m, r, b.start, addr + size, b.end + 1);
  }

  /** The list goes on tiling the range, whatever the block was. */
  lemma TakenTiles(bs: seq<SegBlock>, lo: nat, hi: nat, i: nat, addr: nat, size: nat, flags: nat)
    requires Tiles(bs, lo, hi) && i < |bs| && Inside(bs[i], addr, size)
    ensures Tiles(Taken(bs, i, addr, size, flags), lo, hi)
  {
    var b := bs[i];
    TilesSplit(bs, lo, hi, i);
    assert bs[i..][1..] == bs[i + 1..];
    PiecesTile(b, addr, size, flags);
    TilesConcat(bs[..i], Pieces(b, addr, size, flags), lo, b.start, b.end + 1);
    TilesConcat(bs[..i] + Pieces(b, addr, size, flags), bs[i + 1..], lo, b.end + 1, hi);
  }

  lemma LiveAround(bs: seq<SegBlock>, i: nat, mid: seq<SegBlock>)
    requires i < |bs|
    ensures Live(bs[..i] + mid + bs[i + 1..]) == Live(bs[..i]) + Live(mid) + Live(bs[i + 1..])
    ensures Live(bs) == Live(bs[..i]) + Live([bs[i]]) + Live(bs[i + 1..])
  {
    assert bs == bs[..i] + [bs[i]] + bs[i + 1..];
  }

  /** Out of a free block, exactly the new block is added to the allocated ones. */
  lemma TakenLive(bs: seq<SegBlock>, i: nat, addr: nat, size: nat, flags: nat)
    requires i < |bs| && size > 0 && bs[i].state.Free?
    ensures Live(Taken(bs, i, addr, size, flags)) == Live(bs) + {NewBlock(addr, size, flags)}
  {
    var mid := Pieces(bs[i], addr, size, flags);
    LiveAround(bs, i, mid);
    assert Live(mid) == {NewBlock(addr, size, flags)} by {
      assert NewBlock(addr, size, flags) in mid;
    }
    assert Live([bs[i]]) == {};
  }

  lemma TakenApart(bs: seq<SegBlock>, i: nat, addr: nat, size: nat, flags: nat)
    requires i < |bs| && size > 0 && bs[i].state.Free? && Apart(bs)
    ensures Apart(Taken(bs, i, addr, size, flags))
  {
    var l, r := LeftPart(bs[i], addr), RightPart(bs[i], addr + size);
    var t := Taken(bs, i, addr, size, flags);
    assert t == bs[..i] + l + [NewBlock(addr, size, flags)] + r + bs[i + 1..];
    forall j | 0 <= j < |t| - 1 ensures !(t[j].state.Free? && t[j + 1].state.Free?) {
      assert j + 1 < i ==> t[j] == bs[j] && t[j + 1] == bs[j + 1];
      var k := i + |l| + 1 + |r|;
      assert j >= k ==> t[j] == bs[j - k + i + 1] && t[j + 1] == bs[j - k + i + 2];
      assert 0 < i == j + 1 ==> t[j] == bs[i - 1];
      assert j == k - 1 && i + 1 < |bs| ==> t[j + 1] == bs[i + 1];
    }
  }

  // ---------------------------------------------------------------- the 64-bit arithmetic of a request

  /** `addr + size - 1`. */
  function Last(addr: nat, size: nat): nat {
    (addr + size + WORD - 1) % WORD
  }

  /** `addr + size`. */
  function Next(addr: nat, size: nat): nat {
    (addr + size) % WORD
  }

  /** The request is not empty and ends inside the address space. */
  predicate Unwrapped(addr: nat, size: nat) {
    size > 0 && addr + size <= WORD
  }

  /** The test of `_seg_alloc_at`. */
  predicate Passes(b: SegBlock, addr: nat, size: nat) {
    addr >= b.start && Last(addr, size) <= b.end
  }

  predicate FirstPassing(bs: seq<SegBlock>, i: nat, addr: nat, size: nat) {
    i < |bs| && Passes(bs[i], addr, size) && forall j :: 0 <= j < i ==> !Passes(bs[j], addr, size)
  }

  /** The parts a block is split into, whatever the arithmetic gives. */
  function Parts(b: SegBlock, addr: nat, size: nat, flags: nat): seq<SegBlock> {
    (if addr > b.start then [SegBlock(b.start, addr - 1, Free)] else [])
    + [SegBlock(addr, Last(addr, size), Allocated(flags))]
    + if Last(addr, size) != b.end then [SegBlock(Next(addr, size), b.end, Free)] else []
  }

  function Placed(bs: seq<SegBlock>, i: nat, addr: nat, size: nat, flags: nat): seq<SegBlock>
    requires i < |bs|
  {
    bs[..i] + Parts(bs[i], addr, size, flags) + bs[i + 1..]
  }

  /** Where nothing wraps around, the test and the split are those of plain arithmetic. */
  lemma PlainRequest(b: SegBlock, addr: nat, size: nat, flags: nat)
    requires Unwrapped(addr, size) && b.end < WORD - 1
    ensures Passes(b, addr, size) <==> Inside(b, addr, size)
    ensures Inside(b, addr, size) ==> Parts(b, addr, size, flags) == Pieces(b, addr, size, flags)
  {
    LastPlain(addr, size);
  }

  lemma LastPlain(addr: nat, size: nat)
    requires Unwrapped(addr, size)
    ensures Last(addr, size) == addr + size - 1 && (addr + size < WORD ==> Next(addr, size) == addr + size)
  {
  }

  /** Where something wraps around, the new block ends before it starts. */
  lemma LastWrapped(addr: nat, size: nat)
    requires 0 < addr < WORD && size < WORD && !Unwrapped(addr, size)
    ensures Last(addr, size) < addr && Next(addr, size) <= addr
  {
  }

  /** The list still tiles the range if and only if the request does not wrap around. */
  lemma PlacedTiles(bs: seq<SegBlock>, lo: nat, hi: nat, i: nat, addr: nat, size: nat, flags: nat)
    requires Tiles(bs, lo, hi) && 0 < lo && hi < WORD && addr < WORD && size < WORD && i < |bs| && Passes(bs[i], addr, size)
    ensures Tiles(Placed(bs, i, addr, size, flags), lo, hi) <==> Unwrapped(addr, size)
    ensures Unwrapped(addr, size) ==> Inside(bs[i], addr, size) && Placed(bs, i, addr, size, flags) == Taken(bs, i, addr, size, flags)
  {
    TilesBounds(bs, lo, hi);
    assert bs[i] in bs;
    if Unwrapped(addr, size) {
      PlainRequest(bs[i], addr, size, flags);
      TakenTiles(bs, lo, hi, i, addr, size, flags);
    } else {
      LastWrapped(addr, size);
      assert SegBlock(addr, Last(addr, size), Allocated(flags)) in Parts(bs[i], addr, size, flags);
      Backwards(Placed(bs, i, addr, size, flags), lo, hi, SegBlock(addr, Last(addr, size), Allocated(flags)));
    }
  }

  lemma Backwards(bs: seq<SegBlock>, lo: nat, hi: nat, b: SegBlock)
    requires b in bs && b.end < b.start
    ensures !Tiles(bs, lo, hi)
  {
    if Tiles(bs, lo, hi) {
      TilesBounds(bs, lo, hi);
    }
  }

  // ---------------------------------------------------------------- giving a block back

  function MergesLeft(bs: seq<SegBlock>, i: nat): bool
    requires i < |bs|
  {
    i > 0 && bs[i - 1].state.Free?
  }

  function MergesRight(bs: seq<SegBlock>, i: nat): bool
    requires i < |bs|
  {
    i + 1 < |bs| && bs[i + 1].state.Free?
  }

  function Released(bs: seq<SegBlock>, i: nat): seq<SegBlock>
    requires i < |bs|
  {
    var j := if MergesLeft(bs, i) then i - 1 else i;
    var k := if MergesRight(bs, i) then i + 1 else i;
    bs[..j] + [SegBlock(bs[j].start, bs[k].end, Free)] + bs[k + 1..]
  }

  lemma TilesAround(bs: seq<SegBlock>, lo: nat, hi: nat, i: nat)
    requires Tiles(bs, lo, hi) && i < |bs|
    ensures Tiles(bs[..i], lo, bs[i].start) && bs[i].start <= bs[i].end && Tiles(bs[i + 1..], bs[i].end + 1, hi)
  {
    TilesSplit(bs, lo, hi, i);
    assert bs[i..][1..] == bs[i + 1..];
  }

  lemma {:induction false} TilesOrder(bs: seq<SegBlock>, lo: nat, hi: nat, j: nat, k: nat)
    requires Tiles(bs, lo, hi) && j <= k < |bs|
    ensures bs[j].start <= bs[k].end
    decreases k - j
  {
    TilesAround(bs, lo, hi, j);
    if j < k {
      assert bs[j + 1..] != [] && bs[j + 1..][0] == bs[j + 1];
      TilesOrder(bs, lo, hi, j + 1, k);
    }
  }

  lemma MergeTiles(bs: seq<SegBlock>, lo: nat, hi: nat, j: nat, k: nat)
    requires Tiles(bs, lo, hi) && j <= k < |bs|
    ensures Tiles(bs[..j] + [SegBlock(bs[j].start, bs[k].end, Free)] + bs[k + 1..], lo, hi)
  {
    TilesAround(bs, lo, hi, j);
    TilesAround(bs, lo, hi, k);
    TilesOrder(bs, lo, hi, j, k);
    Glue(bs[..j], SegBlock(bs[j].start, bs[k].end, Free), bs[k + 1..], lo, hi);
  }

  lemma Glue(l: seq<SegBlock>, m: SegBlock, r: seq<SegBlock>, lo: nat, hi: nat)
    requires Tiles(l, lo, m.start) && m.start <= m.end && Tiles(r, m.end + 1, hi)
    ensures Tiles(l + [m] + r, lo, hi)
  {
    assert [m][1..] == [];
    TilesConcat(l, [m], lo, m.start, m.end + 1);
    TilesConcat(l + [m], r, lo, m.end + 1, hi);
  }

  lemma ReleasedTiles(bs: seq<SegBlock>, lo: nat, hi: nat, i: nat)
    requires Tiles(bs, lo, hi) && i < |bs|
    ensures Tiles(Released(bs, i), lo, hi)
  {
    MergeTiles(bs, lo, hi, if MergesLeft(bs, i) then i - 1 else i, if MergesRight(bs, i) then i + 1 else i);
  }

  lemma ReleasedApart(bs: seq<SegBlock>, i: nat)
    requires i < |bs| && Apart(bs)
    ensures Apart(Released(bs, i))
  {
    var j := if MergesLeft(bs, i) then i - 1 else i;
    var k := if MergesRight(bs, i) then i + 1 else i;
    var t := Released(bs, i);
    forall l | 0 <= l < |t| - 1 ensures !(t[l].state.Free? && t[l + 1].state.Free?) {
      assert l < j ==> t[l] == bs[l];
      assert l + 1 < j ==> t[l + 1] == bs[l + 1];
      assert l > j ==> t[l] == bs[l - j + k] && t[l + 1] == bs[l - j + k + 1];
      assert l == j ==> t[l + 1] == bs[k + 1];
    }
  }

  lemma {:induction false} Distinct(bs: seq<SegBlock>, lo: nat, hi: nat, i: nat)
    requires Tiles(bs, lo, hi) && i < |bs|
    ensures bs[i] !in bs[..i] && bs[i] !in bs[i + 1..]
  {
    TilesSplit(bs, lo, hi, i);
    TilesBounds(bs[..i], lo, bs[i].start);
    assert bs[i..][1..] == bs[i + 1..];
    TilesBounds(bs[i + 1..], bs[i].end + 1, hi);
  }

  /** Exactly the released block leaves the allocated ones. */
  lemma ReleasedLive(bs: seq<SegBlock>, lo: nat, hi: nat, i: nat)
    requires Tiles(bs, lo, hi) && i < |bs|
    ensures Live(Released(bs, i)) == Live(bs) - {bs[i]}
  {
    Distinct(bs, lo, hi, i);
    var t := Released(bs, i);
    forall b | b in Live(bs) && b != bs[i] ensures b in t {
      OthersStay(bs, i, b);
    }
    forall b | b in Live(t) ensures b in bs && b != bs[i] {
      NoOthers(bs, i, b);
    }
  }

  lemma OthersStay(bs: seq<SegBlock>, i: nat, b: SegBlock)
    requires i < |bs| && b in Live(bs) && b != bs[i]
    ensures b in Released(bs, i)
  {
    var t := Released(bs, i);
    var j := if MergesLeft(bs, i) then i - 1 else i;
    var k := if MergesRight(bs, i) then i + 1 else i;
    var l :| 0 <= l < |bs| && bs[l] == b;
    assert l < j || l > k;
    assert if l < j then t[l] == b else t[l - k + j] == b;
  }

  lemma NoOthers(bs: seq<SegBlock>, i: nat, b: SegBlock)
    requires i < |bs| && bs[i] !in bs[..i] && bs[i] !in bs[i + 1..] && b in Live(Released(bs, i))
    ensures b in bs && b != bs[i]
  {
    var t := Released(bs, i);
    var j := if MergesLeft(bs, i) then i - 1 else i;
    var k := if MergesRight(bs, i) then i + 1 else i;
    var l :| 0 <= l < |t| && t[l] == b;
    assert l != j;
    assert if l < j then b == bs[..i][l] else b == bs[i + 1..][l - j + k - i - 1];
  }

  // ---------------------------------------------------------------- the list of a process

  class Segments {
    var blocks: seq<SegBlock>

    ghost predicate Partition()
      reads this
    {
      Tiles(blocks, USER_START, VM_USER_END + 1)
    }

    ghost predicate Valid()
      reads this
    {
      Partition() && Apart(blocks)
    }

    /** `seg_init`. */
    constructor ()
      ensures Valid() && Live(blocks) == {} && blocks == [SegBlock(USER_START, VM_USER_END, Free)]
    {
      blocks := [SegBlock(USER_START, VM_USER_END, Free)];
    }

    /**
     `_seg_alloc`, first fit. Where the frames cannot be mapped or the node for the rest cannot be
     had, nothing changes. A request of size 0 needs no frames and leaves an empty block.
     */
    method Alloc(size: nat, flags: nat, mapped: bool, node: bool) returns (ptr: nat)
      requires Valid() && size < WORD
      modifies this
      ensures Valid() <==> ptr == 0 || size > 0
      ensures ptr == 0 ==> blocks == old(blocks)
      ensures ptr != 0 && size > 0 ==> NewBlock(ptr, size, flags) !in old(Live(blocks)) && Live(blocks) == old(Live(blocks)) + {NewBlock(ptr, size, flags)}
      ensures ptr != 0 ==> exists i {:trigger old(blocks)[i]} :: 0 <= i < |old(blocks)| && old(blocks)[i].state.Free? && old(blocks)[i].start == ptr && blocks == Placed(old(blocks), i, ptr, size, flags)
      ensures (mapped || size == 0) && node ==> (ptr == 0 <==> forall b :: b in old(blocks) && b.state.Free? ==> b.end - b.start + 1 < size)
    {
      TilesBounds(blocks, USER_START, VM_USER_END + 1);
      var i := 0;
      while i < |blocks|
        invariant 0 <= i <= |blocks| && blocks == old(blocks)
        invariant forall j :: 0 <= j < i && blocks[j].state.Free? ==> blocks[j].end - blocks[j].start + 1 < size
      {
        var b := blocks[i];
        assert b in blocks;
        if b.state.Free? && b.end - b.start + 1 >= size {
          if !(mapped || size == 0) || (b.end - b.start + 1 != size && !node) {
            return 0;
          }
          ptr := b.start;
          TakeFront(i, size, flags);
          return;
        }
        i := i + 1;
      }
      ptr := 0;
    }

    /** The front of a free block is taken. */
    method TakeFront(i: nat, size: nat, flags: nat)
      requires Valid() && i < |blocks| && blocks[i].state.Free? && size <= blocks[i].end - blocks[i].start + 1
      modifies this
      ensures blocks == Placed(old(blocks), i, old(blocks[i].start), size, flags) && (Valid() <==> size > 0)
      ensures size > 0 ==> NewBlock(old(blocks[i].start), size, flags) !in old(Live(blocks)) && Live(blocks) == old(Live(blocks)) + {NewBlock(old(blocks[i].start), size, flags)}
    {
      var addr := blocks[i].start;
      TilesBounds(blocks, USER_START, VM_USER_END + 1);
      assert blocks[i] in blocks;
      FrontPasses(blocks[i], size);
      if size > 0 {
        NotYetLive(blocks, USER_START, VM_USER_END + 1, i, addr, size, flags);
      }
      Take(i, addr, size, flags);
    }

    /** The surgery shared by both ways to allocate. */
    method Take(i: nat, addr: nat, size: nat, flags: nat)
      requires Partition() && i < |blocks| && addr < WORD && size < WORD && Passes(blocks[i], addr, size)
      modifies this
      ensures blocks == Placed(old(blocks), i, addr, size, flags) && (Partition() <==> Unwrapped(addr, size))
      ensures Unwrapped(addr, size) ==> Inside(old(blocks[i]), addr, size) && blocks == Taken(old(blocks), i, addr, size, flags)
      ensures Unwrapped(addr, size) && old(blocks[i].state.Free?) ==> Live(blocks) == old(Live(blocks)) + {NewBlock(addr, size, flags)} && (old(Apart(blocks)) ==> Apart(blocks))
    {
      PlacedTiles(blocks, USER_START, VM_USER_END + 1, i, addr, size, flags);
      if Unwrapped(addr, size) && blocks[i].state.Free? {
        TakenLive(blocks, i, addr, size, flags);
        if Apart(blocks) {
          TakenApart(blocks, i, addr, size, flags);
        }
      }
      var b := blocks[i];
      var left := if addr != b.start then [SegBlock(b.start, addr - 1, Free)] else [];
      var last, next := (addr + size + WORD - 1) % WORD, (addr + size) % WORD;
      var right := if last != b.end then [SegBlock(next, b.end, Free)] else [];
      blocks := blocks[..i] + (left + [SegBlock(addr, last, Allocated(flags))] + right) + blocks[i + 1..];
    }

    /**
     `_seg_alloc_at`. It does not look at the state of the block that holds the range, nor whether
     the range wraps around; then no frame is mapped, and the mapping cannot fail.
     */
    method AllocAt(addr: nat, size: nat, flags: nat, mapped: bool, leftNode: bool, rightNode: bool) returns (ok: bool)
      requires Partition() && addr < WORD && size < WORD
      modifies this
      ensures Partition() <==> !ok || Unwrapped(addr, size)
      ensures !ok ==> blocks == old(blocks)
      ensures ok ==> exists i :: FirstPassing(old(blocks), i, addr, size) && blocks == Placed(old(blocks), i, addr, size, flags)
      ensures ok && Unwrapped(addr, size) ==> exists i :: 0 <= i < |old(blocks)| && Inside(old(blocks)[i], addr, size) && blocks == Taken(old(blocks), i, addr, size, flags)
      ensures (mapped || Next(addr, size) <= addr) && leftNode && rightNode ==> (ok <==> exists b :: b in old(blocks) && Passes(b, addr, size))
      ensures ok && Unwrapped(addr, size) && old(Valid()) && (forall b :: b in old(blocks) && Inside(b, addr, size) ==> b.state.Free?) ==> Valid() && Live(blocks) == old(Live(blocks)) + {NewBlock(addr, size, flags)}
    {
      var i := 0;
      while i < |blocks|
        invariant 0 <= i <= |blocks| && blocks == old(blocks)
        invariant forall j :: 0 <= j < i ==> !Passes(blocks[j], addr, size)
      {
        var b := blocks[i];
        var last := (addr + size + WORD - 1) % WORD;
        if addr >= b.start && last <= b.end {
          assert b in blocks && Passes(b, addr, size);
          if !(mapped || Next(addr, size) <= addr) || (addr != b.start && !leftNode) || (last != b.end && !rightNode) {
            return false;
          }
          assert FirstPassing(blocks, i, addr, size);
          Take(i, addr, size, flags);
          return true;
        }
        i := i + 1;
      }
      ok := false;
    }

    /** `_seg_free`: the block that starts at the address, if it is allocated, is merged with its free neighbours. */
    method Release(addr: nat)
      modifies this
      ensures blocks == ReleasedAt(old(blocks), addr)
      ensures old(Valid()) ==> Valid()
      ensures old(Valid()) ==> forall b :: b in old(Live(blocks)) && b.start == addr ==> Live(blocks) == old(Live(blocks)) - {b}
      ensures (forall b :: b in old(Live(blocks)) ==> b.start != addr) ==> blocks == old(blocks)
    {
      ReleasedAtFacts(blocks, USER_START, VM_USER_END + 1, addr);
      LiveStart(blocks, addr);
      var i := FindLive(addr);
      if i < |blocks| {
        var start, end, from, upto := addr, blocks[i].end, i, i + 1;
        if i > 0 && blocks[i - 1].state.Free? {
          start, from := blocks[i - 1].start, i - 1;
        }
        if i + 1 < |blocks| && blocks[i + 1].state.Free? {
          end, upto := blocks[i + 1].end, i + 2;
        }
        blocks := blocks[..from] + [SegBlock(start, end, Free)] + blocks[upto..];
      }
    }

    method FindLive(addr: nat) returns (i: nat)
      ensures i == FirstLive(blocks, addr)
    {
      i := 0;
      while i < |blocks| && (blocks[i].state.Free? || blocks[i].start != addr)
        invariant 0 <= i <= |blocks| && FirstLive(blocks, addr) == i + FirstLive(blocks[i..], addr)
      {
        i := i + 1;
      }
    }
  }

  /** The first allocated block that starts at the address. */
  function FirstLive(bs: seq<SegBlock>, addr: nat): (i: nat)
    ensures i <= |bs| && (i < |bs| ==> !bs[i].state.Free? && bs[i].start == addr)
  {
    if bs == [] || (!bs[0].state.Free? && bs[0].start == addr) then 0 else 1 + FirstLive(bs[1..], addr)
  }

  function ReleasedAt(bs: seq<SegBlock>, addr: nat): seq<SegBlock> {
    var i := FirstLive(bs, addr);
    if i < |bs| then Released(bs, i) else bs
  }

  lemma {:induction false} LiveStart(bs: seq<SegBlock>, addr: nat)
    ensures FirstLive(bs, addr) == |bs| ==> forall b :: b in Live(bs) ==> b.start != addr
    decreases |bs|
  {
    if bs != [] {
      LiveStart(bs[1..], addr);
      assert bs == [bs[0]] + bs[1..];
    }
  }

  lemma ReleasedAtFacts(bs: seq<SegBlock>, lo: nat, hi: nat, addr: nat)
    ensures var t := ReleasedAt(bs, addr);
            Tiles(bs, lo, hi) && Apart(bs) ==> Tiles(t, lo, hi) && Apart(t) && forall b :: b in Live(bs) && b.start == addr ==> Live(t) == Live(bs) - {b}
  {
    var i := FirstLive(bs, addr);
    if Tiles(bs, lo, hi) && Apart(bs) {
      if i < |bs| {
        OneStart(bs, lo, hi, i);
        ReleasedTiles(bs, lo, hi, i);
        ReleasedApart(bs, i);
        ReleasedLive(bs, lo, hi, i);
      } else {
        LiveStart(bs, addr);
      }
    }
  }

  lemma FrontPasses(b: SegBlock, size: nat)
    requires 0 < b.start <= b.end < WORD - 1 && size <= b.end - b.start + 1
    ensures Passes(b, b.start, size) && (size > 0 ==> Unwrapped(b.start, size))
  {
  }

  lemma OneStart(bs: seq<SegBlock>, lo: nat, hi: nat, i: nat)
    requires Tiles(bs, lo, hi) && i < |bs|
    ensures forall b :: b in bs && b.start == bs[i].start ==> b == bs[i]
  {
    TilesBounds(bs, lo, hi);
    assert bs[i] in bs;
    forall j | 0 <= j < |bs| && bs[j].start == bs[i].start ensures j == i {
      assert bs[j] in bs;
      var k := TilesCover(bs, lo, hi, bs[i].start);
    }
  }

  lemma NotYetLive(bs: seq<SegBlock>, lo: nat, hi: nat, i: nat, addr: nat, size: nat, flags: nat)
    requires Tiles(bs, lo, hi) && i < |bs| && bs[i].state.Free? && size > 0 && addr == bs[i].start
    ensures NewBlock(addr, size, flags) !in Live(bs)
  {
    OneStart(bs, lo, hi, i);
  }

  // ---------------------------------------------------------------- histories

  /** Whatever happened in between: once the same blocks are allocated again, the list is the same again. */
  lemma SameList(bs: seq<SegBlock>, bs': seq<SegBlock>)
    requires Tiles(bs, USER_START, VM_USER_END + 1) && Apart(bs) && Tiles(bs', USER_START, VM_USER_END + 1) && Apart(bs')
    ensures bs == bs' <==> Live(bs) == Live(bs')
  {
    if Live(bs) == Live(bs') {
      Canonical(bs, bs', USER_START, VM_USER_END + 1);
    }
  }

  /** A release straight after an allocation restores the list; so it does after one of size 0. */
  method AllocRelease(s: Segments, size: nat, flags: nat, mapped: bool, node: bool) returns (ptr: nat)
    requires s.Valid() && size < WORD
    modifies s
    ensures s.blocks == old(s.blocks)
  {
    ghost var bs := s.blocks;
    ptr := s.Alloc(size, flags, mapped, node);
    if ptr != 0 {
      if size == 0 {
        ghost var i :| 0 <= i < |bs| && bs[i].state.Free? && bs[i].start == ptr && s.blocks == Placed(bs, i, ptr, size, flags);
        EmptyReleased(bs, USER_START, VM_USER_END + 1, i, flags);
      } else {
        assert NewBlock(ptr, size, flags) in Live(s.blocks);
      }
      s.Release(ptr);
      if size > 0 {
        SameList(bs, s.blocks);
      }
    }
  }

  /** An empty block in front of a free one goes without a trace. */
  lemma EmptyReleased(bs: seq<SegBlock>, lo: nat, hi: nat, i: nat, flags: nat)
    requires Tiles(bs, lo, hi) && 0 < lo && hi < WORD && Apart(bs) && i < |bs| && bs[i].state.Free?
    ensures ReleasedAt(Placed(bs, i, bs[i].start, 0, flags), bs[i].start) == bs
  {
    var l, b, r := bs[..i], bs[i], bs[i + 1..];
    assert 0 < b.start <= b.end < WORD && Tiles(l, lo, b.start) by {
      TilesBounds(bs, lo, hi);
      assert bs[i] in bs;
      TilesSplit(bs, lo, hi, i);
    }
    assert l != [] ==> !l[|l| - 1].state.Free? by {
      assert i > 0 ==> l[i - 1] == bs[i - 1];
    }
    EmptyParts(b, flags);
    EmptyBetween(l, b, r, lo, flags, Placed(bs, i, b.start, 0, flags), bs);
  }

  lemma EmptyParts(b: SegBlock, flags: nat)
    requires 0 < b.start <= b.end < WORD && b.state.Free?
    ensures Parts(b, b.start, 0, flags) == [SegBlock(b.start, b.start - 1, Allocated(flags)), b]
  {
    assert Last(b.start, 0) == b.start - 1 && Next(b.start, 0) == b.start;
  }

  lemma EmptyBetween(l: seq<SegBlock>, b: SegBlock, r: seq<SegBlock>, lo: nat, flags: nat, t: seq<SegBlock>, bs: seq<SegBlock>)
    requires 0 < b.start && Tiles(l, lo, b.start) && b.state.Free? && (l != [] ==> !l[|l| - 1].state.Free?)
    requires t == l + [SegBlock(b.start, b.start - 1, Allocated(flags)), b] + r && bs == l + [b] + r
    ensures ReleasedAt(t, b.start) == bs
  {
    var e := SegBlock(b.start, b.start - 1, Allocated(flags));
    LiveBehind(l, [e, b] + r, lo, b.start);
    JoinEmpty(l, e, b, r);
  }

  lemma JoinEmpty(l: seq<SegBlock>, e: SegBlock, b: SegBlock, r: seq<SegBlock>)
    requires e.start == b.start && !e.state.Free? && b.state.Free? && (l != [] ==> !l[|l| - 1].state.Free?)
    requires FirstLive(l + ([e, b] + r), e.start) == |l| + FirstLive([e, b] + r, e.start)
    ensures ReleasedAt(l + [e, b] + r, e.start) == l + [b] + r
  {
    var t := l + [e, b] + r;
    assert l + ([e, b] + r) == t;
    assert ([e, b] + r)[0] == e;
    assert FirstLive(t, e.start) == |l|;
    assert t[|l|] == e && t[|l| + 1] == b && (l != [] ==> t[|l| - 1] == l[|l| - 1]);
    assert t[..|l|] == l && t[|l| + 2..] == r;
  }

  lemma {:induction false} LiveBehind(l: seq<SegBlock>, r: seq<SegBlock>, lo: nat, addr: nat)
    requires Tiles(l, lo, addr)
    ensures FirstLive(l + r, addr) == |l| + FirstLive(r, addr)
    decreases |l|
  {
    if l == [] {
      assert l + r == r;
    } else {
      TilesBounds(l[1..], l[0].end + 1, addr);
      LiveBehind(l[1..], r, l[0].end + 1, addr);
      assert (l + r)[1..] == l[1..] + r;
    }
  }

  /** What was allocated stays allocated exactly if the range was taken from a free block, or was a whole block. */
  ghost predicate InUse(bs: seq<SegBlock>, x: nat) {
    exists b :: b in bs && !b.state.Free? && b.start <= x <= b.end
  }

  lemma TakenInUse(bs: seq<SegBlock>, lo: nat, hi: nat, i: nat, addr: nat, size: nat, flags: nat)
    requires Tiles(bs, lo, hi) && i < |bs| && Inside(bs[i], addr, size)
    ensures (forall x: nat :: InUse(bs, x) ==> InUse(Taken(bs, i, addr, size, flags), x)) <==> bs[i].state.Free? || (addr == bs[i].start && addr + size - 1 == bs[i].end)
  {
    var t := Taken(bs, i, addr, size, flags);
    var b := bs[i];
    LiveAround(bs, i, Pieces(b, addr, size, flags));
    if b.state.Free? || (addr == b.start && addr + size - 1 == b.end) {
      forall x: nat | InUse(bs, x) ensures InUse(t, x) {
        var c :| c in bs && !c.state.Free? && c.start <= x <= c.end;
        StillInUse(bs, i, addr, size, flags, c, x);
      }
    } else {
      var x := if addr != b.start then b.start else b.end;
      TakenTiles(bs, lo, hi, i, addr, size, flags);
      TilesBounds(bs, lo, hi);
      assert b in bs;
      assert InUse(bs, x);
      NowFree(bs, lo, hi, i, addr, size, flags, x);
    }
  }

  lemma StillInUse(bs: seq<SegBlock>, i: nat, addr: nat, size: nat, flags: nat, c: SegBlock, x: nat)
    requires i < |bs| && Inside(bs[i], addr, size) && (bs[i].state.Free? || (addr == bs[i].start && addr + size - 1 == bs[i].end))
    requires c in bs && !c.state.Free? && c.start <= x <= c.end
    ensures InUse(Taken(bs, i, addr, size, flags), x)
  {
    var t := Taken(bs, i, addr, size, flags);
    var l :| 0 <= l < |bs| && bs[l] == c;
    if l == i {
      assert NewBlock(addr, size, flags) in Pieces(bs[i], addr, size, flags);
      assert NewBlock(addr, size, flags) in t;
    } else {
      assert if l < i then c in bs[..i] else bs[i + 1..][l - i - 1] == c;
      assert c in t;
    }
  }

  /** The part split off an allocated block counts as free. */
  lemma NowFree(bs: seq<SegBlock>, lo: nat, hi: nat, i: nat, addr: nat, size: nat, flags: nat, x: nat)
    requires i < |bs| && Inside(bs[i], addr, size) && Tiles(Taken(bs, i, addr, size, flags), lo, hi)
    requires (x == bs[i].start < addr) || (x == bs[i].end && addr + size <= x)
    requires lo <= x < hi
    ensures !InUse(Taken(bs, i, addr, size, flags), x)
  {
    var t := Taken(bs, i, addr, size, flags);
    var l, r := LeftPart(bs[i], addr), RightPart(bs[i], addr + size);
    assert t == bs[..i] + l + [NewBlock(addr, size, flags)] + r + bs[i + 1..];
    var f := if x == bs[i].start < addr then l[0] else r[0];
    var j := if x == bs[i].start < addr then i else i + |l| + 1;
    assert t[j] == f && f.state.Free? && f.start <= x <= f.end;
    var k := TilesCover(t, lo, hi, x);
    forall c | c in t && c.start <= x <= c.end ensures c == f {
      var n :| 0 <= n < |t| && t[n] == c;
    }
  }

  /** Two pages are allocated, then the first of them once more: the second page counts as free. */
  lemma AllocAtLosesUse()
    ensures var bs := [SegBlock(0x1000, 0x2FFF, Allocated(0)), SegBlock(0x3000, VM_USER_END, Free)];
            Tiles(bs, USER_START, VM_USER_END + 1) && Apart(bs) && InUse(bs, 0x2000) && !InUse(Taken(bs, 0, 0x1000, 0x1000, 0), 0x2000)
  {
    var bs := [SegBlock(0x1000, 0x2FFF, Allocated(0)), SegBlock(0x3000, VM_USER_END, Free)];
    assert bs[1..] == [bs[1]] && bs[1..][1..] == [];
    assert bs[0] in bs;
    var t := Taken(bs, 0, 0x1000, 0x1000, 0);
    assert t == [SegBlock(0x1000, 0x1FFF, Allocated(0)), SegBlock(0x2000, 0x2FFF, Free), bs[1]];
  }

  /** The last page of the address space and one more: nothing is mapped, and the list is no partition any more. */
  method AllocAtWraps() returns (s: Segments)
    ensures s.blocks == [SegBlock(0x1000, 0xFFFF_FFFF_FFFF_EFFF, Free), SegBlock(0xFFFF_FFFF_FFFF_F000, 0xFFF, Allocated(0)), SegBlock(0x1000, VM_USER_END, Free)]
    ensures !s.Partition()
  {
    s := new Segments();
    ghost var bs := s.blocks;
    assert Last(0xFFFF_FFFF_FFFF_F000, 0x2000) == 0xFFF && Next(0xFFFF_FFFF_FFFF_F000, 0x2000) == 0x1000;
    assert bs[0] in bs && Passes(bs[0], 0xFFFF_FFFF_FFFF_F000, 0x2000);
    var ok := s.AllocAt(0xFFFF_FFFF_FFFF_F000, 0x2000, 0, false, true, true);
    ghost var i: nat :| FirstPassing(bs, i, 0xFFFF_FFFF_FFFF_F000, 0x2000) && s.blocks == Placed(bs, i, 0xFFFF_FFFF_FFFF_F000, 0x2000, 0);
    assert bs[..i] == [] && bs[i + 1..] == [];
  }
}
