/**
 The physical memory manager's free frames as values: nine stacks (three frame
 sizes, three zones) of linked stack pages, each page itself a managed 4K frame but
 for the static one at the bottom, and the list of frames reserved as stack pages.
 */
module FramePool {

  import opened Common

  const PAGE_FRAMES: nat := 510
  const FRAME: nat := 0x1000
  const ADDRESS_END: nat := WORD
  const LIMIT_DMA: nat := 0xFF_FFFF
  const LIMIT_DMA32: nat := 0xFFFF_FFFF
  const STD: nat := 2

  /** A stack page: where it lies and the frames it holds, the last one on top. */
  datatype Page = Page(addr: nat, frames: seq<nat>)

  /** Stack `3 * size + zone` lists its pages from the static bottom page up. */
  datatype Pool = Pool(stacks: seq<seq<Page>>, reserved: seq<nat>, initialized: bool)

  // ---------------------------------------------------------------- frames

  /** A frame the manager may hold: not at address zero, aligned, inside the address space. */
  predicate FrameOk(size: nat, a: nat) {
    0 < a && a + PageBytes(size) <= ADDRESS_END && a % PageBytes(size) == 0
  }

  /** `get_zone`: the lowest zone whose limit the whole frame respects. */
  function GetZone(size: nat, a: nat): nat {
    var last := a + PageBytes(size) - 1;
    if last <= LIMIT_DMA then 0 else if last <= LIMIT_DMA32 then 1 else 2
  }

  function ZoneEnd(zone: nat): nat {
    if zone == 0 then LIMIT_DMA else if zone == 1 then LIMIT_DMA32 else ADDRESS_END - 1
  }

  /** A frame of a zone ends within the zone's limit. */
  lemma ZoneLimit(size: nat, a: nat, zone: nat)
    requires FrameOk(size, a) && GetZone(size, a) <= zone
    ensures a + PageBytes(size) - 1 <= ZoneEnd(zone)
  {
  }

  /** The `k`-th part of a larger frame. */
  lemma SubFrame(size: nat, a: nat, k: nat)
    requires size < 2 && FrameOk(size + 1, a) && k < 512
    ensures FrameOk(size, a + k * PageBytes(size)) && GetZone(size, a + k * PageBytes(size)) <= GetZone(size + 1, a)
  {
    if size == 0 {
      Multiple4K(512 * (a / 0x20_0000) + k);
    } else {
      Multiple2M(512 * (a / 0x4000_0000) + k);
    }
  }

  lemma Multiple4K(m: nat)
    ensures (0x1000 * m) % 0x1000 == 0
  {
  }

  lemma Multiple2M(m: nat)
    ensures (0x20_0000 * m) % 0x20_0000 == 0
  {
  }

  // ---------------------------------------------------------------- what is where

  /** 1 for the addresses from `lo` up to `hi`. */
  function In(lo: nat, hi: nat, x: nat): nat {
    if lo <= x < hi then 1 else 0
  }

  function Covers(size: nat, a: nat, x: nat): nat {
    In(a, a + PageBytes(size), x)
  }

  function FramesHold(size: nat, fs: seq<nat>, x: nat): nat {
    if fs == [] then 0 else FramesHold(size, fs[..|fs| - 1], x) + Covers(size, fs[|fs| - 1], x)
  }

  /** How often a stack holds byte `x`: in its frames and in its pages, but for the static one. */
  function StackHolds(size: nat, st: seq<Page>, x: nat): nat {
    if st == [] then 0
    else StackHolds(size, st[..|st| - 1], x) + FramesHold(size, st[|st| - 1].frames, x) + if |st| > 1 then Covers(0, st[|st| - 1].addr, x) else 0
  }

  function StacksHold(stacks: seq<seq<Page>>, n: nat, x: nat): nat
    requires n <= |stacks|
  {
    if n == 0 then 0 else StacksHold(stacks, n - 1, x) + StackHolds((n - 1) / 3, stacks[n - 1], x)
  }

  /** How often the pool holds byte `x`: in stacked frames, stack pages and reserved frames. */
  function Held(p: Pool, x: nat): nat {
    StacksHold(p.stacks, |p.stacks|, x) + FramesHold(0, p.reserved, x)
  }

  lemma {:induction false} StacksUpdate(stacks: seq<seq<Page>>, n: nat, i: nat, st: seq<Page>, x: nat)
    requires n <= |stacks| && i < |stacks|
    ensures StacksHold(stacks[i := st], n, x) == StacksHold(stacks, n, x) + if i < n then StackHolds(i / 3, st, x) - StackHolds(i / 3, stacks[i], x) else 0
    decreases n
  {
    if n > 0 {
      StacksUpdate(stacks, n - 1, i, st, x);
    }
  }

  // ---------------------------------------------------------------- measures

  /** Weight of a frame: splitting one into parts loses weight. */
  function Weight(size: nat): nat {
    if size == 0 then 0 else if size == 1 then 2 else 1026
  }

  function FrameCount(st: seq<Page>): nat {
    if st == [] then 0 else FrameCount(st[..|st| - 1]) + |st[|st| - 1].frames|
  }

  function WeightUpTo(stacks: seq<seq<Page>>, n: nat): nat
    requires n <= |stacks|
  {
    if n == 0 then 0 else WeightUpTo(stacks, n - 1) + Weight((n - 1) / 3) * FrameCount(stacks[n - 1])
  }

  function PagesUpTo(stacks: seq<seq<Page>>, n: nat): nat
    requires n <= |stacks|
  {
    if n == 0 then 0 else PagesUpTo(stacks, n - 1) + |stacks[n - 1]|
  }

  function Phi(p: Pool): nat {
    WeightUpTo(p.stacks, |p.stacks|)
  }

  function Pages(p: Pool): nat {
    PagesUpTo(p.stacks, |p.stacks|)
  }

  lemma {:induction false} MeasuresUpdate(stacks: seq<seq<Page>>, n: nat, i: nat, st: seq<Page>)
    requires n <= |stacks| && i < |stacks|
    ensures WeightUpTo(stacks[i := st], n) == WeightUpTo(stacks, n) + if i < n then Weight(i / 3) * FrameCount(st) - Weight(i / 3) * FrameCount(stacks[i]) else 0
    ensures PagesUpTo(stacks[i := st], n) == PagesUpTo(stacks, n) + if i < n then |st| - |stacks[i]| else 0
    decreases n
  {
    if n > 0 {
      MeasuresUpdate(stacks, n - 1, i, st);
    }
  }

  // ---------------------------------------------------------------- one stack

  function Top(st: seq<Page>): Page
    requires st != []
  {
    st[|st| - 1]
  }

  predicate PageOk(size: nat, zone: nat, pg: Page) {
    |pg.frames| <= PAGE_FRAMES && forall f :: f in pg.frames ==> FrameOk(size, f) && GetZone(size, f) <= zone
  }

  /** Pages below the top are never empty; frames respect the zone; only the bottom page is static. */
  predicate StackOk(size: nat, zone: nat, st: seq<Page>) {
    && st != []
    && (forall k :: 0 <= k < |st| ==> PageOk(size, zone, st[k]))
    && (forall k :: 0 <= k < |st| - 1 ==> st[k].frames != [])
    && (forall k :: 0 < k < |st| ==> FrameOk(0, st[k].addr))
  }

  function AddFrame(st: seq<Page>, a: nat): seq<Page>
    requires st != []
  {
    st[..|st| - 1] + [Top(st).(frames := Top(st).frames + [a])]
  }

  function TakeFrame(st: seq<Page>): seq<Page>
    requires st != [] && Top(st).frames != []
  {
    st[..|st| - 1] + [Top(st).(frames := Top(st).frames[..|Top(st).frames| - 1])]
  }

  function AddPage(st: seq<Page>, a: nat): seq<Page> {
    st + [Page(a, [])]
  }

  function DropPage(st: seq<Page>): seq<Page>
    requires st != []
  {
    st[..|st| - 1]
  }

  lemma AddFrameOk(size: nat, zone: nat, st: seq<Page>, a: nat, x: nat)
    requires StackOk(size, zone, st) && |Top(st).frames| < PAGE_FRAMES && FrameOk(size, a) && GetZone(size, a) <= zone
    ensures StackOk(size, zone, AddFrame(st, a))
    ensures StackHolds(size, AddFrame(st, a), x) == StackHolds(size, st, x) + Covers(size, a, x)
    ensures FrameCount(AddFrame(st, a)) == FrameCount(st) + 1 && |AddFrame(st, a)| == |st|
  {
    var st' := AddFrame(st, a);
    assert st'[..|st'| - 1] == st[..|st| - 1];
    assert Top(st').frames[..|Top(st').frames| - 1] == Top(st).frames;
  }

  lemma TakeFrameOk(size: nat, zone: nat, st: seq<Page>, x: nat)
    requires StackOk(size, zone, st) && Top(st).frames != []
    ensures StackOk(size, zone, TakeFrame(st))
    ensures var a := Top(st).frames[|Top(st).frames| - 1];
            && FrameOk(size, a) && GetZone(size, a) <= zone
            && StackHolds(size, st, x) == StackHolds(size, TakeFrame(st), x) + Covers(size, a, x)
            && FrameCount(st) == FrameCount(TakeFrame(st)) + 1 && |TakeFrame(st)| == |st|
  {
    var st' := TakeFrame(st);
    assert st'[..|st'| - 1] == st[..|st| - 1];
  }

  lemma AddPageOk(size: nat, zone: nat, st: seq<Page>, a: nat, x: nat)
    requires StackOk(size, zone, st) && Top(st).frames != [] && FrameOk(0, a)
    ensures StackOk(size, zone, AddPage(st, a))
    ensures StackHolds(size, AddPage(st, a), x) == StackHolds(size, st, x) + Covers(0, a, x)
    ensures FrameCount(AddPage(st, a)) == FrameCount(st) && |AddPage(st, a)| == |st| + 1 && Top(AddPage(st, a)) == Page(a, [])
  {
    var st' := AddPage(st, a);
    assert st'[..|st'| - 1] == st;
  }

  lemma DropPageOk(size: nat, zone: nat, st: seq<Page>, x: nat)
    requires StackOk(size, zone, st) && Top(st).frames == [] && |st| > 1
    ensures StackOk(size, zone, DropPage(st)) && FrameOk(0, Top(st).addr) && Top(DropPage(st)).frames != []
    ensures StackHolds(size, st, x) == StackHolds(size, DropPage(st), x) + Covers(0, Top(st).addr, x)
    ensures FrameCount(DropPage(st)) == FrameCount(st) && |DropPage(st)| == |st| - 1
  {
  }

  // ---------------------------------------------------------------- the pool

  function At(p: Pool, size: nat, zone: nat): seq<Page>
    requires |p.stacks| == 9 && size < 3 && zone < 3
  {
    p.stacks[3 * size + zone]
  }

  function Put(p: Pool, size: nat, zone: nat, st: seq<Page>): (p': Pool)
    requires |p.stacks| == 9 && size < 3 && zone < 3
    ensures |p'.stacks| == 9
    ensures forall s: nat, z: nat {:trigger At(p', s, z)} :: s < 3 && z < 3 ==> At(p', s, z) == if s == size && z == zone then st else At(p, s, z)
  {
    p.(stacks := p.stacks[3 * size + zone := st])
  }

  predicate Descending(r: seq<nat>) {
    forall i, j :: 0 <= i < j < |r| ==> r[i] >= r[j]
  }

  /** A descending reserved list still descends. */
  predicate OrderKept(p: Pool, p': Pool) {
    Descending(p.reserved) ==> Descending(p'.reserved)
  }

  predicate ReservedOk(p: Pool) {
    && |p.reserved| <= PAGE_FRAMES && (p.reserved != [] ==> p.initialized)
    && forall a :: a in p.reserved ==> FrameOk(0, a)
  }

  predicate Inv(p: Pool) {
    && |p.stacks| == 9 && ReservedOk(p)
    && forall s: nat, z: nat {:trigger At(p, s, z)} :: s < 3 && z < 3 ==> StackOk(s, z, At(p, s, z))
  }

  /** `p'` holds what `p` holds and the addresses from `lo` up to `hi`. */
  ghost predicate Grown(p: Pool, p': Pool, lo: nat, hi: nat) {
    forall x: nat {:trigger Held(p', x)} :: Held(p', x) == Held(p, x) + In(lo, hi, x)
  }

  lemma PutEffect(p: Pool, size: nat, zone: nat, st: seq<Page>, x: nat)
    requires |p.stacks| == 9 && size < 3 && zone < 3
    ensures Held(Put(p, size, zone, st), x) == Held(p, x) + StackHolds(size, st, x) - StackHolds(size, At(p, size, zone), x)
    ensures Phi(Put(p, size, zone, st)) == Phi(p) + Weight(size) * FrameCount(st) - Weight(size) * FrameCount(At(p, size, zone))
    ensures Pages(Put(p, size, zone, st)) == Pages(p) + |st| - |At(p, size, zone)|
  {
    IndexSize(size, zone);
    StacksUpdate(p.stacks, |p.stacks|, 3 * size + zone, st, x);
    MeasuresUpdate(p.stacks, |p.stacks|, 3 * size + zone, st);
  }

  lemma IndexSize(size: nat, zone: nat)
    requires zone < 3
    ensures (3 * size + zone) / 3 == size
  {
  }

  lemma PutInv(p: Pool, size: nat, zone: nat, st: seq<Page>)
    requires Inv(p) && size < 3 && zone < 3 && StackOk(size, zone, st)
    ensures Inv(Put(p, size, zone, st))
  {
  }

  /** Push a frame onto a stack page with room. */
  function PushFrame(p: Pool, size: nat, zone: nat, a: nat): Pool
    requires Inv(p) && size < 3 && zone < 3
  {
    Put(p, size, zone, AddFrame(At(p, size, zone), a))
  }

  lemma PushFrameEffect(p: Pool, size: nat, zone: nat, a: nat)
    requires Inv(p) && size < 3 && zone < 3 && |Top(At(p, size, zone)).frames| < PAGE_FRAMES && FrameOk(size, a) && GetZone(size, a) <= zone
    ensures var p' := PushFrame(p, size, zone, a);
            Inv(p') && Grown(p, p', a, a + PageBytes(size)) && Phi(p') == Phi(p) + Weight(size) && Pages(p') == Pages(p)
  {
    var st := At(p, size, zone);
    forall x: nat ensures Held(PushFrame(p, size, zone, a), x) == Held(p, x) + In(a, a + PageBytes(size), x) {
      PushFrameHolds(p, size, zone, a, x);
    }
    AddFrameOk(size, zone, st, a, 0);
    PutEffect(p, size, zone, AddFrame(st, a), 0);
    PutInv(p, size, zone, AddFrame(st, a));
    WeightStep(size, FrameCount(st));
  }

  lemma PushFrameHolds(p: Pool, size: nat, zone: nat, a: nat, x: nat)
    requires Inv(p) && size < 3 && zone < 3 && |Top(At(p, size, zone)).frames| < PAGE_FRAMES && FrameOk(size, a) && GetZone(size, a) <= zone
    ensures Held(PushFrame(p, size, zone, a), x) == Held(p, x) + Covers(size, a, x)
  {
    AddFrameOk(size, zone, At(p, size, zone), a, x);
    PutEffect(p, size, zone, AddFrame(At(p, size, zone), a), x);
  }

  lemma WeightStep(size: nat, n: nat)
    ensures Weight(size) * (n + 1) == Weight(size) * n + Weight(size)
  {
  }

  function PopFrame(p: Pool, size: nat, zone: nat): Pool
    requires Inv(p) && size < 3 && zone < 3 && Top(At(p, size, zone)).frames != []
  {
    Put(p, size, zone, TakeFrame(At(p, size, zone)))
  }

  function TopFrame(p: Pool, size: nat, zone: nat): nat
    requires Inv(p) && size < 3 && zone < 3 && Top(At(p, size, zone)).frames != []
  {
    var fs := Top(At(p, size, zone)).frames;
    fs[|fs| - 1]
  }

  lemma PopFrameEffect(p: Pool, size: nat, zone: nat)
    requires Inv(p) && size < 3 && zone < 3 && Top(At(p, size, zone)).frames != []
    ensures var p', a := PopFrame(p, size, zone), TopFrame(p, size, zone);
            && Inv(p') && Grown(p', p, a, a + PageBytes(size)) && Phi(p) == Phi(p') + Weight(size) && Pages(p') == Pages(p)
            && FrameOk(size, a) && GetZone(size, a) <= zone
  {
    var st, a := At(p, size, zone), TopFrame(p, size, zone);
    forall x: nat ensures Held(p, x) == Held(PopFrame(p, size, zone), x) + In(a, a + PageBytes(size), x) {
      PopFrameHolds(p, size, zone, x);
    }
    TakeFrameOk(size, zone, st, 0);
    PutEffect(p, size, zone, TakeFrame(st), 0);
    PutInv(p, size, zone, TakeFrame(st));
    WeightStep(size, FrameCount(TakeFrame(st)));
  }

  lemma PopFrameHolds(p: Pool, size: nat, zone: nat, x: nat)
    requires Inv(p) && size < 3 && zone < 3 && Top(At(p, size, zone)).frames != []
    ensures Held(p, x) == Held(PopFrame(p, size, zone), x) + Covers(size, TopFrame(p, size, zone), x)
  {
    TakeFrameOk(size, zone, At(p, size, zone), x);
    PutEffect(p, size, zone, TakeFrame(At(p, size, zone)), x);
  }

  /** Make frame `a` the new top page of a stack. */
  function PushPage(p: Pool, size: nat, zone: nat, a: nat): Pool
    requires Inv(p) && size < 3 && zone < 3
  {
    Put(p, size, zone, AddPage(At(p, size, zone), a))
  }

  lemma PushPageEffect(p: Pool, size: nat, zone: nat, a: nat)
    requires Inv(p) && size < 3 && zone < 3 && Top(At(p, size, zone)).frames != [] && FrameOk(0, a)
    ensures var p' := PushPage(p, size, zone, a);
            && Inv(p') && Grown(p, p', a, a + FRAME) && Phi(p') == Phi(p) && Pages(p') == Pages(p) + 1
            && Top(At(p', size, zone)) == Page(a, [])
  {
    var st := At(p, size, zone);
    forall x: nat ensures Held(PushPage(p, size, zone, a), x) == Held(p, x) + In(a, a + FRAME, x) {
      AddPageOk(size, zone, st, a, x);
      PutEffect(p, size, zone, AddPage(st, a), x);
    }
    AddPageOk(size, zone, st, a, 0);
    PutEffect(p, size, zone, AddPage(st, a), 0);
    PutInv(p, size, zone, AddPage(st, a));
  }

  /** Leave an empty top page for the page below it. */
  function PopPage(p: Pool, size: nat, zone: nat): Pool
    requires Inv(p) && size < 3 && zone < 3
  {
    Put(p, size, zone, DropPage(At(p, size, zone)))
  }

  lemma PopPageEffect(p: Pool, size: nat, zone: nat)
    requires Inv(p) && size < 3 && zone < 3 && Top(At(p, size, zone)).frames == [] && |At(p, size, zone)| > 1
    ensures var p', a := PopPage(p, size, zone), Top(At(p, size, zone)).addr;
            && Inv(p') && Grown(p', p, a, a + FRAME) && Phi(p') == Phi(p) && Pages(p') == Pages(p) - 1
            && FrameOk(0, a) && Top(At(p', size, zone)).frames != []
  {
    var st := At(p, size, zone);
    forall x: nat ensures Held(p, x) == Held(PopPage(p, size, zone), x) + In(Top(st).addr, Top(st).addr + FRAME, x) {
      DropPageOk(size, zone, st, x);
      PutEffect(p, size, zone, DropPage(st), x);
    }
    DropPageOk(size, zone, st, 0);
    PutEffect(p, size, zone, DropPage(st), 0);
    PutInv(p, size, zone, DropPage(st));
  }

  // ---------------------------------------------------------------- the reserved list

  /** Where the source inserts: before the first smaller address. */
  function Place(r: seq<nat>, a: nat): (i: nat)
    ensures i <= |r| && (forall k :: 0 <= k < i ==> r[k] >= a) && (i < |r| ==> r[i] < a)
  {
    if r == [] || r[0] < a then 0 else 1 + Place(r[1..], a)
  }

  function Insert(r: seq<nat>, a: nat): seq<nat> {
    var i := Place(r, a);
    r[..i] + [a] + r[i..]
  }

  lemma {:induction false} FramesHoldConcat(size: nat, r: seq<nat>, q: seq<nat>, x: nat)
    ensures FramesHold(size, r + q, x) == FramesHold(size, r, x) + FramesHold(size, q, x)
    decreases |q|
  {
    if q == [] {
      assert r + q == r;
    } else {
      FramesHoldConcat(size, r, q[..|q| - 1], x);
      assert (r + q)[..|r + q| - 1] == r + q[..|q| - 1];
    }
  }

  lemma FramesHoldOne(a: nat, x: nat)
    ensures FramesHold(0, [a], x) == In(a, a + FRAME, x)
  {
    assert [a][..0] == [];
  }

  lemma InsertHolds(r: seq<nat>, a: nat, x: nat)
    ensures FramesHold(0, Insert(r, a), x) == FramesHold(0, r, x) + In(a, a + FRAME, x)
  {
    var i := Place(r, a);
    FramesHoldConcat(0, r[..i] + [a], r[i..], x);
    FramesHoldConcat(0, r[..i], [a], x);
    FramesHoldConcat(0, r[..i], r[i..], x);
    assert r[..i] + r[i..] == r;
    FramesHoldOne(a, x);
  }

  /** The entries after an insertion. */
  lemma InsertAt(r: seq<nat>, a: nat, k: nat)
    requires k <= |r|
    ensures |Insert(r, a)| == |r| + 1
    ensures Insert(r, a)[k] == if k < Place(r, a) then r[k] else if k == Place(r, a) then a else r[k - 1]
  {
  }

  lemma InsertDescending(r: seq<nat>, a: nat)
    requires Descending(r)
    ensures Descending(Insert(r, a)) && |Insert(r, a)| == |r| + 1
  {
    var q := Insert(r, a);
    forall i, j | 0 <= i < j < |q| ensures q[i] >= q[j] {
      InsertAt(r, a, i);
      InsertAt(r, a, j);
    }
  }

  lemma InsertMembers(r: seq<nat>, a: nat)
    ensures forall b :: b in Insert(r, a) ==> b in r || b == a
    ensures a in Insert(r, a) && forall b :: b in r ==> b in Insert(r, a)
  {
    var i := Place(r, a);
    assert r == r[..i] + r[i..];
  }

  /** The entries of the list before the first 0, which stands for a frame that could not be had. */
  function Nonzero(list: seq<nat>): seq<nat> {
    list[..Place(list, 1)]
  }

  predicate Zeros(z: seq<nat>) {
    forall i :: 0 <= i < |z| ==> z[i] == 0
  }

  /** Frames, and behind them zeros. */
  predicate ZeroTail(list: seq<nat>) {
    Zeros(list[Place(list, 1)..])
  }

  /** The list page. */
  predicate ListOk(list: seq<nat>) {
    |list| <= PAGE_FRAMES && ZeroTail(list)
  }

  /** The place of an address is the only one with no smaller entry before it and a smaller one at it. */
  lemma PlaceIs(r: seq<nat>, a: nat, i: nat)
    requires i <= |r| && (forall k :: 0 <= k < i ==> r[k] >= a) && (i < |r| ==> r[i] < a)
    ensures Place(r, a) == i
  {
  }

  /** A list is made of its frames and the zeros behind them. */
  lemma ListParts(x: seq<nat>, z: seq<nat>)
    requires (forall i :: 0 <= i < |x| ==> x[i] != 0) && Zeros(z)
    ensures Nonzero(x + z) == x && ZeroTail(x + z)
  {
    PlaceIs(x + z, 1, |x|);
    assert (x + z)[..|x|] == x && (x + z)[|x|..] == z;
  }

  lemma InsertBefore(r: seq<nat>, z: seq<nat>, a: nat)
    requires Zeros(z) && a > 0
    ensures Insert(r + z, a) == Insert(r, a) + z
  {
    var i := Place(r, a);
    PlaceIs(r + z, a, i);
    assert (r + z)[..i] == r[..i] && (r + z)[i..] == r[i..] + z;
  }

  /** Inserting an address into the list inserts it among the frames. */
  lemma ListInsert(list: seq<nat>, a: nat)
    requires ListOk(list) && |list| < PAGE_FRAMES && a > 0
    ensures ListOk(Insert(list, a)) && Nonzero(Insert(list, a)) == Insert(Nonzero(list), a)
  {
    var r, z := Nonzero(list), list[Place(list, 1)..];
    assert list == r + z;
    InsertBefore(r, z, a);
    InsertMembers(r, a);
    var q := Insert(r, a);
    forall i | 0 <= i < |q| ensures q[i] != 0 {
      assert q[i] in q;
    }
    ListParts(q, z);
  }

  /** The first entry taken off. */
  lemma ListTail(list: seq<nat>)
    requires ListOk(list) && list != []
    ensures ListOk(list[1..]) && if list[0] == 0 then Nonzero(list) == Nonzero(list[1..]) == [] else Nonzero(list) == [list[0]] + Nonzero(list[1..])
  {
    var k := Place(list, 1);
    var z := list[k..];
    if k == 0 {
      assert list[0] == z[0];
      ListParts([], list[1..]);
      assert [] + list[1..] == list[1..];
    } else {
      assert list[1..] == list[1..k] + z;
      ListParts(list[1..k], z);
    }
  }

  /** The last entry taken off. */
  lemma ListLast(list: seq<nat>, n: nat)
    requires ListOk(list) && |list| == n + 1
    ensures ListOk(list[..n])
    ensures if list[n] == 0 then |Nonzero(list)| <= n && Nonzero(list[..n]) == Nonzero(list) else Nonzero(list) == list && Nonzero(list[..n]) == list[..n]
  {
    var k := Place(list, 1);
    if k <= n {
      assert list[n] == list[k..][n - k];
      assert list[..n] == list[..k] + list[k..n];
      assert Zeros(list[k..n]) by {
        assert forall i :: 0 <= i < n - k ==> list[k..n][i] == list[k..][i];
      }
      ListParts(list[..k], list[k..n]);
    } else {
      assert list[..n] == list[..n] + [];
      ListParts(list[..n], []);
    }
  }

  /** The last entry of a full list makes room for an address. */
  lemma ListSwap(p: Pool, list: seq<nat>, a: nat)
    requires ListOk(list) && |list| == PAGE_FRAMES && p.reserved == Nonzero(list) && a > 0
    ensures var list' := Insert(list[..PAGE_FRAMES - 1], a); ListOk(list') && Reserve(p, a).reserved == Nonzero(list')
    ensures if list[PAGE_FRAMES - 1] == 0 then |p.reserved| < PAGE_FRAMES else p.reserved == list
  {
    ListLast(list, PAGE_FRAMES - 1);
    ListInsert(list[..PAGE_FRAMES - 1], a);
  }

  /** Whether the list takes the address in. */
  predicate WouldReserve(p: Pool, a: nat) {
    p.initialized && (|p.reserved| < PAGE_FRAMES || p.reserved[|p.reserved| - 1] < a)
  }

  /** The list with `a` taken in, a smallest entry making room if it is full. */
  function Reserve(p: Pool, a: nat): Pool {
    p.(reserved := Insert(if |p.reserved| < PAGE_FRAMES then p.reserved else p.reserved[..|p.reserved| - 1], a))
  }

  lemma SameStacks(p: Pool, p': Pool)
    requires |p.stacks| == 9 && p'.stacks == p.stacks
    ensures Phi(p') == Phi(p) && Pages(p') == Pages(p)
    ensures Inv(p) && ReservedOk(p') ==> Inv(p')
  {
    forall s: nat, z: nat | s < 3 && z < 3 ensures At(p', s, z) == At(p, s, z) {
    }
  }

  lemma ReserveEffect(p: Pool, a: nat)
    requires Inv(p) && WouldReserve(p, a) && FrameOk(0, a)
    ensures var p' := Reserve(p, a);
            && Inv(p') && Phi(p') == Phi(p) && Pages(p') == Pages(p) && OrderKept(p, p') && p'.reserved != []
            && (|p.reserved| < PAGE_FRAMES ==> Grown(p, p', a, a + FRAME))
            && (|p.reserved| == PAGE_FRAMES ==> FrameOk(0, p.reserved[PAGE_FRAMES - 1]))
  {
    ReserveOk(p, a);
    SameStacks(p, Reserve(p, a));
    if |p.reserved| < PAGE_FRAMES {
      forall x: nat ensures Held(Reserve(p, a), x) == Held(p, x) + In(a, a + FRAME, x) {
        InsertHolds(p.reserved, a, x);
      }
    }
  }

  lemma ReserveOk(p: Pool, a: nat)
    requires ReservedOk(p) && WouldReserve(p, a) && FrameOk(0, a)
    ensures ReservedOk(Reserve(p, a)) && OrderKept(p, Reserve(p, a)) && Reserve(p, a).reserved != []
    ensures |p.reserved| == PAGE_FRAMES ==> FrameOk(0, p.reserved[PAGE_FRAMES - 1])
  {
    var r := if |p.reserved| < PAGE_FRAMES then p.reserved else p.reserved[..|p.reserved| - 1];
    InsertMembers(r, a);
    if Descending(p.reserved) {
      InsertDescending(r, a);
    }
    if |p.reserved| == PAGE_FRAMES {
      assert p.reserved[PAGE_FRAMES - 1] in p.reserved;
    }
  }

  lemma InsertMultiset(r: seq<nat>, a: nat)
    ensures multiset(Insert(r, a)) == multiset(r) + multiset{a}
  {
    var i := Place(r, a);
    assert r == r[..i] + r[i..];
  }

  /** A full list keeps the highest of its entries and the new address: what leaves is a lowest one. */
  lemma ReserveKeepsHighest(p: Pool, a: nat)
    requires ReservedOk(p) && |p.reserved| == PAGE_FRAMES && WouldReserve(p, a) && Descending(p.reserved)
    ensures var low := p.reserved[PAGE_FRAMES - 1];
            && multiset(Reserve(p, a).reserved) + multiset{low} == multiset(p.reserved) + multiset{a}
            && forall b :: b in Reserve(p, a).reserved ==> b >= low
  {
    var r, low := p.reserved[..PAGE_FRAMES - 1], p.reserved[PAGE_FRAMES - 1];
    assert p.reserved == r + [low];
    InsertMultiset(r, a);
    InsertMembers(r, a);
  }

  /** In memory held once, a descending list descends strictly. */
  lemma ReservedStrictly(p: Pool, i: nat, j: nat)
    requires ReservedOk(p) && Descending(p.reserved) && i < j < |p.reserved| && forall x: nat {:trigger Held(p, x)} :: Held(p, x) <= 1
    ensures p.reserved[i] > p.reserved[j]
  {
    var r, a := p.reserved, p.reserved[j];
    FramesHoldConcat(0, r[..j], r[j..], a);
    assert r == r[..j] + r[j..];
    FramesHoldAt(r[j..], 0, a);
    FramesHoldAt(r[..j], i, a);
    assert Held(p, a) <= 1;
  }

  lemma FramesHoldAt(r: seq<nat>, i: nat, x: nat)
    requires i < |r|
    ensures FramesHold(0, r, x) >= In(r[i], r[i] + FRAME, x)
  {
    FramesHoldConcat(0, r[..i] + [r[i]], r[i + 1..], x);
    FramesHoldConcat(0, r[..i], [r[i]], x);
    assert r == r[..i] + [r[i]] + r[i + 1..];
    FramesHoldOne(r[i], x);
  }

  /** The bytes that leave a full list when it takes in a new address. */
  lemma ReserveSwaps(p: Pool, a: nat, x: nat)
    requires |p.reserved| == PAGE_FRAMES
    ensures Held(Reserve(p, a), x) + In(p.reserved[PAGE_FRAMES - 1], p.reserved[PAGE_FRAMES - 1] + FRAME, x) == Held(p, x) + In(a, a + FRAME, x)
  {
    InsertHolds(p.reserved[..PAGE_FRAMES - 1], a, x);
  }

  lemma AcquireEffect(p: Pool)
    requires Inv(p) && p.reserved != []
    ensures var p', a := p.(reserved := p.reserved[1..]), p.reserved[0];
            Inv(p') && Phi(p') == Phi(p) && Pages(p') == Pages(p) && OrderKept(p, p') && Grown(p', p, a, a + FRAME) && FrameOk(0, a)
  {
    var p', a := p.(reserved := p.reserved[1..]), p.reserved[0];
    assert a in p.reserved;
    SameStacks(p, p');
    forall x: nat ensures Held(p, x) == Held(p', x) + In(a, a + FRAME, x) {
      FramesHoldConcat(0, [a], p.reserved[1..], x);
      assert p.reserved == [a] + p.reserved[1..];
      FramesHoldOne(a, x);
    }
  }
}
