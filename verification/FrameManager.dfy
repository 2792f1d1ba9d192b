/**
 `_pmm_alloc`, `_pmm_free` and the reserved stack pages: mutually recursive, on stacks
 that live in the very frames they manage.
 */
module FrameManager {
  import opened Common
  import opened FramePool
  import opened FrameMoves
  import opened FullPages
  import opened FrameOrder
  import opened FrameList

  /** How far an allocation from a stack is from finding a frame on it. */
  function Stage(p: Pool, size: nat, zone: nat): nat
    requires |p.stacks| == 9 && size < 3 && zone < 3
  {
    if TopNonEmpty(p, size, zone) then 0 else if Ready(p, size, zone) then 1 else 2
  }

  /** The insertion loops of `_pmm_try_reserve_as_stack_page`. */
  method InsertEntry(r: seq<nat>, a: nat) returns (q: seq<nat>)
    ensures q == Insert(r, a)
  {
    var index := 0;
    while index < |r| && r[index] >= a
      invariant index <= |r| && (forall k :: 0 <= k < index ==> r[k] >= a)
    {
      index := index + 1;
    }
    assert index == Place(r, a);
    q := r + [a];
    var i := |r|;
    while i > index
      invariant index <= i <= |r| && |q| == |r| + 1
      invariant forall k :: 0 <= k < i ==> q[k] == r[k]
      invariant forall k :: i < k < |q| ==> q[k] == r[k - 1]
    {
      q := q[i := q[i - 1]];
      i := i - 1;
    }
    q := q[index := a];
    assert q == r[..index] + [a] + r[index..];
  }

  // ---------------------------------------------------------------- frames drawn

  predicate FramesOk(fs: seq<nat>) {
    forall f :: f in fs ==> FrameOk(0, f)
  }

  /** `fs` was drawn from `p`, which left `p'`; zeros stand for frames that were not there. */
  ghost predicate Lent(p: Pool, p': Pool, fs: seq<nat>)
    requires |p'.stacks| == 9
  {
    && ZeroTail(fs) && FramesOk(Nonzero(fs)) && (Nonzero(fs) == fs || NothingLeft(p', 0, STD, STD))
    && forall x: nat {:trigger Held(p', x)} :: Held(p', x) + FramesHold(0, Nonzero(fs), x) == Held(p, x)
  }

  lemma LentMore(p: Pool, p1: Pool, p2: Pool, fs: seq<nat>, a: nat, effective: nat)
    requires Inv(p1) && Lent(p, p1, fs) && Taken(p1, p2, 0, STD, STD, a, effective)
    ensures Lent(p, p2, fs + [a])
  {
    ListAppend(fs, a);
    if a != 0 {
      assert (fs + [a])[..|fs|] == fs;
      forall x: nat ensures Held(p2, x) + FramesHold(0, fs + [a], x) == Held(p, x) {
        assert Held(p1, x) + FramesHold(0, fs, x) == Held(p, x);
        assert Held(p1, x) == Held(p2, x) + In(a, a + FRAME, x);
      }
    }
  }

  /** Frames moved onto an empty list are held as before. */
  lemma Listed(p: Pool, r: seq<nat>)
    requires Inv(p) && p.reserved == [] && |r| <= PAGE_FRAMES && FramesOk(r)
    ensures var p' := p.(reserved := r, initialized := true); Inv(p') && forall x: nat {:trigger Held(p', x)} :: Held(p', x) == Held(p, x) + FramesHold(0, r, x)
  {
    var p' := p.(reserved := r, initialized := true);
    forall s: nat, z: nat | s < 3 && z < 3 ensures StackOk(s, z, At(p', s, z)) {
      assert At(p', s, z) == At(p, s, z);
    }
  }

  /** All that an allocation leaves behind. */
  ghost predicate Allotted(p: Pool, p': Pool, size: nat, zone: nat, maxZone: nat, addr: nat, effective: nat)
    requires Inv(p) && size < 3 && zone <= maxZone < 3
  {
    && Taken(p, p', size, zone, maxZone, addr, effective) && TookFull(p, p', size, zone, maxZone, effective) && TookOrder(p, p', size, zone, maxZone, addr, effective)
    && (TopNonEmpty(p, size, zone) ==> p' == PopFrame(p, size, zone) && addr == TopFrame(p, size, zone) && effective == zone)
    && (PageMode(p, size, zone, maxZone) ==> PageKept(p, p', size))
  }

  lemma AllottedByPop(p: Pool, size: nat, zone: nat, maxZone: nat)
    requires Inv(p) && size < 3 && zone <= maxZone < 3 && TopNonEmpty(p, size, zone)
    ensures Allotted(p, PopFrame(p, size, zone), size, zone, maxZone, TopFrame(p, size, zone), zone)
  {
    TakenByPop(p, size, zone, maxZone);
    TookByPop(p, size, zone, maxZone);
    OrderByPop(p, size, zone, maxZone);
    if PageMode(p, size, zone, maxZone) {
      KeptByPop(p, size, zone, maxZone);
    }
  }

  lemma AllottedAsPage(p: Pool, zone: nat, maxZone: nat)
    requires Inv(p) && zone <= maxZone < 3 && Turns(p, 0, zone) && PageZone(p, 0, zone) <= zone
    ensures Allotted(p, PopPage(p, 0, zone), 0, zone, maxZone, Top(At(p, 0, zone)).addr, PageZone(p, 0, zone))
  {
    TakenAsPage(p, zone, maxZone);
    TookAsPage(p, zone, maxZone, PageZone(p, 0, zone));
    OrderAsOwnPage(p, zone, maxZone, PageZone(p, 0, zone));
    if PageMode(p, 0, zone, maxZone) {
      KeptByPage(p, 0, zone, maxZone);
    }
  }

  lemma AllottedBelow(p: Pool, p2: Pool, p3: Pool, size: nat, zone: nat, maxZone: nat, addr: nat, effective: nat)
    requires Inv(p) && size < 3 && zone <= maxZone < 3 && Turns(p, size, zone) && Requeued(p, p2, size, zone) && TurnedFull(p, p2, size, zone)
    requires PageMode(p, size, zone, STD) ==> AheadSame(p, p2, size, zone) && TopNonEmpty(p2, size, zone)
    requires Allotted(p2, p3, size, zone, zone, addr, effective)
    ensures addr != 0 && Allotted(p, p3, size, zone, maxZone, addr, effective)
  {
    TakenBelow(p, p2, p3, size, zone, maxZone, addr, effective);
    TookBelow(p, p2, p3, size, zone, maxZone, effective);
    if TopNonEmpty(p2, size, zone) {
      OrderBelow(p, p2, size, zone, maxZone);
    }
    if PageMode(p, size, zone, maxZone) {
      KeptBelow(p, p2, size, zone, maxZone);
    }
  }

  lemma AllottedFromLower(p: Pool, p': Pool, size: nat, zone: nat, maxZone: nat, addr: nat, effective: nat)
    requires Inv(p) && size < 3 && 0 < zone <= maxZone < 3 && Exhausted(p, size, zone) && Allotted(p, p', size, zone - 1, maxZone, addr, effective)
    ensures Allotted(p, p', size, zone, maxZone, addr, effective)
  {
    TakenFromLower(p, p', size, zone, maxZone, addr, effective);
    TookLower(p, p', size, zone, maxZone, effective);
    OrderFromLower(p, p', size, zone, maxZone, addr, effective);
  }

  lemma AllottedNothing(p: Pool, maxZone: nat)
    requires Inv(p) && maxZone < 3 && Exhausted(p, 2, 0)
    ensures Allotted(p, p, 2, 0, maxZone, 0, 0)
  {
    TakenNothing(p, maxZone);
    TookNothing(p, 2, maxZone);
    OrderNothing(p, maxZone);
  }

  lemma AllottedNoSplit(p: Pool, size: nat, maxZone: nat, effective: nat)
    requires Inv(p) && size < 2 && maxZone < 3 && Exhausted(p, size, 0) && NothingLeft(p, size + 1, maxZone, maxZone)
    requires TookOrder(p, p, size + 1, maxZone, maxZone, 0, effective)
    ensures Allotted(p, p, size, 0, maxZone, 0, 0)
  {
    TakenNoSplit(p, size, maxZone);
    TookNothing(p, size, maxZone);
    OrderNoSplit(p, size, maxZone, effective);
  }

  lemma AllottedBySplit(p: Pool, p1: Pool, p2: Pool, size: nat, maxZone: nat, addr: nat, effective: nat)
    requires Inv(p) && size < 2 && maxZone < 3 && effective < 3 && Exhausted(p, size, 0) && addr != 0
    requires Allotted(p, p1, size + 1, maxZone, maxZone, addr, effective) && Split(p1, p2, size, addr, 512) && SplitFull(p1, p2, size, effective)
    requires PartsOrder(p1, p2, size, effective, addr, 512)
    ensures Allotted(p, p2, size, 0, maxZone, addr, effective)
  {
    TakenBySplit(p, p1, p2, size, maxZone, addr, effective);
    TookSplit(p, p1, p2, size, maxZone, effective);
    OrderBySplit(p, p1, p2, size, maxZone, addr, effective);
    if PageMode(p, size, 0, maxZone) {
      assert PageMode(p, size + 1, maxZone, maxZone);
      KeptBySplit(p, p1, p2, size);
    }
  }

  /** The parts of a larger frame before part `parts`, but for the first, are free. */
  ghost predicate PartsFreed(p: Pool, p': Pool, size: nat, zone: nat, a: nat, parts: nat)
    requires Inv(p) && size < 2 && zone < 3
  {
    Split(p, p', size, a, parts) && PartsFull(p, p', size, zone, parts) && PartsOrder(p, p', size, zone, a, parts)
  }

  lemma PartsFreedStart(p: Pool, size: nat, zone: nat, a: nat)
    requires Inv(p) && size < 2 && zone < 3
    ensures PartsFreed(p, p, size, zone, a, 1)
  {
    SplitStart(p, size, a);
    PartsStart(p, size, zone);
    PartsOrderStart(p, size, zone, a);
  }

  lemma PartsFreedStep(p: Pool, p2: Pool, p3: Pool, size: nat, zone: nat, a: nat, part: nat)
    requires Inv(p) && size < 2 && zone < 3 && 1 <= part < 512 && PartsFreed(p, p2, size, zone, a, part)
    requires var b := a + part * PageBytes(size); Freed(p2, p3, size, zone, b) && FreedFull(p2, p3, size, zone) && FreedOrder(p2, p3, size, zone, b)
    ensures PartsFreed(p, p3, size, zone, a, part + 1)
  {
    SplitStep(p, p2, p3, size, zone, a, part);
    PartsStep(p, p2, p3, size, zone, part, a + part * PageBytes(size));
    PartsOrderStep(p, p2, p3, size, zone, a, part);
  }

  /** An empty top page was dropped and reserved or freed. */
  ghost predicate TurnedOver(p: Pool, p': Pool, size: nat, zone: nat)
    requires Inv(p) && size < 3 && zone < 3 && Turns(p, size, zone)
  {
    && Requeued(p, p', size, zone) && TurnedFull(p, p', size, zone) && Stage(p', size, zone) < Stage(p, size, zone)
    && (PageMode(p, size, zone, STD) ==> AheadSame(p, p', size, zone) && TopNonEmpty(p', size, zone))
  }

  lemma OverByReserve(p: Pool, p1: Pool, p': Pool, size: nat, zone: nat, page: nat)
    requires Inv(p) && size < 3 && zone < 3 && Turns(p, size, zone) && p1 == PopPage(p, size, zone) && page == Top(At(p, size, zone)).addr
    requires Inv(p1) && WouldReserve(p, page) && Reserved(p1, p', page) && ReservedFull(p1, p')
    ensures TurnedOver(p, p', size, zone)
  {
    RequeuedByReserve(p, p', size, zone);
    TurnedByReserve(p, p', size, zone);
    if p.reserved == [] {
      AheadByReserve(p, p', size, zone);
    }
  }

  lemma OverByFree(p: Pool, p1: Pool, p': Pool, size: nat, zone: nat, page: nat)
    requires Inv(p) && size < 3 && zone < 3 && Turns(p, size, zone) && p1 == PopPage(p, size, zone) && page == Top(At(p, size, zone)).addr
    requires var z := GetZone(0, page); Inv(p1) && !WouldReserve(p, page) && (size > 0 || z > zone) && Freed(p1, p', 0, z, page) && FreedFull(p1, p', 0, z)
    ensures TurnedOver(p, p', size, zone)
  {
    RequeuedByFree(p, p', size, zone, GetZone(0, page));
    TurnedByFree(p, p', size, zone);
    if PageMode(p, size, zone, STD) {
      AheadByFree(p, p', size, zone, STD, GetZone(0, page), page);
    }
  }

  class Pmm {
    var stacks: seq<seq<Page>>
    /** The page that lists reserved frames, with zeros behind them. */
    var list: seq<nat>
    var initialized: bool

    ghost function Pool(): Pool
      reads this
    {
      FramePool.Pool(stacks, Nonzero(list), initialized)
    }

    ghost predicate Valid()
      reads this
    {
      Inv(Pool()) && ListOk(list)
    }

    /** Nine static, empty stack pages; no frame reserved. */
    constructor (pages: seq<nat>)
      requires |pages| == 9
      ensures Valid() && !initialized && Full(Pool()) && NothingLeft(Pool(), 0, STD, STD) && list == [] && forall x: nat :: Held(Pool(), x) == 0
    {
      stacks := seq(9, i requires 0 <= i < 9 => [Page(pages[i], [])]);
      list := [];
      initialized := false;
      new;
      assert |stacks| == 9;
      forall s: nat, z: nat | s < 3 && z < 3 ensures Exhausted(Pool(), s, z) && FullBelow(At(Pool(), s, z)) {
      }
      forall x: nat ensures Held(Pool(), x) == 0 {
        EmptyHolds(stacks, |stacks|, x);
      }
    }

    /** `_pmm_try_reserve_as_stack_page`. */
    method TryReserve(addr: nat) returns (ok: bool)
      requires Valid() && FrameOk(0, addr)
      modifies this
      ensures Valid() && (ok <==> old(WouldReserve(Pool(), addr)))
      ensures !ok ==> Pool() == old(Pool())
      ensures ok ==> Reserved(old(Pool()), Pool(), addr) && ReservedFull(old(Pool()), Pool())
      decreases Phi(Pool()), Pages(Pool()), 1, addr, 0
    {
      if !initialized {
        return false;
      }
      if |list| == PAGE_FRAMES {
        ListSwap(Pool(), list, addr);
        if list[|list| - 1] >= addr {
          return false;
        }
        Displace(addr);
      } else {
        ReservedDirectly(Pool(), addr);
        ReservedFullDirectly(Pool(), addr);
        ListInsert(list, addr);
        list := InsertEntry(list, addr);
      }
      ok := true;
    }

    /** The list is full: `addr` takes the place of the last entry, which is freed unless it is 0. */
    method Displace(addr: nat)
      requires Valid() && FrameOk(0, addr) && |list| == PAGE_FRAMES && list[PAGE_FRAMES - 1] < addr && WouldReserve(Pool(), addr)
      modifies this
      ensures Valid() && Reserved(old(Pool()), Pool(), addr) && ReservedFull(old(Pool()), Pool())
      decreases Phi(Pool()), Pages(Pool()), 1, addr, 0, 0
    {
      ghost var p := Pool();
      var removed := list[|list| - 1];
      ReserveEffect(p, addr);
      ListSwap(p, list, addr);
      list := InsertEntry(list[..|list| - 1], addr);
      assert Pool() == Reserve(p, addr);
      if removed != 0 {
        Free(0, GetZone(0, removed), removed);
        ReservedBySwap(p, Pool(), addr, removed, GetZone(0, removed));
        DisplacedFull(p, Pool(), addr, GetZone(0, removed));
      } else {
        ReservedDirectly(p, addr);
        ReservedFullDirectly(p, addr);
      }
    }

    /** `_pmm_acquire_stack_page` and the allocation behind it: a page for a full stack is always found. */
    method StackPage(ghost size: nat, ghost zone: nat) returns (page: nat)
      requires Valid() && size < 3 && zone < 3 && TopFull(Pool(), size, zone)
      modifies this
      ensures Valid() && page != 0 && PageGot(old(Pool()), Pool(), size, zone, page) && GotFull(old(Pool()), Pool(), size, zone) && GotOrder(old(Pool()), Pool(), size, zone)
      decreases Phi(Pool()), Pages(Pool()), 0, 9, 0, 0
    {
      ghost var p := Pool();
      page := 0;
      if |list| > 0 {
        ListTail(list);
        page := list[0];
        list := list[1..];
      }
      if page != 0 {
        GotByAcquire(p, size, zone);
        GotFullByAcquire(p, size, zone);
        OrderByAcquire(p, size, zone);
      } else {
        assert Pool() == p;
        var effective;
        page, effective := Alloc(0, STD, STD);
        GotByAlloc(p, Pool(), size, zone, page, effective);
        GotFullByAlloc(p, Pool(), size, zone, effective);
        OrderByAlloc(p, Pool(), size, zone, page, effective);
      }
    }

    /** `_pmm_free`. */
    method Free(size: nat, zone: nat, addr: nat)
      requires Valid() && size < 3 && zone < 3 && FrameOk(size, addr) && GetZone(size, addr) <= zone
      modifies this
      ensures Valid() && Freed(old(Pool()), Pool(), size, zone, addr) && FreedFull(old(Pool()), Pool(), size, zone) && FreedOrder(old(Pool()), Pool(), size, zone, addr)
      decreases Phi(Pool()), Pages(Pool()), 1, addr, 1
    {
      ghost var p := Pool();
      if size == 0 {
        var ok := TryReserve(addr);
        if ok {
          FreedByReserve(p, Pool(), zone, addr);
          FreedFullByReserve(p, Pool(), zone, addr);
          return;
        }
      }
      var i := 3 * size + zone;
      assert stacks[i] == At(p, size, zone);
      var top := Top(stacks[i]);
      if |top.frames| != PAGE_FRAMES {
        FreedByPush(p, size, zone, addr);
        FreedFullByPush(p, size, zone, addr);
        OrderByPush(p, size, zone, addr);
        stacks := stacks[i := AddFrame(stacks[i], addr)];
        return;
      }
      if size == 0 && zone == STD {
        FreedAsPage(p, addr);
        FreedFullAsPage(p, addr);
        OrderAsPage(p, addr);
        stacks := stacks[i := AddPage(stacks[i], addr)];
        return;
      }
      FreeOnNewPage(size, zone, addr);
    }

    /** The top page is full: the frame goes onto a new one. */
    method FreeOnNewPage(size: nat, zone: nat, addr: nat)
      requires Valid() && size < 3 && zone < 3 && FrameOk(size, addr) && GetZone(size, addr) <= zone
      requires TopFull(Pool(), size, zone) && !(size == 0 && zone == STD) && (size == 0 ==> !WouldReserve(Pool(), addr))
      modifies this
      ensures Valid() && Freed(old(Pool()), Pool(), size, zone, addr) && FreedFull(old(Pool()), Pool(), size, zone) && FreedOrder(old(Pool()), Pool(), size, zone, addr)
      decreases Phi(Pool()), Pages(Pool()), 1, addr, 0
    {
      ghost var p := Pool();
      var i := 3 * size + zone;
      var page := StackPage(size, zone);
      FreedByPage(p, Pool(), size, zone, page, addr);
      FreedFullByPage(p, Pool(), size, zone, page, addr);
      OrderByPage(p, Pool(), size, zone, page, addr);
      ghost var p1 := Pool();
      stacks := stacks[i := AddPage(stacks[i], page)];
      stacks := stacks[i := AddFrame(stacks[i], addr)];
      assert Pool() == Paged(p1, size, zone, page, addr);
    }

    /** `_pmm_alloc`. */
    method Alloc(size: nat, zone: nat, maxZone: nat) returns (addr: nat, effective: nat)
      requires Valid() && size < 3 && zone <= maxZone < 3
      modifies this
      ensures Valid() && Allotted(old(Pool()), Pool(), size, zone, maxZone, addr, effective)
      decreases Phi(Pool()), Pages(Pool()), 0, 3 * (2 - size) + zone, Stage(Pool(), size, zone), 1
    {
      ghost var p := Pool();
      var i := 3 * size + zone;
      assert stacks[i] == At(p, size, zone);
      var top := Top(stacks[i]);
      if |top.frames| != 0 {
        AllottedByPop(p, size, zone, maxZone);
        addr, effective := top.frames[|top.frames| - 1], zone;
        stacks := stacks[i := TakeFrame(stacks[i])];
      } else if |stacks[i]| > 1 {
        addr, effective := AllocBelow(size, zone, maxZone);
      } else if zone > 0 {
        addr, effective := Alloc(size, zone - 1, maxZone);
        AllottedFromLower(p, Pool(), size, zone, maxZone, addr, effective);
      } else if size < 2 {
        addr, effective := AllocSplit(size, maxZone);
      } else {
        addr, effective := 0, 0;
        AllottedNothing(p, maxZone);
      }
    }

    /** `pmm_allocsz`. */
    method AllocFrame(size: nat, zone: nat) returns (addr: nat)
      requires Valid() && size < 3 && zone < 3
      modifies this
      ensures Valid() && Step(old(Pool()), Pool(), [], Allocated(size, zone, addr))
      ensures addr == 0 <==> old(NothingLeft(Pool(), size, zone, zone))
      ensures addr == 0 ==> Pool() == old(Pool())
      ensures addr != 0 ==> addr % PageBytes(size) == 0 && addr + PageBytes(size) - 1 <= ZoneEnd(zone)
      ensures old(initialized && Full(Pool())) ==> (Full(Pool()) <==> old(AllocKeeps(Pool(), size, zone, zone)))
      ensures size == 0 && zone == STD && old(!initialized && Full(Pool())) ==> (Full(Pool()) <==> old(SearchKeeps(Pool(), 0)))
    {
      ghost var p := Pool();
      var effective;
      addr, effective := Alloc(size, zone, zone);
      if size == 0 && zone == STD && !p.initialized && Full(p) {
        SearchedFull(p, Pool(), effective);
      }
    }

    /** `n` allocations of 4K frames from all zones, as `pmm_init` makes them for the list and for auxiliary memory. */
    method Draw(n: nat) returns (frames: seq<nat>)
      requires Valid()
      modifies this
      ensures Valid() && initialized == old(initialized) && OrderKept(old(Pool()), Pool())
      ensures |frames| == n && ZeroTail(frames) && FramesOk(Nonzero(frames)) && (|Nonzero(frames)| < n ==> NothingLeft(Pool(), 0, STD, STD))
      ensures forall x: nat {:trigger Held(Pool(), x)} :: Held(Pool(), x) + FramesHold(0, Nonzero(frames), x) == old(Held(Pool(), x))
      ensures !initialized ==> Drawn(old(DrainFrom(Pool(), STD)), old(First(Pool(), 1, STD)), Pool(), frames)
    {
      ghost var p := Pool();
      frames := [];
      DrawnStart(p, STD);
      while |frames| < n
        invariant |frames| <= n && Valid() && initialized == p.initialized && OrderKept(p, Pool())
        invariant Lent(p, Pool(), frames) && (!initialized ==> Drawn(DrainFrom(p, STD), First(p, 1, STD), Pool(), frames))
      {
        ghost var before := Pool();
        var addr, effective := Alloc(0, STD, STD);
        LentMore(p, before, Pool(), frames, addr, effective);
        if !initialized {
          DrawnStep(DrainFrom(p, STD), First(p, 1, STD), before, Pool(), frames, addr, effective);
        }
        frames := frames + [addr];
      }
    }

    /** The last loop of `pmm_init`: frames are drawn onto the list, and it is in use from now on. */
    method FillList()
      requires Valid() && !initialized
      modifies this
      ensures Valid() && initialized && |list| == PAGE_FRAMES && forall x: nat {:trigger Held(Pool(), x)} :: Held(Pool(), x) == old(Held(Pool(), x))
      ensures Descending(list) <==> old(ListFalls(Pool()))
    {
      ghost var p := Pool();
      var frames := Draw(PAGE_FRAMES);
      ghost var p1 := Pool();
      DrawnFalls(DrainFrom(p, STD), First(p, 1, STD), p1, frames);
      list, initialized := frames, true;
      Listed(p1, Nonzero(list));
      forall x: nat ensures Held(Pool(), x) == Held(p, x) {
        assert Held(p1, x) + FramesHold(0, Nonzero(frames), x) == Held(p, x);
      }
    }

    /** `pmm_frees`. */
    method FreeFrame(size: nat, addr: nat)
      requires Valid() && size < 3 && FrameOk(size, addr)
      modifies this
      ensures Valid() && Step(old(Pool()), Pool(), [(size, addr)], Released(0, size, addr))
      ensures old(Full(Pool())) ==> (Full(Pool()) <==> old(FreeKeeps(Pool(), size, GetZone(size, addr))))
    {
      Free(size, GetZone(size, addr), addr);
    }

    /** The top page is empty: it goes back to the pool, or out, and the page below takes over. */
    method AllocBelow(size: nat, zone: nat, maxZone: nat) returns (addr: nat, effective: nat)
      requires Valid() && size < 3 && zone <= maxZone < 3 && !TopNonEmpty(Pool(), size, zone) && |At(Pool(), size, zone)| > 1
      modifies this
      ensures Valid() && addr != 0 && Allotted(old(Pool()), Pool(), size, zone, maxZone, addr, effective)
      decreases Phi(Pool()), Pages(Pool()), 0, 3 * (2 - size) + zone, Stage(Pool(), size, zone), 0
    {
      ghost var p := Pool();
      var out, page := Requeue(size, zone);
      if out {
        AllottedAsPage(p, zone, maxZone);
        return page, GetZone(0, page);
      }
      ghost var p2 := Pool();
      addr, effective := Alloc(size, zone, zone);
      AllottedBelow(p, p2, Pool(), size, zone, maxZone, addr, effective);
    }

    /** Drop an empty top page: reserve it, hand it out (`out`) or free it. */
    method Requeue(size: nat, zone: nat) returns (out: bool, page: nat)
      requires Valid() && size < 3 && zone < 3 && !TopNonEmpty(Pool(), size, zone) && |At(Pool(), size, zone)| > 1
      modifies this
      ensures Valid() && page == old(Top(At(Pool(), size, zone)).addr)
      ensures out ==> size == 0 && GetZone(0, page) <= zone && Pool() == PopPage(old(Pool()), size, zone)
      ensures !out ==> TurnedOver(old(Pool()), Pool(), size, zone)
      decreases Phi(Pool()), Pages(Pool()), 0, 0, 0, 0
    {
      ghost var p := Pool();
      var i := 3 * size + zone;
      assert stacks[i] == At(p, size, zone);
      page := Top(stacks[i]).addr;
      PopPageEffect(p, size, zone);
      stacks := stacks[i := DropPage(stacks[i])];
      ghost var p1 := Pool();
      assert p1 == PopPage(p, size, zone);
      var ok := TryReserve(page);
      if ok {
        OverByReserve(p, p1, Pool(), size, zone, page);
        return false, page;
      }
      var stackZone := GetZone(0, page);
      if size == 0 && stackZone <= zone {
        return true, page;
      }
      Free(0, stackZone, page);
      OverByFree(p, p1, Pool(), size, zone, page);
      out := false;
    }

    /** No frame of this size is left: split one of the next size. */
    method AllocSplit(size: nat, maxZone: nat) returns (addr: nat, effective: nat)
      requires Valid() && size < 2 && maxZone < 3 && Exhausted(Pool(), size, 0)
      modifies this
      ensures Valid() && Allotted(old(Pool()), Pool(), size, 0, maxZone, addr, effective)
      decreases Phi(Pool()), Pages(Pool()), 0, 3 * (2 - size), Stage(Pool(), size, 0), 0
    {
      ghost var p := Pool();
      addr, effective := Alloc(size + 1, maxZone, maxZone);
      if addr == 0 {
        AllottedNoSplit(p, size, maxZone, effective);
        effective := 0;
        return;
      }
      ghost var p1 := Pool();
      FreeParts(size, effective, addr);
      AllottedBySplit(p, p1, Pool(), size, maxZone, addr, effective);
    }

    /** Free the parts of a larger frame, but for the first. */
    method FreeParts(size: nat, zone: nat, a: nat)
      requires Valid() && size < 2 && zone < 3 && FrameOk(size + 1, a) && GetZone(size + 1, a) <= zone
      modifies this
      ensures Valid() && Split(old(Pool()), Pool(), size, a, 512) && SplitFull(old(Pool()), Pool(), size, zone) && PartsOrder(old(Pool()), Pool(), size, zone, a, 512)
      decreases Phi(Pool()) + 511 * Weight(size) + 1, 0, 0, 0, 0, 0
    {
      ghost var p1 := Pool();
      var part := 1;
      PartsFreedStart(p1, size, zone, a);
      while part < 512
        invariant 1 <= part <= 512 && Valid() && PartsFreed(p1, Pool(), size, zone, a, part)
      {
        ghost var p2 := Pool();
        SubFrame(size, a, part);
        Free(size, zone, a + part * PageBytes(size));
        PartsFreedStep(p1, p2, Pool(), size, zone, a, part);
        part := part + 1;
      }
      PartsEnd(p1, Pool(), size, zone);
    }
  }

  // ---------------------------------------------------------------- a partly filled page

  const FIRST_DMA32: nat := 0x100_0000

  /** A new manager with the first page of DMA32 frames full. */
  method FillPage(pages: seq<nat>) returns (pmm: Pmm)
    requires |pages| == 9
    ensures fresh(pmm) && pmm.Valid() && Full(pmm.Pool()) && !pmm.initialized && !FreeKeeps(pmm.Pool(), 0, 1)
    ensures forall x: nat {:trigger Held(pmm.Pool(), x)} :: Held(pmm.Pool(), x) == In(FIRST_DMA32, FIRST_DMA32 + FRAME * PAGE_FRAMES, x)
  {
    pmm := new Pmm(pages);
    ghost var p0 := pmm.Pool();
    assert Exhausted(p0, 0, 1) && Exhausted(p0, 0, 2);
    var k := 0;
    while k < PAGE_FRAMES
      invariant 0 <= k <= PAGE_FRAMES && pmm.Valid() && Pushed(p0, pmm.Pool(), 0, 1, k)
      invariant forall x: nat {:trigger Held(pmm.Pool(), x)} :: Held(pmm.Pool(), x) == In(FIRST_DMA32, FIRST_DMA32 + FRAME * k, x)
      modifies pmm
    {
      ghost var p := pmm.Pool();
      Dma32Frame(k);
      pmm.Free(0, 1, FIRST_DMA32 + FRAME * k);
      PushedMore(p0, p, 0, 1, k, FIRST_DMA32 + FRAME * k);
      GrownOn(p, pmm.Pool(), k);
      k := k + 1;
    }
    PushedFull(p0, pmm.Pool(), 0, 1, k);
    PushedBefore(p0, pmm.Pool(), 0, 1, k);
  }

  /**
   511 frames of the DMA32 zone, freed one after the other before the list of reserved pages is
   set up: the last one needs a stack page, which is taken off the page it is put on.
   */
  method Starve(pages: seq<nat>) returns (pmm: Pmm)
    requires |pages| == 9
    ensures pmm.Valid() && !Full(pmm.Pool()) && !FullBelow(At(pmm.Pool(), 0, 1))
    ensures forall x: nat {:trigger Held(pmm.Pool(), x)} :: Held(pmm.Pool(), x) == In(FIRST_DMA32, FIRST_DMA32 + FRAME * (PAGE_FRAMES + 1), x)
  {
    pmm := FillPage(pages);
    ghost var p := pmm.Pool();
    Dma32Frame(PAGE_FRAMES);
    pmm.Free(0, 1, FIRST_DMA32 + FRAME * PAGE_FRAMES);
    GrownOn(p, pmm.Pool(), PAGE_FRAMES);
  }

  lemma Dma32Frame(k: nat)
    requires k <= PAGE_FRAMES
    ensures FrameOk(0, FIRST_DMA32 + FRAME * k) && GetZone(0, FIRST_DMA32 + FRAME * k) == 1
  {
    Multiple4K(0x1000 + k);
  }

  lemma GrownOn(p: Pool, p': Pool, k: nat)
    requires Grown(p, p', FIRST_DMA32 + FRAME * k, FIRST_DMA32 + FRAME * k + FRAME)
    requires forall x: nat {:trigger Held(p, x)} :: Held(p, x) == In(FIRST_DMA32, FIRST_DMA32 + FRAME * k, x)
    ensures forall x: nat {:trigger Held(p', x)} :: Held(p', x) == In(FIRST_DMA32, FIRST_DMA32 + FRAME * (k + 1), x)
  {
    forall x: nat ensures Held(p', x) == In(FIRST_DMA32, FIRST_DMA32 + FRAME * (k + 1), x) {
      assert Held(p', x) == Held(p, x) + In(FIRST_DMA32 + FRAME * k, FIRST_DMA32 + FRAME * k + FRAME, x);
    }
  }

  // ---------------------------------------------------------------- whole runs

  /** A call of the manager, seen from outside. */
  datatype Event = Allocated(size: nat, zone: nat, addr: nat) | Released(index: nat, size: nat, addr: nat)

  /** How often the live allocations hold byte `x`. */
  function LiveHolds(live: seq<(nat, nat)>, x: nat): nat {
    if live == [] then 0 else LiveHolds(live[..|live| - 1], x) + Covers(live[|live| - 1].0, live[|live| - 1].1, x)
  }

  /** The live allocations after an event. */
  function LiveAfter(live: seq<(nat, nat)>, e: Event): seq<(nat, nat)> {
    match e
    case Allocated(size, zone, a) => if a == 0 then live else live + [(size, a)]
    case Released(i, size, a) => if i < |live| then live[..i] + live[i + 1..] else live
  }

  /** One call as the contracts of `AllocFrame` and `FreeFrame` describe it. */
  ghost predicate Step(p: Pool, p': Pool, live: seq<(nat, nat)>, e: Event) {
    && Inv(p)
    && match e
       case Allocated(size, zone, a) => size < 3 && zone < 3 && exists effective :: Taken(p, p', size, zone, zone, a, effective)
       case Released(i, size, a) => size < 3 && i < |live| && live[i] == (size, a) && Freed(p, p', size, GetZone(size, a), a)
  }

  /** A run of calls from pool `ps[0]` with allocations `live`. */
  ghost predicate Run(ps: seq<Pool>, live: seq<(nat, nat)>, es: seq<Event>)
    decreases |es|
  {
    |ps| == |es| + 1 && (es != [] ==> Step(ps[0], ps[1], live, es[0]) && Run(ps[1..], LiveAfter(live, es[0]), es[1..]))
  }

  function LiveAtEnd(live: seq<(nat, nat)>, es: seq<Event>): seq<(nat, nat)>
    decreases |es|
  {
    if es == [] then live else LiveAtEnd(LiveAfter(live, es[0]), es[1..])
  }

  lemma {:induction false} LiveConcat(a: seq<(nat, nat)>, b: seq<(nat, nat)>, x: nat)
    ensures LiveHolds(a + b, x) == LiveHolds(a, x) + LiveHolds(b, x)
    decreases |b|
  {
    if b == [] {
      assert a + b == a;
    } else {
      LiveConcat(a, b[..|b| - 1], x);
      assert (a + b)[..|a + b| - 1] == a + b[..|b| - 1];
    }
  }

  lemma LiveOne(c: (nat, nat), x: nat)
    ensures LiveHolds([c], x) == Covers(c.0, c.1, x)
  {
    assert [c][..0] == [];
  }

  lemma StepConserves(p: Pool, p': Pool, live: seq<(nat, nat)>, e: Event, x: nat)
    requires Step(p, p', live, e)
    ensures Held(p', x) + LiveHolds(LiveAfter(live, e), x) == Held(p, x) + LiveHolds(live, x)
  {
    match e
    case Allocated(size, zone, a) =>
      LiveConcat(live, [(size, a)], x);
      LiveOne((size, a), x);
      assert a != 0 ==> Held(p, x) == Held(p', x) + In(a, a + PageBytes(size), x);
    case Released(i, size, a) =>
      LiveConcat(live[..i], live[i + 1..], x);
      LiveAt(live, i, x);
      assert Held(p', x) == Held(p, x) + In(a, a + PageBytes(size), x);
  }

  /** Over any run of calls every byte is held as often as before: in the pool or by a live allocation. */
  lemma {:induction false} RunConserves(ps: seq<Pool>, live: seq<(nat, nat)>, es: seq<Event>, x: nat)
    requires Run(ps, live, es)
    ensures Held(ps[|es|], x) + LiveHolds(LiveAtEnd(live, es), x) == Held(ps[0], x) + LiveHolds(live, x)
    decreases |es|
  {
    if es != [] {
      StepConserves(ps[0], ps[1], live, es[0], x);
      RunConserves(ps[1..], LiveAfter(live, es[0]), es[1..], x);
    }
  }

  /** Over any run of calls a descending list of reserved pages stays one. */
  lemma {:induction false} RunKeepsOrder(ps: seq<Pool>, live: seq<(nat, nat)>, es: seq<Event>)
    requires Run(ps, live, es) && Descending(ps[0].reserved)
    ensures Descending(ps[|es|].reserved)
    decreases |es|
  {
    if es != [] {
      RunKeepsOrder(ps[1..], LiveAfter(live, es[0]), es[1..]);
    }
  }

  /** Where every byte is held at most once, live allocations are disjoint and outside the pool. */
  lemma LiveDisjoint(p: Pool, live: seq<(nat, nat)>, i: nat, j: nat, x: nat)
    requires i < j < |live| && Held(p, x) + LiveHolds(live, x) <= 1
    ensures Covers(live[i].0, live[i].1, x) + Covers(live[j].0, live[j].1, x) + Held(p, x) <= 1
  {
    LiveAt(live, j, x);
    LiveAt(live[..j], i, x);
  }

  lemma LiveAt(live: seq<(nat, nat)>, i: nat, x: nat)
    requires i < |live|
    ensures LiveHolds(live, x) == LiveHolds(live[..i], x) + Covers(live[i].0, live[i].1, x) + LiveHolds(live[i + 1..], x)
  {
    LiveConcat(live[..i], [live[i]], x);
    LiveConcat(live[..i] + [live[i]], live[i + 1..], x);
    assert live == live[..i] + [live[i]] + live[i + 1..];
    LiveOne(live[i], x);
  }

  /** From disjoint memory, a run never hands out memory that is in use, in a list or holding a stack page. */
  lemma RunDisjoint(ps: seq<Pool>, es: seq<Event>, i: nat, j: nat, x: nat)
    requires Run(ps, [], es) && Held(ps[0], x) <= 1 && i < j < |LiveAtEnd([], es)|
    ensures var live := LiveAtEnd([], es); Covers(live[i].0, live[i].1, x) + Covers(live[j].0, live[j].1, x) + Held(ps[|es|], x) <= 1
  {
    RunConserves(ps, [], es, x);
    LiveDisjoint(ps[|es|], LiveAtEnd([], es), i, j, x);
  }

  lemma TakenFromLower(p: Pool, p': Pool, size: nat, zone: nat, maxZone: nat, a: nat, effective: nat)
    requires Inv(p) && size < 3 && 0 < zone <= maxZone < 3 && Exhausted(p, size, zone) && Taken(p, p', size, zone - 1, maxZone, a, effective)
    ensures Taken(p, p', size, zone, maxZone, a, effective)
  {
  }

  lemma TakenNothing(p: Pool, maxZone: nat)
    requires Inv(p) && maxZone < 3 && Exhausted(p, 2, 0)
    ensures Taken(p, p, 2, 0, maxZone, 0, 0)
    ensures PageMode(p, 2, 0, maxZone) ==> PageKept(p, p, 2)
  {
  }

  lemma TakenNoSplit(p: Pool, size: nat, maxZone: nat)
    requires Inv(p) && size < 2 && maxZone < 3 && Exhausted(p, size, 0) && NothingLeft(p, size + 1, maxZone, maxZone)
    ensures NothingLeft(p, size, 0, maxZone)
    ensures PageMode(p, size, 0, maxZone) ==> PageKept(p, p, size)
  {
  }

  lemma SplitStart(p: Pool, size: nat, a: nat)
    requires Inv(p)
    ensures Split(p, p, size, a, 1)
  {
    var lo, hi := a + PageBytes(size), a + 1 * PageBytes(size);
    forall x: nat ensures In(lo, hi, x) == 0 {
    }
  }

  lemma SplitStep(p1: Pool, p2: Pool, p3: Pool, size: nat, zone: nat, a: nat, part: nat)
    requires Inv(p1) && size < 2 && zone < 3 && 1 <= part < 512 && Split(p1, p2, size, a, part) && Freed(p2, p3, size, zone, a + part * PageBytes(size))
    ensures Split(p1, p3, size, a, part + 1)
  {
    var b := PageBytes(size);
    assert (part + 1) * b == part * b + b;
    forall x: nat ensures Held(p3, x) == Held(p1, x) + In(a + b, a + (part + 1) * b, x) {
      assert Held(p2, x) == Held(p1, x) + In(a + b, a + part * b, x);
    }
    forall s: nat, z: nat | size < s < 3 && z < 3 ensures At(p3, s, z) == At(p1, s, z) {
      assert At(p2, s, z) == At(p1, s, z);
    }
  }

  lemma {:induction false} EmptyHolds(stacks: seq<seq<Page>>, n: nat, x: nat)
    requires n <= |stacks| && forall i :: 0 <= i < |stacks| ==> |stacks[i]| == 1 && stacks[i][0].frames == []
    ensures StacksHold(stacks, n, x) == 0
    decreases n
  {
    if n > 0 {
      EmptyHolds(stacks, n - 1, x);
      assert stacks[n - 1][..0] == [];
      assert StackHolds((n - 1) / 3, stacks[n - 1], x) == 0;
    }
  }

  lemma ReservedDirectly(p: Pool, a: nat)
    requires Inv(p) && WouldReserve(p, a) && FrameOk(0, a) && |p.reserved| < PAGE_FRAMES
    ensures Reserved(p, Reserve(p, a), a)
  {
    ReserveEffect(p, a);
    forall s: nat, z: nat | s < 3 && z < 3 ensures At(Reserve(p, a), s, z) == At(p, s, z) && (TopNonEmpty(p, s, z) ==> Ready(Reserve(p, a), s, z)) {
      assert At(Reserve(p, a), s, z) == At(p, s, z);
    }
  }
}
