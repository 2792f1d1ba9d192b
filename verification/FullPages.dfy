/**
 When the pages of the stacks below the top stay full, which the sort of a stack relies on.
 A page is put on a stack when its top page is full. It comes from the reserved list or from
 a search for a 4K frame through all stacks; only where that search takes a frame from the
 very stack to be extended, or splits a frame onto such a stack, a page is left partly filled.
 */
module FullPages {
  import opened FramePool
  import opened FrameMoves
  import StackSort

  predicate FullBelow(st: seq<Page>) {
    forall k :: 0 <= k < |st| - 1 ==> |st[k].frames| == PAGE_FRAMES
  }

  predicate FullFrom(p: Pool, size: nat)
    requires |p.stacks| == 9
  {
    forall s: nat, z: nat {:trigger At(p, s, z)} :: size <= s < 3 && z < 3 ==> FullBelow(At(p, s, z))
  }

  predicate Full(p: Pool)
    requires |p.stacks| == 9
  {
    FullFrom(p, 0)
  }

  /** The counts of a stack, top page first. */
  function CountsOf(st: seq<Page>): (cs: seq<nat>)
    ensures |cs| == |st| && forall k :: 0 <= k < |st| ==> cs[k] == |st[|st| - 1 - k].frames|
  {
    seq(|st|, k requires 0 <= k < |st| => |st[|st| - 1 - k].frames|)
  }

  /** Whatever frames a stack of the manager holds, it is certain to be sorted if and only if two lie on top and the pages below are full, or there is nothing to sort. */
  lemma StackSortable(size: nat, zone: nat, st: seq<Page>)
    requires StackOk(size, zone, st) && (|st| == 1 || StackSort.GridFits(size, zone, |st|))
    ensures var cs := CountsOf(st);
            (forall pages, pages' :: StackSort.Filled(size, zone, pages, cs) && StackSort.SortOutcome(pages, pages') ==> StackSort.WellSorted(pages, pages'))
            <==> (|Top(st).frames| >= 2 && FullBelow(st)) || StackSort.Sum(cs) <= 1
  {
    var cs := CountsOf(st);
    forall k | 0 <= k < |cs| ensures cs[k] <= PAGE_FRAMES && (k > 0 ==> cs[k] > 0) {
      assert PageOk(size, zone, st[|st| - 1 - k]);
    }
    StackSort.SortGuaranteed(size, zone, cs);
    assert FullBelow(st) <==> StackSort.FullCounts(cs) by {
      forall k | 0 <= k < |st| - 1 ensures cs[|st| - 1 - k] == |st[k].frames| {
      }
    }
  }

  // ---------------------------------------------------------------- the search for a 4K frame

  /** The order of the search: small frames first, then high zones. */
  predicate Before(t: nat, y: nat, s: nat, z: nat) {
    t < s || (t == s && y > z)
  }

  /** The first stack of the search that has something. */
  predicate Serves(p: Pool, s: nat, z: nat)
    requires |p.stacks| == 9 && s < 3 && z < 3
  {
    !Exhausted(p, s, z) && forall t: nat, y: nat {:trigger Exhausted(p, t, y)} :: t < 3 && y < 3 && Before(t, y, s, z) ==> Exhausted(p, t, y)
  }

  /** The top page is empty, so that taking a frame turns it over first. */
  predicate Turns(p: Pool, s: nat, z: nat)
    requires |p.stacks| == 9 && s < 3 && z < 3
  {
    !TopNonEmpty(p, s, z) && |At(p, s, z)| > 1
  }

  function PageZone(p: Pool, s: nat, z: nat): nat
    requires |p.stacks| == 9 && s < 3 && z < 3 && Turns(p, s, z)
  {
    GetZone(0, Top(At(p, s, z)).addr)
  }

  /** A frame of size `size` taken from stack (`s`, `z`), with all before it empty and no page reserved, leaves lower pages full. */
  predicate KeepsAt(p: Pool, size: nat, s: nat, z: nat)
    requires |p.stacks| == 9 && s < 3 && z < 3
  {
    || size == s
    || (size == 0 && s == 1 && (p.initialized || z == STD || (Turns(p, 1, z) && PageZone(p, 1, z) > z)))
    || (s == 2 && Turns(p, 2, z) && (size == 1 || p.initialized || z == STD))
  }

  predicate SearchKeeps(p: Pool, size: nat)
    requires |p.stacks| == 9
  {
    forall s: nat, z: nat {:trigger Serves(p, s, z)} :: size <= s < 3 && z < 3 && Serves(p, s, z) ==> KeepsAt(p, size, s, z)
  }

  /** Freeing a frame leaves lower pages full. */
  predicate FreeKeeps(p: Pool, size: nat, zone: nat)
    requires |p.stacks| == 9 && size < 3 && zone < 3
  {
    !TopFull(p, size, zone) || (size == 0 && (p.initialized || zone == STD)) || p.reserved != [] || (!Serves(p, size, zone) && SearchKeeps(p, 0))
  }

  /** The stack gets a page from the search. */
  predicate Extends(p: Pool, size: nat, zone: nat)
    requires |p.stacks| == 9 && size < 3 && zone < 3
  {
    TopFull(p, size, zone) && !(size == 0 && (p.initialized || zone == STD)) && p.reserved == []
  }

  lemma ServesOnce(p: Pool, s: nat, z: nat, t: nat, y: nat)
    requires |p.stacks| == 9 && s < 3 && z < 3 && t < 3 && y < 3 && Serves(p, s, z) && Serves(p, t, y)
    ensures s == t && z == y
  {
  }

  lemma ServesFirst(p: Pool, size: nat, zone: nat, maxZone: nat)
    requires |p.stacks| == 9 && size < 3 && zone < 3 && PageMode(p, size, zone, maxZone) && !Exhausted(p, size, zone)
    ensures Serves(p, size, zone)
  {
  }

  // ---------------------------------------------------------------- one stack

  lemma FullAdd(st: seq<Page>, a: nat)
    requires st != []
    ensures FullBelow(AddFrame(st, a)) <==> FullBelow(st)
    ensures FullBelow(AddPage(st, a)) <==> FullBelow(st) && |Top(st).frames| == PAGE_FRAMES
  {
    var st', st'' := AddFrame(st, a), AddPage(st, a);
    assert forall k :: 0 <= k < |st| - 1 ==> st'[k] == st[k];
    assert forall k :: 0 <= k < |st| ==> st''[k] == st[k];
  }

  lemma FullTake(st: seq<Page>)
    requires st != []
    ensures Top(st).frames != [] ==> (FullBelow(TakeFrame(st)) <==> FullBelow(st))
    ensures FullBelow(st) ==> FullBelow(DropPage(st))
  {
    if Top(st).frames != [] {
      assert forall k :: 0 <= k < |st| - 1 ==> TakeFrame(st)[k] == st[k];
    }
  }

  lemma FullPut(p: Pool, size: nat, zone: nat, st: seq<Page>)
    requires |p.stacks| == 9 && size < 3 && zone < 3
    ensures Full(p) && FullBelow(st) ==> Full(Put(p, size, zone, st))
    ensures !FullBelow(st) ==> !Full(Put(p, size, zone, st))
    ensures !Full(p) && (FullBelow(st) ==> FullBelow(At(p, size, zone))) ==> !Full(Put(p, size, zone, st))
  {
    var p' := Put(p, size, zone, st);
    assert At(p', size, zone) == st;
    if !Full(p) {
      var s: nat, z: nat :| s < 3 && z < 3 && !FullBelow(At(p, s, z));
      assert At(p', s, z) == if s == size && z == zone then st else At(p, s, z);
    }
  }

  lemma SameStacksFull(p: Pool, p': Pool)
    requires |p.stacks| == 9 && p'.stacks == p.stacks
    ensures Full(p) <==> Full(p')
    ensures forall s: nat, z: nat {:trigger At(p', s, z)} :: s < 3 && z < 3 ==> At(p', s, z) == At(p, s, z)
  {
    forall s: nat, z: nat | s < 3 && z < 3 ensures At(p', s, z) == At(p, s, z) {
    }
  }

  // ---------------------------------------------------------------- reserving and freeing

  ghost predicate ReservedFull(p: Pool, p': Pool)
    requires Inv(p) && Inv(p')
  {
    (Full(p) ==> Full(p')) && p'.reserved != []
  }

  lemma ReservedFullDirectly(p: Pool, a: nat)
    requires Inv(p) && WouldReserve(p, a) && FrameOk(0, a) && |p.reserved| < PAGE_FRAMES
    ensures Inv(Reserve(p, a)) && ReservedFull(p, Reserve(p, a))
  {
    ReserveEffect(p, a);
    SameStacksFull(p, Reserve(p, a));
  }

  /** What freeing a frame does to lower pages. */
  ghost predicate FreedFull(p: Pool, p': Pool, size: nat, zone: nat)
    requires Inv(p) && Inv(p') && size < 3 && zone < 3
  {
    && (Full(p) ==> (Full(p') <==> FreeKeeps(p, size, zone)))
    && (Extends(p, size, zone) && Serves(p, size, zone) ==> !FullBelow(At(p', size, zone)))
    && (Extends(p, size, zone) && size > 0 ==> forall q: nat {:trigger Serves(p, 0, q)} :: q < 3 && Serves(p, 0, q) && TopNonEmpty(p, 0, q) ==> SmallTaken(p, p', q))
    && (size == 0 && p.initialized && |p.reserved| == PAGE_FRAMES ==> p'.reserved != [])
    && (TopFull(p, size, zone) && (size > 0 || !p.initialized) ==> |Top(At(p', size, zone)).frames| <= 1)
  }

  /** Of the 4K stacks, exactly the top frame of zone `q` is gone. */
  predicate SmallTaken(p: Pool, p': Pool, q: nat)
    requires Nine(p, p') && q < 3 && TopNonEmpty(p, 0, q)
  {
    forall y: nat {:trigger At(p', 0, y)} :: y < 3 ==> At(p', 0, y) == if y == q then TakeFrame(At(p, 0, q)) else At(p, 0, y)
  }

  lemma DisplacedFull(p: Pool, p': Pool, a: nat, zone: nat)
    requires Inv(p) && WouldReserve(p, a) && FrameOk(0, a) && |p.reserved| == PAGE_FRAMES && zone < 3
    requires Inv(Reserve(p, a)) && Inv(p') && FreedFull(Reserve(p, a), p', 0, zone)
    ensures ReservedFull(p, p')
  {
    SameStacksFull(p, Reserve(p, a));
    ReserveOk(p, a);
  }

  lemma FreedFullByReserve(p: Pool, p': Pool, zone: nat, a: nat)
    requires Inv(p) && Inv(p') && zone < 3 && WouldReserve(p, a) && ReservedFull(p, p')
    ensures FreedFull(p, p', 0, zone)
  {
  }

  lemma FreedFullByPush(p: Pool, size: nat, zone: nat, a: nat)
    requires Inv(p) && size < 3 && zone < 3 && |Top(At(p, size, zone)).frames| < PAGE_FRAMES && Inv(PushFrame(p, size, zone, a))
    ensures FreedFull(p, PushFrame(p, size, zone, a), size, zone)
  {
    FullAdd(At(p, size, zone), a);
    FullPut(p, size, zone, AddFrame(At(p, size, zone), a));
  }

  lemma FreedFullAsPage(p: Pool, a: nat)
    requires Inv(p) && TopFull(p, 0, STD) && Inv(PushPage(p, 0, STD, a))
    ensures FreedFull(p, PushPage(p, 0, STD, a), 0, STD)
  {
    FullAdd(At(p, 0, STD), a);
    FullPut(p, 0, STD, AddPage(At(p, 0, STD), a));
  }

  /** What obtaining a page for a full stack does to lower pages. */
  ghost predicate GotFull(p: Pool, p1: Pool, size: nat, zone: nat)
    requires Inv(p) && Inv(p1) && size < 3 && zone < 3
  {
    && (p.reserved != [] ==> p1.stacks == p.stacks && p1.reserved == p.reserved[1..])
    && (p.reserved == [] ==>
      && (Full(p) ==> (Full(p1) <==> SearchKeeps(p, 0)))
      && (if Serves(p, size, zone) then !TopFull(p1, size, zone) else At(p1, size, zone) == At(p, size, zone))
      && forall q: nat {:trigger Serves(p, 0, q)} :: q < 3 && Serves(p, 0, q) && TopNonEmpty(p, 0, q) ==> p1 == PopFrame(p, 0, q))
  }

  lemma FreedFullByPage(p: Pool, p1: Pool, size: nat, zone: nat, page: nat, a: nat)
    requires Inv(p) && Inv(p1) && size < 3 && zone < 3 && TopFull(p, size, zone) && FrameOk(size, a) && GetZone(size, a) <= zone
    requires !(size == 0 && zone == STD) && (size == 0 && p.initialized ==> p.reserved != []) && FrameOk(0, page) && TopNonEmpty(p1, size, zone) && GotFull(p, p1, size, zone)
    requires Inv(Paged(p1, size, zone, page, a))
    ensures FreedFull(p, Paged(p1, size, zone, page, a), size, zone)
  {
    var st := At(p1, size, zone);
    var st1 := AddPage(st, page);
    PushPageEffect(p1, size, zone, page);
    var p2, p' := PushPage(p1, size, zone, page), Paged(p1, size, zone, page, a);
    assert At(p2, size, zone) == st1 && At(p', size, zone) == AddFrame(st1, a);
    FullAdd(st, page);
    FullAdd(st1, a);
    FullPut(p1, size, zone, st1);
    FullPut(p2, size, zone, AddFrame(st1, a));
    if p.reserved != [] {
      SameStacksFull(p, p1);
    }
    forall q: nat | Extends(p, size, zone) && size > 0 && q < 3 && Serves(p, 0, q) && TopNonEmpty(p, 0, q) ensures SmallTaken(p, p', q) {
      forall y: nat | y < 3 ensures At(p', 0, y) == if y == q then TakeFrame(At(p, 0, q)) else At(p, 0, y) {
        assert At(p2, 0, y) == At(p1, 0, y) && At(p', 0, y) == At(p2, 0, y);
      }
    }
  }

  // ---------------------------------------------------------------- taking a frame, in the search

  /** The pool after the empty top page is turned over, if no page is reserved and all stacks before are empty. */
  function AfterTurn(p: Pool, s: nat, z: nat): Pool
    requires Inv(p) && s < 3 && z < 3 && Turns(p, s, z)
  {
    PopPageEffect(p, s, z);
    var p1, page := PopPage(p, s, z), Top(At(p, s, z)).addr;
    if p.initialized then Reserve(p1, page) else PushFrame(p1, 0, GetZone(0, page), page)
  }

  predicate NoSmall(p: Pool)
    requires |p.stacks| == 9
  {
    forall y: nat {:trigger Exhausted(p, 0, y)} :: y < 3 ==> Exhausted(p, 0, y)
  }

  predicate TurnedPop(p: Pool, p': Pool, s: nat, z: nat)
    requires Inv(p) && s < 3 && z < 3 && Turns(p, s, z)
  {
    var p2 := AfterTurn(p, s, z);
    Inv(p2) && TopNonEmpty(p2, s, z) && p' == PopFrame(p2, s, z)
  }

  /** What a search served by stack (`s`, `z`) leaves. */
  ghost predicate ServedBy(p: Pool, p': Pool, size: nat, s: nat, z: nat, effective: nat)
    requires Inv(p) && Inv(p') && s < 3 && z < 3
  {
    && (TopNonEmpty(p, s, z) ==> At(p', s, z) == TakeFrame(At(p, s, z)))
    && (s == size && TopNonEmpty(p, s, z) ==> p' == PopFrame(p, s, z) && effective == z)
    && (s == size > 0 && Turns(p, s, z) ==> effective == z && TurnedPop(p, p', s, z))
    && (s == size == 0 && Turns(p, 0, z) && !p.initialized ==> if PageZone(p, 0, z) <= z then p' == PopPage(p, 0, z) else TurnedPop(p, p', 0, z))
    && (size == 1 && s == 2 && Turns(p, 2, z) && !p.initialized ==> effective == z && NoSmall(p'))
    && (Full(p) ==> if KeepsAt(p, size, s, z) then Full(p') else !FullFrom(p', size))
  }

  ghost predicate SearchDone(p: Pool, p': Pool, size: nat, effective: nat)
    requires Inv(p) && Inv(p')
  {
    forall s: nat, z: nat {:trigger Serves(p, s, z)} :: size <= s < 3 && z < 3 && Serves(p, s, z) ==> ServedBy(p, p', size, s, z, effective)
  }

  lemma PopFull(p: Pool, s: nat, z: nat)
    requires Inv(p) && s < 3 && z < 3
    ensures TopNonEmpty(p, s, z) ==> (Full(PopFrame(p, s, z)) <==> Full(p))
    ensures Full(p) ==> Full(PopPage(p, s, z))
  {
    FullTake(At(p, s, z));
    if TopNonEmpty(p, s, z) {
      FullPut(p, s, z, TakeFrame(At(p, s, z)));
    }
    FullPut(p, s, z, DropPage(At(p, s, z)));
  }

  lemma TurnFull(p: Pool, s: nat, z: nat)
    requires Inv(p) && s < 3 && z < 3 && Turns(p, s, z) && Full(p)
    ensures Full(AfterTurn(p, s, z))
  {
    var p1, page := PopPage(p, s, z), Top(At(p, s, z)).addr;
    PopPageEffect(p, s, z);
    PopFull(p, s, z);
    if p.initialized {
      SameStacksFull(p1, Reserve(p1, page));
    } else {
      FullAdd(At(p1, 0, GetZone(0, page)), page);
      FullPut(p1, 0, GetZone(0, page), AddFrame(At(p1, 0, GetZone(0, page)), page));
    }
  }

  lemma SearchByPop(p: Pool, size: nat, zone: nat, maxZone: nat)
    requires Inv(p) && size < 3 && zone < 3 && PageMode(p, size, zone, maxZone) && TopNonEmpty(p, size, zone) && Inv(PopFrame(p, size, zone))
    ensures SearchDone(p, PopFrame(p, size, zone), size, zone)
  {
    ServesFirst(p, size, zone, maxZone);
    PopFull(p, size, zone);
    forall s: nat, z: nat | size <= s < 3 && z < 3 && Serves(p, s, z) ensures ServedBy(p, PopFrame(p, size, zone), size, s, z, zone) {
      ServesOnce(p, s, z, size, zone);
    }
  }

  lemma SearchByPage(p: Pool, zone: nat, maxZone: nat, effective: nat)
    requires Inv(p) && zone < 3 && PageMode(p, 0, zone, maxZone) && Turns(p, 0, zone) && PageZone(p, 0, zone) <= zone && Inv(PopPage(p, 0, zone))
    ensures SearchDone(p, PopPage(p, 0, zone), 0, effective)
  {
    ServesFirst(p, 0, zone, maxZone);
    PopFull(p, 0, zone);
    forall s: nat, z: nat | s < 3 && z < 3 && Serves(p, s, z) ensures ServedBy(p, PopPage(p, 0, zone), 0, s, z, effective) {
      ServesOnce(p, s, z, 0, zone);
    }
  }

  lemma SearchByTurn(p: Pool, p2: Pool, size: nat, zone: nat, maxZone: nat)
    requires Inv(p) && size < 3 && zone < 3 && PageMode(p, size, zone, maxZone) && Turns(p, size, zone)
    requires Inv(p2) && p2 == AfterTurn(p, size, zone) && TopNonEmpty(p2, size, zone) && Inv(PopFrame(p2, size, zone))
    requires size == 0 && !p.initialized ==> PageZone(p, 0, zone) > zone
    ensures SearchDone(p, PopFrame(p2, size, zone), size, zone)
  {
    ServesFirst(p, size, zone, maxZone);
    PopFull(p2, size, zone);
    if Full(p) {
      TurnFull(p, size, zone);
    }
    forall s: nat, z: nat | size <= s < 3 && z < 3 && Serves(p, s, z) ensures ServedBy(p, PopFrame(p2, size, zone), size, s, z, zone) {
      ServesOnce(p, s, z, size, zone);
    }
  }

  /** Nothing to be found. */
  lemma SearchInVain(p: Pool, size: nat)
    requires Inv(p) && forall s: nat, z: nat {:trigger Exhausted(p, s, z)} :: size <= s < 3 && z < 3 ==> Exhausted(p, s, z)
    ensures SearchDone(p, p, size, 0)
  {
  }

  // ---------------------------------------------------------------- splitting a frame

  /** A page that the parts of a split frame fill and overflow. */
  predicate Few(p: Pool, size: nat, z: nat)
    requires |p.stacks| == 9 && size < 3 && z < 3
  {
    |At(p, size, z)| == 1 && |Top(At(p, size, z)).frames| + size <= 1
  }

  predicate HasBefore(p: Pool, size: nat, z: nat)
    requires |p.stacks| == 9
  {
    exists t: nat, y: nat {:trigger Exhausted(p, t, y)} :: t < 3 && y < 3 && Before(t, y, size, z) && !Exhausted(p, t, y)
  }

  predicate PartsKeep(p: Pool, size: nat, z: nat)
    requires |p.stacks| == 9
  {
    (size == 0 && z == STD) || p.reserved != [] || HasBefore(p, size, z)
  }

  /** One 4K frame in all. */
  predicate OneSmall(p: Pool, q: nat)
    requires |p.stacks| == 9 && q < 3
  {
    |At(p, 0, q)| == 1 && |Top(At(p, 0, q)).frames| == 1 && forall y: nat {:trigger Exhausted(p, 0, y)} :: y < 3 && y != q ==> Exhausted(p, 0, y)
  }

  /** The parts may take their stack page from before. */
  predicate Easy(p: Pool, size: nat, z: nat)
    requires |p.stacks| == 9 && size < 3
  {
    p.initialized || size == 0 || forall y: nat {:trigger Exhausted(p, 1, y)} :: z < y < 3 ==> Exhausted(p, 1, y)
  }

  /** What freeing the parts of a split frame does to lower pages. */
  ghost predicate SplitFull(p: Pool, p': Pool, size: nat, z: nat)
    requires Inv(p) && Inv(p') && size < 2 && z < 3
  {
    && (size == 0 && p.initialized && Full(p) ==> Full(p'))
    && ((size == 1 || !p.initialized) && Few(p, size, z) && Full(p) && Easy(p, size, z) ==> if PartsKeep(p, size, z) then Full(p') else !FullBelow(At(p', size, z)))
    && (size == 1 && !p.initialized && Few(p, 1, z) && p.reserved == [] ==> forall q: nat {:trigger OneSmall(p, q)} :: q < 3 && OneSmall(p, q) ==> NoSmall(p'))
  }

  lemma BrokenStays(p1: Pool, p2: Pool, size: nat)
    requires Nine(p1, p2) && LargerSame(p1, p2, size) && !FullFrom(p1, size + 1)
    ensures !FullFrom(p2, size + 1) && !FullFrom(p2, size)
  {
    var s: nat, z: nat :| size + 1 <= s < 3 && z < 3 && !FullBelow(At(p1, s, z));
    assert At(p2, s, z) == At(p1, s, z);
  }

  /** A 2M frame is split for the search. */
  lemma SplitMega(p: Pool, p1: Pool, p2: Pool, z: nat)
    requires Inv(p) && Inv(p1) && Inv(p2) && z < 3 && p.reserved == [] && Serves(p, 1, z) && ServedBy(p, p1, 1, 1, z, z) && SplitFull(p1, p2, 0, z)
    ensures Full(p) ==> if KeepsAt(p, 0, 1, z) then Full(p2) else !Full(p2)
  {
    if !p.initialized {
      if TopNonEmpty(p, 1, z) {
        PopState(p, 1, z);
        NoneBefore(p1, 0, z);
      } else {
        TurnState(p, p1, 1, z);
        OneBefore(p1, PageZone(p, 1, z), z);
      }
    }
  }

  /** Popping a larger frame leaves the stacks of smaller ones empty. */
  lemma PopState(p: Pool, s: nat, z: nat)
    requires Inv(p) && 0 < s < 3 && z < 3 && p.reserved == [] && Serves(p, s, z) && TopNonEmpty(p, s, z)
    ensures PopFrame(p, s, z).initialized == p.initialized && PopFrame(p, s, z).reserved == []
    ensures forall t: nat, y: nat {:trigger Exhausted(PopFrame(p, s, z), t, y)} :: t < s && y < 3 ==> Exhausted(PopFrame(p, s, z), t, y)
  {
    var p1 := PopFrame(p, s, z);
    forall t: nat, y: nat | t < s && y < 3 ensures Exhausted(p1, t, y) {
      assert At(p1, t, y) == At(p, t, y) && Exhausted(p, t, y);
    }
  }

  /** Before initialisation, turning the top page over makes it the only 4K frame. */
  lemma TurnState(p: Pool, p1: Pool, s: nat, z: nat)
    requires Inv(p) && 0 < s < 3 && z < 3 && !p.initialized && p.reserved == [] && Serves(p, s, z) && Turns(p, s, z) && TurnedPop(p, p1, s, z)
    ensures |p1.stacks| == 9 && !p1.initialized && p1.reserved == [] && PageZone(p, s, z) < 3 && OneSmall(p1, PageZone(p, s, z))
    ensures forall t: nat, y: nat {:trigger Exhausted(p1, t, y)} :: 0 < t < s && y < 3 ==> Exhausted(p1, t, y)
  {
    var q, page, p0 := PageZone(p, s, z), Top(At(p, s, z)).addr, PopPage(p, s, z);
    PopPageEffect(p, s, z);
    var p2 := AfterTurn(p, s, z);
    assert At(p0, 0, q) == At(p, 0, q) && Exhausted(p, 0, q);
    assert At(p2, 0, q) == AddFrame(At(p0, 0, q), page) && At(p1, 0, q) == At(p2, 0, q);
    assert Top(At(p1, 0, q)).frames == Top(At(p, 0, q)).frames + [page];
    forall t: nat, y: nat | t < s && y < 3 && (t != 0 || y != q) ensures Exhausted(p1, t, y) {
      assert Exhausted(p, t, y) && At(p0, t, y) == At(p, t, y) && At(p2, t, y) == At(p0, t, y) && At(p1, t, y) == At(p2, t, y);
    }
  }

  lemma OneBefore(p: Pool, q: nat, z: nat)
    requires |p.stacks| == 9 && q < 3 && z < 3 && OneSmall(p, q)
    ensures Few(p, 0, z) && (HasBefore(p, 0, z) <==> q > z) && HasBefore(p, 1, z)
  {
    assert !Exhausted(p, 0, q);
    assert z != q ==> Exhausted(p, 0, z);
  }

  lemma NoneBefore(p: Pool, size: nat, z: nat)
    requires |p.stacks| == 9 && size < 2 && z < 3 && forall t: nat, y: nat {:trigger Exhausted(p, t, y)} :: t <= size && y < 3 ==> Exhausted(p, t, y)
    ensures Few(p, size, z) && !HasBefore(p, size, z)
  {
    assert Exhausted(p, size, z);
  }

  /** A 1G frame is split into 2M frames for the search. */
  lemma SplitGiga(p: Pool, p1: Pool, p2: Pool, z: nat)
    requires Inv(p) && Inv(p1) && Inv(p2) && z < 3 && p.reserved == [] && Serves(p, 2, z) && ServedBy(p, p1, 2, 2, z, z) && SplitFull(p1, p2, 1, z)
    ensures Full(p) ==> if KeepsAt(p, 1, 2, z) then Full(p2) else !FullFrom(p2, 1)
    ensures Turns(p, 2, z) && !p.initialized ==> NoSmall(p2)
  {
    if TopNonEmpty(p, 2, z) {
      PopState(p, 2, z);
      NoneBefore(p1, 1, z);
    } else if p.initialized {
      TurnReserved(p, p1, 2, z);
      assert Exhausted(p1, 1, z);
    } else {
      TurnState(p, p1, 2, z);
      OneBefore(p1, PageZone(p, 2, z), z);
      assert Exhausted(p1, 1, z);
    }
  }

  /** After initialisation, turning the top page over reserves it. */
  lemma TurnReserved(p: Pool, p1: Pool, s: nat, z: nat)
    requires Inv(p) && 0 < s < 3 && z < 3 && p.initialized && Serves(p, s, z) && Turns(p, s, z) && TurnedPop(p, p1, s, z)
    ensures |p1.stacks| == 9 && p1.initialized && p1.reserved != [] && forall t: nat, y: nat {:trigger Exhausted(p1, t, y)} :: t < s && y < 3 ==> Exhausted(p1, t, y)
  {
    var p0, p2 := PopPage(p, s, z), AfterTurn(p, s, z);
    InsertMembers([], Top(At(p, s, z)).addr);
    SameStacksFull(p0, p2);
    forall t: nat, y: nat | t < s && y < 3 ensures Exhausted(p1, t, y) {
      assert Exhausted(p, t, y) && At(p0, t, y) == At(p, t, y) && At(p2, t, y) == At(p0, t, y) && At(p1, t, y) == At(p2, t, y);
    }
  }

  /** Both splits for the search of a 4K frame. */
  lemma SearchBySplit(p: Pool, p1: Pool, p2: Pool, size: nat, effective: nat)
    requires Inv(p) && Inv(p1) && Inv(p2) && size < 2 && effective < 3 && PageMode(p, size, 0, STD) && Exhausted(p, size, 0)
    requires SearchDone(p, p1, size + 1, effective) && p1.initialized == p.initialized && LargerSame(p1, p2, size) && SplitFull(p1, p2, size, effective)
    ensures SearchDone(p, p2, size, effective)
  {
    forall s: nat, z: nat | size <= s < 3 && z < 3 && Serves(p, s, z) ensures ServedBy(p, p2, size, s, z, effective) {
      assert s > size && ServedBy(p, p1, size + 1, s, z, effective);
      if s == size + 1 {
        ServedEffective(p, p1, s, z, effective);
        if size == 0 {
          SplitMega(p, p1, p2, z);
        } else {
          SplitGiga(p, p1, p2, z);
        }
      } else {
        SplitBoth(p, p1, p2, z, effective);
      }
    }
  }

  lemma ServedEffective(p: Pool, p1: Pool, s: nat, z: nat, effective: nat)
    requires Inv(p) && Inv(p1) && 0 < s < 3 && z < 3 && Serves(p, s, z) && ServedBy(p, p1, s, s, z, effective)
    ensures effective == z
  {
  }

  /** A 1G frame was split into 2M frames, and one of them is split on. */
  lemma SplitBoth(p: Pool, p1: Pool, p2: Pool, z: nat, effective: nat)
    requires Inv(p) && Inv(p1) && Inv(p2) && z < 3 && effective < 3 && Serves(p, 2, z) && ServedBy(p, p1, 1, 2, z, effective)
    requires LargerSame(p1, p2, 0) && SplitFull(p1, p2, 0, effective) && p1.initialized == p.initialized
    ensures ServedBy(p, p2, 0, 2, z, effective)
  {
    if Full(p) && !Turns(p, 2, z) {
      BrokenStays(p1, p2, 0);
    }
    if Full(p) && Turns(p, 2, z) && !p.initialized {
      NoneBefore(p1, 0, z);
    }
  }

  // ---------------------------------------------------------------- taking a frame, after initialisation

  /** The 1G stack up to `zone` that an allocation comes to first. */
  predicate FirstGiga(p: Pool, z: nat, zone: nat)
    requires |p.stacks| == 9 && zone < 3
  {
    z <= zone && !Exhausted(p, 2, z) && forall y: nat {:trigger Exhausted(p, 2, y)} :: z < y <= zone ==> Exhausted(p, 2, y)
  }

  /** A stack page for the parts of a 1G frame can be had from elsewhere. */
  predicate PageElsewhere(p: Pool, z: nat)
    requires |p.stacks| == 9 && z < 3
  {
    p.reserved != [] || Turns(p, 2, z) || HasBefore(p, 1, z)
  }

  predicate Some(p: Pool, size: nat, zone: nat)
    requires |p.stacks| == 9 && size < 3 && zone < 3
  {
    exists z: nat {:trigger Exhausted(p, size, z)} :: z <= zone && !Exhausted(p, size, z)
  }

  /** After initialisation an allocation leaves lower pages full unless it splits a 1G frame with no stack page from elsewhere. */
  predicate AllocKeeps(p: Pool, size: nat, zone: nat, maxZone: nat)
    requires |p.stacks| == 9 && size < 3 && zone <= maxZone < 3
  {
    || size == 2 || Some(p, size, zone) || (size == 0 && Some(p, 1, maxZone))
    || forall z: nat {:trigger FirstGiga(p, z, maxZone)} :: z < 3 && FirstGiga(p, z, maxZone) ==> PageElsewhere(p, z)
  }

  predicate Scanned(p: Pool, size: nat, zone: nat, maxZone: nat)
    requires |p.stacks| == 9 && size < 3 && zone <= maxZone < 3
  {
    forall z: nat {:trigger Exhausted(p, size, z)} :: zone < z <= maxZone ==> Exhausted(p, size, z)
  }

  /** What taking a 1G frame leaves. */
  ghost predicate GigaGot(p: Pool, p': Pool, zone: nat, effective: nat)
    requires Inv(p) && Inv(p') && zone < 3
  {
    forall z: nat {:trigger FirstGiga(p, z, zone)} :: z < 3 && FirstGiga(p, z, zone) ==> GigaFrom(p, p', z, effective)
  }

  ghost predicate GigaFrom(p: Pool, p': Pool, z: nat, effective: nat)
    requires Inv(p) && Inv(p') && z < 3
  {
    && effective == z && (TopNonEmpty(p, 2, z) ==> p' == PopFrame(p, 2, z))
    && (p.initialized && Turns(p, 2, z) ==> p'.reserved != [] && forall y: nat {:trigger At(p', 1, y)} :: y < 3 ==> At(p', 1, y) == At(p, 1, y))
  }

  /** What taking a frame does to lower pages. */
  ghost predicate TookFull(p: Pool, p': Pool, size: nat, zone: nat, maxZone: nat, effective: nat)
    requires Inv(p) && Inv(p') && size < 3 && zone <= maxZone < 3
  {
    && (PageMode(p, size, zone, maxZone) ==> SearchDone(p, p', size, effective))
    && (p.initialized && Full(p) && Scanned(p, size, zone, maxZone) ==> if AllocKeeps(p, size, zone, maxZone) then Full(p') else !FullFrom(p', 1))
    && (size == 2 ==> GigaGot(p, p', zone, effective))
  }

  lemma TookByPop(p: Pool, size: nat, zone: nat, maxZone: nat)
    requires Inv(p) && size < 3 && zone <= maxZone < 3 && TopNonEmpty(p, size, zone) && Inv(PopFrame(p, size, zone))
    ensures TookFull(p, PopFrame(p, size, zone), size, zone, maxZone, zone)
  {
    assert !Exhausted(p, size, zone);
    PopFull(p, size, zone);
    if PageMode(p, size, zone, maxZone) {
      SearchByPop(p, size, zone, maxZone);
    }
  }

  lemma TookAsPage(p: Pool, zone: nat, maxZone: nat, effective: nat)
    requires Inv(p) && zone <= maxZone < 3 && Turns(p, 0, zone) && PageZone(p, 0, zone) <= zone && Inv(PopPage(p, 0, zone))
    ensures TookFull(p, PopPage(p, 0, zone), 0, zone, maxZone, effective)
  {
    assert !Exhausted(p, 0, zone);
    PopFull(p, 0, zone);
    if PageMode(p, 0, zone, maxZone) {
      SearchByPage(p, zone, maxZone, effective);
    }
  }

  /** The top page was turned over. */
  ghost predicate TurnedFull(p: Pool, p2: Pool, size: nat, zone: nat)
    requires Inv(p) && Inv(p2) && size < 3 && zone < 3 && Turns(p, size, zone)
  {
    && (PageMode(p, size, zone, STD) ==> p2 == AfterTurn(p, size, zone) && TopNonEmpty(p2, size, zone))
    && (p.initialized ==> p2.reserved != [] && (Full(p) ==> Full(p2)))
    && (size == 0 && !p.initialized ==> PageZone(p, 0, zone) > zone)
    && (size == 2 ==> forall y: nat {:trigger At(p2, 1, y)} :: y < 3 ==> At(p2, 1, y) == At(p, 1, y))
  }

  lemma TurnedByReserve(p: Pool, p2: Pool, size: nat, zone: nat)
    requires Inv(p) && Inv(p2) && size < 3 && zone < 3 && Turns(p, size, zone) && WouldReserve(p, Top(At(p, size, zone)).addr)
    requires Inv(PopPage(p, size, zone)) && Reserved(PopPage(p, size, zone), p2, Top(At(p, size, zone)).addr) && ReservedFull(PopPage(p, size, zone), p2)
    ensures TurnedFull(p, p2, size, zone)
  {
    var p1 := PopPage(p, size, zone);
    PopPageEffect(p, size, zone);
    PopFull(p, size, zone);
    if p.reserved == [] {
      assert |p1.reserved| == 0 && p2 == Reserve(p1, Top(At(p, size, zone)).addr);
      SameStacksFull(p1, p2);
      assert At(p2, size, zone) == At(p1, size, zone);
    }
    if size == 2 {
      forall y: nat | y < 3 ensures At(p2, 1, y) == At(p, 1, y) {
        assert At(p2, 1, y) == At(p1, 1, y);
      }
    }
  }

  lemma TurnedByFree(p: Pool, p2: Pool, size: nat, zone: nat)
    requires Inv(p) && Inv(p2) && size < 3 && zone < 3 && Turns(p, size, zone) && !WouldReserve(p, Top(At(p, size, zone)).addr)
    requires Inv(PopPage(p, size, zone)) && (size > 0 || PageZone(p, size, zone) > zone)
    requires Freed(PopPage(p, size, zone), p2, 0, PageZone(p, size, zone), Top(At(p, size, zone)).addr) && FreedFull(PopPage(p, size, zone), p2, 0, PageZone(p, size, zone))
    ensures TurnedFull(p, p2, size, zone)
  {
    var p1, page, q := PopPage(p, size, zone), Top(At(p, size, zone)).addr, PageZone(p, size, zone);
    PopPageEffect(p, size, zone);
    PopFull(p, size, zone);
    if PageMode(p, size, zone, STD) {
      assert Exhausted(p, 0, q) && At(p1, 0, q) == At(p, 0, q);
      assert Plain(p1, 0, q, page);
      assert At(p2, size, zone) == At(p1, size, zone);
    }
    if size == 2 {
      forall y: nat | y < 3 ensures At(p2, 1, y) == At(p, 1, y) {
        assert At(p2, 1, y) == At(p1, 1, y);
      }
    }
  }

  lemma TookBelow(p: Pool, p2: Pool, p3: Pool, size: nat, zone: nat, maxZone: nat, effective: nat)
    requires Inv(p) && Inv(p2) && Inv(p3) && size < 3 && zone <= maxZone < 3 && Turns(p, size, zone) && TurnedFull(p, p2, size, zone)
    requires Ready(p2, size, zone) && p2.initialized == p.initialized && TookFull(p2, p3, size, zone, zone, effective)
    requires TopNonEmpty(p2, size, zone) ==> p3 == PopFrame(p2, size, zone) && effective == zone
    ensures TookFull(p, p3, size, zone, maxZone, effective)
  {
    assert !Exhausted(p, size, zone) && !Exhausted(p2, size, zone);
    if PageMode(p, size, zone, maxZone) {
      SearchByTurn(p, p2, size, zone, maxZone);
    }
    if size == 2 {
      assert forall y: nat :: y < 3 ==> At(p3, 1, y) == At(p2, 1, y);
    }
  }

  lemma TookLower(p: Pool, p': Pool, size: nat, zone: nat, maxZone: nat, effective: nat)
    requires Inv(p) && Inv(p') && size < 3 && 0 < zone <= maxZone < 3 && Exhausted(p, size, zone) && TookFull(p, p', size, zone - 1, maxZone, effective)
    ensures TookFull(p, p', size, zone, maxZone, effective)
  {
    if size == 2 {
      forall z: nat | z < 3 && FirstGiga(p, z, zone) ensures GigaFrom(p, p', z, effective) {
        assert FirstGiga(p, z, zone - 1);
      }
    }
    assert Some(p, size, zone) <==> Some(p, size, zone - 1);
  }

  lemma TookNothing(p: Pool, size: nat, maxZone: nat)
    requires Inv(p) && size < 3 && maxZone < 3 && NothingLeft(p, size, 0, maxZone)
    ensures TookFull(p, p, size, 0, maxZone, 0)
  {
    if PageMode(p, size, 0, maxZone) {
      SearchInVain(p, size);
    }
    var last := if size == 2 then 0 else maxZone;
    assert forall z: nat {:trigger FirstGiga(p, z, last)} :: z < 3 ==> !FirstGiga(p, z, last);
  }

  lemma TookSplit(p: Pool, p1: Pool, p2: Pool, size: nat, maxZone: nat, effective: nat)
    requires Inv(p) && Inv(p1) && Inv(p2) && size < 2 && maxZone < 3 && effective < 3 && Exhausted(p, size, 0) && p1.initialized == p.initialized
    requires TookFull(p, p1, size + 1, maxZone, maxZone, effective) && !NothingLeft(p, size + 1, maxZone, maxZone)
    requires LargerSame(p1, p2, size) && SplitFull(p1, p2, size, effective)
    ensures TookFull(p, p2, size, 0, maxZone, effective)
  {
    if PageMode(p, size, 0, maxZone) {
      assert PageMode(p, size + 1, maxZone, maxZone);
      SearchBySplit(p, p1, p2, size, effective);
    }
    if p.initialized && Full(p) && Scanned(p, size, 0, maxZone) {
      if size == 0 {
        assert AllocKeeps(p, 0, 0, maxZone) <==> AllocKeeps(p, 1, maxZone, maxZone);
        if !AllocKeeps(p, 1, maxZone, maxZone) {
          BrokenStays(p1, p2, 0);
        }
      } else {
        TookGiga(p, p1, p2, maxZone, effective);
      }
    }
  }

  /** The 1G stack an allocation comes to first. */
  lemma FindGiga(p: Pool, zone: nat) returns (z: nat)
    requires Inv(p) && zone < 3 && !NothingLeft(p, 2, zone, zone)
    ensures z <= zone && FirstGiga(p, z, zone) && forall y: nat :: y < 3 && FirstGiga(p, y, zone) ==> y == z
  {
    z := zone;
    while Exhausted(p, 2, z)
      invariant z <= zone && forall y: nat {:trigger Exhausted(p, 2, y)} :: z < y <= zone ==> Exhausted(p, 2, y)
      decreases z
    {
      assert z > 0;
      z := z - 1;
    }
  }

  lemma TookGiga(p: Pool, p1: Pool, p2: Pool, maxZone: nat, effective: nat)
    requires Inv(p) && Inv(p1) && Inv(p2) && maxZone < 3 && effective < 3 && Exhausted(p, 1, 0) && p.initialized && p1.initialized && Full(p) && Scanned(p, 1, 0, maxZone)
    requires TookFull(p, p1, 2, maxZone, maxZone, effective) && !NothingLeft(p, 2, maxZone, maxZone) && SplitFull(p1, p2, 1, effective)
    ensures if AllocKeeps(p, 1, 0, maxZone) then Full(p2) else !FullFrom(p2, 1)
  {
    var z := FindGiga(p, maxZone);
    assert GigaFrom(p, p1, z, effective);
    assert Exhausted(p, 1, z);
    assert AllocKeeps(p, 1, 0, maxZone) <==> PageElsewhere(p, z);
    if TopNonEmpty(p, 2, z) {
      SameBefore(p, p1, z);
    }
    assert At(p1, 1, z) == At(p, 1, z);
  }

  lemma SameBefore(p: Pool, p1: Pool, z: nat)
    requires Inv(p) && z < 3 && TopNonEmpty(p, 2, z) && p1 == PopFrame(p, 2, z)
    ensures HasBefore(p1, 1, z) <==> HasBefore(p, 1, z)
    ensures At(p1, 1, z) == At(p, 1, z)
  {
    forall t: nat, y: nat | t < 2 && y < 3 ensures Exhausted(p1, t, y) <==> Exhausted(p, t, y) {
      assert At(p1, t, y) == At(p, t, y);
    }
  }

  // ---------------------------------------------------------------- a page for a full stack

  lemma FindServing(p: Pool, size: nat, zone: nat) returns (s: nat, z: nat)
    requires |p.stacks| == 9 && size < 3 && zone < 3 && !Exhausted(p, size, zone)
    ensures s < 3 && z < 3 && Serves(p, s, z) && !Before(size, zone, s, z)
  {
    s, z := size, zone;
    while HasBefore(p, s, z)
      invariant s < 3 && z < 3 && !Exhausted(p, s, z) && !Before(size, zone, s, z)
      decreases s, 3 - z
    {
      var t: nat, y: nat :| t < 3 && y < 3 && Before(t, y, s, z) && !Exhausted(p, t, y);
      s, z := t, y;
    }
  }

  lemma GotFullByAcquire(p: Pool, size: nat, zone: nat)
    requires Inv(p) && size < 3 && zone < 3 && p.reserved != [] && Inv(p.(reserved := p.reserved[1..]))
    ensures GotFull(p, p.(reserved := p.reserved[1..]), size, zone)
  {
  }

  lemma KeepsOnce(p: Pool, s: nat, z: nat)
    requires |p.stacks| == 9 && s < 3 && z < 3 && Serves(p, s, z)
    ensures SearchKeeps(p, 0) <==> KeepsAt(p, 0, s, z)
  {
    forall t: nat, y: nat | t < 3 && y < 3 && Serves(p, t, y) ensures t == s && y == z {
      ServesOnce(p, s, z, t, y);
    }
  }

  /** A search for a 4K frame in all stacks leaves lower pages full if and only if `SearchKeeps`. */
  lemma SearchedFull(p: Pool, p': Pool, effective: nat)
    requires Inv(p) && Inv(p') && p.reserved == [] && Full(p) && TookFull(p, p', 0, STD, STD, effective) && (NothingLeft(p, 0, STD, STD) ==> p' == p)
    ensures Full(p') <==> SearchKeeps(p, 0)
  {
    if !NothingLeft(p, 0, STD, STD) {
      var size: nat, zone: nat :| size < 3 && zone < 3 && !Exhausted(p, size, zone);
      var s, z := FindServing(p, size, zone);
      assert PageMode(p, 0, STD, STD) && ServedBy(p, p', 0, s, z, effective);
      KeepsOnce(p, s, z);
    }
  }

  lemma GotFullByAlloc(p: Pool, p1: Pool, size: nat, zone: nat, effective: nat)
    requires Inv(p) && Inv(p1) && size < 3 && zone < 3 && TopFull(p, size, zone) && p.reserved == []
    requires TookFull(p, p1, 0, STD, STD, effective) && PageKept(p, p1, 0)
    ensures GotFull(p, p1, size, zone)
  {
    assert PageMode(p, 0, STD, STD) && !Exhausted(p, size, zone);
    var s, z := FindServing(p, size, zone);
    assert ServedBy(p, p1, 0, s, z, effective);
    KeepsOnce(p, s, z);
    if Serves(p, size, zone) {
      ServesOnce(p, s, z, size, zone);
    } else {
      assert PageFor(p, p1, s, z) && Before(s, z, size, zone);
      assert At(p1, size, zone) == At(p, size, zone);
    }
    forall q: nat | q < 3 && Serves(p, 0, q) && TopNonEmpty(p, 0, q) ensures p1 == PopFrame(p, 0, q) {
      ServesOnce(p, s, z, 0, q);
    }
  }

  // ---------------------------------------------------------------- the parts of a split frame

  /** `k` parts lie on the page of stack (`size`, `z`), and nothing else has changed. */
  predicate Pushed(p: Pool, p': Pool, size: nat, z: nat, k: nat)
    requires size < 3 && z < 3
  {
    && OthersSame(p, p', size, z) && p'.reserved == p.reserved && p'.initialized == p.initialized
    && |At(p, size, z)| == 1 && |At(p', size, z)| == 1 && |Top(At(p', size, z)).frames| == |Top(At(p, size, z)).frames| + k
  }

  /** All parts up to the one that overflows the page are placed as `SplitFull` says, or fit. */
  ghost predicate PartsFull(p: Pool, p': Pool, size: nat, z: nat, parts: nat)
    requires Inv(p) && Inv(p') && size < 2 && z < 3
  {
    && (size == 0 && p.initialized && Full(p) ==> Full(p'))
    && ((size == 1 || !p.initialized) && Few(p, size, z) ==>
      if |Top(At(p, size, z)).frames| + parts <= PAGE_FRAMES + 1 then parts > 0 && Pushed(p, p', size, z, parts - 1)
      else Overflowed(p, p', size, z) && |Top(At(p', size, z)).frames| + PAGE_FRAMES <= |Top(At(p, size, z)).frames| + parts)
  }

  ghost predicate Overflowed(p: Pool, p': Pool, size: nat, z: nat)
    requires Inv(p) && Inv(p') && size < 2 && z < 3
  {
    && (Full(p) && Easy(p, size, z) ==> if PartsKeep(p, size, z) then Full(p') else !FullBelow(At(p', size, z)))
    && (size == 1 && !p.initialized && p.reserved == [] ==> forall q: nat {:trigger OneSmall(p, q)} :: q < 3 && OneSmall(p, q) ==> NoSmall(p'))
  }

  lemma PartsStart(p: Pool, size: nat, z: nat)
    requires Inv(p) && size < 2 && z < 3
    ensures PartsFull(p, p, size, z, 1)
  {
  }

  lemma PartsEnd(p: Pool, p': Pool, size: nat, z: nat)
    requires Inv(p) && Inv(p') && size < 2 && z < 3 && PartsFull(p, p', size, z, 512)
    ensures SplitFull(p, p', size, z)
  {
  }

  lemma PartsStep(p: Pool, p2: Pool, p3: Pool, size: nat, z: nat, part: nat, b: nat)
    requires Inv(p) && Inv(p2) && Inv(p3) && size < 2 && z < 3 && 0 < part < 512 && PartsFull(p, p2, size, z, part)
    requires p2.initialized == p.initialized && Freed(p2, p3, size, z, b) && FreedFull(p2, p3, size, z)
    ensures PartsFull(p, p3, size, z, part + 1)
  {
    if (size == 1 || !p.initialized) && Few(p, size, z) {
      var m := |Top(At(p, size, z)).frames|;
      if m + part < PAGE_FRAMES + 1 {
        PushedMore(p, p2, size, z, part - 1, b);
      } else if m + part == PAGE_FRAMES + 1 {
        PartsOverflow(p, p2, p3, size, z);
      } else {
        assert Plain(p2, size, z, b);
        PushAfter(p, p2, size, z, b);
      }
    }
  }

  lemma PushedMore(p: Pool, p2: Pool, size: nat, z: nat, k: nat, b: nat)
    requires Inv(p) && Inv(p2) && size < 3 && z < 3 && Pushed(p, p2, size, z, k)
    ensures Pushed(p, PushFrame(p2, size, z, b), size, z, k + 1)
  {
    var p3 := PushFrame(p2, size, z, b);
    assert At(p3, size, z) == AddFrame(At(p2, size, z), b);
    forall s: nat, y: nat | s < 3 && y < 3 && (s != size || y != z) ensures At(p3, s, y) == At(p, s, y) {
      assert At(p3, s, y) == At(p2, s, y) && At(p2, s, y) == At(p, s, y);
    }
  }

  lemma PushAfter(p: Pool, p2: Pool, size: nat, z: nat, b: nat)
    requires Inv(p) && Inv(p2) && size < 2 && z < 3 && Overflowed(p, p2, size, z) && Inv(PushFrame(p2, size, z, b))
    ensures Overflowed(p, PushFrame(p2, size, z, b), size, z)
    ensures |Top(At(PushFrame(p2, size, z, b), size, z)).frames| == |Top(At(p2, size, z)).frames| + 1
  {
    var p3 := PushFrame(p2, size, z, b);
    FullAdd(At(p2, size, z), b);
    FullPut(p2, size, z, AddFrame(At(p2, size, z), b));
    assert At(p3, size, z) == AddFrame(At(p2, size, z), b);
    if size == 1 && NoSmall(p2) {
      forall y: nat | y < 3 ensures Exhausted(p3, 0, y) {
        assert Exhausted(p2, 0, y) && At(p3, 0, y) == At(p2, 0, y);
      }
    }
  }

  lemma PushedFull(p: Pool, p2: Pool, size: nat, z: nat, k: nat)
    requires Inv(p) && Inv(p2) && size < 3 && z < 3 && Pushed(p, p2, size, z, k) && Full(p)
    ensures Full(p2)
  {
    forall s: nat, y: nat | s < 3 && y < 3 ensures FullBelow(At(p2, s, y)) {
      assert (s != size || y != z) ==> At(p2, s, y) == At(p, s, y) && Exhausted(p2, s, y) == Exhausted(p, s, y);
    }
  }

  lemma PushedBefore(p: Pool, p2: Pool, size: nat, z: nat, k: nat)
    requires Inv(p) && Inv(p2) && size < 3 && z < 3 && Pushed(p, p2, size, z, k) && k > 0
    ensures Serves(p2, size, z) <==> !HasBefore(p, size, z)
  {
    assert !Exhausted(p2, size, z);
    forall t: nat, y: nat | t < 3 && y < 3 && Before(t, y, size, z) ensures Exhausted(p2, t, y) <==> Exhausted(p, t, y) {
      assert At(p2, t, y) == At(p, t, y);
    }
  }

  /** A stack before this one serves, and harmlessly. */
  lemma PushedSearch(p: Pool, p2: Pool, size: nat, z: nat, k: nat)
    requires Inv(p) && Inv(p2) && size < 2 && z < 3 && Pushed(p, p2, size, z, k) && k > 0 && Easy(p, size, z) && HasBefore(p, size, z)
    ensures SearchKeeps(p2, 0)
  {
    PushedBefore(p, p2, size, z, k);
    forall s: nat, y: nat | s < 3 && y < 3 && Serves(p2, s, y) ensures KeepsAt(p2, 0, s, y) {
      assert !Before(size, z, s, y);
      assert (s != size || y != z) ==> At(p2, s, y) == At(p, s, y) && Exhausted(p2, s, y) == Exhausted(p, s, y);
    }
  }

  lemma PartsOverflow(p: Pool, p2: Pool, p3: Pool, size: nat, z: nat)
    requires Inv(p) && Inv(p2) && Inv(p3) && size < 2 && z < 3 && (size == 1 || !p.initialized) && Few(p, size, z)
    requires Pushed(p, p2, size, z, PAGE_FRAMES - |Top(At(p, size, z)).frames|) && FreedFull(p2, p3, size, z)
    ensures Overflowed(p, p3, size, z) && |Top(At(p3, size, z)).frames| <= 1
  {
    var k := PAGE_FRAMES - |Top(At(p, size, z)).frames|;
    PushedBefore(p, p2, size, z, k);
    if Full(p) && Easy(p, size, z) {
      PushedFull(p, p2, size, z, k);
      if HasBefore(p, size, z) {
        PushedSearch(p, p2, size, z, k);
      }
    }
    forall q: nat | size == 1 && !p.initialized && p.reserved == [] && q < 3 && OneSmall(p, q) ensures NoSmall(p3) {
      OnePopped(p, p2, p3, z, q, k);
    }
  }

  /** The only 4K frame becomes the stack page. */
  lemma OnePopped(p: Pool, p2: Pool, p3: Pool, z: nat, q: nat, k: nat)
    requires Inv(p) && Inv(p2) && Inv(p3) && z < 3 && q < 3 && Pushed(p, p2, 1, z, k) && OneSmall(p, q) && Extends(p2, 1, z) && FreedFull(p2, p3, 1, z)
    ensures NoSmall(p3)
  {
    forall y: nat | y < 3 ensures At(p2, 0, y) == At(p, 0, y) {
    }
    assert !Exhausted(p2, 0, q) && TopNonEmpty(p2, 0, q);
    forall y: nat | y < 3 && y != q ensures Exhausted(p2, 0, y) {
      assert Exhausted(p, 0, y);
    }
    assert Serves(p2, 0, q) && SmallTaken(p2, p3, q);
    assert Top(TakeFrame(At(p2, 0, q))).frames == [] && |TakeFrame(At(p2, 0, q))| == 1;
    forall y: nat | y < 3 ensures Exhausted(p3, 0, y) {
      assert y != q ==> Exhausted(p2, 0, y);
      assert At(p3, 0, y) == if y == q then TakeFrame(At(p2, 0, q)) else At(p2, 0, y);
    }
  }
}
