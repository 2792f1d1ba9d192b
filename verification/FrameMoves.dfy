/**
 What allocating, freeing and reserving a frame leave behind: relations between the
 pool before and after, strong enough to carry each other through the mutual recursion.
 */
module FrameMoves {
  import opened Common
  import opened FramePool

  predicate Nine(p: Pool, p': Pool) {
    |p.stacks| == 9 && |p'.stacks| == 9
  }

  predicate TopNonEmpty(p: Pool, size: nat, zone: nat)
    requires |p.stacks| == 9 && size < 3 && zone < 3
  {
    At(p, size, zone) != [] && Top(At(p, size, zone)).frames != []
  }

  predicate TopFull(p: Pool, size: nat, zone: nat)
    requires |p.stacks| == 9 && size < 3 && zone < 3
  {
    At(p, size, zone) != [] && |Top(At(p, size, zone)).frames| == PAGE_FRAMES
  }

  /** A single page without frames. */
  predicate Exhausted(p: Pool, size: nat, zone: nat)
    requires |p.stacks| == 9 && size < 3 && zone < 3
  {
    |At(p, size, zone)| == 1 && Top(At(p, size, zone)).frames == []
  }

  /** Stacks of larger frames are untouched. */
  predicate LargerSame(p: Pool, p': Pool, size: nat) {
    Nine(p, p') && forall s: nat, z: nat {:trigger At(p', s, z)} :: size < s < 3 && z < 3 ==> At(p', s, z) == At(p, s, z)
  }

  /** Stacks of the same frame size and lower zones are untouched. */
  predicate LowerSame(p: Pool, p': Pool, size: nat, zone: nat)
    requires size < 3 && zone < 3
  {
    Nine(p, p') && forall z: nat {:trigger At(p', size, z)} :: z < zone ==> At(p', size, z) == At(p, size, z)
  }

  predicate OthersSame(p: Pool, p': Pool, size: nat, zone: nat) {
    Nine(p, p') && forall s: nat, z: nat {:trigger At(p', s, z)} :: s < 3 && z < 3 && (s != size || z != zone) ==> At(p', s, z) == At(p, s, z)
  }

  /** A frame is on top, or an allocation from the stack would hand out its top page itself. */
  predicate Ready(p: Pool, size: nat, zone: nat)
    requires |p.stacks| == 9 && size < 3 && zone < 3
  {
    TopNonEmpty(p, size, zone) || (size == 0 && zone == STD && |At(p, size, zone)| > 1 && !WouldReserve(p, Top(At(p, size, zone)).addr))
  }

  lemma {:induction false} LargerSameWeight(p: Pool, p': Pool, n: nat)
    requires LargerSame(p, p', 0) && n <= 9
    ensures WeightUpTo(p.stacks, n) == WeightUpTo(p'.stacks, n)
    decreases n
  {
    if n > 0 {
      LargerSameWeight(p, p', n - 1);
      if n > 3 {
        IndexSplit(n - 1);
        assert At(p', (n - 1) / 3, (n - 1) % 3) == At(p, (n - 1) / 3, (n - 1) % 3);
      }
    }
  }

  lemma IndexSplit(i: nat)
    requires i < 9
    ensures i / 3 < 3 && i % 3 < 3 && 3 * (i / 3) + i % 3 == i && (i >= 3 ==> i / 3 > 0)
  {
  }

  // ---------------------------------------------------------------- reserving

  /** Stacks with a frame on top are ready. */
  predicate StillReady(p: Pool, p': Pool) {
    Nine(p, p') && forall s: nat, z: nat {:trigger At(p', s, z)} :: s < 3 && z < 3 && TopNonEmpty(p, s, z) ==> Ready(p', s, z)
  }

  /** `_pmm_try_reserve_as_stack_page` took `a` in. */
  ghost predicate Reserved(p: Pool, p': Pool, a: nat)
    requires Inv(p)
  {
    && Inv(p') && p'.initialized == p.initialized && Grown(p, p', a, a + FRAME)
    && LargerSame(p, p', 0) && Phi(p') == Phi(p) && Pages(p') <= Pages(p) + 1 && OrderKept(p, p')
    && StillReady(p, p')
    && (|p.reserved| < PAGE_FRAMES ==> p' == Reserve(p, a))
  }

  // ---------------------------------------------------------------- freeing

  /** The frame goes onto the top page as it is. */
  predicate Plain(p: Pool, size: nat, zone: nat, a: nat)
    requires Inv(p) && size < 3 && zone < 3
  {
    (size > 0 || !WouldReserve(p, a)) && |Top(At(p, size, zone)).frames| < PAGE_FRAMES
  }

  /** `_pmm_free` took the frame in. */
  ghost predicate Freed(p: Pool, p': Pool, size: nat, zone: nat, a: nat)
    requires Inv(p) && size < 3 && zone < 3
  {
    && Inv(p') && p'.initialized == p.initialized && Grown(p, p', a, a + PageBytes(size))
    && LargerSame(p, p', size) && OrderKept(p, p')
    && Phi(p') <= Phi(p) + Weight(size) && (Phi(p') == Phi(p) + Weight(size) ==> Pages(p') <= Pages(p) + 1)
    && (Plain(p, size, zone, a) ==> p' == PushFrame(p, size, zone, a))
    && (size == 0 && !WouldReserve(p, a) ==> LowerSame(p, p', 0, zone))
    && (size == 0 && !WouldReserve(p, a) && p.initialized ==> OthersSame(p, p', 0, zone) && Ready(p', 0, zone))
    && (size == 0 && WouldReserve(p, a) ==> StillReady(p, p'))
  }

  lemma FreedByReserve(p: Pool, p': Pool, zone: nat, a: nat)
    requires Inv(p) && zone < 3 && WouldReserve(p, a) && Reserved(p, p', a)
    ensures Freed(p, p', 0, zone, a)
  {
  }

  lemma FreedByPush(p: Pool, size: nat, zone: nat, a: nat)
    requires Inv(p) && size < 3 && zone < 3 && Plain(p, size, zone, a) && FrameOk(size, a) && GetZone(size, a) <= zone
    ensures Freed(p, PushFrame(p, size, zone, a), size, zone, a)
  {
    PushFrameEffect(p, size, zone, a);
  }

  /** A 4K frame of the standard zone becomes the new top page itself. */
  lemma FreedAsPage(p: Pool, a: nat)
    requires Inv(p) && TopFull(p, 0, STD) && FrameOk(0, a) && !WouldReserve(p, a)
    ensures Freed(p, PushPage(p, 0, STD, a), 0, STD, a)
  {
    PushPageEffect(p, 0, STD, a);
  }

  /** A frame `page` was obtained as a new page for a full stack. */
  ghost predicate PageGot(p: Pool, p1: Pool, size: nat, zone: nat, page: nat)
    requires Inv(p) && size < 3 && zone < 3
  {
    && Inv(p1) && p1.initialized == p.initialized && FrameOk(0, page) && Grown(p1, p, page, page + FRAME)
    && LargerSame(p, p1, size) && TopNonEmpty(p1, size, zone) && OrderKept(p, p1)
    && Phi(p1) <= Phi(p) && (Phi(p1) == Phi(p) ==> Pages(p1) <= Pages(p))
    && (size == 0 ==> LowerSame(p, p1, 0, zone))
    && (p.reserved != [] ==> p1.stacks == p.stacks)
  }

  function Paged(p1: Pool, size: nat, zone: nat, page: nat, a: nat): Pool
    requires Inv(p1) && size < 3 && zone < 3 && FrameOk(0, page) && TopNonEmpty(p1, size, zone) && FrameOk(size, a) && GetZone(size, a) <= zone
  {
    PushPageEffect(p1, size, zone, page);
    PushFrame(PushPage(p1, size, zone, page), size, zone, a)
  }

  lemma FreedByPage(p: Pool, p1: Pool, size: nat, zone: nat, page: nat, a: nat)
    requires Inv(p) && size < 3 && zone < 3 && TopFull(p, size, zone) && FrameOk(size, a) && GetZone(size, a) <= zone
    requires size == 0 ==> !WouldReserve(p, a)
    requires PageGot(p, p1, size, zone, page)
    ensures Freed(p, Paged(p1, size, zone, page, a), size, zone, a)
  {
    PushPageEffect(p1, size, zone, page);
    PushFrameEffect(PushPage(p1, size, zone, page), size, zone, a);
  }

  // ---------------------------------------------------------------- reserving with a full list

  lemma ReservedBySwap(p: Pool, p': Pool, a: nat, r: nat, zone: nat)
    requires Inv(p) && WouldReserve(p, a) && FrameOk(0, a) && |p.reserved| == PAGE_FRAMES && r == p.reserved[PAGE_FRAMES - 1] && zone < 3
    requires Inv(Reserve(p, a)) && Freed(Reserve(p, a), p', 0, zone, r)
    ensures Reserved(p, p', a)
  {
    var p2 := Reserve(p, a);
    ReserveEffect(p, a);
    forall x: nat ensures Held(p', x) == Held(p, x) + In(a, a + FRAME, x) {
      ReserveSwaps(p, a, x);
      assert Held(p', x) == Held(p2, x) + In(r, r + FRAME, x);
    }
    forall s: nat, z: nat | s < 3 && z < 3 ensures TopNonEmpty(p, s, z) ==> Ready(p', s, z) {
      assert At(p2, s, z) == At(p, s, z);
      assert !WouldReserve(p2, r) && (s != 0 || z != zone) ==> At(p', s, z) == At(p2, s, z);
    }
    forall s: nat, z: nat | 0 < s < 3 && z < 3 ensures At(p', s, z) == At(p, s, z) {
      assert At(p2, s, z) == At(p, s, z);
    }
    LargerSameWeight(p2, p', |p.stacks|);
  }

  // ---------------------------------------------------------------- allocating

  /** No frame of this size up to `zone`, nor of a larger size up to `maxZone`. */
  predicate NothingLeft(p: Pool, size: nat, zone: nat, maxZone: nat)
    requires |p.stacks| == 9
  {
    forall s: nat, z: nat {:trigger Exhausted(p, s, z)} :: s < 3 && z < 3 && ((s == size && z <= zone) || (s > size && z <= maxZone)) ==> Exhausted(p, s, z)
  }

  /** `_pmm_alloc` handed out frame `a` of zone `effective`, or nothing. */
  ghost predicate Taken(p: Pool, p': Pool, size: nat, zone: nat, maxZone: nat, a: nat, effective: nat)
    requires Inv(p) && size < 3
  {
    && Inv(p') && p'.initialized == p.initialized && OrderKept(p, p')
    && (a == 0 <==> NothingLeft(p, size, zone, maxZone)) && (a == 0 ==> p' == p)
    && (a != 0 ==> Handed(p, p', size, maxZone, a, effective))
  }

  ghost predicate Handed(p: Pool, p': Pool, size: nat, maxZone: nat, a: nat, effective: nat) {
    && FrameOk(size, a) && GetZone(size, a) <= effective <= maxZone && Grown(p', p, a, a + PageBytes(size))
    && Phi(p') + Weight(size) <= Phi(p) && (Phi(p') + Weight(size) == Phi(p) ==> Pages(p') <= Pages(p))
  }

  lemma TakenByPop(p: Pool, size: nat, zone: nat, maxZone: nat)
    requires Inv(p) && size < 3 && zone <= maxZone < 3 && TopNonEmpty(p, size, zone)
    ensures Taken(p, PopFrame(p, size, zone), size, zone, maxZone, TopFrame(p, size, zone), zone)
  {
    assert !Exhausted(p, size, zone);
    PopFrameEffect(p, size, zone);
  }

  /** The empty top page itself is handed out. */
  lemma TakenAsPage(p: Pool, zone: nat, maxZone: nat)
    requires Inv(p) && zone <= maxZone < 3 && !TopNonEmpty(p, 0, zone) && |At(p, 0, zone)| > 1
    ensures var a := Top(At(p, 0, zone)).addr;
            GetZone(0, a) <= zone ==> Taken(p, PopPage(p, 0, zone), 0, zone, maxZone, a, GetZone(0, a))
  {
    assert !Exhausted(p, 0, zone);
    PopPageEffect(p, 0, zone);
  }

  /** The empty top page went elsewhere into the pool, and the next attempt will succeed. */
  ghost predicate Requeued(p: Pool, p2: Pool, size: nat, zone: nat)
    requires Inv(p) && size < 3 && zone < 3
  {
    && Inv(p2) && p2.initialized == p.initialized && OrderKept(p, p2) && Phi(p2) == Phi(p) && Pages(p2) <= Pages(p) && Ready(p2, size, zone)
    && forall x: nat {:trigger Held(p2, x)} :: Held(p2, x) == Held(p, x)
  }

  lemma TakenBelow(p: Pool, p2: Pool, p3: Pool, size: nat, zone: nat, maxZone: nat, a: nat, effective: nat)
    requires Inv(p) && size < 3 && zone <= maxZone < 3 && |At(p, size, zone)| > 1 && Requeued(p, p2, size, zone)
    requires Taken(p2, p3, size, zone, zone, a, effective)
    ensures a != 0 && Taken(p, p3, size, zone, maxZone, a, effective)
  {
    assert !Exhausted(p, size, zone) && !Exhausted(p2, size, zone);
    forall x: nat ensures Held(p, x) == Held(p3, x) + In(a, a + PageBytes(size), x) {
      assert Held(p2, x) == Held(p, x);
    }
  }

  lemma RequeuedByReserve(p: Pool, p2: Pool, size: nat, zone: nat)
    requires Inv(p) && size < 3 && zone < 3 && !TopNonEmpty(p, size, zone) && |At(p, size, zone)| > 1
    requires Inv(PopPage(p, size, zone)) && Reserved(PopPage(p, size, zone), p2, Top(At(p, size, zone)).addr)
    ensures Requeued(p, p2, size, zone)
  {
    PopPageEffect(p, size, zone);
    var p1 := PopPage(p, size, zone);
    assert TopNonEmpty(p1, size, zone);
    assert At(p2, size, zone) == At(p2, size, zone);
  }

  lemma RequeuedByFree(p: Pool, p2: Pool, size: nat, zone: nat, z0: nat)
    requires Inv(p) && size < 3 && zone < 3 && !TopNonEmpty(p, size, zone) && |At(p, size, zone)| > 1
    requires Inv(PopPage(p, size, zone)) && z0 < 3 && (size > 0 || z0 > zone)
    requires Freed(PopPage(p, size, zone), p2, 0, z0, Top(At(p, size, zone)).addr) && !WouldReserve(p, Top(At(p, size, zone)).addr)
    ensures Requeued(p, p2, size, zone) && TopNonEmpty(p2, size, zone)
  {
    PopPageEffect(p, size, zone);
    var p1 := PopPage(p, size, zone);
    LargerSameWeight(p1, p2, |p1.stacks|);
    assert At(p2, size, zone) == At(p1, size, zone);
  }

  /** The parts of a larger frame but the first were freed. */
  ghost predicate Split(p1: Pool, p2: Pool, size: nat, a: nat, parts: nat)
    requires Inv(p1)
  {
    && Inv(p2) && p2.initialized == p1.initialized && OrderKept(p1, p2) && LargerSame(p1, p2, size)
    && Grown(p1, p2, a + PageBytes(size), a + parts * PageBytes(size))
    && Phi(p2) <= Phi(p1) + (parts - 1) * Weight(size)
  }

  lemma TakenBySplit(p: Pool, p1: Pool, p2: Pool, size: nat, maxZone: nat, a: nat, effective: nat)
    requires Inv(p) && size < 2 && maxZone < 3 && Exhausted(p, size, 0) && a != 0
    requires Taken(p, p1, size + 1, maxZone, maxZone, a, effective) && Split(p1, p2, size, a, 512)
    ensures Taken(p, p2, size, 0, maxZone, a, effective)
  {
    SubFrame(size, a, 0);
    forall x: nat ensures Held(p, x) == Held(p2, x) + In(a, a + PageBytes(size), x) {
      assert Held(p, x) == Held(p1, x) + In(a, a + PageBytes(size + 1), x);
    }
    assert !NothingLeft(p, size, 0, maxZone) by {
      var s: nat, z: nat :| s < 3 && z < 3 && ((s == size + 1 && z <= maxZone) || (s > size + 1 && z <= maxZone)) && !Exhausted(p, s, z);
    }
  }

  // ---------------------------------------------------------------- obtaining a stack page

  /** The pool has no reserved frame, and the search for a 4K frame has come as far as (`size`, `zone`). */
  predicate PageMode(p: Pool, size: nat, zone: nat, maxZone: nat)
    requires |p.stacks| == 9
  {
    && p.reserved == [] && maxZone == STD
    && forall s: nat, z: nat {:trigger Exhausted(p, s, z)} :: s < 3 && z < 3 && (s < size || (s == size && z > zone)) ==> Exhausted(p, s, z)
  }

  /** What a search that stack (`s`, `z`) could satisfy leaves alone. */
  predicate PageFor(p: Pool, p': Pool, s: nat, z: nat)
    requires Nine(p, p') && s < 3 && z < 3
  {
    && LargerSame(p, p', s) && LowerSame(p, p', s, z)
    && (TopFull(p, s, z) ==> TopNonEmpty(p', s, z))
  }

  predicate PageKept(p: Pool, p': Pool, size: nat) {
    Nine(p, p') && forall s: nat, z: nat {:trigger Exhausted(p, s, z)} :: size <= s < 3 && z < 3 && !Exhausted(p, s, z) ==> PageFor(p, p', s, z)
  }

  /** The stacks the search has not come to are as before. */
  predicate AheadSame(p: Pool, p': Pool, size: nat, zone: nat) {
    Nine(p, p') && forall s: nat, z: nat {:trigger At(p', s, z)} :: s < 3 && z < 3 && (s > size || (s == size && z < zone)) ==> At(p', s, z) == At(p, s, z)
  }

  lemma KeptAhead(p: Pool, p': Pool, size: nat, zone: nat, maxZone: nat)
    requires Nine(p, p') && size < 3 && zone < 3 && PageMode(p, size, zone, maxZone) && AheadSame(p, p', size, zone)
    requires TopFull(p, size, zone) ==> TopNonEmpty(p', size, zone)
    ensures PageKept(p, p', size)
  {
    forall s: nat, z: nat | size <= s < 3 && z < 3 && !Exhausted(p, s, z) ensures PageFor(p, p', s, z) {
      assert s != size || z != zone ==> At(p', s, z) == At(p, s, z);
    }
  }

  lemma KeptByPop(p: Pool, size: nat, zone: nat, maxZone: nat)
    requires Inv(p) && size < 3 && zone < 3 && TopNonEmpty(p, size, zone) && PageMode(p, size, zone, maxZone)
    ensures PageKept(p, PopFrame(p, size, zone), size)
  {
    assert Top(TakeFrame(At(p, size, zone))).frames == Top(At(p, size, zone)).frames[..|Top(At(p, size, zone)).frames| - 1];
    KeptAhead(p, PopFrame(p, size, zone), size, zone, maxZone);
  }

  lemma KeptByPage(p: Pool, size: nat, zone: nat, maxZone: nat)
    requires Inv(p) && size < 3 && zone < 3 && !TopNonEmpty(p, size, zone) && |At(p, size, zone)| > 1 && PageMode(p, size, zone, maxZone)
    ensures PageKept(p, PopPage(p, size, zone), size)
  {
    KeptAhead(p, PopPage(p, size, zone), size, zone, maxZone);
  }

  /** The page was reserved in an empty list. */
  lemma AheadByReserve(p: Pool, p2: Pool, size: nat, zone: nat)
    requires Inv(p) && size < 3 && zone < 3 && |At(p, size, zone)| > 1 && !TopNonEmpty(p, size, zone)
    requires p2.stacks == PopPage(p, size, zone).stacks
    ensures AheadSame(p, p2, size, zone) && TopNonEmpty(p2, size, zone)
  {
    var p1 := PopPage(p, size, zone);
    PopPageEffect(p, size, zone);
    forall s: nat, z: nat | s < 3 && z < 3 ensures At(p2, s, z) == At(p1, s, z) {
    }
    assert At(p2, size, zone) == At(p1, size, zone);
  }

  /** The page was freed onto an exhausted 4K stack. */
  lemma AheadByFree(p: Pool, p2: Pool, size: nat, zone: nat, maxZone: nat, z0: nat, a: nat)
    requires Inv(p) && size < 3 && zone < 3 && |At(p, size, zone)| > 1 && !TopNonEmpty(p, size, zone) && PageMode(p, size, zone, maxZone)
    requires Inv(PopPage(p, size, zone)) && z0 < 3 && (size > 0 || z0 > zone) && !WouldReserve(p, a)
    requires Freed(PopPage(p, size, zone), p2, 0, z0, a)
    ensures AheadSame(p, p2, size, zone)
  {
    assert Exhausted(p, 0, z0);
    var p1 := PopPage(p, size, zone);
    assert At(p1, 0, z0) == At(p, 0, z0) && Plain(p1, 0, z0, a);
  }

  lemma KeptBelow(p: Pool, p2: Pool, size: nat, zone: nat, maxZone: nat)
    requires Inv(p) && size < 3 && zone < 3 && !TopNonEmpty(p, size, zone) && PageMode(p, size, zone, maxZone)
    requires Inv(p2) && AheadSame(p, p2, size, zone) && TopNonEmpty(p2, size, zone)
    ensures PageKept(p, PopFrame(p2, size, zone), size)
  {
    var p3 := PopFrame(p2, size, zone);
    forall s: nat, z: nat | s < 3 && z < 3 && (s > size || (s == size && z < zone)) ensures At(p3, s, z) == At(p, s, z) {
      assert At(p2, s, z) == At(p, s, z);
    }
    KeptAhead(p, p3, size, zone, maxZone);
  }

  lemma KeptBySplit(p: Pool, p1: Pool, p2: Pool, size: nat)
    requires Inv(p) && size < 2 && PageMode(p, size, 0, STD) && Exhausted(p, size, 0)
    requires PageKept(p, p1, size + 1) && LargerSame(p1, p2, size)
    ensures PageKept(p, p2, size)
  {
    forall s: nat, z: nat | size <= s < 3 && z < 3 && !Exhausted(p, s, z) ensures PageFor(p, p2, s, z) {
      assert s != size ==> PageFor(p, p1, s, z);
      forall s': nat, z': nat | s < s' < 3 && z' < 3 ensures At(p2, s', z') == At(p, s', z') {
        assert At(p1, s', z') == At(p, s', z');
      }
      assert At(p2, s, z) == At(p1, s, z);
    }
  }

  lemma GotByAlloc(p: Pool, p1: Pool, size: nat, zone: nat, page: nat, effective: nat)
    requires Inv(p) && size < 3 && zone < 3 && TopFull(p, size, zone) && p.reserved == []
    requires Taken(p, p1, 0, STD, STD, page, effective) && PageKept(p, p1, 0)
    ensures page != 0 && PageGot(p, p1, size, zone, page)
  {
    assert !Exhausted(p, size, zone) && PageFor(p, p1, size, zone);
  }

  lemma GotByAcquire(p: Pool, size: nat, zone: nat)
    requires Inv(p) && size < 3 && zone < 3 && TopFull(p, size, zone) && p.reserved != []
    ensures PageGot(p, p.(reserved := p.reserved[1..]), size, zone, p.reserved[0])
  {
    AcquireEffect(p);
    forall s: nat, z: nat | s < 3 && z < 3 ensures At(p.(reserved := p.reserved[1..]), s, z) == At(p, s, z) {
    }
  }
}
