/**
 Which 4K frames the manager hands out before its list of reserved pages is set up, one after the
 other: first what lies on the 4K stacks, from the top down and stack pages included, then the
 first part of a larger frame, and after that a frame above it.
 */
module FrameOrder {
  import opened Common
  import opened FramePool
  import opened FrameMoves
  import opened FullPages
  import StackSort

  // ---------------------------------------------------------------- the next frame

  /** The address that a search come as far as stack (`size`, `zone`) hands out; 0 if nothing is left. */
  function First(p: Pool, size: nat, zone: nat): nat
    requires Inv(p) && size < 3 && zone < 3
    decreases 3 * (2 - size) + zone
  {
    var st := At(p, size, zone);
    if TopNonEmpty(p, size, zone) then TopFrame(p, size, zone)
    else if |st| > 1 then
      if size == 0 && GetZone(0, Top(st).addr) <= zone then Top(st).addr
      else PopPageEffect(p, size, zone); TopFrame(PopPage(p, size, zone), size, zone)
    else if zone > 0 then First(p, size, zone - 1)
    else if size < 2 then First(p, size + 1, STD)
    else 0
  }

  /** Above zone `z` there are no 2M frames, and 4K frames of their own zone on static pages at most. */
  predicate Above(p: Pool, z: nat) {
    |p.stacks| == 9 && forall y: nat {:trigger At(p, 0, y)} :: z < y < 3 ==> Exhausted(p, 1, y) && |At(p, 0, y)| == 1 && OwnZone(Top(At(p, 0, y)).frames, y)
  }

  predicate OwnZone(fs: seq<nat>, z: nat) {
    forall f :: f in fs ==> GetZone(0, f) == z
  }

  /** The 4K stack of zone `z` would hand out `a` next. */
  predicate LastOn(p: Pool, z: nat, a: nat)
    requires |p.stacks| == 9 && z < 3
  {
    var st := At(p, 0, z);
    st != [] && if Top(st).frames != [] then Top(st).frames[|Top(st).frames| - 1] == a else |st| > 1 && Top(st).addr == a && GetZone(0, a) <= z
  }

  // ---------------------------------------------------------------- what the operations leave

  ghost predicate FreedOrder(p: Pool, p': Pool, size: nat, zone: nat, a: nat)
    requires Inv(p) && Inv(p') && size < 3 && zone < 3
  {
    !p.initialized ==> (size < 2 && Above(p, zone) ==> Above(p', zone)) && (size == 0 ==> LastOn(p', zone, a))
  }

  ghost predicate GotOrder(p: Pool, p1: Pool, size: nat, zone: nat)
    requires Inv(p) && Inv(p1) && size < 3 && zone < 3
  {
    !p.initialized && size < 2 && Above(p, zone) ==> Above(p1, zone)
  }

  ghost predicate PartsOrder(p: Pool, p': Pool, size: nat, zone: nat, a: nat, parts: nat)
    requires Inv(p) && Inv(p') && size < 2 && zone < 3
  {
    !p.initialized ==> (Above(p, zone) ==> Above(p', zone)) && (size == 0 && parts > 1 ==> LastOn(p', zone, a + (parts - 1) * FRAME))
  }

  ghost predicate TookOrder(p: Pool, p': Pool, size: nat, zone: nat, maxZone: nat, a: nat, effective: nat)
    requires Inv(p) && Inv(p') && size < 3 && zone <= maxZone < 3
  {
    !p.initialized && PageMode(p, size, zone, maxZone) ==>
      && a == First(p, size, zone)
      && (a != 0 && NoSmall(p) ==> effective < 3 && Above(p', effective) && (size == 0 ==> LastOn(p', effective, a + 511 * FRAME)))
      && (size < 2 ==> forall z: nat {:trigger Serves(p, 1, z)} :: z < 3 && Serves(p, 1, z) ==> effective == z)
  }

  // ---------------------------------------------------------------- freeing

  lemma OrderByPush(p: Pool, size: nat, zone: nat, a: nat)
    requires Inv(p) && size < 3 && zone < 3 && Inv(PushFrame(p, size, zone, a))
    ensures FreedOrder(p, PushFrame(p, size, zone, a), size, zone, a)
  {
    AboveElsewhere(p, PushFrame(p, size, zone, a), size, zone);
  }

  /** What happens up to zone `zone` keeps what is above. */
  lemma AboveElsewhere(p: Pool, p': Pool, size: nat, zone: nat)
    requires |p.stacks| == 9 && |p'.stacks| == 9 && zone < 3 && OthersSame(p, p', size, zone)
    ensures Above(p, zone) ==> Above(p', zone)
  {
    if Above(p, zone) {
      forall y: nat | zone < y < 3 ensures Exhausted(p', 1, y) && |At(p', 0, y)| == 1 && OwnZone(Top(At(p', 0, y)).frames, y) {
        assert At(p', 0, y) == At(p, 0, y) && At(p', 1, y) == At(p, 1, y);
      }
    }
  }

  lemma OrderAsPage(p: Pool, a: nat)
    requires Inv(p) && TopFull(p, 0, STD) && Inv(PushPage(p, 0, STD, a))
    ensures FreedOrder(p, PushPage(p, 0, STD, a), 0, STD, a)
  {
    AboveElsewhere(p, PushPage(p, 0, STD, a), 0, STD);
    assert At(PushPage(p, 0, STD, a), 0, STD) == AddPage(At(p, 0, STD), a);
  }

  lemma OrderByPage(p: Pool, p1: Pool, size: nat, zone: nat, page: nat, a: nat)
    requires Inv(p) && Inv(p1) && size < 3 && zone < 3 && FrameOk(0, page) && TopNonEmpty(p1, size, zone) && FrameOk(size, a) && GetZone(size, a) <= zone
    requires GotOrder(p, p1, size, zone) && p1.initialized == p.initialized && Inv(Paged(p1, size, zone, page, a))
    ensures FreedOrder(p, Paged(p1, size, zone, page, a), size, zone, a)
  {
    PushPageEffect(p1, size, zone, page);
    var p2, p' := PushPage(p1, size, zone, page), Paged(p1, size, zone, page, a);
    assert At(p', size, zone) == AddFrame(AddPage(At(p1, size, zone), page), a);
    AboveElsewhere(p1, p2, size, zone);
    AboveElsewhere(p2, p', size, zone);
  }

  // ---------------------------------------------------------------- a page for a full stack

  lemma OrderByAcquire(p: Pool, size: nat, zone: nat)
    requires Inv(p) && size < 3 && zone < 3 && p.reserved != [] && Inv(p.(reserved := p.reserved[1..]))
    ensures GotOrder(p, p.(reserved := p.reserved[1..]), size, zone)
  {
  }

  lemma OrderByAlloc(p: Pool, p1: Pool, size: nat, zone: nat, page: nat, effective: nat)
    requires Inv(p) && Inv(p1) && size < 3 && zone < 3 && TopFull(p, size, zone) && p.reserved == [] && page != 0
    requires TookFull(p, p1, 0, STD, STD, effective) && TookOrder(p, p1, 0, STD, STD, page, effective)
    ensures GotOrder(p, p1, size, zone)
  {
    if !p.initialized && size < 2 && Above(p, zone) {
      assert PageMode(p, 0, STD, STD) && !Exhausted(p, size, zone);
      var s, z := FindServing(p, size, zone);
      assert ServedBy(p, p1, 0, s, z, effective);
      if s == 0 {
        SmallTakenAbove(p, p1, zone, z, effective);
      } else {
        assert NoSmall(p) by {
          assert forall y: nat :: y < 3 ==> Exhausted(p, 0, y);
        }
        assert At(p, 0, z) == At(p, 0, z) && s == 1 && z <= zone;
        AboveMore(p1, z, zone);
      }
    }
  }

  lemma AboveMore(p: Pool, z: nat, zone: nat)
    requires z <= zone && Above(p, z)
    ensures Above(p, zone)
  {
  }

  /** A 4K frame or page taken off in the search. */
  lemma SmallTakenAbove(p: Pool, p1: Pool, zone: nat, z: nat, effective: nat)
    requires Inv(p) && Inv(p1) && zone < 3 && z < 3 && !p.initialized && Above(p, zone) && Serves(p, 0, z) && ServedBy(p, p1, 0, 0, z, effective)
    ensures Above(p1, zone)
  {
    assert StackOk(0, z, At(p, 0, z)) && (z > zone ==> |At(p, 0, z)| == 1);
    if TopNonEmpty(p, 0, z) {
      TakeOwn(p, z, zone);
    } else {
      assert Turns(p, 0, z);
      if PageZone(p, 0, z) <= z {
        DropOwn(p, z, zone);
      } else {
        forall y: nat | zone < y < 3 ensures Exhausted(p, 1, y) {
          assert |At(p, 0, y)| == 1;
        }
        TurnOwn(p, p1, 0, z, zone);
      }
    }
  }

  lemma DropOwn(p: Pool, z: nat, zone: nat)
    requires Inv(p) && z <= zone < 3 && Above(p, zone)
    ensures Above(PopPage(p, 0, z), zone)
  {
    var p1 := PopPage(p, 0, z);
    forall y: nat | zone < y < 3 ensures Exhausted(p1, 1, y) && |At(p1, 0, y)| == 1 && OwnZone(Top(At(p1, 0, y)).frames, y) {
      assert At(p1, 0, y) == At(p, 0, y) && At(p1, 1, y) == At(p, 1, y);
    }
  }

  lemma TakeOwn(p: Pool, z: nat, zone: nat)
    requires Inv(p) && z < 3 && zone < 3 && TopNonEmpty(p, 0, z) && Above(p, zone)
    ensures Above(PopFrame(p, 0, z), zone)
  {
    var p1 := PopFrame(p, 0, z);
    forall y: nat | zone < y < 3 ensures Exhausted(p1, 1, y) && |At(p1, 0, y)| == 1 && OwnZone(Top(At(p1, 0, y)).frames, y) {
      assert At(p, 0, y) == At(p, 0, y) && At(p1, 1, y) == At(p, 1, y);
      assert At(p1, 0, y) == if y == z then TakeFrame(At(p, 0, z)) else At(p, 0, y);
    }
  }

  /** An empty top page turned over becomes a frame of its own zone on an empty stack. */
  lemma TurnOwn(p: Pool, p1: Pool, s: nat, z: nat, zone: nat)
    requires Inv(p) && s < 3 && z <= zone < 3 && !p.initialized && Turns(p, s, z) && TurnedPop(p, p1, s, z) && (s == 0 ==> PageZone(p, 0, z) > z)
    requires Serves(p, s, z) && forall y: nat {:trigger At(p, 1, y)} :: zone < y < 3 ==> Exhausted(p, 1, y)
    ensures Above(p1, zone)
  {
    var q, page, p0, p2 := PageZone(p, s, z), Top(At(p, s, z)).addr, PopPage(p, s, z), AfterTurn(p, s, z);
    PopPageEffect(p, s, z);
    forall y: nat | zone < y < 3 ensures Exhausted(p1, 1, y) && |At(p1, 0, y)| == 1 && OwnZone(Top(At(p1, 0, y)).frames, y) {
      assert Exhausted(p, 1, y) && Exhausted(p, 0, y);
      assert At(p0, 0, y) == At(p, 0, y) && At(p0, 1, y) == At(p, 1, y);
      assert At(p2, 0, y) == (if y == q then AddFrame(At(p, 0, y), page) else At(p, 0, y)) && At(p2, 1, y) == At(p, 1, y);
      assert At(p1, 0, y) == At(p2, 0, y) && At(p1, 1, y) == At(p2, 1, y);
      assert y == q ==> Top(At(p1, 0, y)).frames == [page];
    }
  }

  // ---------------------------------------------------------------- taking a frame

  lemma OrderByPop(p: Pool, size: nat, zone: nat, maxZone: nat)
    requires Inv(p) && size < 3 && zone <= maxZone < 3 && TopNonEmpty(p, size, zone) && Inv(PopFrame(p, size, zone))
    ensures TookOrder(p, PopFrame(p, size, zone), size, zone, maxZone, TopFrame(p, size, zone), zone)
  {
    if !p.initialized && PageMode(p, size, zone, maxZone) {
      assert !Exhausted(p, size, zone);
      ServesFirst(p, size, zone, maxZone);
      forall z: nat | size < 2 && z < 3 && Serves(p, 1, z) ensures zone == z {
        ServesOnce(p, size, zone, 1, z);
      }
      if NoSmall(p) {
        var p1 := PopFrame(p, size, zone);
        forall y: nat | zone < y < 3 ensures Exhausted(p1, 1, y) && |At(p1, 0, y)| == 1 && OwnZone(Top(At(p1, 0, y)).frames, y) {
          assert Exhausted(p, 0, y) && Exhausted(p, 1, y) && At(p1, 0, y) == At(p, 0, y) && At(p1, 1, y) == At(p, 1, y);
        }
      }
    }
  }

  lemma OrderAsOwnPage(p: Pool, zone: nat, maxZone: nat, effective: nat)
    requires Inv(p) && zone <= maxZone < 3 && Turns(p, 0, zone) && PageZone(p, 0, zone) <= zone && Inv(PopPage(p, 0, zone))
    ensures TookOrder(p, PopPage(p, 0, zone), 0, zone, maxZone, Top(At(p, 0, zone)).addr, effective)
  {
    assert !Exhausted(p, 0, zone);
  }

  lemma OrderBelow(p: Pool, p2: Pool, size: nat, zone: nat, maxZone: nat)
    requires Inv(p) && Inv(p2) && size < 3 && zone <= maxZone < 3 && Turns(p, size, zone) && TurnedFull(p, p2, size, zone)
    requires TopNonEmpty(p2, size, zone) && Inv(PopFrame(p2, size, zone))
    ensures TookOrder(p, PopFrame(p2, size, zone), size, zone, maxZone, TopFrame(p2, size, zone), zone)
  {
    if !p.initialized && PageMode(p, size, zone, maxZone) {
      assert !Exhausted(p, size, zone);
      ServesFirst(p, size, zone, maxZone);
      forall z: nat | size < 2 && z < 3 && Serves(p, 1, z) ensures zone == z {
        ServesOnce(p, size, zone, 1, z);
      }
      PopPageEffect(p, size, zone);
      var p0 := PopPage(p, size, zone);
      assert At(p2, size, zone) == At(p0, size, zone);
      if NoSmall(p) {
        assert size > 0;
        assert forall y: nat :: zone < y < 3 ==> Exhausted(p, 1, y);
        TurnOwn(p, PopFrame(p2, size, zone), size, zone, zone);
      }
    }
  }

  lemma OrderFromLower(p: Pool, p': Pool, size: nat, zone: nat, maxZone: nat, a: nat, effective: nat)
    requires Inv(p) && Inv(p') && size < 3 && 0 < zone <= maxZone < 3 && Exhausted(p, size, zone) && TookOrder(p, p', size, zone - 1, maxZone, a, effective)
    ensures TookOrder(p, p', size, zone, maxZone, a, effective)
  {
  }

  lemma OrderNothing(p: Pool, maxZone: nat)
    requires Inv(p) && maxZone < 3 && Exhausted(p, 2, 0)
    ensures TookOrder(p, p, 2, 0, maxZone, 0, 0)
  {
  }

  lemma OrderNoSplit(p: Pool, size: nat, maxZone: nat, effective: nat)
    requires Inv(p) && size < 2 && maxZone < 3 && Exhausted(p, size, 0) && NothingLeft(p, size + 1, maxZone, maxZone)
    requires TookOrder(p, p, size + 1, maxZone, maxZone, 0, effective)
    ensures TookOrder(p, p, size, 0, maxZone, 0, 0)
  {
    if !p.initialized && PageMode(p, size, 0, maxZone) {
      assert PageMode(p, size + 1, maxZone, maxZone);
      assert forall z: nat {:trigger Serves(p, 1, z)} :: z < 3 ==> Exhausted(p, 1, z);
    }
  }

  lemma OrderBySplit(p: Pool, p1: Pool, p2: Pool, size: nat, maxZone: nat, a: nat, effective: nat)
    requires Inv(p) && Inv(p1) && Inv(p2) && size < 2 && maxZone < 3 && effective < 3 && Exhausted(p, size, 0) && a != 0 && p1.initialized == p.initialized
    requires TookOrder(p, p1, size + 1, maxZone, maxZone, a, effective) && PartsOrder(p1, p2, size, effective, a, 512)
    ensures TookOrder(p, p2, size, 0, maxZone, a, effective)
  {
    if !p.initialized && PageMode(p, size, 0, maxZone) {
      assert PageMode(p, size + 1, maxZone, maxZone);
      assert NoSmall(p) by {
        assert forall y: nat :: y < 3 ==> Exhausted(p, 0, y);
      }
      assert size == 1 ==> forall z: nat {:trigger Serves(p, 1, z)} :: z < 3 ==> Exhausted(p, 1, z);
    }
  }

  // ---------------------------------------------------------------- the parts of a split frame

  lemma PartsOrderStart(p: Pool, size: nat, zone: nat, a: nat)
    requires Inv(p) && size < 2 && zone < 3
    ensures PartsOrder(p, p, size, zone, a, 1)
  {
  }

  lemma PartsOrderStep(p: Pool, p2: Pool, p3: Pool, size: nat, zone: nat, a: nat, part: nat)
    requires Inv(p) && Inv(p2) && Inv(p3) && size < 2 && zone < 3 && 0 < part && p2.initialized == p.initialized
    requires PartsOrder(p, p2, size, zone, a, part) && FreedOrder(p2, p3, size, zone, a + part * PageBytes(size))
    ensures PartsOrder(p, p3, size, zone, a, part + 1)
  {
  }

  /** After a split the next frame is higher. */
  lemma HigherNext(p: Pool, z: nat, a: nat)
    requires Inv(p) && z < 3 && Above(p, z) && FrameOk(0, a) && GetZone(0, a) <= z && LastOn(p, z, a + 511 * FRAME)
    ensures First(p, 0, STD) > a
  {
    var y := STD;
    while y > z && Exhausted(p, 0, y)
      invariant z <= y < 3 && First(p, 0, STD) == First(p, 0, y)
    {
      y := y - 1;
    }
    if y > z {
      assert At(p, 0, y) == At(p, 0, y);
      var fs := Top(At(p, 0, y)).frames;
      assert fs[|fs| - 1] in fs;
    }
  }

  // ---------------------------------------------------------------- the 4K stacks from the top down

  /** What the 4K stack of a zone hands out until it is exhausted: its frames and, at the end of each page, the page itself, or one frame later if the page belongs to a higher zone. */
  function StackDrain(zone: nat, st: seq<Page>): seq<nat>
    decreases |st|
  {
    if st == [] then []
    else StackSort.Reversed(Top(st).frames) + if |st| == 1 then [] else PageThen(zone, Top(st).addr, StackDrain(zone, DropPage(st)))
  }

  function PageThen(zone: nat, page: nat, rest: seq<nat>): seq<nat> {
    if GetZone(0, page) <= zone || rest == [] then [page] + rest else [rest[0], page] + rest[1..]
  }

  /** What the 4K stacks of the zones from `z` down hand out. */
  function DrainFrom(p: Pool, z: nat): seq<nat>
    requires |p.stacks| == 9 && z < 3
  {
    StackDrain(z, At(p, 0, z)) + if z == 0 then [] else DrainFrom(p, z - 1)
  }

  lemma DrainTake(zone: nat, st: seq<Page>)
    requires st != [] && Top(st).frames != []
    ensures StackDrain(zone, st) == [Top(st).frames[|Top(st).frames| - 1]] + StackDrain(zone, TakeFrame(st))
  {
    assert DropPage(TakeFrame(st)) == DropPage(st);
    assert Top(TakeFrame(st)).addr == Top(st).addr;
  }

  lemma DrainDrop(zone: nat, st: seq<Page>)
    requires |st| > 1 && Top(st).frames == []
    ensures StackDrain(zone, st) == PageThen(zone, Top(st).addr, StackDrain(zone, DropPage(st)))
  {
    assert StackSort.Reversed([]) == [];
  }

  lemma DrainOne(zone: nat, st: seq<Page>, a: nat)
    requires |st| == 1 && Top(st).frames == [a]
    ensures StackDrain(zone, st) == [a]
  {
    assert StackSort.Reversed([a]) == [a] + StackSort.Reversed([a][..0]);
  }

  lemma DrainExhausted(p: Pool, z: nat)
    requires |p.stacks| == 9 && z < 3 && Exhausted(p, 0, z)
    ensures StackDrain(z, At(p, 0, z)) == []
  {
    assert StackSort.Reversed([]) == [];
  }

  /** Stacks that are the same drain the same. */
  lemma {:induction false} DrainSame(p: Pool, p': Pool, z: nat)
    requires |p.stacks| == 9 && |p'.stacks| == 9 && z < 3 && forall y: nat {:trigger At(p', 0, y)} :: y <= z ==> At(p', 0, y) == At(p, 0, y)
    ensures DrainFrom(p', z) == DrainFrom(p, z)
  {
    assert At(p', 0, z) == At(p, 0, z);
    if z > 0 {
      DrainSame(p, p', z - 1);
    }
  }

  /** Exhausted zones contribute nothing. */
  lemma {:induction false} DrainHigh(p: Pool, z: nat, top: nat)
    requires |p.stacks| == 9 && z <= top < 3 && forall y: nat {:trigger Exhausted(p, 0, y)} :: z < y <= top ==> Exhausted(p, 0, y)
    ensures DrainFrom(p, top) == DrainFrom(p, z)
    decreases top
  {
    if top > z {
      assert Exhausted(p, 0, top);
      DrainExhausted(p, top);
      DrainHigh(p, z, top - 1);
      assert DrainFrom(p, top) == StackDrain(top, At(p, 0, top)) + DrainFrom(p, top - 1);
    }
  }

  lemma {:induction false} FirstHigh(p: Pool, z: nat, top: nat)
    requires Inv(p) && z <= top < 3 && forall y: nat {:trigger Exhausted(p, 0, y)} :: z < y <= top ==> Exhausted(p, 0, y)
    ensures First(p, 0, top) == First(p, 0, z)
    decreases top
  {
    if top > z {
      assert Exhausted(p, 0, top);
      FirstHigh(p, z, top - 1);
    }
  }

  /** What the zones below `z` hand out. */
  function DrainBelow(p: Pool, z: nat): seq<nat>
    requires |p.stacks| == 9 && z < 3
  {
    if z == 0 then [] else DrainFrom(p, z - 1)
  }

  lemma BelowSame(p: Pool, p': Pool, z: nat)
    requires |p.stacks| == 9 && |p'.stacks| == 9 && z < 3 && forall y: nat {:trigger At(p', 0, y)} :: y < z ==> At(p', 0, y) == At(p, 0, y)
    ensures DrainBelow(p', z) == DrainBelow(p, z)
  {
    if z > 0 {
      DrainSame(p, p', z - 1);
    }
  }

  lemma StackNotDrained(zone: nat, st: seq<Page>)
    requires st != [] && (Top(st).frames != [] || |st| > 1)
    ensures StackDrain(zone, st) != []
  {
    if Top(st).frames != [] { DrainTake(zone, st); } else { DrainDrop(zone, st); }
  }

  lemma SomethingToDrain(p: Pool, z: nat, top: nat)
    requires Inv(p) && z <= top < 3 && !Exhausted(p, 0, z)
    ensures DrainFrom(p, top) != []
    decreases top
  {
    if top > z {
      SomethingToDrain(p, z, top - 1);
    } else {
      assert StackOk(0, z, At(p, 0, z));
      StackNotDrained(z, At(p, 0, z));
    }
  }

  lemma NothingToDrain(p: Pool, top: nat)
    requires Inv(p) && top == STD
    ensures NoSmall(p) <==> DrainFrom(p, top) == []
  {
    if NoSmall(p) {
      DrainHigh(p, 0, top);
      DrainExhausted(p, 0);
    } else {
      var z: nat :| z < 3 && !Exhausted(p, 0, z);
      SomethingToDrain(p, z, top);
    }
  }

  /** One search served by the 4K stack of zone `z` hands out the head of the drain and leaves its tail. */
  lemma DrainStep(p: Pool, p': Pool, z: nat, effective: nat, top: nat)
    requires Inv(p) && Inv(p') && z <= top == STD && !p.initialized && Serves(p, 0, z) && ServedBy(p, p', 0, 0, z, effective)
    ensures DrainFrom(p, top) == [First(p, 0, top)] + DrainFrom(p', top)
  {
    assert StackOk(0, z, At(p, 0, z));
    assert forall y: nat {:trigger Exhausted(p, 0, y)} :: z < y <= top ==> Exhausted(p, 0, y);
    DrainHigh(p, z, top);
    FirstHigh(p, z, top);
    if TopNonEmpty(p, 0, z) {
      DrainPop(p, z, top);
    } else if PageZone(p, 0, z) <= z {
      DrainPage(p, z, top);
    } else {
      DrainTurn(p, p', z, top);
    }
  }

  lemma SameHigh(p: Pool, p': Pool, z: nat, top: nat)
    requires |p.stacks| == 9 && |p'.stacks| == 9 && z <= top < 3 && Serves(p, 0, z) && OthersSame(p, p', 0, z)
    ensures DrainFrom(p', top) == StackDrain(z, At(p', 0, z)) + DrainBelow(p, z)
  {
    forall y: nat | z < y <= top ensures Exhausted(p', 0, y) {
      assert Exhausted(p, 0, y) && At(p', 0, y) == At(p, 0, y);
    }
    DrainHigh(p', z, top);
    BelowSame(p, p', z);
  }

  lemma DrainPop(p: Pool, z: nat, top: nat)
    requires Inv(p) && z <= top < 3 && Serves(p, 0, z) && TopNonEmpty(p, 0, z)
    ensures DrainFrom(p, z) == [First(p, 0, z)] + DrainFrom(PopFrame(p, 0, z), top)
  {
    var p' := PopFrame(p, 0, z);
    SameHigh(p, p', z, top);
    DrainTake(z, At(p, 0, z));
    Shift(DrainFrom(p, z), StackDrain(z, At(p, 0, z)), First(p, 0, z), StackDrain(z, At(p', 0, z)), DrainBelow(p, z));
  }

  lemma Shift(all: seq<nat>, d: seq<nat>, a: nat, d': seq<nat>, rest: seq<nat>)
    requires all == d + rest && d == [a] + d'
    ensures all == [a] + (d' + rest)
  {
  }

  lemma DrainPage(p: Pool, z: nat, top: nat)
    requires Inv(p) && z <= top < 3 && Serves(p, 0, z) && Turns(p, 0, z) && PageZone(p, 0, z) <= z
    ensures DrainFrom(p, z) == [First(p, 0, z)] + DrainFrom(PopPage(p, 0, z), top)
  {
    var p' := PopPage(p, 0, z);
    SameHigh(p, p', z, top);
    DrainDrop(z, At(p, 0, z));
    Shift(DrainFrom(p, z), StackDrain(z, At(p, 0, z)), First(p, 0, z), StackDrain(z, At(p', 0, z)), DrainBelow(p, z));
  }

  lemma DrainTurn(p: Pool, p': Pool, z: nat, top: nat)
    requires Inv(p) && z <= top == STD && !p.initialized && Serves(p, 0, z) && Turns(p, 0, z) && PageZone(p, 0, z) > z && TurnedPop(p, p', 0, z)
    ensures DrainFrom(p, z) == [First(p, 0, z)] + DrainFrom(p', top)
  {
    TurnStacks(p, p', z);
    TurnDrains(p, p', z, PageZone(p, 0, z), Top(At(p, 0, z)).addr, DropPage(At(p, 0, z)), First(p, 0, z), top);
  }

  lemma TurnDrains(p: Pool, p': Pool, z: nat, q: nat, page: nat, below: seq<Page>, first: nat, top: nat)
    requires |p.stacks| == 9 && z < q <= top == STD && (forall y: nat {:trigger Exhausted(p, 0, y)} :: z < y < 3 ==> Exhausted(p, 0, y))
    requires |At(p, 0, z)| > 1 && Top(At(p, 0, z)) == Page(page, []) && GetZone(0, page) > z && below == DropPage(At(p, 0, z))
    requires TurnedTo(p, p', z, q, page, below, first)
    ensures DrainFrom(p, z) == [first] + DrainFrom(p', top)
  {
    StackTurned(z, At(p, 0, z));
    DrainTurned(p, p', z, q, page, below, first, top);
    ShiftTwice(DrainFrom(p, z), StackDrain(z, At(p, 0, z)), first, page, StackDrain(z, TakeFrame(below)), DrainBelow(p, z));
  }

  lemma StackTurned(zone: nat, st: seq<Page>)
    requires |st| > 1 && Top(st).frames == [] && GetZone(0, Top(st).addr) > zone && Top(DropPage(st)).frames != []
    ensures var below := DropPage(st); StackDrain(zone, st) == [Top(below).frames[|Top(below).frames| - 1], Top(st).addr] + StackDrain(zone, TakeFrame(below))
  {
    DrainDrop(zone, st);
    DrainTake(zone, DropPage(st));
  }

  lemma ShiftTwice(all: seq<nat>, d: seq<nat>, a: nat, b: nat, d': seq<nat>, rest: seq<nat>)
    requires all == d + rest && d == [a, b] + d'
    ensures all == [a] + ([b] + (d' + rest))
  {
  }

  lemma DrainTurned(p: Pool, p': Pool, z: nat, q: nat, page: nat, below: seq<Page>, first: nat, top: nat)
    requires |p.stacks| == 9 && z < q <= top == STD && (forall y: nat {:trigger Exhausted(p, 0, y)} :: z < y < 3 ==> Exhausted(p, 0, y))
    requires TurnedTo(p, p', z, q, page, below, first)
    ensures DrainFrom(p', top) == [page] + (StackDrain(z, TakeFrame(below)) + DrainBelow(p, z))
  {
    DrainOne(q, At(p', 0, q), page);
    forall y: nat | z < y < 3 && y != q ensures Exhausted(p', 0, y) {
      assert Exhausted(p, 0, y) && At(p', 0, y) == At(p, 0, y);
    }
    DrainAfterTurn(p', z, q, page, top);
    BelowSame(p, p', z);
  }

  /** The stacks after `page`, of zone `q`, is turned over and a frame of the page below it is taken. */
  predicate TurnedTo(p: Pool, p': Pool, z: nat, q: nat, page: nat, below: seq<Page>, first: nat) {
    && |p.stacks| == 9 && |p'.stacks| == 9 && z < 3 && q < 3
    && below != [] && Top(below).frames != [] && At(p', 0, z) == TakeFrame(below) && first == Top(below).frames[|Top(below).frames| - 1]
    && |At(p', 0, q)| == 1 && Top(At(p', 0, q)).frames == [page]
    && forall y: nat {:trigger At(p', 0, y)} :: y < 3 && y != z && y != q ==> At(p', 0, y) == At(p, 0, y)
  }

  lemma TurnStacks(p: Pool, p': Pool, z: nat)
    requires Inv(p) && z < 3 && !p.initialized && Serves(p, 0, z) && Turns(p, 0, z) && PageZone(p, 0, z) > z && TurnedPop(p, p', 0, z)
    ensures TurnedTo(p, p', z, PageZone(p, 0, z), Top(At(p, 0, z)).addr, DropPage(At(p, 0, z)), First(p, 0, z))
  {
    PopPageEffect(p, 0, z);
    assert Exhausted(p, 0, PageZone(p, 0, z));
    TurnOthers(p, PopPage(p, 0, z), AfterTurn(p, 0, z), p', z, PageZone(p, 0, z), Top(At(p, 0, z)).addr);
  }

  lemma TurnOthers(p: Pool, p0: Pool, p2: Pool, p': Pool, z: nat, q: nat, page: nat)
    requires |p.stacks| == 9 && z < q < 3 && At(p, 0, z) != [] && At(p, 0, q) != []
    requires p0 == Put(p, 0, z, DropPage(At(p, 0, z))) && p2 == Put(p0, 0, q, AddFrame(At(p0, 0, q), page))
    requires At(p2, 0, z) != [] && Top(At(p2, 0, z)).frames != [] && p' == Put(p2, 0, z, TakeFrame(At(p2, 0, z)))
    ensures At(p', 0, z) == TakeFrame(DropPage(At(p, 0, z))) && At(p', 0, q) == AddFrame(At(p, 0, q), page)
    ensures forall y: nat {:trigger At(p', 0, y)} :: y < 3 && y != z && y != q ==> At(p', 0, y) == At(p, 0, y)
  {
  }

  lemma DrainAfterTurn(p: Pool, z: nat, q: nat, page: nat, top: nat)
    requires |p.stacks| == 9 && z < q <= top == STD && StackDrain(q, At(p, 0, q)) == [page] && forall y: nat {:trigger Exhausted(p, 0, y)} :: z < y < 3 && y != q ==> Exhausted(p, 0, y)
    ensures DrainFrom(p, top) == [page] + DrainFrom(p, z)
  {
    DrainHigh(p, q, top);
    DrainHigh(p, z, q - 1);
  }
}
