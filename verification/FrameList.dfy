/**
 The frames drawn for the list of reserved pages at the end of `pmm_init`, one allocation after the
 other, and when they come in descending order.
 */
module FrameList {
  import opened Common
  import opened FramePool
  import opened FrameMoves
  import opened FullPages
  import opened FrameOrder
  import StackSort

  /** The list descends: what the 4K stacks hand out descends, and no larger frame has to be split for more than the last entry. */
  predicate Falls(d: seq<nat>, next: nat) {
    if |d| >= PAGE_FRAMES then Descending(d[..PAGE_FRAMES])
    else Descending(d) && (next == 0 || (|d| == PAGE_FRAMES - 1 && next <= d[|d| - 1]))
  }

  /** The pool before the list is filled: `Falls` of its 4K stacks and of the first larger frame. */
  predicate ListFalls(p: Pool)
    requires Inv(p)
  {
    Falls(DrainFrom(p, STD), First(p, 1, STD))
  }

  /** `fs` was drawn from a pool that had 4K frames `d` and the larger frame `next` to hand out, and left `p`. */
  predicate Drawn(d: seq<nat>, next: nat, p: Pool, fs: seq<nat>)
    requires Inv(p)
  {
    if |fs| <= |d| then fs == d[..|fs|] && DrainFrom(p, STD) == d[|fs|..] && First(p, 1, STD) == next
    else
      && fs[..|d|] == d && fs[|d|] == next
      && if next == 0 then Zeros(fs[|d|..]) && First(p, 0, STD) == 0
         else (|fs| == |d| + 1 ==> First(p, 0, STD) > next) && (|fs| > |d| + 1 ==> fs[|d| + 1] > next)
  }

  /** What an allocation of a 4K frame leaves before initialisation. */
  ghost predicate Took(p: Pool, p': Pool, a: nat, effective: nat)
    requires Inv(p)
  {
    Taken(p, p', 0, STD, STD, a, effective) && TookFull(p, p', 0, STD, STD, effective) && TookOrder(p, p', 0, STD, STD, a, effective)
  }

  /** The address a stack of larger frames hands out. */
  function Here(st: seq<Page>): nat
    requires |st| > 0 && (Top(st).frames == [] ==> |st| > 1 && Top(DropPage(st)).frames != [])
  {
    var top := if Top(st).frames == [] then Top(DropPage(st)) else Top(st);
    top.frames[|top.frames| - 1]
  }

  lemma FirstHere(p: Pool, size: nat, zone: nat)
    requires Inv(p) && 0 < size < 3 && zone < 3 && !Exhausted(p, size, zone)
    ensures |At(p, size, zone)| > 0 && (Top(At(p, size, zone)).frames == [] ==> |At(p, size, zone)| > 1 && Top(DropPage(At(p, size, zone))).frames != [])
    ensures First(p, size, zone) == Here(At(p, size, zone))
  {
    assert StackOk(size, zone, At(p, size, zone));
    if !TopNonEmpty(p, size, zone) {
      PopPageEffect(p, size, zone);
    }
  }

  /** Larger frames are found in the same order on the same stacks. */
  lemma {:induction false} FirstSame(p: Pool, p': Pool, size: nat, zone: nat)
    requires Inv(p) && Inv(p') && 0 < size < 3 && zone < 3 && LargerSame(p, p', 0)
    ensures First(p', size, zone) == First(p, size, zone)
    decreases 2 - size, zone
  {
    assert At(p', size, zone) == At(p, size, zone);
    if Exhausted(p, size, zone) {
      if zone > 0 {
        FirstSame(p, p', size, zone - 1);
      } else if size < 2 {
        FirstSame(p, p', size + 1, STD);
      }
    } else {
      FirstHere(p, size, zone);
      FirstHere(p', size, zone);
    }
  }

  lemma LargerStay(p: Pool, p': Pool, z: nat, effective: nat)
    requires Inv(p) && Inv(p') && z < 3 && !p.initialized && Serves(p, 0, z) && ServedBy(p, p', 0, 0, z, effective)
    ensures LargerSame(p, p', 0)
  {
    assert StackOk(0, z, At(p, 0, z));
    if !TopNonEmpty(p, 0, z) && PageZone(p, 0, z) > z {
      PopPageEffect(p, 0, z);
      var p0, p2 := PopPage(p, 0, z), AfterTurn(p, 0, z);
      forall s: nat, y: nat | 0 < s < 3 && y < 3 ensures At(p', s, y) == At(p, s, y) {
        assert At(p0, s, y) == At(p, s, y) && At(p2, s, y) == At(p0, s, y);
      }
    }
  }

  lemma DrawnSmall(d: seq<nat>, next: nat, p: Pool, p': Pool, fs: seq<nat>, a: nat, effective: nat, top: nat)
    requires Inv(p) && !p.initialized && top == STD && |fs| < |d| && Drawn(d, next, p, fs) && Took(p, p', a, effective)
    ensures Drawn(d, next, p', fs + [a])
  {
    NothingToDrain(p, top);
    var y: nat :| y < 3 && !Exhausted(p, 0, y);
    var s, z := FindServing(p, 0, y);
    assert PageMode(p, 0, STD, STD) && ServedBy(p, p', 0, s, z, effective);
    DrainStep(p, p', z, effective, top);
    LargerStay(p, p', z, effective);
    FirstSame(p, p', 1, top);
    DrawnNext(d, fs, a, DrainFrom(p', top));
  }

  lemma DrawnNext(d: seq<nat>, fs: seq<nat>, a: nat, rest: seq<nat>)
    requires |fs| < |d| && fs == d[..|fs|] && d[|fs|..] == [a] + rest
    ensures fs + [a] == d[..|fs| + 1] && rest == d[|fs| + 1..]
  {
    assert d[|fs|] == d[|fs|..][0];
  }

  /** With no 4K frame left the search goes on to the larger ones. */
  lemma FirstLarger(p: Pool, top: nat)
    requires Inv(p) && top == STD && NoSmall(p)
    ensures First(p, 0, top) == First(p, 1, top)
  {
    FirstHigh(p, 0, top);
    assert Exhausted(p, 0, 0);
  }

  lemma DrawnLarger(d: seq<nat>, next: nat, p: Pool, p': Pool, fs: seq<nat>, a: nat, effective: nat, top: nat)
    requires Inv(p) && !p.initialized && top == STD && |fs| == |d| && Drawn(d, next, p, fs) && Took(p, p', a, effective)
    ensures Drawn(d, next, p', fs + [a])
  {
    NothingToDrain(p, top);
    FirstLarger(p, top);
    assert PageMode(p, 0, STD, STD) && a == next;
    assert fs == d;
    NextAfter(d, p, p', a, effective);
  }

  lemma NextAfter(d: seq<nat>, p: Pool, p': Pool, a: nat, effective: nat)
    requires Inv(p) && !p.initialized && PageMode(p, 0, STD, STD) && NoSmall(p) && Took(p, p', a, effective)
    ensures Drawn(d, a, p', d + [a])
  {
    assert (d + [a])[..|d|] == d && (d + [a])[|d|..] == [a];
    if a != 0 {
      HigherNext(p', effective, a);
    }
  }

  lemma DrawnOn(d: seq<nat>, next: nat, p: Pool, p': Pool, fs: seq<nat>, a: nat, effective: nat)
    requires Inv(p) && !p.initialized && |fs| > |d| && Drawn(d, next, p, fs) && Took(p, p', a, effective)
    ensures Drawn(d, next, p', fs + [a])
  {
    assert PageMode(p, 0, STD, STD) && a == First(p, 0, STD);
    assert (fs + [a])[..|d|] == d;
    assert (fs + [a])[|d|..] == fs[|d|..] + [a];
  }

  lemma DrawnStep(d: seq<nat>, next: nat, p: Pool, p': Pool, fs: seq<nat>, a: nat, effective: nat)
    requires Inv(p) && !p.initialized && Drawn(d, next, p, fs) && Took(p, p', a, effective)
    ensures Drawn(d, next, p', fs + [a])
  {
    if |fs| < |d| {
      DrawnSmall(d, next, p, p', fs, a, effective, STD);
    } else if |fs| == |d| {
      DrawnLarger(d, next, p, p', fs, a, effective, STD);
    } else {
      DrawnOn(d, next, p, p', fs, a, effective);
    }
  }

  lemma DrawnStart(p: Pool, top: nat)
    requires Inv(p) && top == STD
    ensures Drawn(DrainFrom(p, top), First(p, 1, top), p, [])
  {
  }

  /** A full list descends if and only if the pool it was drawn from says so. */
  lemma DrawnFalls(d: seq<nat>, next: nat, p: Pool, fs: seq<nat>)
    requires Inv(p) && Drawn(d, next, p, fs) && |fs| == PAGE_FRAMES
    ensures Descending(fs) <==> Falls(d, next)
  {
    if |d| >= PAGE_FRAMES {
    } else if next == 0 {
      FallsThenZeros(d, fs);
    } else if |d| < PAGE_FRAMES - 1 {
      assert fs[|d|] < fs[|d| + 1];
    } else {
      FallsThenOne(d, next, fs);
    }
  }

  lemma FallsThenZeros(d: seq<nat>, fs: seq<nat>)
    requires |d| <= |fs| && fs[..|d|] == d && Zeros(fs[|d|..])
    ensures Descending(fs) <==> Descending(d)
  {
    assert forall i :: 0 <= i < |d| ==> fs[i] == d[i];
    assert forall i :: |d| <= i < |fs| ==> fs[i] == fs[|d|..][i - |d|];
  }

  lemma FallsThenOne(d: seq<nat>, next: nat, fs: seq<nat>)
    requires 0 < |d| && |fs| == |d| + 1 && fs[..|d|] == d && fs[|d|] == next
    ensures Descending(fs) <==> Descending(d) && next <= d[|d| - 1]
  {
    assert forall i :: 0 <= i < |d| ==> fs[i] == d[i];
  }

  // ---------------------------------------------------------------- pools with few frames

  /** How many frames of each size: 4K, 2M and 1G. */
  datatype Counts = Counts(small: nat, large: nat, giant: nat)

  function Plus(a: Counts, b: Counts): Counts {
    Counts(a.small + b.small, a.large + b.large, a.giant + b.giant)
  }

  function CountsFor(size: nat, n: nat): Counts {
    if size == 0 then Counts(n, 0, 0) else if size == 1 then Counts(0, n, 0) else Counts(0, 0, n)
  }

  /** At most a page of frames of each size. */
  predicate FewEach(c: Counts) {
    c.small <= PAGE_FRAMES && c.large <= PAGE_FRAMES && c.giant <= PAGE_FRAMES
  }

  predicate StackPageOnly(p: Pool, size: nat)
    requires |p.stacks| == 9 && size < 3
  {
    |At(p, size, 0)| == 1 && |At(p, size, 1)| == 1 && |At(p, size, 2)| == 1
  }

  /** Every stack has its static page only. */
  predicate StaticOnly(p: Pool) {
    |p.stacks| == 9 && StackPageOnly(p, 0) && StackPageOnly(p, 1) && StackPageOnly(p, 2)
  }

  function CountAt(p: Pool, size: nat): nat
    requires StaticOnly(p) && size < 3
  {
    |Top(At(p, size, 0)).frames| + |Top(At(p, size, 1)).frames| + |Top(At(p, size, 2)).frames|
  }

  function CountOf(p: Pool): Counts
    requires StaticOnly(p)
  {
    Counts(CountAt(p, 0), CountAt(p, 1), CountAt(p, 2))
  }

  /** Frames pushed before initialisation onto static pages with room are counted as they come. */
  predicate Counted(p: Pool, p': Pool, c: Counts) {
    !p.initialized && StaticOnly(p) && FewEach(Plus(CountOf(p), c)) ==> !p'.initialized && StaticOnly(p') && CountOf(p') == Plus(CountOf(p), c)
  }

  lemma CountedMore(p: Pool, p1: Pool, p2: Pool, c: Counts, c': Counts)
    requires Counted(p, p1, c) && Counted(p1, p2, c')
    ensures Counted(p, p2, Plus(c, c'))
  {
  }

  lemma CountedPush(p: Pool, p': Pool, size: nat, zone: nat, a: nat)
    requires Inv(p) && size < 3 && zone < 3 && Freed(p, p', size, zone, a)
    ensures Counted(p, p', CountsFor(size, 1))
  {
    if !p.initialized && StaticOnly(p) && FewEach(Plus(CountOf(p), CountsFor(size, 1))) {
      FewIsPlain(p, size, zone, a);
      PushCounts(p, p', size, zone, a);
    }
  }

  lemma FewIsPlain(p: Pool, size: nat, zone: nat, a: nat)
    requires Inv(p) && size < 3 && zone < 3 && !p.initialized && StaticOnly(p) && FewEach(Plus(CountOf(p), CountsFor(size, 1)))
    ensures Plain(p, size, zone, a)
  {
  }

  lemma PushCounts(p: Pool, p': Pool, size: nat, zone: nat, a: nat)
    requires StaticOnly(p) && size < 3 && zone < 3 && p' == Put(p, size, zone, AddFrame(At(p, size, zone), a))
    ensures StaticOnly(p') && CountOf(p') == Plus(CountOf(p), CountsFor(size, 1))
  {
    assert At(p', size, zone) == AddFrame(At(p, size, zone), a);
    forall s: nat, z: nat | s < 3 && z < 3 && (s != size || z != zone) ensures At(p', s, z) == At(p, s, z) {
    }
  }

  lemma StaticDrain(zone: nat, st: seq<Page>)
    requires |st| == 1
    ensures |StackDrain(zone, st)| == |Top(st).frames|
  {
    StackSort.ReversedAt(Top(st).frames, 0);
  }

  /** From static pages the 4K stacks hand out what they hold. */
  lemma CountDrain(p: Pool, top: nat)
    requires StaticOnly(p) && top == STD
    ensures |DrainFrom(p, top)| == CountAt(p, 0)
  {
    StaticDrain(top, At(p, 0, top));
    StaticDrain(top - 1, At(p, 0, top - 1));
    StaticDrain(top - 2, At(p, 0, top - 2));
    assert DrainFrom(p, top - 2) == StackDrain(top - 2, At(p, 0, top - 2));
    assert DrainFrom(p, top - 1) == StackDrain(top - 1, At(p, 0, top - 1)) + DrainFrom(p, top - 2);
  }

  lemma {:induction false} LargerFound(p: Pool, z: nat, zone: nat)
    requires Inv(p) && z <= zone < 3 && !Exhausted(p, 1, z)
    ensures First(p, 1, zone) != 0
    decreases zone
  {
    if Exhausted(p, 1, zone) {
      LargerFound(p, z, zone - 1);
    } else {
      assert StackOk(1, zone, At(p, 1, zone));
      FirstHere(p, 1, zone);
      HereOk(1, zone, At(p, 1, zone));
    }
  }

  lemma HereOk(size: nat, zone: nat, st: seq<Page>)
    requires StackOk(size, zone, st) && (Top(st).frames == [] ==> |st| > 1 && Top(DropPage(st)).frames != [])
    ensures Here(st) != 0
  {
    var i := if Top(st).frames == [] then |st| - 2 else |st| - 1;
    assert PageOk(size, zone, st[i]);
    assert Here(st) in st[i].frames;
  }

  /** A pool with fewer than 509 4K frames, all on static pages, and a 2M frame: the list does not descend. */
  lemma FewDoNotFall(p: Pool)
    requires Inv(p) && StaticOnly(p) && CountAt(p, 0) < PAGE_FRAMES - 1 && CountAt(p, 1) > 0
    ensures !ListFalls(p)
  {
    CountDrain(p, STD);
    var z := if TopNonEmpty(p, 1, 0) then 0 else if TopNonEmpty(p, 1, 1) then 1 else 2;
    LargerFound(p, z, STD);
  }

  /** One more entry for the list. */
  lemma ListAppend(fs: seq<nat>, a: nat)
    requires ZeroTail(fs) && (a != 0 ==> Nonzero(fs) == fs)
    ensures ZeroTail(fs + [a]) && Nonzero(fs + [a]) == if a == 0 then Nonzero(fs) else fs + [a]
  {
    var x, z := Nonzero(fs), fs[Place(fs, 1)..];
    if a == 0 {
      assert fs + [a] == x + (z + [a]);
      ListParts(x, z + [a]);
    } else {
      assert fs + [a] == fs + [a] + [];
      ListParts(fs + [a], []);
    }
  }
}
