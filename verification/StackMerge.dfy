/**
 Working on a sorted stack: the merge pass of `_pmm_defragment`, which turns 512
 adjacent frames into one frame of the next size, and the search of
 `pmm_alloc_contiguous`. Both close the gap by moving the entries above it down.
 */
module StackMerge {
  import opened Common
  import opened FramePool
  import opened StackSort

  /** Adjacent frames of `b` bytes down to `base`, highest first as on a sorted stack. */
  predicate Adjacent(s: seq<nat>, base: nat, b: nat) {
    (s != [] ==> s[|s| - 1] == base) && forall m :: 0 <= m < |s| - 1 ==> s[m] == s[m + 1] + b
  }

  lemma {:induction false} AdjacentHolds(size: nat, s: seq<nat>, base: nat, x: nat)
    requires Adjacent(s, base, PageBytes(size))
    ensures FramesHold(size, s, x) == In(base, base + |s| * PageBytes(size), x)
    decreases |s|
  {
    var b, n := PageBytes(size), |s|;
    if n > 0 {
      AdjacentHolds(size, s[..n - 1], base + b, x);
      assert base + b + (n - 1) * b == base + n * b;
    }
  }

  /** 512 adjacent frames hold the bytes of one frame of the next size. */
  lemma MergedFrame(size: nat, s: seq<nat>, base: nat, x: nat)
    requires size < 2 && |s| == 512 && Adjacent(s, base, PageBytes(size))
    ensures FramesHold(size, s, x) == Covers(size + 1, base, x)
  {
    AdjacentHolds(size, s, base, x);
  }

  // ---------------------------------------------------------------- closing the gap

  /** `a` with the entries from `from` on moved down by `gap`, up to index `i`. */
  ghost predicate Shifted(a: seq<nat>, a': seq<nat>, from: nat, i: nat, gap: nat) {
    && |a'| == |a| && from + gap <= i + 1 <= |a|
    && (forall k :: i < k < |a| ==> a'[k] == a[k])
    && (forall k :: from <= k <= i - gap ==> a'[k + gap] == a[k])
  }

  /** The loop that overwrites the `gap` entries ending at `i` by those above them. */
  method ShiftDown(pages0: seq<SlotPage>, from: nat, i: nat, gap: nat) returns (pages: seq<SlotPage>)
    requires Chain(pages0) && gap > 0 && from + gap <= i + 1 <= Total(pages0)
    ensures Kept(pages0, pages) && Shifted(View(pages0), View(pages), from, i, gap)
  {
    pages := pages0;
    OrderLength(pages0);
    var j: int := i - gap;
    ghost var a := View(pages0);
    while j >= from
      invariant from - 1 <= j <= i - gap && Kept(pages0, pages)
      invariant Moving(a, View(pages), from, i, j, gap)
    {
      MovingStep(a, View(pages), from, i, j, gap);
      ghost var was := pages;
      pages := CopyEntry(pages, j, j + gap);
      KeptTrans(pages0, was, pages);
      j := j - 1;
    }
  }

  method CopyEntry(pages0: seq<SlotPage>, j: nat, k: nat) returns (pages: seq<SlotPage>)
    requires Chain(pages0) && j < Total(pages0) && k < Total(pages0)
    ensures Kept(pages0, pages) && View(pages) == View(pages0)[k := View(pages0)[j]]
  {
    var v := ReadEntry(pages0, j);
    WriteFlat(pages0, k, v);
    pages := Write(pages0, k, v);
    ViewIsFlat(pages0);
    ViewIsFlat(pages);
  }

  method ReadEntry(pages: seq<SlotPage>, i: nat) returns (v: nat)
    requires Chain(pages) && i < Total(pages)
    ensures |View(pages)| == Total(pages) && v == View(pages)[i]
  {
    ViewIsFlat(pages);
    v := Read(pages, i);
  }

  /** The frames of a chain are as many as the indices. */
  lemma OrderLength(pages: seq<SlotPage>)
    requires Chain(pages)
    ensures |Order(pages)| == Total(pages) == |View(pages)|
  {
    StackLength(pages, 0);
    assert Counts(pages)[..0] == [];
    ViewIsFlat(pages);
  }

  /** The entries above `j` are moved, those from `from` to `j` still to be. */
  ghost predicate Moving(a: seq<nat>, c: seq<nat>, from: nat, i: nat, j: int, gap: nat) {
    && |c| == |a| && from + gap <= i + 1 <= |a| && j <= i - gap
    && (forall k :: i < k < |a| ==> c[k] == a[k])
    && (forall k :: from <= k <= j ==> c[k] == a[k])
    && (forall k :: j < k <= i - gap && from <= k ==> c[k + gap] == a[k])
  }

  lemma MovingStep(a: seq<nat>, c: seq<nat>, from: nat, i: nat, j: nat, gap: nat)
    requires Moving(a, c, from, i, j, gap) && from <= j && gap > 0
    ensures Moving(a, c[j + gap := c[j]], from, i, j - 1, gap)
  {
  }

  /** What is left loses exactly the block. */
  lemma ShiftedLeaves(a: seq<nat>, a': seq<nat>, from: nat, i: nat, gap: nat)
    requires Shifted(a, a', from, i, gap)
    ensures a'[from + gap..] == a[from..i + 1 - gap] + a[i + 1..]
    ensures a[from..] == a[from..i + 1 - gap] + a[i + 1 - gap..i + 1] + a[i + 1..]
  {
    var l, r := a'[from + gap..], a[from..i + 1 - gap] + a[i + 1..];
    forall k | 0 <= k < |l| ensures l[k] == r[k] {
      if k < i + 1 - gap - from {
        assert a'[(from + k) + gap] == a[from + k];
      }
    }
  }

  // ---------------------------------------------------------------- lowering the counts

  lemma {:induction false} StackFromSame(p: seq<SlotPage>, q: seq<SlotPage>, k: nat)
    requires |p| == |q| && k <= |p| && forall j :: k <= j < |p| ==> p[j] == q[j]
    ensures StackFrom(p, k) == StackFrom(q, k)
    decreases |p| - k
  {
    if k < |p| {
      StackFromSame(p, q, k + 1);
    }
  }

  lemma {:induction false} EmptyFront(p: seq<SlotPage>, k: nat, m: nat)
    requires k <= m <= |p| && forall j :: k <= j < m ==> Frames(p[j]) == []
    ensures StackFrom(p, k) == StackFrom(p, m)
    decreases m - k
  {
    if k < m {
      EmptyFront(p, k + 1, m);
    }
  }

  lemma ReversedDrop(fs: seq<nat>, n: nat)
    requires n <= |fs|
    ensures |Reversed(fs)| == |fs| && Reversed(fs[..|fs| - n]) == Reversed(fs)[n..]
  {
    ReversedAt(fs, 0);
    ReversedAt(fs[..|fs| - n], 0);
    forall i | 0 <= i < |fs| - n ensures Reversed(fs[..|fs| - n])[i] == Reversed(fs)[n..][i] {
      ReversedAt(fs, n + i);
      ReversedAt(fs[..|fs| - n], i);
    }
  }

  lemma PassPage(pages: seq<SlotPage>, k: nat, left: nat)
    requires k < |pages| && |Frames(pages[k])| < left <= |StackFrom(pages, k)|
    ensures var n := |Frames(pages[k])|; k + 1 < |pages| && left - n <= |StackFrom(pages, k + 1)| && StackFrom(pages, k)[left..] == StackFrom(pages, k + 1)[left - n..]
  {
    ReversedAt(Frames(pages[k]), 0);
    PassFront(Reversed(Frames(pages[k])), StackFrom(pages, k + 1), left);
  }

  lemma PassFront(front: seq<nat>, rest: seq<nat>, left: nat)
    requires |front| < left <= |front + rest|
    ensures (front + rest)[left..] == rest[left - |front|..] && rest != []
  {
  }

  /** The pages before `k` are emptied, and `left` frames are still to go. */
  ghost predicate Dropping(pages0: seq<SlotPage>, pages: seq<SlotPage>, k: nat, left: nat, n: nat) {
    && k < |pages| == |pages0| && Chain(pages) && (forall j :: 0 <= j < k ==> pages[j].count == 0) && (forall j :: k <= j < |pages| ==> pages[j] == pages0[j])
    && n <= |Order(pages0)| && left <= |StackFrom(pages0, k)| && Order(pages0)[n..] == StackFrom(pages0, k)[left..]
  }

  lemma DroppingOn(pages0: seq<SlotPage>, pages: seq<SlotPage>, k: nat, left: nat, n: nat)
    requires Dropping(pages0, pages, k, left, n) && pages[k].count < left
    ensures Dropping(pages0, pages[k := pages[k].(count := 0)], k + 1, left - pages[k].count, n)
  {
    PassPage(pages0, k, left);
  }

  /** The loop that takes `n` frames off the counts of the top pages; emptied pages stay in the chain. */
  method DropTop(pages0: seq<SlotPage>, n: nat) returns (pages: seq<SlotPage>)
    requires Chain(pages0) && n <= |Order(pages0)|
    ensures Chain(pages) && |pages| == |pages0| && Order(pages) == Order(pages0)[n..]
  {
    pages := pages0;
    var left: nat, k: nat := n, 0;
    while pages[k].count < left
      invariant Dropping(pages0, pages, k, left, n)
      decreases |pages| - k
    {
      DroppingOn(pages0, pages, k, left, n);
      left := left - pages[k].count;
      pages := pages[k := pages[k].(count := 0)];
      k := k + 1;
    }
    Lowered(pages0, pages, k, left);
    pages := pages[k := pages[k].(count := pages[k].count - left)];
  }

  /** The count of page `k` goes down by `left`, with nothing above it. */
  lemma Lowered(pages0: seq<SlotPage>, pages: seq<SlotPage>, k: nat, left: nat)
    requires Chain(pages) && k < |pages| == |pages0| && left <= pages[k].count
    requires (forall j :: 0 <= j < k ==> pages[j].count == 0) && forall j :: k <= j < |pages| ==> pages[j] == pages0[j]
    ensures var pages' := pages[k := pages[k].(count := pages[k].count - left)];
            Chain(pages') && left <= |StackFrom(pages0, k)| && Order(pages') == StackFrom(pages0, k)[left..]
  {
    var pages' := pages[k := pages[k].(count := pages[k].count - left)];
    EmptyFront(pages', 0, k);
    StackFromSame(pages', pages0, k + 1);
    LoweredPage(pages[k], left, StackFrom(pages0, k + 1));
  }

  lemma LoweredPage(pg: SlotPage, left: nat, rest: seq<nat>)
    requires pg.count <= |pg.slots| && left <= pg.count
    ensures left <= |Reversed(Frames(pg)) + rest| && Reversed(Frames(pg.(count := pg.count - left))) + rest == (Reversed(Frames(pg)) + rest)[left..]
  {
    ReversedDrop(Frames(pg), left);
    assert Frames(pg.(count := pg.count - left)) == Frames(pg)[..|Frames(pg)| - left];
  }

  // ---------------------------------------------------------------- contiguous allocation

  /** `0xFFFFFFFF`, which no frame ends up adjacent to. */
  const INVALID: nat := 0xFFFF_FFFF

  /** The `r` entries before index `e` are adjacent frames down to `x`. */
  predicate RunAt(a: seq<nat>, e: nat, r: nat, b: nat, x: nat) {
    r <= e <= |a| && Adjacent(a[e - r..e], x, b)
  }

  lemma RunExtend(a: seq<nat>, e: nat, r: nat, b: nat, x: nat)
    requires RunAt(a, e, r, b, x + b) && e < |a| && a[e] == x
    ensures RunAt(a, e + 1, r + 1, b, x)
  {
    var s, s' := a[e - r..e], a[e + 1 - (r + 1)..e + 1];
    assert s' == s + [a[e]];
  }

  /** A run of two or more ends in two adjacent frames. */
  lemma RunEnds(a: seq<nat>, e: nat, r: nat, b: nat, x: nat)
    requires RunAt(a, e, r, b, x) && r > 0
    ensures e > 0 && a[e - 1] == x && RunAt(a, e - 1, r - 1, b, x + b)
  {
    var s := a[e - r..e];
    assert s[r - 1] == x;
    assert a[e - 1 - (r - 1)..e - 1] == s[..r - 1];
  }

  /** `c` is the length of the longest run that ends before index `i`. */
  ghost predicate Longest(a: seq<nat>, i: nat, c: nat, b: nat) {
    forall r: nat, x: nat {:trigger RunAt(a, i, r, b, x)} :: RunAt(a, i, r, b, x) ==> r <= c
  }

  ghost predicate NoRun(a: seq<nat>, i: nat, count: nat, b: nat) {
    forall e: nat, x: nat {:trigger RunAt(a, e, count, b, x)} :: e <= i ==> !RunAt(a, e, count, b, x)
  }

  lemma LongestStep(a: seq<nat>, i: nat, c: nat, b: nat, m: nat)
    requires i < |a| && Longest(a, i, c, b) && m == if i > 0 && a[i - 1] == a[i] + b then c + 1 else 1
    ensures Longest(a, i + 1, m, b)
  {
    var e := i + 1;
    forall r: nat, x: nat | RunAt(a, e, r, b, x) ensures r <= m {
      if r > 1 {
        RunEnds(a, e, r, b, x);
        RunEnds(a, i, r - 1, b, x + b);
      }
    }
  }

  lemma NoRunStep(a: seq<nat>, i: nat, count: nat, b: nat, m: nat)
    requires i < |a| && NoRun(a, i, count, b) && Longest(a, i + 1, m, b) && m < count
    ensures NoRun(a, i + 1, count, b)
  {
  }

  /** The scan has passed `i` entries and stands on a run of `c` that ends with `last`. */
  ghost predicate Scan(a: seq<nat>, i: nat, c: nat, last: nat, b: nat, count: nat) {
    && i <= |a| && c < count && (c == 0 ==> i == 0 && last == INVALID)
    && (c > 0 ==> i > 0 && RunAt(a, i, c, b, last) && last == a[i - 1])
    && Longest(a, i, c, b) && NoRun(a, i, count, b)
  }

  lemma ScanStart(a: seq<nat>, b: nat, count: nat)
    requires count >= 2
    ensures Scan(a, 0, 0, INVALID, b, count)
  {
  }

  lemma ScanOn(a: seq<nat>, i: nat, c: nat, last: nat, b: nat, count: nat)
    requires Scan(a, i, c, last, b, count) && i < |a| && c > 0 && last == a[i] + b
    ensures RunAt(a, i + 1, c + 1, b, a[i]) && (c + 1 < count ==> Scan(a, i + 1, c + 1, a[i], b, count))
  {
    RunExtend(a, i, c, b, a[i]);
    LongestStep(a, i, c, b, c + 1);
    if c + 1 < count { NoRunStep(a, i, count, b, c + 1); }
  }

  lemma ScanNew(a: seq<nat>, i: nat, c: nat, last: nat, b: nat, count: nat)
    requires Scan(a, i, c, last, b, count) && i < |a| && (c > 0 ==> last != a[i] + b) && count >= 2
    ensures Scan(a, i + 1, 1, a[i], b, count)
  {
    RunExtend(a, i, 0, b, a[i]);
    LongestStep(a, i, c, b, 1);
    NoRunStep(a, i, count, b, 1);
  }

  /** Frames lie on multiples of their size, which the invalid value does not touch. */
  lemma NeverAdjacent(size: nat, a: nat)
    requires FrameOk(size, a)
    ensures INVALID >= PageBytes(size) && INVALID - PageBytes(size) != a && a >= PageBytes(size)
  {
  }

  /** The comparison with the last address tells whether the run goes on. */
  lemma Decide(a: seq<nat>, i: nat, c: nat, last: nat, size: nat, count: nat)
    requires Scan(a, i, c, last, PageBytes(size), count) && i < |a| && AllOk(size, a)
    ensures last >= PageBytes(size) && a[i] != 0 && (last - PageBytes(size) == a[i] <==> c > 0 && last == a[i] + PageBytes(size))
  {
    assert a[i] in a && (c > 0 ==> last in a);
    NeverAdjacent(size, a[i]);
    if c > 0 { NeverAdjacent(size, last); }
  }

  predicate AllOk(size: nat, a: seq<nat>) {
    forall f :: f in a ==> FrameOk(size, f)
  }

  /**
   The search of `pmm_alloc_contiguous` in one stack. It sees what the indices lead to; where
   that is the stack, the block found leaves the stack and nothing else does.
   */
  method TakeContiguous(pages0: seq<SlotPage>, size: nat, count: nat) returns (base: nat, pages: seq<SlotPage>)
    requires Chain(pages0) && size < 3 && count >= 2 && AllOk(size, View(pages0))
    ensures base == 0 ==> pages == pages0 && NoRun(View(pages0), |View(pages0)|, count, PageBytes(size))
    ensures base != 0 ==> exists e: nat :: RunAt(View(pages0), e, count, PageBytes(size), base)
    ensures base != 0 && Shape(pages0) ==> Without(Order(pages0), Order(pages), base, PageBytes(size), count)
  {
    var found, i := FindRun(pages0, size, count);
    if !found {
      return 0, pages0;
    }
    base := ReadEntry(pages0, i);
    ghost var a, e := View(pages0), i + 1;
    assert RunAt(a, e, count, PageBytes(size), base);
    pages := CutOut(pages0, i, count, a);
    if Shape(pages0) {
      ViewIsOrder(pages0);
      Found(a, i, count, base, PageBytes(size), Order(pages));
    }
  }

  /** The loop of the search: the index at which a run of `count` frames is complete. */
  method FindRun(pages: seq<SlotPage>, size: nat, count: nat) returns (found: bool, i: nat)
    requires Chain(pages) && size < 3 && count >= 2 && AllOk(size, View(pages))
    ensures !found ==> NoRun(View(pages), |View(pages)|, count, PageBytes(size))
    ensures found ==> i < Total(pages) && View(pages)[i] != 0 && RunAt(View(pages), i + 1, count, PageBytes(size), View(pages)[i])
  {
    ghost var a := View(pages);
    var b := PageBytes(size);
    var last: nat, c: nat := INVALID, 0;
    i := 0;
    ScanStart(a, b, count);
    while i < Total(pages)
      invariant i <= Total(pages) == |a| && Scan(a, i, c, last, b, count)
    {
      var addr := ReadEntry(pages, i);
      Decide(a, i, c, last, size, count);
      if last - b == addr {
        ScanOn(a, i, c, last, b, count);
        last, c := addr, c + 1;
        if c == count {
          return true, i;
        }
      } else {
        ScanNew(a, i, c, last, b, count);
        last, c := addr, 1;
      }
      i := i + 1;
    }
    found := false;
  }

  /** `left` is `a` without a block of `count` frames from `base` up. */
  ghost predicate Without(a: seq<nat>, left: seq<nat>, base: nat, b: nat, count: nat) {
    exists p: nat {:trigger RunAt(a, p, count, b, base)} :: RunAt(a, p, count, b, base) && left == a[..p - count] + a[p..]
  }

  lemma Found(a: seq<nat>, i: nat, count: nat, base: nat, b: nat, left: seq<nat>)
    requires i < |a| && RunAt(a, i + 1, count, b, base) && left == a[..i + 1 - count] + a[i + 1..]
    ensures Without(a, left, base, b, count)
  {
    var p: nat := i + 1;
    assert RunAt(a, p, count, b, base);
  }

  /** Take the `count` frames ending at index `i` off the stack. */
  method CutOut(pages0: seq<SlotPage>, i: nat, count: nat, ghost a: seq<nat>) returns (pages: seq<SlotPage>)
    requires Chain(pages0) && a == View(pages0) && 0 < count <= i + 1 <= Total(pages0) == |a|
    ensures Chain(pages) && |Order(pages)| + count == |a|
    ensures Shape(pages0) ==> Order(pages) == a[..i + 1 - count] + a[i + 1..]
  {
    pages := ShiftDown(pages0, 0, i, count);
    OrderLength(pages);
    ghost var moved := View(pages);
    ShiftedLeaves(a, moved, 0, i, count);
    if Shape(pages0) {
      ViewIsOrder(pages);
    }
    pages := DropTop(pages, count);
    assert a[0..i + 1 - count] == a[..i + 1 - count];
  }

  // ---------------------------------------------------------------- the merge pass

  ghost predicate StrictlyDescending(a: seq<nat>) {
    forall j, k :: 0 <= j < k < |a| ==> a[j] > a[k]
  }

  /** The stack held what is left on it and the merged frames, byte for byte. */
  ghost predicate Conserved(size: nat, a0: seq<nat>, left: seq<nat>, freed: seq<nat>) {
    forall x: nat {:trigger FramesHold(size, a0, x)} :: FramesHold(size, a0, x) == FramesHold(size, left, x) + FramesHold(size + 1, freed, x)
  }

  /** The pass has read `i` entries and removed `removed`; `r` adjacent frames down to `contig` may yet make a block. */
  ghost predicate Pass(size: nat, a0: seq<nat>, a: seq<nat>, i: nat, removed: nat, freed: seq<nat>, r: nat, aligned: nat, contig: nat) {
    && |a| == |a0| && removed <= i <= |a| && (forall k :: i <= k < |a| ==> a[k] == a0[k])
    && StrictlyDescending(a[removed..]) && Conserved(size, a0, a[removed..], freed) && AllOk(size + 1, freed) && AllOk(size, a[removed..])
    && removed == 512 * |freed| && contig >= PageBytes(size)
    && (r > 0 ==> Growing(size, a, i, removed, r, aligned, contig))
    && (r == 0 ==> Guarded(size, a, i, contig))
  }

  /** The frame ends where an aligned frame of the next size would. */
  predicate EndsBlock(size: nat, x: nat) {
    (x + PageBytes(size)) % PageBytes(size + 1) == 0
  }

  /** With no run to go on with, only the end of a block can follow the last address. */
  ghost predicate Guarded(size: nat, a: seq<nat>, i: nat, contig: nat) {
    forall k {:trigger EndsBlock(size, a[k])} :: i <= k < |a| && a[k] == contig - PageBytes(size) ==> EndsBlock(size, a[k])
  }

  /** A run that began at the end of an aligned block. */
  predicate Growing(size: nat, a: seq<nat>, i: nat, removed: nat, r: nat, aligned: nat, contig: nat) {
    && 0 < r < 512 && removed + r <= i && RunAt(a, i, r, PageBytes(size), contig)
    && aligned == contig + (r - 1) * PageBytes(size) && EndsBlock(size, aligned)
  }

  lemma PassStart(size: nat, a: seq<nat>)
    requires size < 2 && StrictlyDescending(a) && AllOk(size, a)
    ensures Pass(size, a, a, 0, 0, [], 0, INVALID, INVALID)
  {
    assert a[0..] == a && PageBytes(size) <= INVALID;
    forall k | 0 <= k < |a| ensures a[k] != INVALID - PageBytes(size) {
      assert a[k] in a;
      NeverAdjacent(size, a[k]);
    }
  }

  /** The entry ends an aligned block: a new run. */
  lemma PassAligned(size: nat, a0: seq<nat>, a: seq<nat>, i: nat, removed: nat, freed: seq<nat>, r: nat, aligned: nat, contig: nat)
    requires size < 2 && Pass(size, a0, a, i, removed, freed, r, aligned, contig) && i < |a| && EndsBlock(size, a[i])
    ensures Pass(size, a0, a, i + 1, removed, freed, 1, a[i], a[i])
  {
    RunExtend(a, i, 0, PageBytes(size), a[i]);
    assert a[i] == a[removed..][i - removed];
    NeverAdjacent(size, a[i]);
  }

  /** The entry goes on with the run. */
  lemma RunOn(size: nat, a: seq<nat>, i: nat, removed: nat, r: nat, aligned: nat, contig: nat)
    requires size < 2 && removed <= i < |a| && AllOk(size, a[removed..]) && Growing(size, a, i, removed, r, aligned, contig) && contig == a[i] + PageBytes(size)
    ensures RunAt(a, i + 1, r + 1, PageBytes(size), a[i])
    ensures aligned + PageBytes(size) - a[i] == PageBytes(size + 1) <==> r + 1 == 512
    ensures if r + 1 < 512 then Growing(size, a, i + 1, removed, r + 1, aligned, a[i]) else FrameOk(size + 1, a[i])
  {
    RunExtend(a, i, r, PageBytes(size), a[i]);
    assert a[i] == a[removed..][i - removed];
    RunTop(a, i, r, PageBytes(size), contig);
    assert a[i - r] == a[removed..][i - r - removed];
    RunBytes(size, aligned, a[i], r + 1);
  }

  /** The first entry of a run. */
  lemma {:induction false} RunTop(a: seq<nat>, e: nat, r: nat, b: nat, x: nat)
    requires RunAt(a, e, r, b, x) && r > 0
    ensures a[e - r] == x + (r - 1) * b
    decreases r
  {
    RunEnds(a, e, r, b, x);
    if r > 1 {
      RunTop(a, e - 1, r - 1, b, x + b);
      assert x + b + (r - 2) * b == x + (r - 1) * b;
    }
  }

  lemma PassOn(size: nat, a0: seq<nat>, a: seq<nat>, i: nat, removed: nat, freed: seq<nat>, r: nat, aligned: nat, contig: nat)
    requires size < 2 && Pass(size, a0, a, i, removed, freed, r, aligned, contig) && i < |a|
    requires !EndsBlock(size, a[i]) && contig - PageBytes(size) == a[i]
    ensures Growing(size, a, i, removed, r, aligned, contig) && a[i] >= PageBytes(size)
    ensures r + 1 < 512 && Growing(size, a, i + 1, removed, r + 1, aligned, a[i]) ==> Pass(size, a0, a, i + 1, removed, freed, r + 1, aligned, a[i])
  {
    assert a[i] == a[removed..][i - removed];
    NeverAdjacent(size, a[i]);
  }

  lemma RunBytes(size: nat, aligned: nat, x: nat, n: nat)
    requires size < 2 && FrameOk(size, x) && n > 0 && aligned == x + (n - 1) * PageBytes(size) && EndsBlock(size, aligned)
    ensures aligned + PageBytes(size) - x == PageBytes(size + 1) <==> n == 512
    ensures n == 512 && aligned + PageBytes(size) <= ADDRESS_END ==> FrameOk(size + 1, x)
  {
  }

  /** The entry neither ends a block nor goes on with the run. */
  lemma PassBreak(size: nat, a0: seq<nat>, a: seq<nat>, i: nat, removed: nat, freed: seq<nat>, r: nat, aligned: nat, contig: nat)
    requires size < 2 && Pass(size, a0, a, i, removed, freed, r, aligned, contig) && i < |a|
    requires contig - PageBytes(size) != a[i]
    ensures Pass(size, a0, a, i + 1, removed, freed, 0, INVALID, contig)
  {
    if r > 0 {
      RunEnds(a, i, r, PageBytes(size), contig);
      forall k | i < k < |a| ensures a[k] != contig - PageBytes(size) {
        Below(size, a[removed..], i - 1 - removed, i - removed, k - removed);
      }
    }
  }

  /** Below a frame that is not adjacent to it, no frame is. */
  lemma Below(size: nat, a: seq<nat>, j: nat, k: nat, m: nat)
    requires size < 2 && StrictlyDescending(a) && AllOk(size, a) && j < k < m < |a| && a[j] - PageBytes(size) != a[k]
    ensures a[m] != a[j] - PageBytes(size)
  {
    assert a[j] in a && a[k] in a;
    Apart(size, a[k], a[j]);
  }

  lemma Apart(size: nat, x: nat, y: nat)
    requires FrameOk(size, x) && FrameOk(size, y) && x < y
    ensures x + PageBytes(size) <= y
  {
    if size == 0 {
    } else if size == 1 {
    } else {
    }
  }

  /** A complete block stays on the stack. */
  lemma PassSkip(size: nat, a0: seq<nat>, a: seq<nat>, i: nat, removed: nat, freed: seq<nat>, r: nat, aligned: nat, contig: nat)
    requires size < 2 && Pass(size, a0, a, i, removed, freed, r, aligned, contig) && i < |a| && FrameOk(size + 1, a[i])
    ensures Pass(size, a0, a, i + 1, removed, freed, 0, INVALID, a[i])
  {
    assert a[i] == a[removed..][i - removed];
    NeverAdjacent(size, a[i]);
  }

  /** A complete block is taken out and its frame freed. */
  lemma PassMerge(size: nat, a0: seq<nat>, a: seq<nat>, a': seq<nat>, i: nat, removed: nat, freed: seq<nat>, r: nat, aligned: nat, contig: nat)
    requires size < 2 && Pass(size, a0, a, i, removed, freed, r, aligned, contig) && i < |a| && FrameOk(size + 1, a[i]) && removed + 512 <= i + 1
    requires RunAt(a, i + 1, 512, PageBytes(size), a[i]) && Shifted(a, a', removed, i, 512)
    ensures Pass(size, a0, a', i + 1, removed + 512, freed + [a[i]], 0, aligned, a[i])
  {
    MergeLeaves(a, a', i, removed, PageBytes(size));
    MergeConserved(size, a0, a[removed..], a'[removed + 512..], freed, i - 511 - removed, a[i]);
    MergeGuard(size, a, i, removed);
  }

  /** The run is cut out of what is left. */
  lemma MergeLeaves(a: seq<nat>, a': seq<nat>, i: nat, removed: nat, b: nat)
    requires i < |a| && removed + 512 <= i + 1 && RunAt(a, i + 1, 512, b, a[i]) && Shifted(a, a', removed, i, 512)
    ensures var left, left', p := a[removed..], a'[removed + 512..], i - 511 - removed;
            left' == left[..p] + left[p + 512..] && Adjacent(left[p..p + 512], a[i], b)
  {
    var left, p := a[removed..], i - 511 - removed;
    ShiftedLeaves(a, a', removed, i, 512);
    assert left[p..p + 512] == a[i + 1 - 512..i + 1] && left[..p] == a[removed..i + 1 - 512] && left[p + 512..] == a[i + 1..];
  }

  lemma MergeGuard(size: nat, a: seq<nat>, i: nat, removed: nat)
    requires size < 2 && removed <= i < |a| && AllOk(size, a[removed..]) && FrameOk(size + 1, a[i])
    ensures a[i] >= PageBytes(size) && Guarded(size, a, i + 1, a[i])
  {
    assert a[i] == a[removed..][i - removed];
    NeverAdjacent(size, a[i]);
  }

  lemma MergeConserved(size: nat, a0: seq<nat>, left: seq<nat>, left': seq<nat>, freed: seq<nat>, p: nat, base: nat)
    requires size < 2 && p + 512 <= |left| && Adjacent(left[p..p + 512], base, PageBytes(size)) && left' == left[..p] + left[p + 512..]
    requires Conserved(size, a0, left, freed) && StrictlyDescending(left) && AllOk(size, left) && AllOk(size + 1, freed) && FrameOk(size + 1, base)
    ensures Conserved(size, a0, left', freed + [base]) && StrictlyDescending(left') && AllOk(size, left') && AllOk(size + 1, freed + [base])
  {
    SubDescending(left, left', p, 512);
    forall x: nat ensures FramesHold(size, a0, x) == FramesHold(size, left', x) + FramesHold(size + 1, freed + [base], x) {
      MergeHolds(size, left, left', p, base, x);
      FreedHolds(size, freed, base, x);
      assert FramesHold(size, a0, x) == FramesHold(size, left, x) + FramesHold(size + 1, freed, x);
    }
  }

  lemma FreedHolds(size: nat, freed: seq<nat>, f: nat, x: nat)
    ensures FramesHold(size + 1, freed + [f], x) == FramesHold(size + 1, freed, x) + Covers(size + 1, f, x)
  {
    assert (freed + [f])[..|freed|] == freed;
  }

  lemma MergeHolds(size: nat, left: seq<nat>, left': seq<nat>, p: nat, base: nat, x: nat)
    requires size < 2 && p + 512 <= |left| && Adjacent(left[p..p + 512], base, PageBytes(size)) && left' == left[..p] + left[p + 512..]
    ensures FramesHold(size, left, x) == FramesHold(size, left', x) + Covers(size + 1, base, x)
  {
    FramesHoldConcat(size, left[..p], left[p + 512..], x);
    FramesHoldConcat(size, left[..p] + left[p..p + 512], left[p + 512..], x);
    FramesHoldConcat(size, left[..p], left[p..p + 512], x);
    assert left == left[..p] + left[p..p + 512] + left[p + 512..];
    MergedFrame(size, left[p..p + 512], base, x);
  }

  lemma SubDescending(left: seq<nat>, left': seq<nat>, p: nat, n: nat)
    requires StrictlyDescending(left) && p + n <= |left| && left' == left[..p] + left[p + n..]
    ensures StrictlyDescending(left') && forall f :: f in left' ==> f in left
  {
    forall j, k | 0 <= j < k < |left'| ensures left'[j] > left'[k] {
      assert left'[j] == left[if j < p then j else j + n] && left'[k] == left[if k < p then k else k + n];
    }
  }

  // ---------------------------------------------------------------- which blocks the pass finds

  /** The entries before `i` end with `m` adjacent frames that begin at the end of an aligned block. */
  predicate Begun(size: nat, a: seq<nat>, i: nat, m: nat) {
    0 < m < 512 && m <= i <= |a| && RunAt(a, i, m, PageBytes(size), a[i - 1]) && EndsBlock(size, a[i - m])
  }

  /** Entry `i` completes the 512 frames of an aligned block. */
  predicate BlockEnds(size: nat, a: seq<nat>, i: nat) {
    i < |a| && RunAt(a, i + 1, 512, PageBytes(size), a[i]) && FrameOk(size + 1, a[i])
  }

  /** The pass knows the run it is in. */
  ghost predicate Tracks(size: nat, a: seq<nat>, i: nat, r: nat, contig: nat) {
    && i <= |a| && r < 512 && (r > 0 ==> 0 < i && contig == a[i - 1] && RunAt(a, i, r, PageBytes(size), contig))
    && forall m: nat {:trigger Begun(size, a, i, m)} :: Begun(size, a, i, m) ==> r == m
  }

  lemma OneBlockEnd(size: nat, x: nat, y: nat, m: nat)
    requires size < 2 && EndsBlock(size, x) && EndsBlock(size, y) && 0 < m < 512 && y == x + (m - 1) * PageBytes(size)
    ensures m == 1
  {
    if size == 0 {
      assert y == x + (m - 1) * 0x1000;
    } else {
      assert y == x + (m - 1) * 0x20_0000;
    }
  }

  lemma BlockBase(size: nat, x: nat)
    requires size < 2 && FrameOk(size + 1, x)
    ensures !EndsBlock(size, x) && EndsBlock(size, x + 511 * PageBytes(size))
  {
  }

  /** A run with one more entry was a run before it. */
  lemma BegunBefore(size: nat, a: seq<nat>, i: nat, m: nat)
    requires Begun(size, a, i + 1, m) && m > 1
    ensures Begun(size, a, i, m - 1) && a[i - 1] == a[i] + PageBytes(size)
  {
    RunEnds(a, i + 1, m, PageBytes(size), a[i]);
    RunEnds(a, i, m - 1, PageBytes(size), a[i] + PageBytes(size));
  }

  lemma BlockBefore(size: nat, a: seq<nat>, i: nat)
    requires size < 2 && BlockEnds(size, a, i)
    ensures Begun(size, a, i, 511) && a[i - 1] == a[i] + PageBytes(size) && !EndsBlock(size, a[i])
  {
    BlockBase(size, a[i]);
    RunTop(a, i + 1, 512, PageBytes(size), a[i]);
    RunEnds(a, i + 1, 512, PageBytes(size), a[i]);
    RunEnds(a, i, 511, PageBytes(size), a[i] + PageBytes(size));
  }

  lemma TracksAligned(size: nat, a: seq<nat>, i: nat, r: nat, contig: nat)
    requires size < 2 && Tracks(size, a, i, r, contig) && i < |a| && EndsBlock(size, a[i])
    ensures Tracks(size, a, i + 1, 1, a[i]) && !BlockEnds(size, a, i)
  {
    RunExtend(a, i, 0, PageBytes(size), a[i]);
    var n := i + 1;
    forall m: nat {:trigger Begun(size, a, n, m)} | Begun(size, a, n, m) ensures m == 1 {
      RunTop(a, n, m, PageBytes(size), a[i]);
      OneBlockEnd(size, a[i], a[n - m], m);
    }
    if BlockEnds(size, a, i) {
      BlockBefore(size, a, i);
    }
  }

  lemma TracksOn(size: nat, a: seq<nat>, i: nat, r: nat, contig: nat)
    requires size < 2 && Tracks(size, a, i, r, contig) && i < |a| && !EndsBlock(size, a[i]) && r > 0 && contig == a[i] + PageBytes(size)
    requires r + 1 == 512 ==> FrameOk(size + 1, a[i])
    ensures Tracks(size, a, i + 1, if r + 1 == 512 then 0 else r + 1, a[i]) && (BlockEnds(size, a, i) <==> r + 1 == 512)
  {
    RunExtend(a, i, r, PageBytes(size), a[i]);
    var n := i + 1;
    forall m: nat {:trigger Begun(size, a, n, m)} | Begun(size, a, n, m) ensures r + 1 == m {
      if m > 1 {
        BegunBefore(size, a, i, m);
      }
    }
    if BlockEnds(size, a, i) {
      BlockBefore(size, a, i);
    }
  }

  lemma TracksBreak(size: nat, a: seq<nat>, i: nat, r: nat, contig: nat)
    requires size < 2 && Tracks(size, a, i, r, contig) && i < |a| && !EndsBlock(size, a[i]) && contig != a[i] + PageBytes(size)
    ensures Tracks(size, a, i + 1, 0, contig) && !BlockEnds(size, a, i)
  {
    var n := i + 1;
    forall m: nat {:trigger Begun(size, a, n, m)} ensures !Begun(size, a, n, m) {
      if m > 1 && Begun(size, a, n, m) {
        BegunBefore(size, a, i, m);
      }
    }
    if BlockEnds(size, a, i) {
      BlockBefore(size, a, i);
    }
  }

  /** The bases of the complete blocks, in the order in which the pass meets them. */
  function Blocks(size: nat, a: seq<nat>, n: nat): seq<nat>
    requires n <= |a|
  {
    if n == 0 then [] else Blocks(size, a, n - 1) + if BlockEnds(size, a, n - 1) then [a[n - 1]] else []
  }

  /** All of them, or all but the first. */
  function ButFirst(s: seq<nat>, skip: bool): seq<nat> {
    if skip && s != [] then s[1..] else s
  }

  /** What one entry adds to the blocks found. */
  predicate Notes(size: nat, a0: seq<nat>, i: nat, c0: Cursor, c: Cursor) {
    if BlockEnds(size, a0, i) then !c.first && c.freed == (if c0.first then c0.freed else c0.freed + [a0[i]])
    else c.first == c0.first && c.freed == c0.freed
  }

  /** The pass has noted the blocks among the first `n` entries, all but the first one if `first0` is set. */
  predicate Noted(size: nat, a0: seq<nat>, n: nat, first0: bool, freed: seq<nat>, first: bool)
    requires n <= |a0|
  {
    var bs := Blocks(size, a0, n);
    first == (first0 && bs == []) && freed == ButFirst(bs, first0)
  }

  lemma NotesAll(size: nat, a0: seq<nat>, i: nat, c0: Cursor, c: Cursor, first0: bool)
    requires i < |a0| && Notes(size, a0, i, c0, c) && Noted(size, a0, i, first0, c0.freed, c0.first)
    ensures Noted(size, a0, i + 1, first0, c.freed, c.first)
  {
  }

  // ---------------------------------------------------------------- blocks by membership

  /** All frames inside the larger frame at `f` are on the stack. */
  ghost predicate Whole(size: nat, a: seq<nat>, f: nat) {
    forall x: nat {:trigger FrameOk(size, x)} :: FrameOk(size, x) && f <= x < f + PageBytes(size + 1) ==> x in a
  }

  /** The blocks are exactly the larger frames all of whose parts are on the sorted stack. */
  lemma BlocksAreWhole(size: nat, a: seq<nat>, f: nat)
    requires size < 2 && StrictlyDescending(a) && AllOk(size, a)
    ensures f in Blocks(size, a, |a|) <==> FrameOk(size + 1, f) && Whole(size, a, f)
  {
    if f in Blocks(size, a, |a|) {
      BlockIsWhole(size, a, f);
    }
    if FrameOk(size + 1, f) && Whole(size, a, f) {
      WholeIsBlock(size, a, f);
    }
  }

  lemma BlockIsWhole(size: nat, a: seq<nat>, f: nat)
    requires size < 2 && f in Blocks(size, a, |a|)
    ensures FrameOk(size + 1, f) && Whole(size, a, f)
  {
    var i := BlockOf(size, a, |a|, f);
    forall x: nat | FrameOk(size, x) && f <= x < f + PageBytes(size + 1) ensures x in a {
      var k := PlaceIn(size, f, x);
      RunMember(a, i + 1, 512, PageBytes(size), f, k);
    }
  }

  /** The place of a frame in a larger one. */
  lemma PlaceIn(size: nat, f: nat, x: nat) returns (k: nat)
    requires size < 2 && FrameOk(size + 1, f) && FrameOk(size, x) && f <= x < f + PageBytes(size + 1)
    ensures k < 512 && x == f + k * PageBytes(size)
  {
    if size == 0 {
      k := (x - f) / 0x1000;
    } else {
      k := (x - f) / 0x20_0000;
    }
  }

  lemma WholeIsBlock(size: nat, a: seq<nat>, f: nat)
    requires size < 2 && StrictlyDescending(a) && AllOk(size, a) && FrameOk(size + 1, f) && Whole(size, a, f)
    ensures f in Blocks(size, a, |a|)
  {
    var top := f + PageBytes(size + 1) - PageBytes(size);
    SubFrame(size, f, 511);
    assert top == f + 511 * PageBytes(size);
    var j: nat :| j < |a| && a[j] == top;
    RunFrom(size, a, f, j, 511, f);
    BlockNoted(size, a, |a|, j + 511);
  }

  lemma {:induction false} BlockOf(size: nat, a: seq<nat>, n: nat, f: nat) returns (i: nat)
    requires n <= |a| && f in Blocks(size, a, n)
    ensures i < n && BlockEnds(size, a, i) && a[i] == f
    decreases n
  {
    if f in Blocks(size, a, n - 1) {
      i := BlockOf(size, a, n - 1, f);
    } else {
      i := n - 1;
    }
  }

  lemma {:induction false} BlockNoted(size: nat, a: seq<nat>, n: nat, i: nat)
    requires i < n <= |a| && BlockEnds(size, a, i)
    ensures a[i] in Blocks(size, a, n)
    decreases n
  {
    if i < n - 1 {
      BlockNoted(size, a, n - 1, i);
    }
  }

  lemma {:induction false} RunMember(a: seq<nat>, e: nat, r: nat, b: nat, x: nat, k: nat)
    requires RunAt(a, e, r, b, x) && k < r
    ensures x + k * b in a
    decreases k
  {
    RunEnds(a, e, r, b, x);
    if k > 0 {
      RunMember(a, e - 1, r - 1, b, x + b, k - 1);
      assert x + b + (k - 1) * b == x + k * b;
    }
  }

  function Times(size: nat, m: nat): nat {
    if size == 0 then m * 0x1000 else m * 0x20_0000
  }

  /** Below each frame of the block the next one follows at once. */
  lemma {:induction false} RunFrom(size: nat, a: seq<nat>, f: nat, j: nat, m: nat, x: nat)
    requires size < 2 && StrictlyDescending(a) && AllOk(size, a) && FrameOk(size + 1, f) && Whole(size, a, f)
    requires m < 512 && j < |a| && a[j] == f + PageBytes(size + 1) - PageBytes(size) && x + Times(size, m + 1) == f + PageBytes(size + 1)
    ensures j + m < |a| && a[j + m] == x && RunAt(a, j + m + 1, m + 1, PageBytes(size), x)
    decreases m
  {
    if m == 0 {
      RunExtend(a, j, 0, PageBytes(size), a[j]);
    } else {
      RunFrom(size, a, f, j, m - 1, x + PageBytes(size));
      assert x in a by {
        InsideFrame(size, f, m, x);
      }
      RunDown(size, a, j + m - 1, m, x);
    }
  }

  lemma InsideFrame(size: nat, f: nat, m: nat, x: nat)
    requires size < 2 && FrameOk(size + 1, f) && 0 < m < 512 && x + Times(size, m + 1) == f + PageBytes(size + 1)
    ensures FrameOk(size, x) && f <= x
  {
    if size == 0 {
      var k: nat := 512 * (f / 0x20_0000) + 511 - m;
      Multiple4K(k);
      assert x == 0x1000 * k;
    } else {
      var k: nat := 512 * (f / 0x4000_0000) + 511 - m;
      Multiple2M(k);
      assert x == 0x20_0000 * k;
    }
  }

  lemma RunDown(size: nat, a: seq<nat>, k: nat, m: nat, x: nat)
    requires StrictlyDescending(a) && AllOk(size, a) && k < |a| && a[k] == x + PageBytes(size) && x in a && RunAt(a, k + 1, m, PageBytes(size), a[k])
    ensures k + 1 < |a| && a[k + 1] == x && RunAt(a, k + 2, m + 1, PageBytes(size), x)
  {
    NextDown(size, a, k, x);
    RunExtend(a, k + 1, m, PageBytes(size), x);
  }

  lemma NextDown(size: nat, a: seq<nat>, k: nat, x: nat)
    requires StrictlyDescending(a) && AllOk(size, a) && k < |a| && a[k] == x + PageBytes(size) && x in a
    ensures k + 1 < |a| && a[k + 1] == x
  {
    var l :| 0 <= l < |a| && a[l] == x;
    assert l > k;
    if l > k + 1 {
      assert a[k + 1] in a && a[l] in a && a[k] > a[k + 1] > a[l];
      Apart(size, a[l], a[k + 1]);
    }
  }

  /** The variables of the merge pass. */
  datatype Cursor = Cursor(pages: seq<SlotPage>, removed: nat, freed: seq<nat>, first: bool, aligned: nat, contig: nat)

  ghost predicate PassAt(size: nat, a0: seq<nat>, c: Cursor, i: nat, r: nat) {
    && Chain(c.pages) && Total(c.pages) == |a0| && Pass(size, a0, View(c.pages), i, c.removed, c.freed, r, c.aligned, c.contig)
  }

  /** One entry of the pass. */
  method MergeEntry(size: nat, c0: Cursor, i: nat, ghost a0: seq<nat>, ghost r0: nat) returns (c: Cursor, ghost r: nat)
    requires size < 2 && i < |a0| && PassAt(size, a0, c0, i, r0) && Tracks(size, a0, i, r0, c0.contig)
    ensures PassAt(size, a0, c, i + 1, r) && Tracks(size, a0, i + 1, r, c.contig) && Notes(size, a0, i, c0, c) && Counts(c.pages) == Counts(c0.pages)
  {
    ghost var a := View(c0.pages);
    var addr := ReadEntry(c0.pages, i);
    if EndsBlock(size, addr) {
      TracksAligned(size, a0, i, r0, c0.contig);
      PassAligned(size, a0, a, i, c0.removed, c0.freed, r0, c0.aligned, c0.contig);
      c, r := c0.(aligned := addr, contig := addr), 1;
    } else if c0.contig - PageBytes(size) == addr {
      c, r := MergeAdjacent(size, c0, i, addr, a0, r0);
    } else {
      TracksBreak(size, a0, i, r0, c0.contig);
      PassBreak(size, a0, a, i, c0.removed, c0.freed, r0, c0.aligned, c0.contig);
      c, r := c0.(aligned := INVALID), 0;
    }
  }

  /** The entry follows the one before it: the run goes on, and may complete a block. */
  method MergeAdjacent(size: nat, c0: Cursor, i: nat, addr: nat, ghost a0: seq<nat>, ghost r0: nat) returns (c: Cursor, ghost r: nat)
    requires size < 2 && i < |a0| && PassAt(size, a0, c0, i, r0) && Tracks(size, a0, i, r0, c0.contig)
    requires addr == View(c0.pages)[i] && !EndsBlock(size, addr) && c0.contig - PageBytes(size) == addr
    ensures PassAt(size, a0, c, i + 1, r) && Tracks(size, a0, i + 1, r, c.contig) && Notes(size, a0, i, c0, c) && Counts(c.pages) == Counts(c0.pages)
  {
    ghost var a := View(c0.pages);
    PassOn(size, a0, a, i, c0.removed, c0.freed, r0, c0.aligned, c0.contig);
    RunOn(size, a, i, c0.removed, r0, c0.aligned, c0.contig);
    TracksOn(size, a0, i, r0, c0.contig);
    if c0.aligned + PageBytes(size) - addr == PageBytes(size + 1) {
      c := TakeBlock(size, c0, i, addr, a0, r0);
      r := 0;
    } else {
      c, r := c0.(contig := addr), r0 + 1;
    }
  }

  /** A complete block: kept if it is the first, else removed and its frame noted as freed. */
  method TakeBlock(size: nat, c0: Cursor, i: nat, addr: nat, ghost a0: seq<nat>, ghost r: nat) returns (c: Cursor)
    requires size < 2 && i < |a0| && PassAt(size, a0, c0, i, r) && addr == View(c0.pages)[i] && FrameOk(size + 1, addr)
    requires RunAt(View(c0.pages), i + 1, 512, PageBytes(size), addr) && c0.removed + 512 <= i + 1
    ensures PassAt(size, a0, c, i + 1, 0) && Counts(c.pages) == Counts(c0.pages) && c.contig == addr && !c.first && c.freed == (if c0.first then c0.freed else c0.freed + [addr])
  {
    if c0.first {
      PassSkip(size, a0, View(c0.pages), i, c0.removed, c0.freed, r, c0.aligned, c0.contig);
      c := c0.(first := false, aligned := INVALID, contig := addr);
    } else {
      c := RemoveBlock(size, c0, i, addr, a0, r);
    }
  }

  method RemoveBlock(size: nat, c0: Cursor, i: nat, addr: nat, ghost a0: seq<nat>, ghost r: nat) returns (c: Cursor)
    requires size < 2 && i < |a0| && PassAt(size, a0, c0, i, r) && addr == View(c0.pages)[i] && FrameOk(size + 1, addr)
    requires RunAt(View(c0.pages), i + 1, 512, PageBytes(size), addr) && c0.removed + 512 <= i + 1
    ensures PassAt(size, a0, c, i + 1, 0) && Counts(c.pages) == Counts(c0.pages) && c.contig == addr && c.first == c0.first && c.freed == c0.freed + [addr]
  {
    var pages := ShiftDown(c0.pages, c0.removed, i, 512);
    c := Cursor(pages, c0.removed + 512, c0.freed + [addr], c0.first, c0.aligned, addr);
    BlockRemoved(size, c0, c, i, a0, r, View(c0.pages), View(pages));
  }

  lemma BlockRemoved(size: nat, c0: Cursor, c: Cursor, i: nat, a0: seq<nat>, r: nat, a: seq<nat>, a': seq<nat>)
    requires size < 2 && i < |a0| && PassAt(size, a0, c0, i, r) && a == View(c0.pages) && FrameOk(size + 1, a[i])
    requires RunAt(a, i + 1, 512, PageBytes(size), a[i]) && c0.removed + 512 <= i + 1
    requires Kept(c0.pages, c.pages) && a' == View(c.pages) && Shifted(a, a', c0.removed, i, 512)
    requires c.removed == c0.removed + 512 && c.freed == c0.freed + [a[i]] && c.aligned == c0.aligned && c.contig == a[i]
    ensures PassAt(size, a0, c, i + 1, 0)
  {
    PassMerge(size, a0, a, a', i, c0.removed, c0.freed, r, c0.aligned, c0.contig);
  }

  /** The pass has come to entry `i`. */
  ghost predicate PassedTo(size: nat, a0: seq<nat>, c: Cursor, i: nat, r: nat, first0: bool) {
    i <= |a0| && PassAt(size, a0, c, i, r) && Tracks(size, a0, i, r, c.contig) && Noted(size, a0, i, first0, c.freed, c.first)
  }

  method MergeNext(size: nat, c0: Cursor, i: nat, ghost a0: seq<nat>, ghost r0: nat, ghost first0: bool) returns (c: Cursor, ghost r: nat)
    requires size < 2 && i < |a0| && PassedTo(size, a0, c0, i, r0, first0)
    ensures PassedTo(size, a0, c, i + 1, r, first0) && Counts(c.pages) == Counts(c0.pages)
  {
    c, r := MergeEntry(size, c0, i, a0, r0);
    NotesAll(size, a0, i, c0, c, first0);
  }

  /**
   The merge pass over one sorted stack of 4K or 2M frames. `first` keeps the first complete block
   unmerged. It sees what the indices lead to; where that is the stack, no byte is lost.
   */
  method MergePass(pages0: seq<SlotPage>, size: nat, first0: bool) returns (pages: seq<SlotPage>, freed: seq<nat>, first: bool)
    requires Chain(pages0) && size < 2 && AllOk(size, View(pages0)) && StrictlyDescending(View(pages0))
    ensures AllOk(size + 1, freed) && Noted(size, View(pages0), |View(pages0)|, first0, freed, first)
    ensures Chain(pages) && |Order(pages0)| == |Order(pages)| + 512 * |freed|
    ensures Shape(pages0) ==> StrictlyDescending(Order(pages)) && Conserved(size, Order(pages0), Order(pages), freed)
  {
    var c := MergeAll(pages0, size, first0);
    OrderLength(c.pages);
    OrderLength(pages0);
    if Shape(pages0) {
      ViewIsOrder(pages0);
      ViewIsOrder(c.pages);
    }
    pages := DropTop(c.pages, c.removed);
    freed, first := c.freed, c.first;
  }

  /** The loop over all entries. */
  method MergeAll(pages0: seq<SlotPage>, size: nat, first0: bool) returns (c: Cursor)
    requires Chain(pages0) && size < 2 && AllOk(size, View(pages0)) && StrictlyDescending(View(pages0))
    ensures Counts(c.pages) == Counts(pages0) && exists r :: PassedTo(size, View(pages0), c, |View(pages0)|, r, first0)
  {
    ghost var a0, r: nat := View(pages0), 0;
    OrderLength(pages0);
    PassStart(size, a0);
    c := Cursor(pages0, 0, [], first0, INVALID, INVALID);
    var i: nat := 0;
    while i < Total(pages0)
      invariant i <= Total(pages0) == |a0| && PassedTo(size, a0, c, i, r, first0) && Counts(c.pages) == Counts(pages0)
    {
      c, r := MergeNext(size, c, i, a0, r, first0);
      i := i + 1;
    }
  }
}
