/**
 Sorting a stack in place, across its linked pages: `_pmm_defragment_read_index`,
 `_pmm_defragment_write_index`, `_pmm_defragment_min_heapify` and the heapsort loops of
 `_pmm_defragment`. Index 0 is the frame on top of the stack. The index arithmetic takes
 every page below the top for full; where one is not, it reaches slots that hold no frame.
 */
module StackSort {
  import opened Common
  import opened FramePool

  /** A stack page: all of its slots, the first `count` of which hold frames. */
  datatype SlotPage = SlotPage(slots: seq<nat>, count: nat)

  /** The pages of a stack, top page first. */
  predicate Chain(pages: seq<SlotPage>) {
    pages != [] && forall k :: 0 <= k < |pages| ==> |pages[k].slots| == PAGE_FRAMES && pages[k].count <= PAGE_FRAMES
  }

  function Counts(pages: seq<SlotPage>): (cs: seq<nat>)
    ensures |cs| == |pages| && forall k :: 0 <= k < |pages| ==> cs[k] == pages[k].count
  {
    seq(|pages|, k requires 0 <= k < |pages| => pages[k].count)
  }

  function Sum(cs: seq<nat>): nat {
    if cs == [] then 0 else Sum(cs[..|cs| - 1]) + cs[|cs| - 1]
  }

  /** The number of frames on a stack. */
  function Total(pages: seq<SlotPage>): nat {
    Sum(Counts(pages))
  }

  predicate CountsOk(cs: seq<nat>) {
    cs != [] && forall k :: 0 <= k < |cs| ==> cs[k] <= PAGE_FRAMES
  }

  /** Every page below the top is full. */
  predicate FullCounts(cs: seq<nat>) {
    forall k :: 0 < k < |cs| ==> cs[k] == PAGE_FRAMES
  }

  predicate Shape(pages: seq<SlotPage>) {
    Chain(pages) && FullCounts(Counts(pages))
  }

  lemma {:induction false} SumBound(cs: seq<nat>)
    requires CountsOk(cs)
    ensures Sum(cs) <= cs[0] + PAGE_FRAMES * (|cs| - 1) && (FullCounts(cs) ==> Sum(cs) == cs[0] + PAGE_FRAMES * (|cs| - 1))
    decreases |cs|
  {
    var front := cs[..|cs| - 1];
    if |cs| > 1 {
      SumBound(front);
    } else {
      assert front == [];
    }
  }

  /** Full pages down to page `j`, and page `j` itself, are part of the sum. */
  lemma {:induction false} SumFrom(cs: seq<nat>, j: nat)
    requires 0 < j < |cs| && forall k :: 0 < k < j ==> cs[k] == PAGE_FRAMES
    ensures Sum(cs) >= cs[0] + PAGE_FRAMES * (j - 1) + cs[j]
    decreases |cs|
  {
    var front := cs[..|cs| - 1];
    if j < |cs| - 1 {
      SumFrom(front, j);
    } else if j > 1 {
      SumFrom(front, j - 1);
    } else {
      assert front == [cs[0]] && front[..0] == [];
    }
  }

  // ---------------------------------------------------------------- the index mapping

  /** The page and the slot in it of an index, with `first` frames on the top page. */
  function PageOf(first: nat, i: nat): nat
    requires first <= PAGE_FRAMES
  {
    if i < first then 0 else (i + (PAGE_FRAMES - first)) / PAGE_FRAMES
  }

  function SlotOf(first: nat, i: nat): int {
    if i < first then first - 1 - i else PAGE_FRAMES - 1 - (i - first) % PAGE_FRAMES
  }

  function IndexOf(first: nat, page: nat, slot: nat): int {
    if page == 0 then first - 1 - slot else first + PAGE_FRAMES * (page - 1) + (PAGE_FRAMES - 1 - slot)
  }

  /** An index leads to the slot. */
  predicate Seen(cs: seq<nat>, page: nat, slot: nat)
    requires cs != []
  {
    0 <= IndexOf(cs[0], page, slot) < Sum(cs)
  }

  /** Every index leads to a slot of a page, and the slot back to the index. */
  lemma IndexInside(cs: seq<nat>, i: nat)
    requires CountsOk(cs) && i < Sum(cs)
    ensures var p, s := PageOf(cs[0], i), SlotOf(cs[0], i);
            p < |cs| && 0 <= s < PAGE_FRAMES && IndexOf(cs[0], p, s) == i
  {
    SumBound(cs);
    if i >= cs[0] {
      var d := i - cs[0];
      PageStep(d);
      assert i + (PAGE_FRAMES - cs[0]) == d + PAGE_FRAMES;
      BelowPages(d / PAGE_FRAMES, d % PAGE_FRAMES, |cs| - 1);
    }
  }

  lemma BelowPages(q: nat, r: nat, n: nat)
    requires PAGE_FRAMES * q + r < PAGE_FRAMES * n
    ensures q < n
  {
  }

  /** A slot that an index leads to is the slot of that index. */
  lemma IndexOnto(cs: seq<nat>, p: nat, s: nat)
    requires CountsOk(cs) && p < |cs| && s < PAGE_FRAMES && Seen(cs, p, s)
    ensures var i := IndexOf(cs[0], p, s); PageOf(cs[0], i) == p && SlotOf(cs[0], i) == s
  {
    var first := cs[0];
    if p > 0 {
      var d := PAGE_FRAMES * (p - 1) + (PAGE_FRAMES - 1 - s);
      PageParts(p - 1, PAGE_FRAMES - 1 - s);
      assert IndexOf(first, p, s) == first + d;
      PageStep(d);
      assert first + d + (PAGE_FRAMES - first) == d + PAGE_FRAMES;
    }
  }

  /** The slots that hold frames are exactly those the indices lead to. */
  ghost predicate Exact(cs: seq<nat>)
    requires cs != []
  {
    forall p: nat, s: nat {:trigger Seen(cs, p, s)} :: p < |cs| && s < PAGE_FRAMES ==> (Seen(cs, p, s) <==> s < cs[p])
  }

  /** Where no page below the top is empty, that is so if and only if all of them are full. */
  lemma IndexExact(cs: seq<nat>)
    requires CountsOk(cs) && forall k :: 0 < k < |cs| ==> cs[k] > 0
    ensures Exact(cs) <==> FullCounts(cs)
  {
    if FullCounts(cs) {
      SumBound(cs);
      forall p: nat, s: nat | p < |cs| && s < PAGE_FRAMES ensures Seen(cs, p, s) <==> s < cs[p] {
        SlotInside(cs[0], p, s, |cs|);
        if p == 0 {
          SumTop(cs);
        }
      }
    } else {
      var j := FirstPartial(cs);
      SumFrom(cs, j);
      assert Seen(cs, j, PAGE_FRAMES - 1);
    }
  }

  lemma {:induction false} SumTop(cs: seq<nat>)
    requires cs != []
    ensures Sum(cs) >= cs[0]
    decreases |cs|
  {
    if |cs| > 1 {
      SumTop(cs[..|cs| - 1]);
    } else {
      assert cs[..0] == [];
    }
  }

  lemma SlotInside(first: nat, p: nat, s: nat, n: nat)
    requires p < n && s < PAGE_FRAMES
    ensures p > 0 ==> 0 <= IndexOf(first, p, s) < first + PAGE_FRAMES * (n - 1)
  {
    if p > 0 {
      assert PAGE_FRAMES * (p - 1) + PAGE_FRAMES <= PAGE_FRAMES * (n - 1);
    }
  }

  /** The uppermost page below the top that is not full. */
  lemma FirstPartial(cs: seq<nat>) returns (j: nat)
    requires !FullCounts(cs)
    ensures 0 < j < |cs| && cs[j] != PAGE_FRAMES && forall k :: 0 < k < j ==> cs[k] == PAGE_FRAMES
  {
    j := 1;
    while cs[j] == PAGE_FRAMES
      invariant 0 < j < |cs| && (forall k :: 0 < k < j ==> cs[k] == PAGE_FRAMES)
      decreases |cs| - j
    {
      j := j + 1;
    }
  }

  lemma PageStep(d: nat)
    ensures (d + PAGE_FRAMES) / PAGE_FRAMES == d / PAGE_FRAMES + 1 && d == PAGE_FRAMES * (d / PAGE_FRAMES) + d % PAGE_FRAMES
  {
  }

  lemma PageParts(q: nat, r: nat)
    requires r < PAGE_FRAMES
    ensures (PAGE_FRAMES * q + r) / PAGE_FRAMES == q && (PAGE_FRAMES * q + r) % PAGE_FRAMES == r
  {
  }

  /** `_pmm_defragment_read_index`. */
  function Read(pages: seq<SlotPage>, i: nat): nat
    requires Chain(pages) && i < Total(pages)
  {
    IndexInside(Counts(pages), i);
    pages[PageOf(pages[0].count, i)].slots[SlotOf(pages[0].count, i)]
  }

  /** `_pmm_defragment_write_index`. */
  function Write(pages: seq<SlotPage>, i: nat, v: nat): seq<SlotPage>
    requires Chain(pages) && i < Total(pages)
  {
    IndexInside(Counts(pages), i);
    var p := PageOf(pages[0].count, i);
    pages[p := pages[p].(slots := pages[p].slots[SlotOf(pages[0].count, i) := v])]
  }

  /** What the indices lead to, in index order. */
  function Flat(pages: seq<SlotPage>): (a: seq<nat>)
    requires Chain(pages)
    ensures |a| == Total(pages) && forall i :: 0 <= i < |a| ==> a[i] == Read(pages, i)
  {
    seq(Total(pages), i requires 0 <= i < Total(pages) => Read(pages, i))
  }

  /** Same counts, and same contents of the slots that no index leads to. */
  ghost predicate Kept(pages0: seq<SlotPage>, pages: seq<SlotPage>) {
    && Chain(pages0) && Chain(pages) && Counts(pages) == Counts(pages0)
    && forall p: nat, s: nat {:trigger Seen(Counts(pages0), p, s)} :: p < |pages| && s < PAGE_FRAMES && !Seen(Counts(pages0), p, s) ==> pages[p].slots[s] == pages0[p].slots[s]
  }

  lemma WriteFlat(pages: seq<SlotPage>, i: nat, v: nat)
    requires Chain(pages) && i < Total(pages)
    ensures Kept(pages, Write(pages, i, v)) && Flat(Write(pages, i, v)) == Flat(pages)[i := v]
  {
    var cs := Counts(pages);
    IndexInside(cs, i);
    var pages' := Write(pages, i, v);
    assert Counts(pages') == cs;
    forall j | 0 <= j < Total(pages) ensures Flat(pages')[j] == Flat(pages)[i := v][j] {
      IndexInside(cs, j);
    }
  }

  lemma KeptTrans(a: seq<SlotPage>, b: seq<SlotPage>, c: seq<SlotPage>)
    requires Kept(a, b) && Kept(b, c)
    ensures Kept(a, c)
  {
    forall p: nat, s: nat | p < |c| && s < PAGE_FRAMES && !Seen(Counts(a), p, s) ensures c[p].slots[s] == a[p].slots[s] {
      assert !Seen(Counts(b), p, s);
    }
  }

  // ---------------------------------------------------------------- heaps

  predicate IsChild(k: nat, c: nat) {
    c == 2 * k + 1 || c == 2 * k + 2
  }

  /** No node from `lo` on is larger than its children among the first `n`. */
  ghost predicate Heap(a: seq<nat>, lo: nat, n: nat)
    requires n <= |a|
  {
    forall k: nat, c: nat {:trigger IsChild(k, c)} :: lo <= k && c < n && IsChild(k, c) ==> a[k] <= a[c]
  }

  /** A heap but for node `i`, whose children are no smaller than its parent. */
  ghost predicate HeapBut(a: seq<nat>, lo: nat, n: nat, i: nat)
    requires n <= |a|
  {
    && (forall k: nat, c: nat {:trigger IsChild(k, c)} :: lo <= k && c < n && k != i && IsChild(k, c) ==> a[k] <= a[c])
    && (forall k: nat, c: nat {:trigger IsChild(k, i), IsChild(i, c)} :: lo <= k && c < n && IsChild(k, i) && IsChild(i, c) ==> a[k] <= a[c])
  }

  function Swap(a: seq<nat>, i: nat, j: nat): seq<nat>
    requires i < |a| && j < |a|
  {
    a[i := a[j]][j := a[i]]
  }

  lemma SwapMultiset(a: seq<nat>, i: nat, j: nat)
    requires i < |a| && j < |a|
    ensures multiset(Swap(a, i, j)) == multiset(a)
  {
  }

  /** Sinking one step: the smallest child changes places with its parent. */
  lemma Sink(a: seq<nat>, lo: nat, n: nat, i: nat, c: nat)
    requires n <= |a| && lo <= i && c < n && IsChild(i, c) && HeapBut(a, lo, n, i)
    requires a[c] < a[i] && forall d: nat {:trigger IsChild(i, d)} :: d < n && IsChild(i, d) ==> a[c] <= a[d]
    ensures HeapBut(Swap(a, i, c), lo, n, c)
  {
    var b := Swap(a, i, c);
    forall k: nat, d: nat | lo <= k && d < n && k != c && IsChild(k, d) ensures b[k] <= b[d] {
      assert IsChild(i, c);
      if d == i {
        assert IsChild(k, i);
      }
    }
    forall k: nat, d: nat | lo <= k && d < n && IsChild(k, c) && IsChild(c, d) ensures b[k] <= b[d] {
      assert k == i;
    }
  }

  lemma Settled(a: seq<nat>, lo: nat, n: nat, i: nat)
    requires n <= |a| && HeapBut(a, lo, n, i) && (i < n ==> forall d: nat {:trigger IsChild(i, d)} :: d < n && IsChild(i, d) ==> a[i] <= a[d])
    ensures Heap(a, lo, n)
  {
  }

  /** The root of a heap is its minimum. */
  lemma {:induction false} RootIsMin(a: seq<nat>, n: nat, k: nat)
    requires n <= |a| && Heap(a, 0, n) && k < n
    ensures a[0] <= a[k]
    decreases k
  {
    if k > 0 {
      var p: nat := (k - 1) / 2;
      assert IsChild(p, k);
      RootIsMin(a, n, p);
    }
  }

  // ---------------------------------------------------------------- the sorting loops

  /** `b` rearranges the first `n` entries of `a` and leaves the others alone. */
  ghost predicate Rearranged(a: seq<nat>, b: seq<nat>, n: nat) {
    n <= |a| == |b| && multiset(a[..n]) == multiset(b[..n]) && forall j :: n <= j < |a| ==> a[j] == b[j]
  }

  lemma RearrangedSwap(a: seq<nat>, b: seq<nat>, n: nat, i: nat, j: nat)
    requires Rearranged(a, b, n) && i < n && j < n
    ensures Rearranged(a, Swap(b, i, j), n)
  {
    SwapMultiset(b[..n], i, j);
    assert Swap(b, i, j)[..n] == Swap(b[..n], i, j);
  }

  lemma RearrangedTrans(a: seq<nat>, b: seq<nat>, c: seq<nat>, n: nat, m: nat)
    requires n <= m && Rearranged(a, b, m) && Rearranged(b, c, n)
    ensures Rearranged(a, c, m)
  {
    assert b[..m] == b[..n] + b[n..m] && c[..m] == c[..n] + c[n..m] && b[n..m] == c[n..m];
  }

  /** A bound on the first entries survives rearranging them. */
  lemma RearrangedBound(a: seq<nat>, b: seq<nat>, n: nat, low: nat)
    requires Rearranged(a, b, n) && forall j :: 0 <= j < n ==> a[j] >= low
    ensures forall j :: 0 <= j < n ==> b[j] >= low
  {
    forall j | 0 <= j < n ensures b[j] >= low {
      assert b[..n][j] in multiset(b[..n]);
      assert b[j] in multiset(a[..n]);
    }
  }

  /** The smallest of a node and its children. */
  method Smallest(pages: seq<SlotPage>, i: nat, n: nat) returns (s: nat)
    requires Chain(pages) && i < n <= Total(pages)
    ensures s < n && (s == i || (IsChild(i, s) && Flat(pages)[s] < Flat(pages)[i]))
    ensures forall c: nat {:trigger IsChild(i, c)} :: c < n && IsChild(i, c) ==> Flat(pages)[s] <= Flat(pages)[c]
  {
    var left, right := 2 * i + 1, 2 * i + 2;
    s := i;
    var value := Read(pages, i);
    if left < n {
      var l := Read(pages, left);
      if value > l {
        s, value := left, l;
      }
    }
    if right < n {
      var r := Read(pages, right);
      if value > r {
        s, value := right, r;
      }
    }
    assert IsChild(i, left) && IsChild(i, right);
  }

  /** `_pmm_defragment_min_heapify`. */
  method MinHeapify(pages0: seq<SlotPage>, index: nat, n: nat) returns (pages: seq<SlotPage>)
    requires Chain(pages0) && n <= Total(pages0) && Heap(Flat(pages0), index + 1, n)
    ensures Kept(pages0, pages) && Heap(Flat(pages), index, n) && Rearranged(Flat(pages0), Flat(pages), n)
  {
    pages := pages0;
    var i := index;
    while i < n
      invariant index <= i && Kept(pages0, pages)
      invariant HeapBut(Flat(pages), index, n, i) && Rearranged(Flat(pages0), Flat(pages), n)
      decreases n - i
    {
      var s := Smallest(pages, i, n);
      if s == i {
        break;
      }
      ghost var a := Flat(pages);
      Sink(a, index, n, i, s);
      RearrangedSwap(Flat(pages0), a, n, i, s);
      pages := SwapEntries(pages, i, s, pages0);
      i := s;
    }
    Settled(Flat(pages), index, n, i);
  }

  /** Read two entries and write them back in each other's place. */
  method SwapEntries(pages: seq<SlotPage>, i: nat, j: nat, ghost pages0: seq<SlotPage>) returns (pages': seq<SlotPage>)
    requires Kept(pages0, pages) && i < Total(pages) && j < Total(pages)
    ensures Kept(pages0, pages') && Flat(pages') == Swap(Flat(pages), i, j)
  {
    var x, y := Read(pages, i), Read(pages, j);
    WriteFlat(pages, j, x);
    var between := Write(pages, j, x);
    WriteFlat(between, i, y);
    pages' := Write(between, i, y);
    KeptTrans(pages0, pages, between);
    KeptTrans(pages0, between, pages');
    assert Flat(pages') == Flat(pages)[j := x][i := y];
    SwapBoth(Flat(pages), i, j);
  }

  lemma SwapBoth(a: seq<nat>, i: nat, j: nat)
    requires i < |a| && j < |a|
    ensures a[j := a[i]][i := a[j]] == Swap(a, i, j)
  {
  }

  /** The first loop: build a heap from the last inner node up. */
  method BuildHeap(pages0: seq<SlotPage>) returns (pages: seq<SlotPage>)
    requires Chain(pages0)
    ensures Kept(pages0, pages) && Heap(Flat(pages), 0, Total(pages0)) && Rearranged(Flat(pages0), Flat(pages), Total(pages0))
  {
    pages := pages0;
    var i := Total(pages0) / 2;
    while i > 0
      invariant 0 <= i && Kept(pages0, pages)
      invariant Heap(Flat(pages), i, Total(pages0)) && Rearranged(Flat(pages0), Flat(pages), Total(pages0))
    {
      i := i - 1;
      ghost var was := pages;
      pages := MinHeapify(pages, i, Total(pages));
      KeptTrans(pages0, was, pages);
      RearrangedTrans(Flat(pages0), Flat(was), Flat(pages), Total(pages), Total(pages));
    }
  }

  /** The last `|a| - n` entries are descending and no larger than any before them. */
  predicate Tail(a: seq<nat>, n: nat)
    requires n <= |a|
  {
    forall j, k :: 0 <= j < k < |a| && n <= k ==> a[j] >= a[k]
  }

  /** One extraction: the minimum goes behind the heap. */
  lemma Extract(a: seq<nat>, i: nat)
    requires 0 < i < |a| && Heap(a, 0, i + 1) && Tail(a, i + 1)
    ensures var b := Swap(a, 0, i); Heap(b, 1, i) && Tail(b, i) && Rearranged(a, b, i + 1)
  {
    var b := Swap(a, 0, i);
    RearrangedSwap(a, a, i + 1, 0, i);
    forall k: nat, c: nat | 1 <= k && c < i && IsChild(k, c) ensures b[k] <= b[c] {
    }
    forall j: nat, k: nat | j < k < |b| && i <= k ensures b[j] >= b[k] {
      ExtractTail(a, i, j, k);
    }
  }

  lemma ExtractTail(a: seq<nat>, i: nat, j: nat, k: nat)
    requires 0 < i < |a| && Heap(a, 0, i + 1) && Tail(a, i + 1) && j < k < |a| && i <= k
    ensures Swap(a, 0, i)[j] >= Swap(a, 0, i)[k]
  {
    if k == i {
      RootIsMin(a, i + 1, if j == 0 then i else j);
    } else {
      assert a[0] >= a[k] && a[j] >= a[k] && a[i] >= a[k];
    }
  }

  lemma TailKept(b: seq<nat>, c: seq<nat>, n: nat)
    requires n <= |b| && Tail(b, n) && Rearranged(b, c, n)
    ensures Tail(c, n)
  {
    forall j, k | 0 <= j < k < |c| && n <= k ensures c[j] >= c[k] {
      if j < n {
        RearrangedBound(b, c, n, b[k]);
      }
    }
  }

  /** The sort of `_pmm_defragment`: what the indices lead to descends afterwards. */
  method Sort(pages0: seq<SlotPage>) returns (pages: seq<SlotPage>)
    requires Chain(pages0)
    ensures SortedTo(pages0, pages)
  {
    pages := BuildHeap(pages0);
    var total := Total(pages0);
    ghost var a0 := Flat(pages0);
    assert a0[..total] == a0;
    if total == 0 {
      return;
    }
    var i: nat := total - 1;
    while i > 0
      invariant 0 <= i < total && Kept(pages0, pages)
      invariant Heap(Flat(pages), 0, i + 1) && Tail(Flat(pages), i + 1) && Rearranged(a0, Flat(pages), total)
    {
      pages := ExtractMin(pages, i, pages0);
      i := i - 1;
    }
    assert Flat(pages)[..total] == Flat(pages);
  }

  /** Swap the root behind the heap and restore the heap. */
  method ExtractMin(pages: seq<SlotPage>, i: nat, ghost pages0: seq<SlotPage>) returns (pages': seq<SlotPage>)
    requires Kept(pages0, pages) && 0 < i < Total(pages) && Heap(Flat(pages), 0, i + 1) && Tail(Flat(pages), i + 1)
    requires Rearranged(Flat(pages0), Flat(pages), Total(pages))
    ensures Kept(pages0, pages') && Heap(Flat(pages'), 0, i) && Tail(Flat(pages'), i) && Rearranged(Flat(pages0), Flat(pages'), Total(pages'))
  {
    ghost var a0, a := Flat(pages0), Flat(pages);
    Extract(a, i);
    var between := SwapEntries(pages, 0, i, pages0);
    ghost var b := Flat(between);
    RearrangedTrans(a0, a, b, i + 1, |a0|);
    pages' := MinHeapify(between, 0, i);
    KeptTrans(pages0, between, pages');
    TailKept(b, Flat(pages'), i);
    RearrangedTrans(a0, b, Flat(pages'), i, |a0|);
  }

  // ---------------------------------------------------------------- the order of the stack

  function Frames(pg: SlotPage): seq<nat> {
    if pg.count <= |pg.slots| then pg.slots[..pg.count] else []
  }

  function Reversed(fs: seq<nat>): seq<nat> {
    if fs == [] then [] else [fs[|fs| - 1]] + Reversed(fs[..|fs| - 1])
  }

  /** The frames of pages from the `k`-th on, in the order they would be popped. */
  function StackFrom(pages: seq<SlotPage>, k: nat): seq<nat>
    requires k <= |pages|
    decreases |pages| - k
  {
    if k == |pages| then [] else Reversed(Frames(pages[k])) + StackFrom(pages, k + 1)
  }

  /** The frames of a stack in the order they would be popped. */
  function Order(pages: seq<SlotPage>): seq<nat> {
    StackFrom(pages, 0)
  }

  lemma {:induction false} ReversedAt(fs: seq<nat>, i: nat)
    ensures |Reversed(fs)| == |fs| && (i < |fs| ==> Reversed(fs)[i] == fs[|fs| - 1 - i])
    decreases |fs|
  {
    if fs != [] {
      ReversedAt(fs[..|fs| - 1], if i == 0 then 0 else i - 1);
    }
  }

  lemma {:induction false} FullLength(pages: seq<SlotPage>, k: nat)
    requires 0 < k <= |pages| && Shape(pages)
    ensures |StackFrom(pages, k)| == PAGE_FRAMES * (|pages| - k)
    decreases |pages| - k
  {
    if k < |pages| {
      ReversedAt(Frames(pages[k]), 0);
      FullLength(pages, k + 1);
    }
  }

  /** Where a slot of page `p` comes, counted from page `k`. */
  lemma {:induction false} FullAt(pages: seq<SlotPage>, k: nat, p: nat, s: nat, d: nat)
    requires Shape(pages) && 0 < k <= p < |pages| && s < PAGE_FRAMES && d == PAGE_FRAMES * (p - k) + (PAGE_FRAMES - 1 - s)
    ensures d < |StackFrom(pages, k)| && StackFrom(pages, k)[d] == pages[p].slots[s]
    decreases p - k
  {
    ReversedAt(Frames(pages[k]), if p == k then d else 0);
    PageFull(pages, k);
    if p > k {
      FullAt(pages, k + 1, p, s, d - PAGE_FRAMES);
      Behind(Reversed(Frames(pages[k])), StackFrom(pages, k + 1), d);
    }
  }

  lemma PageFull(pages: seq<SlotPage>, k: nat)
    requires Shape(pages) && 0 < k < |pages|
    ensures Frames(pages[k]) == pages[k].slots && |pages[k].slots| == PAGE_FRAMES
  {
    assert Counts(pages)[k] == PAGE_FRAMES;
  }

  lemma Behind(front: seq<nat>, rest: seq<nat>, d: nat)
    requires |front| <= d < |front| + |rest|
    ensures (front + rest)[d] == rest[d - |front|]
  {
  }

  /** Where the pages below the top are full, index order is stack order. */
  lemma FlatIsStackOrder(pages: seq<SlotPage>)
    requires Shape(pages)
    ensures Flat(pages) == Order(pages)
  {
    var a, b, cs := Flat(pages), Order(pages), Counts(pages);
    ReversedAt(Frames(pages[0]), 0);
    FullLength(pages, 1);
    SumBound(cs);
    forall i | 0 <= i < |a| ensures a[i] == b[i] {
      IndexInside(cs, i);
      StackAt(pages, PageOf(cs[0], i), SlotOf(cs[0], i), i);
    }
  }

  /** What the first `n` indices lead to. */
  function ViewTo(pages: seq<SlotPage>, n: nat): (a: seq<nat>)
    requires Chain(pages) && n <= Total(pages)
    ensures |a| == n
  {
    if n == 0 then [] else ViewTo(pages, n - 1) + [Read(pages, n - 1)]
  }

  /** The same sequence as `Flat`, entry by entry. */
  function View(pages: seq<SlotPage>): seq<nat>
    requires Chain(pages)
  {
    ViewTo(pages, Total(pages))
  }

  lemma {:induction false} ViewToIs(pages: seq<SlotPage>, n: nat)
    requires Chain(pages) && n <= Total(pages)
    ensures ViewTo(pages, n) == Flat(pages)[..n]
    decreases n
  {
    if n > 0 {
      ViewToIs(pages, n - 1);
    }
  }

  lemma ViewIsFlat(pages: seq<SlotPage>)
    requires Chain(pages)
    ensures View(pages) == Flat(pages) && |View(pages)| == Total(pages)
  {
    ViewToIs(pages, Total(pages));
    assert Flat(pages)[..Total(pages)] == Flat(pages);
  }

  lemma ViewIsOrder(pages: seq<SlotPage>)
    requires Shape(pages)
    ensures View(pages) == Order(pages)
  {
    ViewIsFlat(pages);
    FlatIsStackOrder(pages);
  }

  /** Where a slot comes in stack order. */
  lemma StackAt(pages: seq<SlotPage>, p: nat, s: nat, i: nat)
    requires Shape(pages) && p < |pages| && s < PAGE_FRAMES && i == IndexOf(pages[0].count, p, s)
    ensures i < |StackFrom(pages, 0)| && StackFrom(pages, 0)[i] == pages[p].slots[s]
  {
    ReversedAt(Frames(pages[0]), i);
    if p > 0 {
      FullAt(pages, 1, p, s, i - pages[0].count);
    }
  }

  /** On the top page, stack order is index order in every chain. */
  lemma TopAt(pages: seq<SlotPage>, i: nat)
    requires Chain(pages) && i < pages[0].count
    ensures i < Total(pages) && i < |Order(pages)| && Order(pages)[i] == Flat(pages)[i] == pages[0].slots[pages[0].count - 1 - i]
  {
    SumTop(Counts(pages));
    ReversedAt(Frames(pages[0]), i);
  }

  // ---------------------------------------------------------------- when it sorts

  /** The slots the indices lead to are rearranged so that they descend; the others stay. */
  ghost predicate SortedTo(pages0: seq<SlotPage>, pages: seq<SlotPage>) {
    Kept(pages0, pages) && multiset(Flat(pages)) == multiset(Flat(pages0)) && Descending(Flat(pages))
  }

  /** A stack with fewer than two frames on its top page is passed over. */
  ghost predicate SortOutcome(pages0: seq<SlotPage>, pages: seq<SlotPage>) {
    pages0 != [] && if pages0[0].count >= 2 then SortedTo(pages0, pages) else pages == pages0
  }

  /** The stack is a descending permutation of what it was. */
  ghost predicate WellSorted(pages0: seq<SlotPage>, pages: seq<SlotPage>) {
    multiset(Order(pages)) == multiset(Order(pages0)) && Descending(Order(pages))
  }

  /** One stack in `_pmm_defragment`. */
  method SortStack(pages0: seq<SlotPage>) returns (pages: seq<SlotPage>)
    requires Chain(pages0)
    ensures SortOutcome(pages0, pages)
    ensures Shape(pages0) ==> multiset(Order(pages)) == multiset(Order(pages0)) && (Descending(Order(pages)) <==> pages0[0].count >= 2 || Descending(Order(pages0)))
  {
    pages := pages0;
    if pages0[0].count >= 2 {
      pages := Sort(pages0);
      if Shape(pages0) {
        SortedWell(pages0, pages);
      }
    }
  }

  lemma SortedWell(pages0: seq<SlotPage>, pages: seq<SlotPage>)
    requires Shape(pages0) && SortedTo(pages0, pages)
    ensures WellSorted(pages0, pages)
  {
    FlatIsStackOrder(pages0);
    FlatIsStackOrder(pages);
  }

  // ---------------------------------------------------------------- a grid of frames

  /** All slots hold frames of this size and zone, no two the same. */
  ghost predicate Filled(size: nat, zone: nat, pages: seq<SlotPage>, cs: seq<nat>) {
    && Chain(pages) && Counts(pages) == cs
    && (forall p: nat, s: nat :: p < |pages| && s < PAGE_FRAMES ==> InZone(size, zone, pages[p].slots[s]))
    && (forall p: nat, s: nat, q: nat, t: nat :: p < |pages| && s < PAGE_FRAMES && q < |pages| && t < PAGE_FRAMES && pages[p].slots[s] == pages[q].slots[t] ==> p == q && s == t)
  }

  predicate InZone(size: nat, zone: nat, a: nat) {
    FrameOk(size, a) && GetZone(size, a) <= zone
  }

  /** Address `k` frames of this size. */
  function Nth(size: nat, k: nat): nat {
    if size == 0 then 0x1000 * k else if size == 1 then 0x20_0000 * k else 0x4000_0000 * k
  }

  lemma NthOrder(size: nat, j: nat, k: nat)
    requires j <= k
    ensures Nth(size, j) <= Nth(size, k)
  {
  }

  lemma NthInZone(size: nat, zone: nat, k: nat)
    requires 0 < k && Nth(size, k + 1) <= ZoneEnd(zone) + 1
    ensures InZone(size, zone, Nth(size, k))
  {
    if size == 0 {
      Multiple4K(k);
    } else if size == 1 {
      Multiple2M(k);
    } else {
    }
  }

  /** A frame for each slot: they fall in index order, or rise if `up` is set. */
  function GridFrame(size: nat, n: nat, up: bool, p: nat, s: nat): nat
    requires p < n && s < PAGE_FRAMES
  {
    Nth(size, 1 + if up then PAGE_FRAMES * p + (PAGE_FRAMES - 1 - s) else PAGE_FRAMES * (n - 1 - p) + s)
  }

  function Grid(size: nat, cs: seq<nat>, up: bool): (pages: seq<SlotPage>)
    ensures |pages| == |cs| && forall p :: 0 <= p < |cs| ==> pages[p].count == cs[p] && |pages[p].slots| == PAGE_FRAMES
    ensures forall p: nat, s: nat :: p < |cs| && s < PAGE_FRAMES ==> pages[p].slots[s] == GridFrame(size, |cs|, up, p, s)
  {
    seq(|cs|, p requires 0 <= p < |cs| => SlotPage(seq(PAGE_FRAMES, s requires 0 <= s < PAGE_FRAMES => GridFrame(size, |cs|, up, p, s)), cs[p]))
  }

  /** The zone has a frame of this size for every slot of `n` pages. */
  predicate GridFits(size: nat, zone: nat, n: nat) {
    n > 0 && Nth(size, 1 + PAGE_FRAMES * n) <= ZoneEnd(zone) + 1
  }

  lemma GridFrameOk(size: nat, zone: nat, n: nat, up: bool, p: nat, s: nat)
    requires GridFits(size, zone, n) && p < n && s < PAGE_FRAMES
    ensures InZone(size, zone, GridFrame(size, n, up, p, s))
  {
    var k: nat := 1 + if up then PAGE_FRAMES * p + (PAGE_FRAMES - 1 - s) else PAGE_FRAMES * (n - 1 - p) + s;
    assert PAGE_FRAMES * p + PAGE_FRAMES <= PAGE_FRAMES * n;
    NthInZone(size, zone, k);
  }

  lemma GridFrameOnce(size: nat, n: nat, up: bool, p: nat, s: nat, q: nat, t: nat)
    requires p < n && q < n && s < PAGE_FRAMES && t < PAGE_FRAMES && GridFrame(size, n, up, p, s) == GridFrame(size, n, up, q, t)
    ensures p == q && s == t
  {
    if up {
      PageParts(p, PAGE_FRAMES - 1 - s);
      PageParts(q, PAGE_FRAMES - 1 - t);
    } else {
      PageParts(n - 1 - p, s);
      PageParts(n - 1 - q, t);
    }
  }

  lemma GridFilled(size: nat, zone: nat, cs: seq<nat>, up: bool)
    requires CountsOk(cs) && GridFits(size, zone, |cs|)
    ensures Filled(size, zone, Grid(size, cs, up), cs)
  {
    var pages := Grid(size, cs, up);
    assert Counts(pages) == cs;
    forall p: nat, s: nat | p < |pages| && s < PAGE_FRAMES ensures InZone(size, zone, pages[p].slots[s]) {
      GridFrameOk(size, zone, |cs|, up, p, s);
    }
    forall p: nat, s: nat, q: nat, t: nat | p < |pages| && s < PAGE_FRAMES && q < |pages| && t < PAGE_FRAMES && pages[p].slots[s] == pages[q].slots[t] ensures p == q && s == t {
      GridFrameOnce(size, |cs|, up, p, s, q, t);
    }
  }

  /** The falling grid falls in index order, whatever the counts. */
  lemma GridAt(size: nat, cs: seq<nat>, i: nat)
    requires CountsOk(cs) && i < Sum(cs) && Chain(Grid(size, cs, false)) && Counts(Grid(size, cs, false)) == cs
    ensures i < PAGE_FRAMES * (|cs| - 1) + cs[0] && Flat(Grid(size, cs, false))[i] == Nth(size, PAGE_FRAMES * (|cs| - 1) + cs[0] - i)
  {
    var g, p, k := Grid(size, cs, false), PageOf(cs[0], i), SlotOf(cs[0], i);
    SumBound(cs);
    IndexInside(cs, i);
    assert PAGE_FRAMES * (|cs| - 1 - p) + k + 1 == PAGE_FRAMES * (|cs| - 1) + cs[0] - i by {
      PlaceIsIndex(|cs|, cs[0], i);
    }
    assert Flat(g)[i] == g[p].slots[k] == GridFrame(size, |cs|, false, p, k);
  }

  lemma PlaceIsIndex(n: nat, c: nat, i: nat)
    requires c <= PAGE_FRAMES
    ensures PAGE_FRAMES * (n - 1 - PageOf(c, i)) + SlotOf(c, i) + 1 == PAGE_FRAMES * (n - 1) + c - i
  {
  }

  lemma GridFalls(size: nat, cs: seq<nat>)
    requires CountsOk(cs) && Chain(Grid(size, cs, false)) && Counts(Grid(size, cs, false)) == cs
    ensures Descending(Flat(Grid(size, cs, false)))
  {
    var a := Flat(Grid(size, cs, false));
    forall j, k | 0 <= j < k < |a| ensures a[j] >= a[k] {
      GridAt(size, cs, j);
      GridAt(size, cs, k);
    }
  }

  // ---------------------------------------------------------------- what a partly filled page does

  lemma {:induction false} StackMember(pages: seq<SlotPage>, k: nat, v: nat) returns (p: nat, s: nat)
    requires Chain(pages) && k <= |pages| && v in StackFrom(pages, k)
    ensures p < |pages| && s < pages[p].count && pages[p].slots[s] == v
    decreases |pages| - k
  {
    if v in Reversed(Frames(pages[k])) {
      p := k;
      s := FrontMember(Frames(pages[k]), v);
    } else {
      p, s := StackMember(pages, k + 1, v);
    }
  }

  lemma FrontMember(fs: seq<nat>, v: nat) returns (s: nat)
    requires v in Reversed(fs)
    ensures s < |fs| && fs[s] == v
  {
    var i :| 0 <= i < |Reversed(fs)| && Reversed(fs)[i] == v;
    ReversedAt(fs, i);
    s := |fs| - 1 - i;
  }

  /** The falling grid with its first entry and the entry at `i` in each other's place. */
  lemma SwappedGrid(size: nat, zone: nat, cs: seq<nat>, i: nat) returns (pages: seq<SlotPage>)
    requires CountsOk(cs) && GridFits(size, zone, |cs|) && 0 < i < Sum(cs)
    ensures Filled(size, zone, pages, cs) && SortedTo(pages, Grid(size, cs, false))
    ensures var p, s := PageOf(cs[0], i), SlotOf(cs[0], i); p < |cs| && 0 <= s < PAGE_FRAMES && pages[p].slots[s] == Flat(Grid(size, cs, false))[0]
  {
    var g := Grid(size, cs, false);
    GridFilled(size, zone, cs, false);
    GridFalls(size, cs);
    var x, y := Read(g, 0), Read(g, i);
    WriteFlat(g, 0, y);
    var between := Write(g, 0, y);
    WriteFlat(between, i, x);
    pages := Write(between, i, x);
    KeptTrans(g, between, pages);
    KeptBack(g, pages);
    assert Flat(pages) == Swap(Flat(g), 0, i);
    SwapMultiset(Flat(g), 0, i);
    IndexInside(cs, 0);
    IndexInside(cs, i);
    forall p: nat, s: nat | p < |pages| && s < PAGE_FRAMES ensures SlotFrom(g, pages, cs, i, p, s) {
      SwappedSlot(g, between, pages, cs, i, p, s);
    }
    SwappedFilled(size, zone, g, pages, cs, i);
  }

  lemma KeptBack(a: seq<SlotPage>, b: seq<SlotPage>)
    requires Kept(a, b)
    ensures Kept(b, a)
  {
    forall p: nat, s: nat | p < |a| && s < PAGE_FRAMES && !Seen(Counts(b), p, s) ensures a[p].slots[s] == b[p].slots[s] {
      assert !Seen(Counts(a), p, s);
    }
  }

  /** Where the entry of a slot of the swapped pages comes from. */
  function From(cs: seq<nat>, i: nat, p: nat, s: nat): (nat, int)
    requires CountsOk(cs)
  {
    if p == PageOf(cs[0], 0) && s == SlotOf(cs[0], 0) then (PageOf(cs[0], i), SlotOf(cs[0], i))
    else if p == PageOf(cs[0], i) && s == SlotOf(cs[0], i) then (PageOf(cs[0], 0), SlotOf(cs[0], 0))
    else (p, s)
  }

  lemma SwappedFilled(size: nat, zone: nat, g: seq<SlotPage>, pages: seq<SlotPage>, cs: seq<nat>, i: nat)
    requires CountsOk(cs) && Filled(size, zone, g, cs) && 0 < i < Sum(cs) && Counts(pages) == cs && Chain(pages)
    requires forall p: nat, s: nat {:trigger SlotFrom(g, pages, cs, i, p, s)} :: p < |pages| && s < PAGE_FRAMES ==> SlotFrom(g, pages, cs, i, p, s)
    ensures Filled(size, zone, pages, cs)
  {
    IndexInside(cs, 0);
    IndexInside(cs, i);
    forall p: nat, s: nat | p < |pages| && s < PAGE_FRAMES ensures InZone(size, zone, pages[p].slots[s]) {
      assert SlotFrom(g, pages, cs, i, p, s);
    }
    forall p: nat, s: nat, q: nat, t: nat | p < |pages| && s < PAGE_FRAMES && q < |pages| && t < PAGE_FRAMES && pages[p].slots[s] == pages[q].slots[t] ensures p == q && s == t {
      assert SlotFrom(g, pages, cs, i, p, s) && SlotFrom(g, pages, cs, i, q, t);
      FromOnce(cs, i, p, s, q, t);
    }
  }

  lemma FromOnce(cs: seq<nat>, i: nat, p: nat, s: nat, q: nat, t: nat)
    requires CountsOk(cs) && 0 < i < Sum(cs) && From(cs, i, p, s) == From(cs, i, q, t)
    ensures p == q && s == t
  {
    IndexInside(cs, 0);
    IndexInside(cs, i);
  }

  /** What two writes leave in a slot. */
  lemma SwappedSlot(g: seq<SlotPage>, between: seq<SlotPage>, pages: seq<SlotPage>, cs: seq<nat>, i: nat, p: nat, s: nat)
    requires CountsOk(cs) && Chain(g) && Chain(between) && Counts(g) == cs && Counts(between) == cs && 0 < i < Sum(cs)
    requires between == Write(g, 0, Read(g, i)) && pages == Write(between, i, Read(g, 0)) && p < |g| && s < PAGE_FRAMES
    ensures SlotFrom(g, pages, cs, i, p, s)
  {
    IndexInside(cs, 0);
    IndexInside(cs, i);
  }

  predicate SlotFrom(g: seq<SlotPage>, pages: seq<SlotPage>, cs: seq<nat>, i: nat, p: nat, s: nat)
    requires CountsOk(cs)
  {
    var (q, t) := From(cs, i, p, s);
    p < |pages| && s < |pages[p].slots| && q < |g| && 0 <= t < |g[q].slots| && pages[p].slots[s] == g[q].slots[t]
  }

  /** With two frames on top and a partly filled page below, frames can be lost and a stale slot becomes one. */
  lemma PartialFails(size: nat, zone: nat, cs: seq<nat>) returns (pages: seq<SlotPage>, pages': seq<SlotPage>)
    requires CountsOk(cs) && GridFits(size, zone, |cs|) && cs[0] >= 2 && !FullCounts(cs) && forall k :: 0 < k < |cs| ==> cs[k] > 0
    ensures Filled(size, zone, pages, cs) && SortOutcome(pages, pages') && !WellSorted(pages, pages')
  {
    var j := FirstPartial(cs);
    SumFrom(cs, j);
    var i := IndexOf(cs[0], j, PAGE_FRAMES - 1);
    IndexOnto(cs, j, PAGE_FRAMES - 1);
    pages := SwappedGrid(size, zone, cs, i);
    pages' := Grid(size, cs, false);
    TopAt(pages', 0);
    var big := Flat(pages')[0];
    assert pages[j].slots[PAGE_FRAMES - 1] == big;
    if big in Order(pages) {
      var p, s := StackMember(pages, 0, big);
    }
    assert big in multiset(Order(pages')) && big !in multiset(Order(pages));
  }

  // ---------------------------------------------------------------- what a short top page does

  lemma {:induction false} StackLength(pages: seq<SlotPage>, k: nat)
    requires Chain(pages) && k <= |pages|
    ensures |StackFrom(pages, k)| + Sum(Counts(pages)[..k]) == Total(pages)
    decreases |pages| - k
  {
    var cs := Counts(pages);
    if k < |pages| {
      ReversedAt(Frames(pages[k]), 0);
      StackLength(pages, k + 1);
      assert cs[..k + 1][..k] == cs[..k];
    } else {
      assert cs[..k] == cs;
    }
  }

  /** The entries from `lo` on rise. */
  ghost predicate Rises(a: seq<nat>, lo: nat) {
    (forall i :: 0 <= i < |a| ==> a[i] >= lo) && forall i, j :: 0 <= i < j < |a| ==> a[i] < a[j]
  }

  /** The rising grid rises in stack order. */
  lemma {:induction false} GridRises(size: nat, pages: seq<SlotPage>, cs: seq<nat>, k: nat)
    requires CountsOk(cs) && k <= |cs| && pages == Grid(size, cs, true)
    ensures Rises(StackFrom(pages, k), Nth(size, 1 + PAGE_FRAMES * k))
    decreases |cs| - k
  {
    if k < |cs| {
      GridRises(size, pages, cs, k + 1);
      FrontRises(size, pages, cs, k);
      NthOrder(size, 1 + PAGE_FRAMES * k, 1 + PAGE_FRAMES * (k + 1));
      RisingJoin(Reversed(Frames(pages[k])), StackFrom(pages, k + 1), Nth(size, 1 + PAGE_FRAMES * k), Nth(size, 1 + PAGE_FRAMES * (k + 1)));
    }
  }

  lemma FrontRises(size: nat, pages: seq<SlotPage>, cs: seq<nat>, k: nat)
    requires CountsOk(cs) && k < |cs| && pages == Grid(size, cs, true)
    ensures var front := Reversed(Frames(pages[k]));
            Rises(front, Nth(size, 1 + PAGE_FRAMES * k)) && forall i :: 0 <= i < |front| ==> front[i] < Nth(size, 1 + PAGE_FRAMES * (k + 1))
  {
    var front := Reversed(Frames(pages[k]));
    ReversedAt(Frames(pages[k]), 0);
    forall i | 0 <= i < |front| ensures front[i] == Nth(size, 1 + PAGE_FRAMES * k + (PAGE_FRAMES - cs[k] + i)) {
      ReversedAt(Frames(pages[k]), i);
    }
  }

  lemma RisingJoin(a: seq<nat>, b: seq<nat>, lo: nat, mid: nat)
    requires lo <= mid && Rises(a, lo) && Rises(b, mid) && forall i :: 0 <= i < |a| ==> a[i] < mid
    ensures Rises(a + b, lo)
  {
  }

  lemma ShortFails(size: nat, zone: nat, cs: seq<nat>) returns (pages: seq<SlotPage>)
    requires CountsOk(cs) && GridFits(size, zone, |cs|) && cs[0] < 2 && Sum(cs) > 1
    ensures Filled(size, zone, pages, cs) && SortOutcome(pages, pages) && !WellSorted(pages, pages)
  {
    pages := Grid(size, cs, true);
    GridFilled(size, zone, cs, true);
    GridRises(size, pages, cs, 0);
    StackLength(pages, 0);
    assert Counts(pages)[..0] == [];
    assert Order(pages)[0] < Order(pages)[1];
  }

  /** The sort is certain to leave a descending permutation, whatever the frames, if and only if two frames lie on top and all pages below are full, or there is nothing to sort. */
  lemma SortGuaranteed(size: nat, zone: nat, cs: seq<nat>)
    requires CountsOk(cs) && (|cs| == 1 || GridFits(size, zone, |cs|)) && forall k :: 0 < k < |cs| ==> cs[k] > 0
    ensures (forall pages, pages' :: Filled(size, zone, pages, cs) && SortOutcome(pages, pages') ==> WellSorted(pages, pages')) <==> (cs[0] >= 2 && FullCounts(cs)) || Sum(cs) <= 1
  {
    if cs[0] >= 2 && FullCounts(cs) {
      forall pages, pages' | Filled(size, zone, pages, cs) && SortOutcome(pages, pages') ensures WellSorted(pages, pages') {
        SortedWell(pages, pages');
      }
    } else if cs[0] >= 2 {
      SumTop(cs);
      var pages, pages' := PartialFails(size, zone, cs);
    } else if Sum(cs) > 1 {
      assert |cs| > 1 by { if |cs| == 1 { SumOne(cs); } }
      var pages := ShortFails(size, zone, cs);
    } else {
      forall pages, pages' | Filled(size, zone, pages, cs) && SortOutcome(pages, pages') ensures WellSorted(pages, pages') {
        StackLength(pages, 0);
        assert Counts(pages)[..0] == [];
      }
    }
  }

  lemma SumOne(cs: seq<nat>)
    requires |cs| == 1
    ensures Sum(cs) == cs[0]
  {
    assert cs[..0] == [];
  }

  /** One frame on the top page, below those of a full page: passed over, and not sorted. */
  lemma SortSkipped(size: nat, zone: nat)
    requires GridFits(size, zone, 2)
    ensures var pages := Grid(size, [1, PAGE_FRAMES], true); Shape(pages) && Filled(size, zone, pages, [1, PAGE_FRAMES]) && SortOutcome(pages, pages) && !Descending(Order(pages))
  {
    var cs := [1, PAGE_FRAMES];
    var pages := Grid(size, cs, true);
    GridFilled(size, zone, cs, true);
    GridRises(size, pages, cs, 0);
    TopAt(pages, 0);
    StackLength(pages, 0);
    assert cs[..1] == [1] && [1][..0] == [] && Counts(pages)[..0] == [];
    assert Order(pages)[0] < Order(pages)[1];
  }
}
