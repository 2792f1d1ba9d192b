/**
 The tree bins of `malloc_state`: chunk memory, bin roots and bin map, updated in
 place by pointer writes. Every operation is specified on the set of stored chunks.
 */
module LargeBins {
  import opened Common
  import opened Bits
  import opened BinIndex
  import opened Trie
  import opened TrieMemory
  import opened TrieSurgery
  import opened TreeBins
  import opened BestFit

  class LargeBins {
    var mem: Mem
    var treebins: seq<nat>
    var treemap: seq<bool>
    ghost var trees: seq<Tree>

    ghost predicate Valid()
      reads this
    {
      BinsOk(mem, treebins, treemap, trees)
    }

    /** The stored chunks, as (address, size) pairs. */
    ghost function Content(): set<(nat, nat)>
      reads this
    {
      Stored(trees)
    }

    constructor ()
      ensures Valid() && Content() == {}
    {
      mem := map[];
      treebins := seq(NTREEBINS, i => 0);
      treemap := seq(NTREEBINS, i => false);
      trees := seq(NTREEBINS, i => Nil);
    }

    /** `insert_large_chunk`. */
    method Insert(x: nat, s: nat)
      requires Valid() && x != 0 && Indexable(s)
      requires forall c :: c in Content() ==> c.0 != x
      modifies this
      ensures Valid()
      ensures Content() == old(Content()) + {(x, s)}
    {
      IndexableInBin(s);
      NotInTrees(mem, treebins, treemap, trees, x);
      if treemap[TreeIndex(s)] {
        InsertFurther(x, s, TreeIndex(s));
      } else {
        InsertFirst(x, s, TreeIndex(s));
      }
    }

    /** The bin is empty: the chunk is its root. */
    method InsertFirst(x: nat, s: nat, i: nat)
      requires Valid() && x != 0 && i < NTREEBINS && InBin(s, i) && s < WORD && !treemap[i]
      requires forall j :: 0 <= j < NTREEBINS ==> x !in Addrs(trees[j])
      modifies this
      ensures Valid() && Content() == old(Content()) + {(x, s)}
    {
      var m := mem[x := TChunk(s, x, x, 0, 0, Bin(i), i)];
      FirstOfBin(mem, m, treebins, treemap, trees, i, s, x);
      mem, treebins, treemap := m, treebins[i := x], treemap[i := true];
      trees := trees[i := Node(s, [x], Nil, Nil)];
    }

    /** The bin has a root: the chunk goes where the bits of its size lead. */
    method InsertFurther(x: nat, s: nat, i: nat)
      requires Valid() && x != 0 && i < NTREEBINS && InBin(s, i) && s < WORD && treemap[i]
      requires forall j :: 0 <= j < NTREEBINS ==> x !in Addrs(trees[j])
      modifies this
      ensures Valid() && Content() == old(Content()) + {(x, s)}
    {
      var m := mem[x := TChunk(s, x, x, 0, 0, Bin(i), i)];
      MoreInBin(mem, m, treebins, treemap, trees, i, s, x);
      var w := FindPlace(m, treebins[i], s, LeftShift(i), OpenBits(i));
      mem := LinkIn(m, w, x);
      trees := trees[i := WithChunk(trees[i], i, s, x)];
    }

    /** `unlink_large_chunk`. */
    method Unlink(x: nat)
      requires Valid() && x in mem && (x, mem[x].size) in Content()
      modifies this
      ensures Valid()
      ensures Content() == old(Content()) - {(x, old(mem[x].size))}
    {
      ghost var trees';
      mem, treebins, treemap, trees' := UnlinkIn(mem, treebins, treemap, x, trees);
      trees := trees';
    }

    /** The chunk `tmalloc_large` settles on, and its surplus over the request. */
    method BestFor(nb: nat) returns (best: Best)
      requires Valid() && MIN_LARGE <= nb < WORD
      requires Indexable(nb) || forall c :: c in Content() ==> c.1 < nb
      ensures IsBestFit(best, nb, trees)
    {
      best := FindLarge(mem, treebins, treemap, nb, trees);
    }

    /** The chunk `tmalloc_small` settles on. */
    method SmallestFor(nb: nat) returns (best: Best)
      requires Valid() && 0 < nb < MIN_LARGE && true in treemap
      ensures IsBestFit(best, nb, trees) && best.v != 0
    {
      best := FindSmall(mem, treebins, treemap, nb, trees);
    }
  }

  /** `unlink_large_chunk` on the fields it reads and writes. */
  method UnlinkIn(m: Mem, roots: seq<nat>, marks: seq<bool>, x: nat, ghost trees: seq<Tree>)
    returns (m': Mem, roots': seq<nat>, marks': seq<bool>, ghost trees': seq<Tree>)
    requires BinsOk(m, roots, marks, trees) && x in m && (x, m[x].size) in Stored(trees)
    ensures BinsOk(m', roots', marks', trees')
    ensures Stored(trees') == Stored(trees) - {(x, m[x].size)}
  {
    ghost var i, path, k := Locate(m, roots, marks, trees, x);
    ghost var t := trees[i];
    var m1, r := Detach(m, x, Sub(t, path), Holder(t, path, Hold(Bin(i), false)).up, k, i);
    var idx := m[x].index;
    var root := roots[idx];
    if m[x].parent == Chained {
      m' := m1;
      ChainedIsTail(t, path, i, k);
      UnlinkTail(m, roots[i], t, i, path, k);
    } else {
      m', root := Rehang(m, m1, x, r, m[x].parent, root, t, path, i);
    }
    ShrunkBin(m, m', roots, marks, trees, x, i, path, k, root);
    roots', marks', trees' := roots[idx := root], marks[idx := root != 0], trees[i := WithoutChunk(t, path, k)];
  }

  /** The oldest chunk of a size has a parent. */
  lemma ChainedIsTail(t: Tree, path: Path, i: nat, k: nat)
    requires Apart(t) && Leads(t, path)
    ensures Holder(t, path, Hold(Bin(i), false)).up != Chained
  {
    HolderInside(t, path, Hold(Bin(i), false));
  }

  /** The first half of `unlink_large_chunk`: leave the ring, or find and cut a replacement. */
  method Detach(m: Mem, x: nat, ghost place: Tree, ghost up: Up, ghost k: nat, ghost i: nat) returns (m1: Mem, r: nat)
    requires place.Node? && Apart(place) && k < |place.chain| && place.chain[k] == x && Linked(m, place.chain[0], place, up, i)
    ensures x in m && m[x].fd in m && m[x].bk in m
    ensures k > 0 ==> m1 == SpliceOut(m, x) && m[x].parent == Chained
    ensures k == 0 ==> m[x].parent == up
    ensures k == 0 && r != 0 ==> Detached(m, m1, place, Removed(place, 0), x, i) && r == Removed(place, 0).chain[0]
    ensures k == 0 && r == 0 ==> m1 == m && Removed(place, 0).Nil?
  {
    RingMember(m, place.chain, place.size, i, x);
    RingMember(m, place.chain, place.size, i, m[x].fd);
    RingMember(m, place.chain, place.size, i, m[x].bk);
    RingAlone(m, place, i, k);
    if m[x].bk != x {
      r := m[x].bk;
      m1 := SpliceOut(m, x);
      if k == 0 {
        DetachRing(m, place, up, i);
      }
    } else {
      m1, r := CutReplacement(m, x, place, up, i);
    }
  }

  /** The second half: hang the replacement, if any, where the oldest chunk was. */
  method Rehang(m: Mem, m1: Mem, x: nat, r: nat, xp: Up, root0: nat, ghost t: Tree, ghost path: Path, ghost i: nat)
    returns (m': Mem, root: nat)
    requires Apart(t) && Linked(m, root0, t, Bin(i), i) && Leads(t, path)
    requires Sub(t, path).Node? && |Sub(t, path).chain| > 0 && Sub(t, path).chain[0] == x && xp == Holder(t, path, Hold(Bin(i), false)).up
    requires r != 0 ==> Detached(m, m1, Sub(t, path), Removed(Sub(t, path), 0), x, i) && r == Removed(Sub(t, path), 0).chain[0]
    requires r == 0 ==> m1 == m && Removed(Sub(t, path), 0).Nil?
    ensures Linked(m', root, Graft(t, path, Removed(Sub(t, path), 0)), Bin(i), i)
    ensures forall c :: c in m && c !in Addrs(t) ==> c in m' && m'[c] == m[c]
  {
    ghost var place, h := Sub(t, path), Holder(t, path, Hold(Bin(i), false));
    ghost var u := Removed(place, 0);
    PlaceInMemory(m, root0, t, i, path);
    SubInside(t, path);
    HolderInside(t, path, Hold(Bin(i), false));
    if r != 0 {
      TakeOverReady(m, m1, root0, t, i, path, u, x);
      Reattach(m, m1, root0, t, i, path, u, x);
    } else {
      Ungraft(m, root0, t, i, path, Hold(Bin(i), false));
    }
    m', root := m1, root0;
    if x == root0 {
      root := r;
    } else {
      var right := m'[xp.addr].left != x;
      m' := m'[xp.addr := Redirect(m'[xp.addr], right, r)];
    }
    assert m' == Point(m1, h, r);
    if r != 0 {
      m' := TakeOver(m', x, r, xp);
    }
  }

  /** With no bit set in the bin map nothing is stored. */
  lemma NothingMarked(m: Mem, roots: seq<nat>, marks: seq<bool>, trees: seq<Tree>)
    requires BinsOk(m, roots, marks, trees) && true !in marks
    ensures Stored(trees) == {}
  {
    forall c | c in Stored(trees) ensures false {
      var j := StoredInBin(m, roots, marks, trees, c);
    }
  }

  /** A stored pair names the size in the chunk's own header. */
  lemma StoredHeader(m: Mem, roots: seq<nat>, marks: seq<bool>, trees: seq<Tree>, c: (nat, nat))
    requires BinsOk(m, roots, marks, trees) && c in Stored(trees)
    ensures c.0 in m && m[c.0].size == c.1
  {
    StoredWhere(m, roots, marks, trees, c);
  }

  // ---------------------------------------------------------------- lemmas for removal

  /** Where a stored chunk sits: the place of its size and its number in the ring there. */
  predicate Located(m: Mem, roots: seq<nat>, trees: seq<Tree>, x: nat, i: nat, path: Path, k: nat) {
    && x in m && i == m[x].index && i < NTREEBINS && i < |roots| && i < |trees|
    && BinOk(m, roots[i], true, trees[i], i) && Apart(trees[i])
    && path == PathTo(trees[i], OpenBits(i), BinLow(i), m[x].size)
    && BinLow(i) <= m[x].size < BinLow(i) + Pow2(OpenBits(i))
    && var place := Sub(trees[i], path);
       place.Node? && k < |place.chain| && place.chain[k] == x && Distinct(place.chain) && Apart(place)
       && Linked(m, place.chain[0], place, Holder(trees[i], path, Hold(Bin(i), false)).up, i)
  }

  lemma Locate(m: Mem, roots: seq<nat>, marks: seq<bool>, trees: seq<Tree>, x: nat) returns (i: nat, path: Path, k: nat)
    requires BinsOk(m, roots, marks, trees) && x in m && (x, m[x].size) in Stored(trees)
    ensures Located(m, roots, trees, x, i, path, k)
    ensures forall j :: 0 <= j < NTREEBINS && j != i ==> x !in Addrs(trees[j])
  {
    var s := m[x].size;
    StoredWhere(m, roots, marks, trees, (x, s));
    i := m[x].index;
    assert BinOk(m, roots[i], marks[i], trees[i], i);
    path := PathTo(trees[i], OpenBits(i), BinLow(i), s);
    k := LocateInTree(m, roots[i], trees[i], i, OpenBits(i), BinLow(i), x, s);
    PlaceInMemory(m, roots[i], trees[i], i, path);
  }

  lemma LocateInTree(m: Mem, root: nat, t: Tree, i: nat, b: nat, lo: nat, x: nat, s: nat) returns (k: nat)
    requires Linked(m, root, t, Bin(i), i) && IsTrie(t, b, lo) && (x, s) in Chunks(t)
    ensures t.Node? && Apart(t) && lo <= s < lo + Pow2(b)
    ensures var place := Sub(t, PathTo(t, b, lo, s)); place.Node? && k < |place.chain| && place.chain[k] == x && Distinct(place.chain)
  {
    ChunkSize(t, (x, s));
    SizesInRange(t, b, lo, s);
    TrieOneNodePerSize(t, b, lo);
    TrieApart(m, root, t, Bin(i), i);
    ChunkAtPlace(t, b, lo, x, s);
    var path := PathTo(t, b, lo, s);
    PlaceInMemory(m, root, t, i, path);
    var place := Sub(t, path);
    k :| 0 <= k < |place.chain| && place.chain[k] == x;
  }

  ghost function WithoutChunk(t: Tree, path: Path, k: nat): Tree
    requires Leads(t, path) && Sub(t, path).Node? && k < |Sub(t, path).chain|
  {
    Graft(t, path, Removed(Sub(t, path), k))
  }

  /** The bins after the memory of bin `i` spells out its tree without the chunk. */
  lemma ShrunkBin(m: Mem, m': Mem, roots: seq<nat>, marks: seq<bool>, trees: seq<Tree>, x: nat, i: nat, path: Path, k: nat, root: nat)
    requires BinsOk(m, roots, marks, trees) && Located(m, roots, trees, x, i, path, k)
    requires forall j :: 0 <= j < NTREEBINS && j != i ==> x !in Addrs(trees[j])
    requires Linked(m', root, WithoutChunk(trees[i], path, k), Bin(i), i)
    requires forall c :: c in m && c !in Addrs(trees[i]) ==> c in m' && m'[c] == m[c]
    ensures var t := WithoutChunk(trees[i], path, k);
            && BinsOk(m', roots[i := root], marks[i := root != 0], trees[i := t])
            && Stored(trees[i := t]) == Stored(trees) - {(x, m[x].size)}
  {
    ShrunkBinOk(m, m', roots, trees, x, i, path, k, root);
    LessInBin(m, m', roots, marks, trees, i, x, m[x].size, root, WithoutChunk(trees[i], path, k));
  }

  /** The bins after bin `i` has lost a chunk. */
  lemma LessInBin(m: Mem, m': Mem, roots: seq<nat>, marks: seq<bool>, trees: seq<Tree>, i: nat, x: nat, s: nat, root: nat, t: Tree)
    requires BinsOk(m, roots, marks, trees) && i < NTREEBINS && (forall j :: 0 <= j < NTREEBINS && j != i ==> x !in Addrs(trees[j]))
    requires BinOk(m', root, root != 0, t, i) && Chunks(t) == Chunks(trees[i]) - {(x, s)}
    requires forall c :: c in m && c !in Addrs(trees[i]) ==> c in m' && m'[c] == m[c]
    ensures BinsOk(m', roots[i := root], marks[i := root != 0], trees[i := t]) && Stored(trees[i := t]) == Stored(trees) - {(x, s)}
  {
    BinAddrs(m, roots, marks, trees, i);
    OtherBins(m, m', roots, marks, trees, i, x, root, root != 0, t);
    StoredElsewhere(m, roots, marks, trees, i, x);
    StoredUpdate(trees, i, t, {(x, s)}, {});
  }

  lemma ShrunkBinOk(m: Mem, m': Mem, roots: seq<nat>, trees: seq<Tree>, x: nat, i: nat, path: Path, k: nat, root: nat)
    requires Located(m, roots, trees, x, i, path, k)
    requires Linked(m', root, WithoutChunk(trees[i], path, k), Bin(i), i)
    ensures BinOk(m', root, root != 0, WithoutChunk(trees[i], path, k), i)
    ensures Chunks(WithoutChunk(trees[i], path, k)) == Chunks(trees[i]) - {(x, m[x].size)}
  {
    RemovedTree(trees[i], OpenBits(i), BinLow(i), m[x].size, k);
    LinkedRoot(m', root, WithoutChunk(trees[i], path, k), Bin(i), i);
  }

  lemma StoredElsewhere(m: Mem, roots: seq<nat>, marks: seq<bool>, trees: seq<Tree>, i: nat, x: nat)
    requires BinsOk(m, roots, marks, trees) && forall j :: 0 <= j < NTREEBINS && j != i ==> x !in Addrs(trees[j])
    ensures forall j, s :: 0 <= j < |trees| && j != i ==> (x, s) !in Chunks(trees[j])
  {
    forall j, s | 0 <= j < |trees| && j != i ensures (x, s) !in Chunks(trees[j]) {
      if (x, s) in Chunks(trees[j]) { ChunkSize(trees[j], (x, s)); }
    }
  }

  /** The replacement can take over: the pointers it needs are all there. */
  lemma TakeOverReady(m: Mem, m1: Mem, root: nat, t: Tree, i: nat, path: Path, u: Tree, x: nat)
    requires Apart(t) && Linked(m, root, t, Bin(i), i) && Leads(t, path)
    requires Sub(t, path).Node? && |Sub(t, path).chain| > 0 && x == Sub(t, path).chain[0]
    requires Detached(m, m1, Sub(t, path), u, x, i)
    ensures var h, r := Holder(t, path, Hold(Bin(i), false)), u.chain[0];
            && (h.up.Child? ==> h.up.addr in m1)
            && var m2 := Point(m1, h, r);
            && m2[x] == m1[x] && r in m2 && x != r && r != 0 && m2[r].left == 0 && m2[r].right == 0
            && (m2[x].left != 0 ==> m2[x].left in m2) && (m2[x].right != 0 ==> m2[x].right in m2)
            && x != m2[x].left && x != m2[x].right
            && r != m2[x].left && r != m2[x].right && (m2[x].left != 0 ==> m2[x].left != m2[x].right)
  {
    PlaceInMemory(m, root, t, i, path);
    CrownDistinct(m1, u, m1[x].left, m1[x].right, Child(x), Child(x), i);
    RingMember(m1, u.chain, u.size, i, u.chain[0]);
    assert x in Sub(t, path).chain;
    AddrSize(m, x, Sub(t, path), Holder(t, path, Hold(Bin(i), false)).up, i, x);
  }

  // ---------------------------------------------------------------- lemmas for insertion

  lemma NotInTrees(m: Mem, roots: seq<nat>, marks: seq<bool>, trees: seq<Tree>, x: nat)
    requires BinsOk(m, roots, marks, trees) && forall c :: c in Stored(trees) ==> c.0 != x
    ensures forall j :: 0 <= j < NTREEBINS ==> x !in Addrs(trees[j])
  {
    forall j | 0 <= j < NTREEBINS ensures x !in Addrs(trees[j]) {
      NotStored(m, roots, marks, trees, x, j);
    }
  }

  ghost function WithChunk(t: Tree, i: nat, s: nat, x: nat): Tree
    requires i < NTREEBINS && (Sub(t, PathTo(t, OpenBits(i), BinLow(i), s)).Node? ==> |Sub(t, PathTo(t, OpenBits(i), BinLow(i), s)).chain| > 0)
  {
    var path := PathTo(t, OpenBits(i), BinLow(i), s);
    Graft(t, path, Added(Sub(t, path), s, x))
  }

  /** Initialising the header of a chunk that no bin holds disturbs no bin. */
  lemma FreshHeader(m: Mem, m': Mem, roots: seq<nat>, marks: seq<bool>, trees: seq<Tree>, i: nat, x: nat, c: TChunk)
    requires BinsOk(m, roots, marks, trees) && i < NTREEBINS && m' == m[x := c] && x !in Addrs(trees[i])
    ensures BinOk(m', roots[i], marks[i], trees[i], i)
  {
    assert BinOk(m, roots[i], marks[i], trees[i], i);
    forall a | a in Addrs(trees[i]) ensures a in m && m'[a] == m[a] {
      AddrSize(m, roots[i], trees[i], Bin(i), i, a);
    }
    LinkedFrame(m, m', roots[i], trees[i], Bin(i), i);
  }

  lemma FirstOfBin(m: Mem, m': Mem, roots: seq<nat>, marks: seq<bool>, trees: seq<Tree>, i: nat, s: nat, x: nat)
    requires BinsOk(m, roots, marks, trees) && i < NTREEBINS && !marks[i] && InBin(s, i) && s < WORD && x != 0
    requires m' == m[x := TChunk(s, x, x, 0, 0, Bin(i), i)]
    requires forall j :: 0 <= j < NTREEBINS ==> x !in Addrs(trees[j])
    ensures var t := Node(s, [x], Nil, Nil);
            && BinsOk(m', roots[i := x], marks[i := true], trees[i := t])
            && Stored(trees[i := t]) == Stored(trees) + {(x, s)}
  {
    var t := Node(s, [x], Nil, Nil);
    LeafBin(m', x, s, i);
    assert BinOk(m, roots[i], marks[i], trees[i], i);
    OtherBins(m, m', roots, marks, trees, i, x, x, true, t);
    StoredUpdate(trees, i, t, {}, {(x, s)});
  }

  lemma LeafBin(m: Mem, x: nat, s: nat, i: nat)
    requires i < NTREEBINS && InBin(s, i) && s < WORD && x != 0 && x in m && m[x] == TChunk(s, x, x, 0, 0, Bin(i), i)
    ensures BinOk(m, x, true, Node(s, [x], Nil, Nil), i) && Chunks(Node(s, [x], Nil, Nil)) == {(x, s)}
  {
    LeafLinked(m, x, s, Bin(i), i);
    assert BinLow(i) <= s < BinLow(i) + Pow2(OpenBits(i)) by {
      BinRange(s, i);
    }
    LeafTrie(x, s, OpenBits(i), BinLow(i));
  }

  lemma LeafTrie(x: nat, s: nat, b: nat, lo: nat)
    requires lo <= s < lo + Pow2(b)
    ensures var t := Node(s, [x], Nil, Nil); IsTrie(t, b, lo) && Sizes(t) == {s} && Chunks(t) == {(x, s)}
  {
    assert RingPairs([x], s) == {(x, s)};
  }

  lemma WalkOfBin(m: Mem, m': Mem, roots: seq<nat>, marks: seq<bool>, trees: seq<Tree>, i: nat, s: nat, x: nat, w: Walk)
    requires BinsOk(m, roots, marks, trees) && i < NTREEBINS && marks[i] && InBin(s, i) && s < WORD && x != 0
    requires m' == m[x := TChunk(s, x, x, 0, 0, Bin(i), i)] && x !in Addrs(trees[i])
    requires w == WalkFrom(m', roots[i], s, SizeTurns(s, OpenBits(i), BinLow(i)))
    ensures !w.Stuck? && w.p in m' && w.p != x && (w.Found? ==> m'[w.p].fd in m' && m'[w.p].fd != x)
    ensures var path := PathTo(trees[i], OpenBits(i), BinLow(i), s);
            && (Sub(trees[i], path).Node? ==> |Sub(trees[i], path).chain| > 0)
            && var t' := WithChunk(trees[i], i, s, x);
            && BinOk(LinkIn(m', w, x), roots[i], true, t', i)
            && Chunks(t') == Chunks(trees[i]) + {(x, s)}
            && forall c :: c in m && c !in Addrs(trees[i]) && c != x ==> c in LinkIn(m', w, x) && LinkIn(m', w, x)[c] == m[c]
  {
    FreshHeader(m, m', roots, marks, trees, i, x, TChunk(s, x, x, 0, 0, Bin(i), i));
    InsertedBin(m', roots[i], trees[i], i, s, x, w);
  }

  /** The bins after a chunk is linked in where the walk ends. */
  lemma MoreInBin(m: Mem, m': Mem, roots: seq<nat>, marks: seq<bool>, trees: seq<Tree>, i: nat, s: nat, x: nat)
    requires BinsOk(m, roots, marks, trees) && i < NTREEBINS && marks[i] && InBin(s, i) && s < WORD && x != 0
    requires m' == m[x := TChunk(s, x, x, 0, 0, Bin(i), i)] && forall j :: 0 <= j < NTREEBINS ==> x !in Addrs(trees[j])
    ensures var w := WalkFrom(m', roots[i], s, Turns(Shl(s, LeftShift(i)), OpenBits(i)));
            && !w.Stuck? && w.p in m' && w.p != x && (w.Found? ==> m'[w.p].fd in m' && m'[w.p].fd != x)
            && var path := PathTo(trees[i], OpenBits(i), BinLow(i), s);
            && (Sub(trees[i], path).Node? ==> |Sub(trees[i], path).chain| > 0)
            && var trees' := trees[i := WithChunk(trees[i], i, s, x)];
               BinsOk(LinkIn(m', w, x), roots, marks, trees') && Stored(trees') == Stored(trees) + {(x, s)}
  {
    KeyOfBin(s, i);
    MoreAtWalk(m, m', roots, marks, trees, i, s, x, WalkFrom(m', roots[i], s, SizeTurns(s, OpenBits(i), BinLow(i))));
  }

  lemma MoreAtWalk(m: Mem, m': Mem, roots: seq<nat>, marks: seq<bool>, trees: seq<Tree>, i: nat, s: nat, x: nat, w: Walk)
    requires BinsOk(m, roots, marks, trees) && i < NTREEBINS && marks[i] && InBin(s, i) && s < WORD && x != 0
    requires m' == m[x := TChunk(s, x, x, 0, 0, Bin(i), i)] && forall j :: 0 <= j < NTREEBINS ==> x !in Addrs(trees[j])
    requires w == WalkFrom(m', roots[i], s, SizeTurns(s, OpenBits(i), BinLow(i)))
    ensures !w.Stuck? && w.p in m' && w.p != x && (w.Found? ==> m'[w.p].fd in m' && m'[w.p].fd != x)
    ensures var path := PathTo(trees[i], OpenBits(i), BinLow(i), s);
            && (Sub(trees[i], path).Node? ==> |Sub(trees[i], path).chain| > 0)
            && var trees' := trees[i := WithChunk(trees[i], i, s, x)];
               BinsOk(LinkIn(m', w, x), roots, marks, trees') && Stored(trees') == Stored(trees) + {(x, s)}
  {
    WalkOfBin(m, m', roots, marks, trees, i, s, x, w);
    FurtherOfBin(m, LinkIn(m', w, x), roots, marks, trees, i, x, s, WithChunk(trees[i], i, s, x));
  }

  lemma KeyOfBin(s: nat, i: nat)
    requires i < NTREEBINS && InBin(s, i) && s < WORD
    ensures Turns(Shl(s, LeftShift(i)), OpenBits(i)) == SizeTurns(s, OpenBits(i), BinLow(i))
  {
    BinRange(s, i);
    KeySpellsTurns(Shl(s, LeftShift(i)), s, OpenBits(i), BinLow(i));
  }

  lemma FurtherOfBin(m: Mem, m1: Mem, roots: seq<nat>, marks: seq<bool>, trees: seq<Tree>, i: nat, x: nat, s: nat, t: Tree)
    requires BinsOk(m, roots, marks, trees) && i < NTREEBINS && marks[i]
    requires forall j :: 0 <= j < NTREEBINS ==> x !in Addrs(trees[j])
    requires BinOk(m1, roots[i], true, t, i) && Chunks(t) == Chunks(trees[i]) + {(x, s)}
    requires forall c :: c in m && c !in Addrs(trees[i]) && c != x ==> c in m1 && m1[c] == m[c]
    ensures BinsOk(m1, roots, marks, trees[i := t]) && Stored(trees[i := t]) == Stored(trees) + {(x, s)}
  {
    BinAddrs(m, roots, marks, trees, i);
    OtherBins(m, m1, roots, marks, trees, i, x, roots[i], true, t);
    assert roots[i := roots[i]] == roots && marks[i := true] == marks;
    StoredUpdate(trees, i, t, {}, {(x, s)});
  }

  lemma BinAddrs(m: Mem, roots: seq<nat>, marks: seq<bool>, trees: seq<Tree>, i: nat)
    requires BinsOk(m, roots, marks, trees) && i < NTREEBINS
    ensures forall c :: c in Addrs(trees[i]) ==> c in m && m[c].index == i
  {
    assert BinOk(m, roots[i], marks[i], trees[i], i);
    forall c | c in Addrs(trees[i]) ensures c in m && m[c].index == i {
      AddrSize(m, roots[i], trees[i], Bin(i), i, c);
    }
  }
}
