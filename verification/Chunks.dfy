/**
 Boundary tags. A segment is cut into chunks, each starting with a header that
 holds its size, whether it is in use and whether the chunk before it is in use;
 behind a free chunk lies a copy of its size. `starts` names the addresses that are
 chunk headers now (stale headers stay in memory); the last chunk is `top`.
 */
module Chunks {

  const MIN_CHUNK_SIZE: nat := 32
  const ALIGNMENT: nat := 16

  datatype Head = Head(size: nat, pinuse: bool, cinuse: bool)

  datatype Layout = Layout(head: map<nat, Head>, foot: map<nat, nat>, starts: set<nat>, base: nat, top: nat)

  // ---------------------------------------------------------------- the invariant

  function End(l: Layout, a: nat): nat
    requires a in l.head
  {
    a + l.head[a].size
  }

  /** One chunk below `top`: its header, its successor's header and, if free, its foot. */
  predicate ChunkOk(l: Layout, a: nat) {
    && a in l.head && l.head[a].size >= MIN_CHUNK_SIZE && l.head[a].size % ALIGNMENT == 0
    && End(l, a) in l.starts && End(l, a) in l.head
    && (l.head[End(l, a)].pinuse <==> l.head[a].cinuse)
    && (!l.head[a].cinuse ==> Behind(l, a))
  }

  /** A free chunk is followed by a chunk in use, and by its own size. */
  predicate Behind(l: Layout, a: nat)
    requires a in l.head
  {
    && End(l, a) != l.top && End(l, a) in l.head && l.head[End(l, a)].cinuse
    && End(l, a) in l.foot && l.foot[End(l, a)] == l.head[a].size
  }

  predicate InSegment(l: Layout, a: nat) {
    l.base <= a <= l.top && a % ALIGNMENT == 0
  }

  /** No chunk starts inside another. */
  predicate Ordered(l: Layout) {
    forall a, b {:trigger Apart(l, a, b)} :: a in l.starts && b in l.starts && a < b ==> Apart(l, a, b)
  }

  predicate Apart(l: Layout, a: nat, b: nat) {
    a in l.head && End(l, a) <= b
  }

  predicate Tiled(l: Layout) {
    && l.base > 0 && l.base % ALIGNMENT == 0 && l.base in l.starts && l.top in l.starts && l.base in l.head && l.top in l.head
    && (forall a {:trigger InSegment(l, a)} :: a in l.starts ==> InSegment(l, a))
    && (forall a {:trigger ChunkOk(l, a)} :: a in l.starts && a != l.top ==> ChunkOk(l, a))
    && Ordered(l)
    && l.head[l.base].pinuse && l.head[l.top].pinuse && !l.head[l.top].cinuse
    && l.head[l.top].size > 0
  }

  // ---------------------------------------------------------------- what it means

  /** The chunks in use, with their sizes. */
  ghost function Live(l: Layout): map<nat, nat>
  {
    map a | a in l.starts && a in l.head && l.head[a].cinuse :: l.head[a].size
  }

  /** The free chunks below `top`, with their sizes. */
  ghost function Free(l: Layout): set<(nat, nat)>
  {
    set a | a in l.starts && a in l.head && a != l.top && !l.head[a].cinuse :: (a, l.head[a].size)
  }

  /** The chunk that holds an address. */
  predicate Holds(l: Layout, a: nat, x: nat) {
    a in l.starts && a in l.head && a <= x < End(l, a)
  }

  /** Every address of the segment lies in exactly one chunk. */
  lemma TiledCovers(l: Layout, x: nat)
    requires Tiled(l) && l.base <= x < End(l, l.top)
    ensures exists a :: Holds(l, a, x)
    ensures forall a, b :: Holds(l, a, x) && Holds(l, b, x) ==> a == b
  {
    var a := FindHolder(l, l.base, x);
    forall b: nat | Holds(l, b, x) ensures a == b {
      assert a < b ==> Apart(l, a, b);
      assert b < a ==> Apart(l, b, a);
    }
  }

  lemma FindHolder(l: Layout, from: nat, x: nat) returns (a: nat)
    requires Tiled(l) && from in l.starts && from in l.head && from <= x < End(l, l.top)
    ensures Holds(l, a, x)
    decreases x - from
  {
    a := from;
    if End(l, from) <= x && from != l.top {
      assert ChunkOk(l, from);
      a := FindHolder(l, End(l, from), x);
    }
  }

  /** Live chunks never overlap, and no two free chunks touch. */
  lemma LiveDisjoint(l: Layout, a: nat, b: nat)
    requires Tiled(l) && a in Live(l) && b in Live(l) && a != b
    ensures a + Live(l)[a] <= b || b + Live(l)[b] <= a
    ensures Live(l)[a] >= MIN_CHUNK_SIZE && l.base <= a && a + Live(l)[a] <= l.top
  {
    assert ChunkOk(l, a) && ChunkOk(l, b) && InSegment(l, a) && InSegment(l, End(l, a));
    assert a < b ==> Apart(l, a, b);
    assert b < a ==> Apart(l, b, a);
  }

  lemma FreeNeverTouch(l: Layout, a: nat, b: nat)
    requires Tiled(l) && a in l.starts && b in l.starts && a in l.head && b in l.head
    requires !l.head[a].cinuse && !l.head[b].cinuse && a != l.top
    ensures End(l, a) != b
  {
    assert ChunkOk(l, a);
  }

  // ---------------------------------------------------------------- taking a whole free chunk

  /** `set_inuse_and_pinuse`. */
  function SetInuse(l: Layout, p: nat): Layout
    requires p in l.head && End(l, p) in l.head
  {
    var h := l.head[p := Head(l.head[p].size, true, true)];
    l.(head := h[End(l, p) := h[End(l, p)].(pinuse := true)])
  }

  lemma TakeWhole(l: Layout, p: nat)
    requires Tiled(l) && p in l.starts && p in l.head && p != l.top && !l.head[p].cinuse
    ensures End(l, p) in l.head && Tiled(SetInuse(l, p))
    ensures Live(SetInuse(l, p)) == Live(l)[p := l.head[p].size]
    ensures Free(SetInuse(l, p)) == Free(l) - {(p, l.head[p].size)}
  {
    assert ChunkOk(l, p) && InSegment(l, p) && InSegment(l, End(l, p));
    var l' := SetInuse(l, p);
    forall a | a in l'.starts ensures InSegment(l', a) && (a != l'.top ==> ChunkOk(l', a)) {
      TakeWholeChunk(l, p, a);
    }
    SameSizesOrdered(l, l');
  }

  lemma TakeWholeChunk(l: Layout, p: nat, a: nat)
    requires Tiled(l) && p in l.starts && p in l.head && p != l.top && !l.head[p].cinuse && ChunkOk(l, p) && a in l.starts
    ensures InSegment(SetInuse(l, p), a) && (a != l.top ==> ChunkOk(SetInuse(l, p), a))
  {
    assert InSegment(l, a);
    if a != l.top {
      assert ChunkOk(l, a);
    }
  }

  /** The same starts with the same sizes are ordered as before. */
  lemma SameSizesOrdered(l: Layout, l': Layout)
    requires Ordered(l) && l'.starts == l.starts && l.head.Keys <= l'.head.Keys
    requires forall a :: a in l.head ==> l'.head[a].size == l.head[a].size
    ensures Ordered(l')
  {
    forall a, b | a in l'.starts && b in l'.starts && a < b ensures Apart(l', a, b) {
      assert Apart(l, a, b);
    }
  }

  // ---------------------------------------------------------------- splitting a free chunk

  /** The first `nb` bytes of free chunk `p` come into use, the rest becomes a free chunk. */
  function SplitFree(l: Layout, p: nat, nb: nat): Layout
    requires p in l.head && nb <= l.head[p].size
  {
    var r, rsize := p + nb, l.head[p].size - nb;
    l.(head := l.head[p := Head(nb, true, true)][r := Head(rsize, true, false)],
       foot := l.foot[r + rsize := rsize],
       starts := l.starts + {r})
  }

  /** A new start inside a chunk keeps the order if the chunk is cut there. */
  lemma SplitOrdered(l: Layout, l': Layout, p: nat, r: nat)
    requires Ordered(l) && p in l.starts && p in l.head && p < r && l'.starts == l.starts + {r} && r < End(l, p)
    requires p in l'.head && r in l'.head && End(l', p) == r && End(l', r) == End(l, p)
    requires forall a :: a in l.starts && a != p ==> a in l.head ==> a in l'.head && l'.head[a].size == l.head[a].size
    ensures Ordered(l')
  {
    forall a, b | a in l'.starts && b in l'.starts && a < b ensures Apart(l', a, b) {
      if a != r && b != r {
        assert Apart(l, a, b);
      } else if a == r {
        assert Apart(l, p, b);
      } else if a != p {
        assert a < p ==> Apart(l, a, p);
        assert p < a ==> Apart(l, p, a);
      }
    }
  }

  /** Facts about the cut chunk that every split needs. */
  lemma CutInside(l: Layout, p: nat, r: nat)
    requires Tiled(l) && p in l.starts && p in l.head && p < r < End(l, p)
    ensures r !in l.starts
    ensures forall a :: a in l.starts && a in l.head && a != p ==> End(l, a) != r || a == l.top
  {
    assert r in l.starts ==> Apart(l, p, r);
    forall a | a in l.starts && a in l.head && a != p && a != l.top ensures End(l, a) != r {
      assert ChunkOk(l, a);
    }
  }

  lemma Split(l: Layout, p: nat, nb: nat)
    requires Tiled(l) && p in l.starts && p in l.head && p != l.top && !l.head[p].cinuse
    requires nb >= MIN_CHUNK_SIZE && nb % ALIGNMENT == 0 && nb + MIN_CHUNK_SIZE <= l.head[p].size
    ensures Tiled(SplitFree(l, p, nb))
    ensures Live(SplitFree(l, p, nb)) == Live(l)[p := nb]
    ensures Free(SplitFree(l, p, nb)) == Free(l) - {(p, l.head[p].size)} + {(p + nb, l.head[p].size - nb)}
  {
    assert ChunkOk(l, p);
    CutInside(l, p, p + nb);
    SplitTiled(l, p, nb);
    SplitSets(l, p, nb);
  }

  lemma SplitTiled(l: Layout, p: nat, nb: nat)
    requires Tiled(l) && p in l.starts && p in l.head && p != l.top && !l.head[p].cinuse && ChunkOk(l, p)
    requires nb >= MIN_CHUNK_SIZE && nb % ALIGNMENT == 0 && nb + MIN_CHUNK_SIZE <= l.head[p].size
    requires p + nb !in l.starts && (forall z :: z in l.starts && z in l.head && z != p ==> End(l, z) != p + nb || z == l.top)
    ensures Tiled(SplitFree(l, p, nb))
  {
    var l', r := SplitFree(l, p, nb), p + nb;
    assert InSegment(l, p) && InSegment(l, End(l, p));
    SplitOrdered(l, l', p, r);
    forall a | a in l'.starts ensures InSegment(l', a) && (a != l'.top ==> ChunkOk(l', a)) {
      SplitChunk(l, p, nb, a);
    }
  }

  lemma SplitSets(l: Layout, p: nat, nb: nat)
    requires p in l.starts && p in l.head && p != l.top && !l.head[p].cinuse && 0 < nb <= l.head[p].size && p + nb !in l.starts && p + nb != l.top
    ensures Live(SplitFree(l, p, nb)) == Live(l)[p := nb]
    ensures Free(SplitFree(l, p, nb)) == Free(l) - {(p, l.head[p].size)} + {(p + nb, l.head[p].size - nb)}
  {
    var l' := SplitFree(l, p, nb);
    forall c ensures c in Free(l') <==> c in Free(l) - {(p, l.head[p].size)} + {(p + nb, l.head[p].size - nb)} {
      FreeMember(l, c);
      FreeMember(l', c);
    }
  }

  lemma FreeMember(l: Layout, c: (nat, nat))
    ensures c in Free(l) <==> c.0 in l.starts && c.0 in l.head && c.0 != l.top && !l.head[c.0].cinuse && c.1 == l.head[c.0].size
  {
  }

  lemma SplitChunk(l: Layout, p: nat, nb: nat, a: nat)
    requires Tiled(l) && p in l.starts && p in l.head && p != l.top && !l.head[p].cinuse && ChunkOk(l, p)
    requires nb >= MIN_CHUNK_SIZE && nb % ALIGNMENT == 0 && nb + MIN_CHUNK_SIZE <= l.head[p].size
    requires p + nb !in l.starts && (forall z :: z in l.starts && z in l.head && z != p ==> End(l, z) != p + nb || z == l.top)
    requires a in SplitFree(l, p, nb).starts
    ensures InSegment(SplitFree(l, p, nb), a) && (a != l.top ==> ChunkOk(SplitFree(l, p, nb), a))
  {
    assert InSegment(l, p) && InSegment(l, End(l, p));
    if a != p + nb {
      assert InSegment(l, a);
      if a != l.top && a != p {
        assert ChunkOk(l, a);
        assert a < p ==> Apart(l, a, p);
        assert p < a ==> Apart(l, p, a);
      }
    }
  }

  // ---------------------------------------------------------------- splitting top

  /** The first `nb` bytes of `top` come into use. */
  function SplitTop(l: Layout, nb: nat): Layout
    requires l.top in l.head && nb <= l.head[l.top].size
  {
    var r := l.top + nb;
    l.(head := l.head[r := Head(l.head[l.top].size - nb, true, false)][l.top := Head(nb, true, true)],
       starts := l.starts + {r},
       top := r)
  }

  lemma CutTop(l: Layout, nb: nat)
    requires Tiled(l) && nb >= MIN_CHUNK_SIZE && nb % ALIGNMENT == 0 && nb < l.head[l.top].size
    ensures Tiled(SplitTop(l, nb))
    ensures Live(SplitTop(l, nb)) == Live(l)[l.top := nb]
    ensures Free(SplitTop(l, nb)) == Free(l)
  {
    CutInside(l, l.top, l.top + nb);
    CutTopTiled(l, nb);
    CutTopSets(l, nb);
  }

  lemma CutTopTiled(l: Layout, nb: nat)
    requires Tiled(l) && nb >= MIN_CHUNK_SIZE && nb % ALIGNMENT == 0 && nb < l.head[l.top].size && l.top + nb !in l.starts
    ensures Tiled(SplitTop(l, nb))
  {
    var l', p, r := SplitTop(l, nb), l.top, l.top + nb;
    assert InSegment(l, p);
    SplitOrdered(l, l', p, r);
    forall a | a in l'.starts ensures InSegment(l', a) && (a != l'.top ==> ChunkOk(l', a)) {
      CutTopChunk(l, nb, a);
    }
  }

  lemma CutTopChunk(l: Layout, nb: nat, a: nat)
    requires Tiled(l) && nb >= MIN_CHUNK_SIZE && nb % ALIGNMENT == 0 && nb < l.head[l.top].size && l.top + nb !in l.starts
    requires a in SplitTop(l, nb).starts
    ensures InSegment(SplitTop(l, nb), a) && (a != l.top + nb ==> ChunkOk(SplitTop(l, nb), a))
  {
    assert InSegment(l, l.top);
    if a != l.top + nb {
      assert InSegment(l, a);
      if a != l.top {
        assert ChunkOk(l, a) && Apart(l, a, l.top);
      }
    }
  }

  lemma CutTopSets(l: Layout, nb: nat)
    requires l.top in l.starts && l.top in l.head && 0 < nb <= l.head[l.top].size && l.top + nb !in l.starts
    ensures Live(SplitTop(l, nb)) == Live(l)[l.top := nb]
    ensures Free(SplitTop(l, nb)) == Free(l)
  {
    var l' := SplitTop(l, nb);
    forall c ensures c in Free(l') <==> c in Free(l) {
      FreeMember(l, c);
      FreeMember(l', c);
    }
  }

  // ---------------------------------------------------------------- freeing

  function Outside(starts: set<nat>, q: nat, e: nat): set<nat> {
    set a | a in starts && !(q < a < e)
  }

  function UpTo(starts: set<nat>, q: nat): set<nat> {
    set a | a in starts && a <= q
  }

  /** The chunks from `q` up to `e` become one free chunk. */
  function MergeFree(l: Layout, q: nat, e: nat): Layout
    requires q < e && e in l.head
  {
    l.(head := l.head[e := l.head[e].(pinuse := false)][q := Head(e - q, true, false)],
       foot := l.foot[e := e - q],
       starts := Outside(l.starts, q, e))
  }

  /** A run of chunks that may be merged: it ends at a chunk in use and follows one in use. */
  predicate Mergeable(l: Layout, q: nat, e: nat) {
    && q in l.starts && q in l.head && e in l.starts && e in l.head && q < e
    && l.head[q].pinuse && l.head[e].cinuse && e != l.top
  }

  lemma Merge(l: Layout, q: nat, e: nat)
    requires Tiled(l) && Mergeable(l, q, e)
    ensures Tiled(MergeFree(l, q, e))
    ensures Live(MergeFree(l, q, e)) == map a | a in Live(l) && !(q <= a < e) :: Live(l)[a]
    ensures Free(MergeFree(l, q, e)) == (set c | c in Free(l) && !(q <= c.0 < e)) + {(q, e - q)}
  {
    MergeTiled(l, q, e);
    MergeSets(l, q, e);
  }

  lemma MergeSets(l: Layout, q: nat, e: nat)
    requires Mergeable(l, q, e)
    ensures Live(MergeFree(l, q, e)) == map a | a in Live(l) && !(q <= a < e) :: Live(l)[a]
    ensures q != l.top ==> Free(MergeFree(l, q, e)) == (set c | c in Free(l) && !(q <= c.0 < e)) + {(q, e - q)}
  {
    var l' := MergeFree(l, q, e);
    forall c ensures q != l.top ==> (c in Free(l') <==> c in (set c | c in Free(l) && !(q <= c.0 < e)) + {(q, e - q)}) {
      FreeMember(l, c);
      FreeMember(l', c);
    }
  }

  lemma MergeTiled(l: Layout, q: nat, e: nat)
    requires Tiled(l) && Mergeable(l, q, e)
    ensures q != l.top && Tiled(MergeFree(l, q, e))
  {
    var l' := MergeFree(l, q, e);
    assert InSegment(l, q) && InSegment(l, e) && Apart(l, q, e);
    forall a | a in l'.starts ensures InSegment(l', a) && (a != l'.top ==> ChunkOk(l', a)) {
      MergeChunk(l, q, e, a);
    }
    forall a, b | a in l'.starts && b in l'.starts && a < b ensures Apart(l', a, b) {
      assert Apart(l, a, b);
    }
  }

  lemma MergeChunk(l: Layout, q: nat, e: nat, a: nat)
    requires Tiled(l) && Mergeable(l, q, e) && a in MergeFree(l, q, e).starts
    ensures InSegment(MergeFree(l, q, e), a) && (a != l.top ==> ChunkOk(MergeFree(l, q, e), a))
  {
    assert InSegment(l, a) && InSegment(l, q) && InSegment(l, e);
    assert Apart(l, q, e);
    assert ChunkOk(l, q) && ChunkOk(l, e);
    if a != l.top && a != q {
      assert ChunkOk(l, a);
      assert a < q ==> Apart(l, a, q);
      assert e < a ==> Apart(l, e, a);
    }
  }

  /** The chunks from `q` on, `top` included, become the new `top`. */
  function MergeTop(l: Layout, q: nat): Layout
    requires l.top in l.head && q <= l.top
  {
    l.(head := l.head[q := Head(End(l, l.top) - q, true, false)],
       starts := UpTo(l.starts, q),
       top := q)
  }

  lemma MergeIntoTop(l: Layout, q: nat)
    requires Tiled(l) && q in l.starts && q in l.head && q < l.top && l.head[q].pinuse
    ensures Tiled(MergeTop(l, q))
    ensures Live(MergeTop(l, q)) == map a | a in Live(l) && a < q :: Live(l)[a]
    ensures Free(MergeTop(l, q)) == set c | c in Free(l) && c.0 < q
  {
    var l' := MergeTop(l, q);
    assert InSegment(l, q);
    forall c ensures c in Free(l') <==> c in set c | c in Free(l) && c.0 < q {
      FreeMember(l, c);
      FreeMember(l', c);
    }
    forall a | a in l'.starts ensures InSegment(l', a) && (a != l'.top ==> ChunkOk(l', a)) {
      assert InSegment(l, a);
      if a != q {
        assert ChunkOk(l, a) && Apart(l, a, q);
      }
    }
    forall a, b | a in l'.starts && b in l'.starts && a < b ensures Apart(l', a, b) {
      assert Apart(l, a, b);
    }
  }

  // ---------------------------------------------------------------- neighbours

  /** A clear pinuse bit leads, by the foot before the header, to the free chunk in front. */
  lemma FreeInFront(l: Layout, p: nat)
    requires Tiled(l) && p in l.starts && p in l.head && !l.head[p].pinuse
    ensures p in l.foot && l.foot[p] <= p
    ensures var q := p - l.foot[p]; q in l.starts && q in l.head && q < p && End(l, q) == p && q != l.top && !l.head[q].cinuse && l.head[q].pinuse
  {
    assert InSegment(l, p) && InSegment(l, l.top);
    var a := FindHolder(l, l.base, p - 1);
    assert a < p;
    assert Apart(l, a, p);
    assert ChunkOk(l, a);
    PinuseOfFree(l, a);
  }

  /** A free chunk's own pinuse bit is set. */
  lemma PinuseOfFree(l: Layout, a: nat)
    requires Tiled(l) && a in l.starts && a in l.head && !l.head[a].cinuse
    ensures l.head[a].pinuse
  {
    if a != l.base && a != l.top {
      assert InSegment(l, a) && InSegment(l, l.top);
      var b := FindHolder(l, l.base, a - 1);
      assert Apart(l, b, a) && ChunkOk(l, b);
    }
  }

  /** A live chunk lies below top and is followed by a chunk header whose pinuse bit is set. */
  lemma NextOfLive(l: Layout, p: nat)
    requires Tiled(l) && p in Live(l)
    ensures p in l.starts && p in l.head && p != l.top && End(l, p) in l.starts && End(l, p) in l.head && l.head[End(l, p)].pinuse
  {
    assert ChunkOk(l, p);
  }

  /** What every free chunk satisfies. */
  lemma FreeFacts(l: Layout, c: (nat, nat))
    requires Tiled(l) && c in Free(l)
    ensures c.0 in l.starts && c.0 in l.head && c.0 != l.top && !l.head[c.0].cinuse && c.1 == l.head[c.0].size
    ensures 0 < c.0 && l.base <= c.0 && c.1 >= MIN_CHUNK_SIZE && c.1 % ALIGNMENT == 0 && c.0 + c.1 <= l.top
  {
    FreeMember(l, c);
    assert ChunkOk(l, c.0) && InSegment(l, c.0) && InSegment(l, End(l, c.0));
  }

  // ---------------------------------------------------------------- the layout is determined by the live chunks

  /** Both layouts start chunks at `a`. */
  predicate Common(l: Layout, l': Layout, a: nat) {
    a in l.starts && a in l'.starts && a in l.head && a in l'.head
  }

  /** Same segment, same live chunks. */
  ghost predicate SameUse(l: Layout, l': Layout) {
    && Tiled(l) && Tiled(l') && l.base == l'.base && End(l, l.top) == End(l', l'.top) && Live(l) == Live(l')
  }

  /** At a common start the two chunks agree in kind and end. */
  lemma SameChunk(l: Layout, l': Layout, a: nat)
    requires SameUse(l, l') && Common(l, l', a)
    ensures (a == l.top <==> a == l'.top) && l.head[a].cinuse == l'.head[a].cinuse && l.head[a].size == l'.head[a].size
  {
    assert a in Live(l) <==> a in Live(l');
    if a !in Live(l) {
      NotShorter(l, l', a);
      NotShorter(l', l, a);
    }
  }

  lemma NotShorter(l: Layout, l': Layout, a: nat)
    requires SameUse(l, l') && Common(l, l', a) && !l.head[a].cinuse
    ensures a != l.top ==> a != l'.top && End(l', a) <= End(l, a)
  {
    if a != l.top {
      var e := End(l, a);
      assert ChunkOk(l, a);
      assert e in Live(l) && e in Live(l');
      assert Apart(l', a, e) && InSegment(l', e);
    }
  }

  /** Every chunk start of one layout is one of the other. */
  lemma SameStart(l: Layout, l': Layout, from: nat, a: nat)
    requires SameUse(l, l') && Common(l, l', from) && a in l.starts && from <= a
    ensures Common(l, l', a)
    decreases a - from
  {
    SameChunk(l, l', from);
    if from < a {
      assert Apart(l, from, a) && InSegment(l, a);
      assert ChunkOk(l, from) && ChunkOk(l', from);
      SameStart(l, l', End(l, from), a);
    } else {
      assert a in l.head;
    }
  }

  /** The live chunks of a segment determine the whole layout: its free chunks and its top. */
  lemma LayoutFromLive(l: Layout, l': Layout)
    requires SameUse(l, l')
    ensures l.top == l'.top && l.starts == l'.starts && Free(l) == Free(l')
  {
    forall a | a in l.starts || a in l'.starts ensures Common(l, l', a) {
      assert a in l.starts ==> InSegment(l, a);
      assert a in l'.starts ==> InSegment(l', a);
      if a in l.starts {
        SameStart(l, l', l.base, a);
      } else {
        SameStart(l', l, l.base, a);
      }
    }
    SameChunk(l, l', l.top);
    forall c ensures c in Free(l) <==> c in Free(l') {
      FreeMember(l, c);
      FreeMember(l', c);
      if c.0 in l.starts {
        SameChunk(l, l', c.0);
      }
    }
  }
}
