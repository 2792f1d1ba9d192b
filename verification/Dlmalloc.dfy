/**
 `dlmalloc` and `dlfree` inside one segment: headers and feet in memory, the
 designated victim, small lists, tree bins and `top`, all updated in place.
 Growing the segment (`sys_alloc`) is not part of this model: where the source
 would call it, `Malloc` returns null.
 */
module Dlmalloc {
  import opened Common
  import opened Bits
  import opened BinIndex
  import opened Chunks
  import opened FreeIndex
  import opened BestFit
  import LargeBins

  const CHUNK_OVERHEAD: nat := 8
  const MIN_REQUEST: nat := 23
  const MAX_SMALL_REQUEST: nat := 232
  const MAX_REQUEST: nat := WORD - 128
  /** From a chunk to the memory handed out. */
  const MEM_OFFSET: nat := 16
  /** Sizes below this have a well-defined tree bin. */
  const MAX_SEGMENT: nat := 0x100_0000_0000

  /** `pad_request`. */
  function PadRequest(bytes: nat): (nb: nat)
    ensures nb % ALIGNMENT == 0 && bytes + CHUNK_OVERHEAD <= nb < bytes + CHUNK_OVERHEAD + ALIGNMENT
  {
    (bytes + CHUNK_OVERHEAD + ALIGNMENT - 1) / ALIGNMENT * ALIGNMENT
  }

  /** The chunk size `dlmalloc` looks for. */
  function ChunkFor(bytes: nat): (nb: nat)
    requires bytes < WORD
    ensures MIN_CHUNK_SIZE <= nb < WORD
  {
    if bytes >= MAX_REQUEST then WORD - 1
    else if bytes < MIN_REQUEST then MIN_CHUNK_SIZE else PadRequest(bytes)
  }

  /** A free chunk or `top` can satisfy the request. */
  ghost predicate Fits(l: Layout, nb: nat)
    requires l.top in l.head
  {
    nb < l.head[l.top].size || exists c :: c in Free(l) && c.1 >= nb
  }

  /** `p` is a new live chunk for a request of `nb`; the other live chunks are as before. */
  ghost predicate Handed(l: Layout, l': Layout, p: nat, nb: nat) {
    && p != 0 && p !in Live(l) && p in Live(l') && Live(l') == Live(l)[p := Live(l')[p]]
    && nb <= Live(l')[p] < nb + MIN_CHUNK_SIZE
  }

  ghost predicate NoneFits(l: Layout, nb: nat) {
    forall c :: c in Free(l) ==> c.1 < nb
  }

  /** `p` is a smallest free chunk that fits. */
  ghost predicate BestFree(l: Layout, p: nat, nb: nat) {
    p in l.head && (p, l.head[p].size) in Free(l) && nb <= l.head[p].size && forall c :: c in Free(l) && c.1 >= nb ==> l.head[p].size <= c.1
  }

  /** Nothing that fits is smaller than the victim; if the victim does not fit, nothing does. */
  ghost predicate VictimBest(l: Layout, nb: nat, dvsize: nat) {
    forall c :: c in Free(l) && c.1 >= nb ==> nb <= dvsize <= c.1
  }

  // ---------------------------------------------------------------- layout and index together

  /** The chunks tile the segment and the index holds every free chunk once, but for those in `extra`. */
  ghost predicate Coherent(l: Layout, ix: Index, end: nat, extra: set<(nat, nat)>) {
    && Tiled(l) && End(l, l.top) == end < WORD && end - l.base < MAX_SEGMENT
    && IndexOk(ix) && Free(l) == Pairs(ix) + extra && Pairs(ix) !! extra
  }

  lemma SoundTake(l: Layout, ix: Index, end: nat, p: nat)
    requires p in l.head && Coherent(l, ix, end, {(p, l.head[p].size)})
    ensures End(l, p) in l.head && Coherent(SetInuse(l, p), ix, end, {})
    ensures Live(SetInuse(l, p)) == Live(l)[p := l.head[p].size] && p !in Live(l)
  {
    FreeFacts(l, (p, l.head[p].size));
    TakeWhole(l, p);
    TopKept(l, p);
  }

  lemma TopKept(l: Layout, p: nat)
    requires Tiled(l) && p in l.starts && p in l.head && p != l.top && End(l, p) in l.head
    ensures End(SetInuse(l, p), l.top) == End(l, l.top)
  {
  }

  lemma SoundSplit(l: Layout, ix: Index, end: nat, p: nat, nb: nat)
    requires p in l.head && Coherent(l, ix, end, {(p, l.head[p].size)})
    requires nb >= MIN_CHUNK_SIZE && nb % ALIGNMENT == 0 && nb + MIN_CHUNK_SIZE <= l.head[p].size
    ensures Coherent(SplitFree(l, p, nb), ix, end, {(p + nb, l.head[p].size - nb)})
    ensures Live(SplitFree(l, p, nb)) == Live(l)[p := nb] && p !in Live(l)
    ensures l.top in SplitFree(l, p, nb).head && SplitFree(l, p, nb).head[l.top] == l.head[l.top]
  {
    FreeFacts(l, (p, l.head[p].size));
    Split(l, p, nb);
    CutInside(l, p, p + nb);
    forall c | c in Pairs(ix) ensures c.0 != p + nb {
      FreeFacts(l, c);
    }
  }

  lemma SoundCutTop(l: Layout, ix: Index, end: nat, nb: nat)
    requires Coherent(l, ix, end, {}) && nb >= MIN_CHUNK_SIZE && nb % ALIGNMENT == 0 && nb < l.head[l.top].size
    ensures Coherent(SplitTop(l, nb), ix, end, {})
    ensures Live(SplitTop(l, nb)) == Live(l)[l.top := nb] && l.top !in Live(l)
  {
    CutTop(l, nb);
  }

  lemma ReindexDv(l: Layout, ix: Index, end: nat, r: nat, rsize: nat)
    requires Coherent(l, ix, end, {(r, rsize)}) && IsSmall(ix.dvsize)
    ensures Coherent(l, ReplaceDv(ix, r, rsize), end, {})
  {
    FreeFacts(l, (r, rsize));
    if ix.dvsize != 0 {
      FreeFacts(l, (ix.dv, ix.dvsize));
    }
    ReplaceDvOk(ix, r, rsize);
  }

  lemma UnindexSmall(l: Layout, ix: Index, end: nat, p: nat, s: nat, extra: set<(nat, nat)>)
    requires Coherent(l, ix, end, extra) && IsSmall(s) && (p, s) in Pairs(ix) && p != ix.dv
    ensures Coherent(l, TakeSmall(ix, p, s), end, extra + {(p, s)})
  {
    FreeFacts(l, (p, s));
    TakeSmallOk(ix, p, s);
  }

  lemma UnindexLarge(l: Layout, ix: Index, end: nat, p: nat, s: nat, extra: set<(nat, nat)>)
    requires Coherent(l, ix, end, extra) && !IsSmall(s) && (p, s) in Pairs(ix) && p != ix.dv
    ensures (p, s) in ix.large && Coherent(l, ix.(large := ix.large - {(p, s)}), end, extra + {(p, s)})
  {
    FreeFacts(l, (p, s));
    assert (p, s) !in SmallPairs(ix.small);
    assert Pairs(ix.(large := ix.large - {(p, s)})) == Pairs(ix) - {(p, s)};
  }

  lemma ForgetDv(l: Layout, ix: Index, end: nat, extra: set<(nat, nat)>)
    requires Coherent(l, ix, end, extra) && ix.dvsize != 0
    ensures Coherent(l, ix.(dv := 0, dvsize := 0), end, extra + {(ix.dv, ix.dvsize)})
  {
  }

  lemma SetDv(l: Layout, ix: Index, end: nat, p: nat, s: nat)
    requires Coherent(l, ix, end, {(p, s)}) && ix.dvsize == 0
    ensures Coherent(l, ix.(dv := p, dvsize := s), end, {})
  {
    FreeFacts(l, (p, s));
  }

  /** Chunks are known by their addresses. */
  lemma SameAddress(l: Layout, a: nat, s: nat, z: nat)
    requires Tiled(l) && (a, s) in Free(l) && (a, z) in Free(l)
    ensures s == z
  {
    FreeFacts(l, (a, s));
    FreeFacts(l, (a, z));
  }

  /** The chunks from `q` to `e` are live chunk `p` and the free chunks in `extra` beside it. */
  ghost predicate Run(l: Layout, q: nat, p: nat, e: nat, extra: set<(nat, nat)>) {
    && Mergeable(l, q, e) && p in Live(l) && q <= p < e
    && (forall a :: a in Live(l) && q <= a < e ==> a == p)
    && (forall c :: c in Free(l) && q <= c.0 < e <==> c in extra)
  }

  lemma SoundMerge(l: Layout, ix: Index, end: nat, q: nat, p: nat, e: nat, extra: set<(nat, nat)>)
    requires Coherent(l, ix, end, extra) && Run(l, q, p, e, extra)
    ensures Coherent(MergeFree(l, q, e), ix, end, {(q, e - q)})
    ensures Live(MergeFree(l, q, e)) == Live(l) - {p}
  {
    Merge(l, q, e);
    OutsideRun(l, ix, end, q, p, e, extra);
    LiveOutsideRun(l, q, p, e, extra);
  }

  lemma OutsideRun(l: Layout, ix: Index, end: nat, q: nat, p: nat, e: nat, extra: set<(nat, nat)>)
    requires Coherent(l, ix, end, extra) && Run(l, q, p, e, extra)
    ensures (set c | c in Free(l) && !(q <= c.0 < e)) == Pairs(ix) && (q, e - q) !in Pairs(ix)
  {
  }

  lemma LiveOutsideRun(l: Layout, q: nat, p: nat, e: nat, extra: set<(nat, nat)>)
    requires Run(l, q, p, e, extra)
    ensures (map a | a in Live(l) && !(q <= a < e) :: Live(l)[a]) == Live(l) - {p}
  {
  }

  /** As `Run`, up to and including `top`. */
  ghost predicate RunToTop(l: Layout, q: nat, p: nat, extra: set<(nat, nat)>) {
    && q in l.starts && q in l.head && q <= p < l.top && l.head[q].pinuse && p in Live(l)
    && (forall a :: a in Live(l) && q <= a ==> a == p)
    && (forall c :: c in Free(l) && q <= c.0 <==> c in extra)
  }

  lemma SoundMergeTop(l: Layout, ix: Index, end: nat, q: nat, p: nat, extra: set<(nat, nat)>)
    requires Coherent(l, ix, end, extra) && RunToTop(l, q, p, extra)
    ensures Coherent(MergeTop(l, q), ix, end, {})
    ensures Live(MergeTop(l, q)) == Live(l) - {p}
  {
    MergeIntoTop(l, q);
    assert (set c | c in Free(l) && c.0 < q) == Pairs(ix);
  }

  class MallocState {
    var head: map<nat, Head>
    var foot: map<nat, nat>
    var dv: nat
    var dvsize: nat
    var top: nat
    var topsize: nat
    var smallbins: seq<seq<nat>>
    var smallmap: seq<bool>
    const bins: LargeBins.LargeBins
    const base: nat
    const end: nat
    ghost var starts: set<nat>

    ghost function Lay(): Layout
      reads this
    {
      Layout(head, foot, starts, base, top)
    }

    ghost function Ix(): Index
      reads this, bins
    {
      Index(dv, dvsize, smallbins, smallmap, bins.Content())
    }

    ghost predicate Inv(extra: set<(nat, nat)>)
      reads this, bins
    {
      bins.Valid() && Coherent(Lay(), Ix(), end, extra) && head[top].size == topsize
    }

    ghost predicate Valid()
      reads this, bins
    {
      Inv({})
    }

    /** One segment, all of it `top` (`init_top`). */
    constructor (base: nat, size: nat)
      requires base > 0 && base % ALIGNMENT == 0 && 0 < size < MAX_SEGMENT && base + size < WORD
      ensures Valid() && Live(Lay()) == map[] && Free(Lay()) == {} && fresh(bins)
      ensures this.base == base && end == base + size
    {
      this.base, end := base, base + size;
      head, foot := map[base := Head(size, true, false)], map[];
      dv, dvsize, top, topsize := 0, 0, base, size;
      smallbins, smallmap := seq(NSMALLBINS, i => []), seq(NSMALLBINS, i => false);
      starts := {base};
      bins := new LargeBins.LargeBins();
      new;
      EmptySmall(smallbins);
    }

    /** `insert_chunk`. */
    method InsertChunk(p: nat, s: nat)
      requires Inv({(p, s)})
      modifies this`smallbins, this`smallmap, bins
      ensures Valid() && Lay() == old(Lay())
    {
      FreeFacts(Lay(), (p, s));
      assert InSegment(Lay(), top);
      if IsSmall(s) {
        PutSmallOk(Ix(), p, s);
        var i := SmallIndex(s);
        smallbins, smallmap := smallbins[i := [p] + smallbins[i]], smallmap[i := true];
      } else {
        NotInBins(Lay(), Ix(), p, s);
        bins.Insert(p, s);
      }
    }

    /** `unlink_chunk`. */
    method UnlinkChunk(p: nat, s: nat, ghost extra: set<(nat, nat)>)
      requires Inv(extra) && (p, s) in Pairs(Ix()) && p != dv
      modifies this`smallbins, this`smallmap, bins
      ensures Inv(extra + {(p, s)})
    {
      ghost var ix := Ix();
      if IsSmall(s) {
        UnindexSmall(Lay(), ix, end, p, s, extra);
        var i := SmallIndex(s);
        var q := Drop(smallbins[i], p);
        smallbins, smallmap := smallbins[i := q], smallmap[i := q != []];
        assert Ix() == TakeSmall(ix, p, s);
      } else {
        UnindexLarge(Lay(), ix, end, p, s, extra);
        StoredSize(p, s);
        bins.Unlink(p);
        assert Ix() == ix.(large := ix.large - {(p, s)});
      }
    }

    /** `replace_dv`. */
    method ReplaceVictim(r: nat, rsize: nat)
      requires Inv({(r, rsize)}) && IsSmall(dvsize)
      modifies this`dv, this`dvsize, this`smallbins, this`smallmap
      ensures Valid()
    {
      ghost var l, ix := Lay(), Ix();
      ReindexDv(l, ix, end, r, rsize);
      WriteVictim(r, rsize);
      assert Lay() == l;
    }

    /** The old victim goes to the front of its small bin. */
    method WriteVictim(r: nat, rsize: nat)
      requires IndexOk(Ix()) && IsSmall(dvsize)
      modifies this`dv, this`dvsize, this`smallbins, this`smallmap
      ensures Ix() == ReplaceDv(old(Ix()), r, rsize)
    {
      if dvsize != 0 {
        var i := SmallIndex(dvsize);
        smallbins, smallmap := smallbins[i := [dv] + smallbins[i]], smallmap[i := true];
      }
      dv, dvsize := r, rsize;
    }

    /** `set_inuse_and_pinuse` on a free chunk no longer indexed. */
    method TakeAll(p: nat)
      requires p in head && Inv({(p, head[p].size)})
      modifies this`head
      ensures Valid() && p !in old(Live(Lay())) && Live(Lay()) == old(Live(Lay()))[p := old(head[p].size)]
    {
      SoundTake(Lay(), Ix(), end, p);
      var e := p + head[p].size;
      head := head[p := Head(head[p].size, true, true)];
      head := head[e := head[e].(pinuse := true)];
    }

    /** Cut `nb` bytes off the front of a free chunk no longer indexed. */
    method CutFront(p: nat, nb: nat)
      requires p in head && Inv({(p, head[p].size)})
      requires nb >= MIN_CHUNK_SIZE && nb % ALIGNMENT == 0 && nb + MIN_CHUNK_SIZE <= head[p].size
      modifies this`head, this`foot, this`starts
      ensures Inv({(p + nb, old(head[p].size) - nb)})
      ensures p !in old(Live(Lay())) && Live(Lay()) == old(Live(Lay()))[p := nb]
    {
      SoundSplit(Lay(), Ix(), end, p, nb);
      WriteSplit(p, nb);
    }

    method WriteSplit(p: nat, nb: nat)
      requires p in head && nb < head[p].size
      modifies this`head, this`foot, this`starts
      ensures Lay() == SplitFree(old(Lay()), p, nb)
    {
      var r, rsize := p + nb, head[p].size - nb;
      head := head[p := Head(nb, true, true)][r := Head(rsize, true, false)];
      foot := foot[r + rsize := rsize];
      starts := starts + {r};
    }

    /** A free chunk no longer indexed serves the request; a large enough rest becomes the victim. */
    method CarveToVictim(p: nat, nb: nat)
      requires p in head && Inv({(p, head[p].size)}) && IsSmall(dvsize)
      requires MIN_CHUNK_SIZE <= nb <= head[p].size && nb % ALIGNMENT == 0
      modifies this
      ensures Valid() && Handed(old(Lay()), Lay(), p, nb)
    {
      FreeFacts(Lay(), (p, head[p].size));
      var rsize := head[p].size - nb;
      if rsize < MIN_CHUNK_SIZE {
        TakeAll(p);
      } else {
        CutFront(p, nb);
        ReplaceVictim(p + nb, rsize);
      }
    }

    /** A free chunk no longer indexed serves the request; a large enough rest goes to a bin. */
    method CarveToBin(p: nat, nb: nat)
      requires p in head && Inv({(p, head[p].size)})
      requires MIN_CHUNK_SIZE <= nb <= head[p].size && nb % ALIGNMENT == 0
      modifies this, bins
      ensures Valid() && Handed(old(Lay()), Lay(), p, nb)
    {
      FreeFacts(Lay(), (p, head[p].size));
      var rsize := head[p].size - nb;
      if rsize < MIN_CHUNK_SIZE {
        TakeAll(p);
      } else {
        CutFront(p, nb);
        InsertChunk(p + nb, rsize);
      }
    }

    /** The first chunk of small list `i` leaves it (`unlink_first_small_chunk`). */
    method PopSmall(i: nat) returns (p: nat)
      requires Valid() && i < NSMALLBINS && smallmap[i]
      modifies this`smallbins, this`smallmap
      ensures p in head && head[p].size == 8 * i && Inv({(p, 8 * i)}) && p != 0
    {
      p := smallbins[i][0];
      SmallMember(smallbins, p, 8 * i);
      FreeFacts(Lay(), (p, 8 * i));
      TakeSmallOk(Ix(), p, 8 * i);
      var q := smallbins[i][1..];
      smallbins, smallmap := smallbins[i := q], smallmap[i := q != []];
    }

    /** The part of `dlmalloc` for small requests that comes before the victim and top. */
    method FromBinsSmall(nb: nat) returns (p: nat)
      requires Valid() && MIN_CHUNK_SIZE <= nb < MIN_LARGE && nb % ALIGNMENT == 0
      modifies this, bins
      ensures Valid()
      ensures p == 0 ==> unchanged(this) && unchanged(bins) && (nb <= dvsize || NoneFits(Lay(), nb))
      ensures p != 0 ==> Handed(old(Lay()), Lay(), p, nb) && BestFree(old(Lay()), p, nb)
    {
      var idx := SmallIndex(nb);
      var exact := if smallmap[idx] then idx else idx + 1;
      if exact < NSMALLBINS && smallmap[exact] {
        ExactFit(Lay(), Ix(), end, nb, exact);
        p := PopSmall(exact);
        TakeAll(p);
        return;
      }
      if nb <= dvsize {
        return 0;
      }
      p := SplitForSmall(nb);
    }

    /** The victim is too small: split the smallest chunk that fits. */
    method SplitForSmall(nb: nat) returns (p: nat)
      requires Valid() && MIN_CHUNK_SIZE <= nb < MIN_LARGE && nb % ALIGNMENT == 0 && dvsize < nb
      modifies this, bins
      ensures Valid()
      ensures p == 0 ==> unchanged(this) && unchanged(bins) && NoneFits(Lay(), nb)
      ensures p != 0 ==> Handed(old(Lay()), Lay(), p, nb) && BestFree(old(Lay()), p, nb)
    {
      var i := NextMarked(smallmap, SmallIndex(nb));
      if i < NSMALLBINS {
        NextFit(Lay(), Ix(), end, nb, i);
        p := PopSmall(i);
        CarveToVictim(p, nb);
        return;
      }
      NoSmall(Ix(), nb);
      if true in bins.treemap {
        p := TreeSmall(nb);
      } else {
        LargeBins.NothingMarked(bins.mem, bins.treebins, bins.treemap, bins.trees);
        p := 0;
      }
    }

    /** `tmalloc_small`. */
    method TreeSmall(nb: nat) returns (p: nat)
      requires Valid() && MIN_CHUNK_SIZE <= nb < MIN_LARGE && nb % ALIGNMENT == 0 && dvsize < nb && true in bins.treemap
      requires forall c :: c in SmallPairs(smallbins) ==> c.1 < nb
      modifies this, bins
      ensures Valid() && p != 0 && Handed(old(Lay()), Lay(), p, nb) && BestFree(old(Lay()), p, nb)
    {
      var best := bins.SmallestFor(nb);
      p := best.v;
      TreeFit(Lay(), Ix(), end, nb, p, best.rsize);
      UnlinkFound(p, nb + best.rsize);
      CarveToVictim(p, nb);
    }

    /** A chunk found in a bin leaves it. */
    method UnlinkFound(p: nat, s: nat)
      requires Valid() && (p, s) in Pairs(Ix()) && p != dv
      modifies this`smallbins, this`smallmap, bins
      ensures Inv({(p, s)}) && Lay() == old(Lay())
    {
      UnlinkChunk(p, s, {});
      assert {} + {(p, s)} == {(p, s)};
    }

    /** `tmalloc_large`, behind its guard: a tree chunk, unless the victim fits as well. */
    method FromBinsLarge(nb: nat) returns (p: nat)
      requires Valid() && MIN_LARGE <= nb < WORD && nb % ALIGNMENT == 0
      modifies this, bins
      ensures Valid()
      ensures p == 0 ==> unchanged(this) && unchanged(bins) && VictimBest(Lay(), nb, dvsize)
      ensures p != 0 ==> Handed(old(Lay()), Lay(), p, nb) && BestFree(old(Lay()), p, nb)
    {
      SmallBelow(Ix(), nb);
      if true in bins.treemap {
        p := TreeLarge(nb);
      } else {
        LargeBins.NothingMarked(bins.mem, bins.treebins, bins.treemap, bins.trees);
        p := 0;
      }
    }

    method TreeLarge(nb: nat) returns (p: nat)
      requires Valid() && MIN_LARGE <= nb < WORD && nb % ALIGNMENT == 0 && forall c :: c in SmallPairs(smallbins) ==> c.1 < nb
      modifies this, bins
      ensures Valid()
      ensures p == 0 ==> unchanged(this) && unchanged(bins) && VictimBest(Lay(), nb, dvsize)
      ensures p != 0 ==> Handed(old(Lay()), Lay(), p, nb) && BestFree(old(Lay()), p, nb)
    {
      LargeAnswerable(Lay(), Ix(), end, nb);
      var best := bins.BestFor(nb);
      p := best.v;
      TreeOrVictim(Lay(), Ix(), end, nb, best.v, best.rsize);
      if best.v != 0 && best.rsize < Sub64(dvsize, nb) {
        CarveFound(p, nb, nb + best.rsize);
      } else {
        p := 0;
      }
    }

    method CarveFound(p: nat, nb: nat, s: nat)
      requires Valid() && (p, s) in Pairs(Ix()) && p != dv && MIN_CHUNK_SIZE <= nb <= s && nb % ALIGNMENT == 0
      modifies this, bins
      ensures Valid() && Handed(old(Lay()), Lay(), p, nb)
    {
      FreeFacts(Lay(), (p, s));
      UnlinkFound(p, s);
      CarveToBin(p, nb);
    }

    /** A free chunk not indexed becomes the victim. */
    method MakeVictim(p: nat, size: nat)
      requires Inv({(p, size)}) && dvsize == 0
      modifies this`dv, this`dvsize
      ensures Valid()
    {
      SetDv(Lay(), Ix(), end, p, size);
      dv, dvsize := p, size;
    }

    /** The victim serves the request. */
    method FromVictim(nb: nat) returns (p: nat)
      requires Valid() && MIN_CHUNK_SIZE <= nb <= dvsize && nb % ALIGNMENT == 0
      modifies this
      ensures Valid() && p == old(dv) && Handed(old(Lay()), Lay(), p, nb)
    {
      var rsize := dvsize - nb;
      p := dv;
      FreeFacts(Lay(), (dv, dvsize));
      ForgetDv(Lay(), Ix(), end, {});
      assert {} + {(dv, dvsize)} == {(dv, dvsize)};
      dv, dvsize := 0, 0;
      assert Lay() == old(Lay());
      CarveVictim(p, nb, rsize);
    }

    /** The former victim serves the request; a large enough rest is the victim again. */
    method CarveVictim(p: nat, nb: nat, rsize: nat)
      requires p in head && Inv({(p, head[p].size)}) && dvsize == 0 && p != 0
      requires MIN_CHUNK_SIZE <= nb && nb % ALIGNMENT == 0 && head[p].size == nb + rsize
      modifies this
      ensures Valid() && Handed(old(Lay()), Lay(), p, nb)
    {
      if rsize >= MIN_CHUNK_SIZE {
        CutFront(p, nb);
        MakeVictim(p + nb, rsize);
      } else {
        TakeAll(p);
      }
    }

    /** Top serves the request. */
    method FromTop(nb: nat) returns (p: nat)
      requires Valid() && MIN_CHUNK_SIZE <= nb < topsize && nb % ALIGNMENT == 0
      modifies this
      ensures Valid() && p == old(top) && Handed(old(Lay()), Lay(), p, nb)
    {
      ghost var l, ix := Lay(), Ix();
      SoundCutTop(l, ix, end, nb);
      assert InSegment(l, top);
      p := top;
      WriteCut(nb);
      assert Ix() == ix;
    }

    /** The first `nb` bytes of top become a chunk in use. */
    method WriteCut(nb: nat)
      requires 0 < nb < topsize && top in head && head[top].size == topsize
      modifies this`head, this`starts, this`top, this`topsize
      ensures Lay() == SplitTop(old(Lay()), nb) && top in head && head[top].size == topsize
    {
      var p, r := top, top + nb;
      topsize := topsize - nb;
      head := head[r := Head(topsize, true, false)][p := Head(nb, true, true)];
      top := r;
      starts := starts + {r};
    }

    /** `dlmalloc`, up to the call of `sys_alloc`. */
    method Malloc(bytes: nat) returns (mem: nat)
      requires Valid() && bytes < WORD
      modifies this, bins
      ensures Valid()
      ensures mem == 0 ==> unchanged(this) && unchanged(bins)
      ensures mem == 0 || mem > MEM_OFFSET
      ensures Answer(old(Lay()), Lay(), old(dv), ChunkFor(bytes), bytes <= MAX_SMALL_REQUEST, if mem == 0 then 0 else mem - MEM_OFFSET)
    {
      var p := TakeChunk(bytes);
      mem := if p == 0 then 0 else p + MEM_OFFSET;
      assert p == if mem == 0 then 0 else mem - MEM_OFFSET;
    }

    method TakeChunk(bytes: nat) returns (p: nat)
      requires Valid() && bytes < WORD
      modifies this, bins
      ensures Valid() && (p == 0 ==> unchanged(this) && unchanged(bins))
      ensures Answer(old(Lay()), Lay(), old(dv), ChunkFor(bytes), bytes <= MAX_SMALL_REQUEST, p)
    {
      p := FromBins(bytes);
      if p != 0 {
        AnswerByBins(old(Lay()), Lay(), old(dv), ChunkFor(bytes), bytes <= MAX_SMALL_REQUEST, p);
      } else {
        assert Lay() == old(Lay());
        p := FromRest(ChunkFor(bytes), bytes <= MAX_SMALL_REQUEST);
      }
    }

    /** The bins have nothing: the victim or top. */
    method FromRest(nb: nat, ghost small: bool) returns (p: nat)
      requires Valid() && MIN_CHUNK_SIZE <= nb && (nb % ALIGNMENT == 0 || nb == WORD - 1)
      requires if small then nb <= dvsize || NoneFits(Lay(), nb) else VictimBest(Lay(), nb, dvsize)
      modifies this
      ensures Valid() && (p == 0 ==> unchanged(this)) && Answer(old(Lay()), Lay(), old(dv), nb, small, p)
    {
      ghost var l, victim := Lay(), dv;
      NothingBinned(l, Ix(), end, nb, small);
      p := FromVictimOrTop(nb);
    }

    /** The search in the small lists and the tree bins. */
    method FromBins(bytes: nat) returns (p: nat)
      requires Valid() && bytes < WORD
      modifies this, bins
      ensures Valid()
      ensures p == 0 ==> unchanged(this) && unchanged(bins)
      ensures p == 0 ==> if bytes <= MAX_SMALL_REQUEST then ChunkFor(bytes) <= dvsize || NoneFits(Lay(), ChunkFor(bytes)) else VictimBest(Lay(), ChunkFor(bytes), dvsize)
      ensures p != 0 ==> Handed(old(Lay()), Lay(), p, ChunkFor(bytes)) && BestFree(old(Lay()), p, ChunkFor(bytes))
    {
      if bytes <= MAX_SMALL_REQUEST {
        p := FromBinsSmall(ChunkFor(bytes));
      } else if bytes < MAX_REQUEST {
        p := FromBinsLarge(ChunkFor(bytes));
      } else {
        NothingHuge(Lay(), Ix(), end);
        p := 0;
      }
    }

    method FromVictimOrTop(nb: nat) returns (p: nat)
      requires Valid() && MIN_CHUNK_SIZE <= nb && (nb % ALIGNMENT == 0 || nb == WORD - 1)
      modifies this
      ensures Valid()
      ensures p == 0 <==> nb > old(dvsize) && nb >= old(topsize)
      ensures p == 0 ==> unchanged(this)
      ensures p != 0 ==> Handed(old(Lay()), Lay(), p, nb)
      ensures p != 0 ==> if nb <= old(dvsize) then p == old(dv) && old((dv, dvsize) in Free(Lay())) else p == old(top)
    {
      NothingHuge(Lay(), Ix(), end);
      assert dvsize != 0 ==> (dv, dvsize) in Free(Lay());
      if nb <= dvsize {
        p := FromVictim(nb);
      } else if nb < topsize {
        p := FromTop(nb);
      } else {
        p := 0;
      }
    }

    /** `set_free_with_pinuse`: the memory from `q` to `e` becomes one free chunk. */
    method WriteFree(q: nat, e: nat)
      requires q < e && e in head
      modifies this`head, this`foot, this`starts
      ensures Lay() == MergeFree(old(Lay()), q, e)
    {
      head := head[e := head[e].(pinuse := false)][q := Head(e - q, true, false)];
      foot := foot[e := e - q];
      starts := Outside(starts, q, e);
    }

    /** The memory from `q` on becomes top. */
    method WriteTop(q: nat)
      requires q <= top && top in head && head[top].size == topsize
      modifies this`head, this`starts, this`top, this`topsize
      ensures Lay() == MergeTop(old(Lay()), q) && topsize == head[q].size
    {
      topsize := topsize + (top - q);
      head := head[q := Head(topsize, true, false)];
      starts := UpTo(starts, q);
      top := q;
    }

    /** The freed run becomes one free chunk and is binned. */
    method IntoBin(q: nat, p: nat, e: nat, ghost extra: set<(nat, nat)>)
      requires Inv(extra) && Run(Lay(), q, p, e, extra)
      modifies this, bins
      ensures Valid() && Live(Lay()) == old(Live(Lay())) - {p}
    {
      JoinRun(q, p, e, extra);
      InsertChunk(q, e - q);
    }

    method JoinRun(q: nat, p: nat, e: nat, ghost extra: set<(nat, nat)>)
      requires Inv(extra) && Run(Lay(), q, p, e, extra)
      modifies this`head, this`foot, this`starts
      ensures Inv({(q, e - q)}) && Live(Lay()) == old(Live(Lay())) - {p}
    {
      ghost var ix := Ix();
      SoundMerge(Lay(), ix, end, q, p, e, extra);
      WriteFree(q, e);
      assert Ix() == ix;
    }

    /** The freed run becomes part of top. */
    method IntoTop(q: nat, p: nat, ghost extra: set<(nat, nat)>)
      requires Inv(extra) && RunToTop(Lay(), q, p, extra + VictimAt(Ix(), q))
      modifies this
      ensures Valid() && Live(Lay()) == old(Live(Lay())) - {p}
    {
      ghost var l, ix := Lay(), Ix();
      TopCoherent(l, ix, end, q, p, extra);
      WriteTop(q);
      if q == dv {
        dv, dvsize := 0, 0;
      }
      assert Lay() == MergeTop(l, q) && Ix() == if q == ix.dv then ix.(dv := 0, dvsize := 0) else ix;
    }

    /** The freed run holds the victim and becomes the victim. */
    method IntoVictim(q: nat, p: nat, e: nat, ghost extra: set<(nat, nat)>, ghost run: set<(nat, nat)>)
      requires Inv(extra) && dvsize != 0 && run == extra + {(dv, dvsize)} && Run(Lay(), q, p, e, run)
      modifies this`head, this`foot, this`starts, this`dv, this`dvsize
      ensures Valid() && Live(Lay()) == old(Live(Lay())) - {p}
    {
      ghost var l, ix := Lay(), Ix();
      VictimCoherent(l, ix, end, q, p, e, extra);
      WriteFree(q, e);
      dv, dvsize := q, e - q;
      assert Lay() == MergeFree(l, q, e) && Ix() == ix.(dv := q, dvsize := e - q);
    }

    /** What is allocated and released again leaves the segment's layout as it was. */
    method AllocateRelease(bytes: nat) returns (mem: nat)
      requires Valid() && bytes < WORD
      modifies this, bins
      ensures Valid() && top == old(top) && starts == old(starts) && Free(Lay()) == old(Free(Lay())) && Live(Lay()) == old(Live(Lay()))
    {
      mem := Malloc(bytes);
      Release(mem);
      assert Live(Lay()) == old(Live(Lay()));
      LayoutFromLive(old(Lay()), Lay());
    }

    /** `dlfree`: merge with free neighbours, then return the chunk to top, the victim or a bin. */
    method Release(mem: nat)
      requires Valid() && (mem != 0 ==> mem > MEM_OFFSET && mem - MEM_OFFSET in Live(Lay()))
      modifies this, bins
      ensures Valid()
      ensures Live(Lay()) == if mem == 0 then old(Live(Lay())) else old(Live(Lay())) - {mem - MEM_OFFSET}
    {
      if mem == 0 {
        return;
      }
      var p := mem - MEM_OFFSET;
      NextOfLive(Lay(), p);
      var next := p + head[p].size;
      var q, extra := Backward(p);
      FreeForward(q, p, next, extra);
    }

    /** The free chunk in front of `p`, if any, leaves its bin; the victim stays for now. */
    method Backward(p: nat) returns (q: nat, ghost extra: set<(nat, nat)>)
      requires Valid() && p in Live(Lay())
      modifies this`smallbins, this`smallmap, bins
      ensures Inv(extra) && InFront(Lay(), q, p) && extra + VictimAt(Ix(), q) == FrontPairs(q, p)
    {
      q, extra := p, {};
      if head[p].pinuse {
        NotVictim(Lay(), Ix(), end, p);
      } else {
        PrevFree(Lay(), Ix(), end, p);
        var prevsize := foot[p];
        q := p - prevsize;
        if q != dv {
          UnlinkChunk(q, prevsize, {});
          extra := {(q, prevsize)};
        }
      }
    }

    /** The second half of `dlfree`: look at the chunk behind. */
    method FreeForward(q: nat, p: nat, next: nat, ghost extra: set<(nat, nat)>)
      requires Inv(extra) && InFront(Lay(), q, p) && p in Live(Lay()) && next == End(Lay(), p) && next in head
      requires extra + VictimAt(Ix(), q) == FrontPairs(q, p)
      modifies this, bins
      ensures Valid() && Live(Lay()) == old(Live(Lay())) - {p}
    {
      if head[next].cinuse {
        NextUsed(Lay(), q, p);
        FreeRun(q, p, next, extra, FrontPairs(q, p));
      } else if next == top {
        ToTop(Lay(), q, p);
        IntoTop(q, p, extra);
      } else {
        FreeWithNext(q, p, next, extra);
      }
    }

    /** The free chunk behind joins the run: the victim, or a chunk from a bin. */
    method FreeWithNext(q: nat, p: nat, next: nat, ghost extra: set<(nat, nat)>)
      requires Inv(extra) && InFront(Lay(), q, p) && p in Live(Lay()) && next == End(Lay(), p) && next in head
      requires extra + VictimAt(Ix(), q) == FrontPairs(q, p) && !head[next].cinuse && next != top
      modifies this, bins
      ensures Valid() && Live(Lay()) == old(Live(Lay())) - {p}
    {
      if next == dv {
        FreeWithVictim(q, p, extra);
      } else {
        FreeWithBinned(q, p, next, extra);
      }
    }

    method FreeWithVictim(q: nat, p: nat, ghost extra: set<(nat, nat)>)
      requires Inv(extra) && InFront(Lay(), q, p) && p in Live(Lay()) && dv == End(Lay(), p) && dv in head
      requires extra + VictimAt(Ix(), q) == FrontPairs(q, p) && !head[dv].cinuse && dv != top
      modifies this, bins
      ensures Valid() && Live(Lay()) == old(Live(Lay())) - {p}
    {
      ghost var run := FrontPairs(q, p) + {(dv, head[dv].size)};
      NextIsVictim(Lay(), Ix(), end, q, p, extra, run);
      IntoVictim(q, p, dv + head[dv].size, extra, run);
    }

    method FreeWithBinned(q: nat, p: nat, next: nat, ghost extra: set<(nat, nat)>)
      requires Inv(extra) && InFront(Lay(), q, p) && p in Live(Lay()) && next == End(Lay(), p) && next in head
      requires extra + VictimAt(Ix(), q) == FrontPairs(q, p) && !head[next].cinuse && next != top && next != dv
      modifies this, bins
      ensures Valid() && Live(Lay()) == old(Live(Lay())) - {p}
    {
      ghost var l, ix := Lay(), Ix();
      var nsize := head[next].size;
      ghost var run := FrontPairs(q, p) + {(next, nsize)};
      assert Run(l, q, p, next + nsize, run) && (next, nsize) in Pairs(ix) && run == extra + {(next, nsize)} + VictimAt(ix, q) by {
        NextIsBinned(l, ix, end, q, p, extra, run);
      }
      JoinBinned(q, p, next, nsize, extra, run);
    }

    method JoinBinned(q: nat, p: nat, next: nat, nsize: nat, ghost extra: set<(nat, nat)>, ghost run: set<(nat, nat)>)
      requires Inv(extra) && next != dv && (next, nsize) in Pairs(Ix())
      requires run == extra + {(next, nsize)} + VictimAt(Ix(), q) && Run(Lay(), q, p, next + nsize, run)
      modifies this, bins
      ensures Valid() && Live(Lay()) == old(Live(Lay())) - {p}
    {
      UnlinkChunk(next, nsize, extra);
      assert Lay() == old(Lay());
      FreeRun(q, p, next + nsize, extra + {(next, nsize)}, run);
    }

    /** The run ends at `e`; it becomes the victim again if it began with it. */
    method FreeRun(q: nat, p: nat, e: nat, ghost extra: set<(nat, nat)>, ghost run: set<(nat, nat)>)
      requires Inv(extra) && run == extra + VictimAt(Ix(), q) && Run(Lay(), q, p, e, run)
      modifies this, bins
      ensures Valid() && Live(Lay()) == old(Live(Lay())) - {p}
    {
      assert InSegment(Lay(), q);
      if q == dv {
        IntoVictim(q, p, e, extra, run);
      } else {
        assert run == extra;
        IntoBin(q, p, e, extra);
      }
    }

    lemma StoredSize(p: nat, s: nat)
      requires bins.Valid() && (p, s) in bins.Content()
      ensures p in bins.mem && bins.mem[p].size == s
    {
      LargeBins.StoredHeader(bins.mem, bins.treebins, bins.treemap, bins.trees, (p, s));
    }
  }

  lemma EmptySmall(small: seq<seq<nat>>)
    requires forall i :: 0 <= i < |small| ==> small[i] == []
    ensures SmallPairs(small) == {}
  {
  }

  /** A chunk that is free but not indexed is in no bin under any size. */
  lemma NotInBins(l: Layout, ix: Index, p: nat, s: nat)
    requires Tiled(l) && Free(l) == Pairs(ix) + {(p, s)} && (p, s) !in Pairs(ix)
    ensures forall c :: c in ix.large ==> c.0 != p
  {
    FreeFacts(l, (p, s));
    forall c | c in ix.large ensures c.0 != p {
      FreeFacts(l, c);
    }
  }

  // ---------------------------------------------------------------- choosing a chunk

  lemma FirstSmall(ix: Index, i: nat)
    requires IndexOk(ix) && i < NSMALLBINS && ix.smallmap[i]
    ensures (ix.small[i][0], 8 * i) in Pairs(ix)
  {
    SmallMember(ix.small, ix.small[i][0], 8 * i);
  }

  lemma ExactFit(l: Layout, ix: Index, end: nat, nb: nat, i: nat)
    requires Coherent(l, ix, end, {}) && nb % ALIGNMENT == 0 && nb / 8 <= i <= nb / 8 + 1 && i < NSMALLBINS && ix.smallmap[i]
    ensures 8 * i == nb && BestFree(l, ix.small[i][0], nb) && l.head[ix.small[i][0]].size == nb
  {
    FirstSmall(ix, i);
    FreeFacts(l, (ix.small[i][0], 8 * i));
  }

  lemma NextFit(l: Layout, ix: Index, end: nat, nb: nat, i: nat)
    requires Coherent(l, ix, end, {}) && nb % ALIGNMENT == 0 && nb / 8 <= i < NSMALLBINS && ix.smallmap[i] && ix.dvsize < nb
    requires forall j :: nb / 8 <= j < i ==> !ix.smallmap[j]
    ensures BestFree(l, ix.small[i][0], nb) && l.head[ix.small[i][0]].size == 8 * i
  {
    FirstSmall(ix, i);
    FreeFacts(l, (ix.small[i][0], 8 * i));
    SmallSizesFrom(ix, nb / 8, i);
  }

  lemma NoSmall(ix: Index, nb: nat)
    requires IndexOk(ix) && nb % ALIGNMENT == 0 && nb < MIN_LARGE && forall j :: nb / 8 <= j < NSMALLBINS ==> !ix.smallmap[j]
    ensures forall c :: c in SmallPairs(ix.small) ==> c.1 < nb
  {
    SmallSizesFrom(ix, nb / 8, NSMALLBINS);
    forall c | c in SmallPairs(ix.small) ensures c.1 < nb {
      var l, a :| 0 <= l < |ix.small| && a in ix.small[l] && c == (a, 8 * l);
    }
  }

  /** With nothing fitting outside the tree bins, a best fit there is a best fit. */
  lemma TreeFit(l: Layout, ix: Index, end: nat, nb: nat, p: nat, rsize: nat)
    requires Coherent(l, ix, end, {}) && ix.dvsize < nb && forall c :: c in SmallPairs(ix.small) ==> c.1 < nb
    requires (p, nb + rsize) in ix.large && forall c :: c in ix.large && c.1 >= nb ==> nb + rsize <= c.1
    ensures BestFree(l, p, nb) && l.head[p].size == nb + rsize && p != ix.dv && (p, nb + rsize) in Pairs(ix) && p != 0
  {
    FreeFacts(l, (p, nb + rsize));
    if p == ix.dv {
      assert (ix.dv, ix.dvsize) in Pairs(ix);
      FreeFacts(l, (ix.dv, ix.dvsize));
    }
  }

  lemma SmallBelow(ix: Index, nb: nat)
    requires IndexOk(ix) && nb >= MIN_LARGE
    ensures forall c :: c in SmallPairs(ix.small) ==> c.1 < nb
  {
    forall c | c in SmallPairs(ix.small) ensures c.1 < nb {
      var l, a :| 0 <= l < |ix.small| && a in ix.small[l] && c == (a, 8 * l);
    }
  }

  /** Chunk sizes lie where the tree index is right, so any request can be searched for. */
  lemma LargeAnswerable(l: Layout, ix: Index, end: nat, nb: nat)
    requires Coherent(l, ix, end, {}) && MIN_LARGE <= nb < WORD
    ensures Indexable(nb) || forall c :: c in ix.large ==> c.1 < nb
  {
    forall c | c in ix.large ensures c.1 < MAX_SEGMENT {
      FreeFacts(l, c);
      assert InSegment(l, l.top);
    }
  }

  /** The comparison of surpluses in `tmalloc_large`, a 64-bit subtraction, picks a best fit. */
  lemma TreeOrVictim(l: Layout, ix: Index, end: nat, nb: nat, p: nat, rsize: nat)
    requires Coherent(l, ix, end, {}) && nb < WORD && forall c :: c in SmallPairs(ix.small) ==> c.1 < nb
    requires p != 0 ==> (p, nb + rsize) in ix.large && forall c :: c in ix.large && c.1 >= nb ==> nb + rsize <= c.1
    requires p == 0 ==> forall c :: c in ix.large ==> c.1 < nb
    ensures ix.dvsize < WORD
    ensures p != 0 ==> p in l.head && l.head[p].size == nb + rsize && p != ix.dv && (p, nb + rsize) in Pairs(ix)
    ensures p != 0 && rsize < Sub64(ix.dvsize, nb) ==> BestFree(l, p, nb)
    ensures !(p != 0 && rsize < Sub64(ix.dvsize, nb)) ==> VictimBest(l, nb, ix.dvsize)
  {
    assert InSegment(l, l.top);
    if ix.dvsize != 0 {
      assert (ix.dv, ix.dvsize) in Pairs(ix);
      FreeFacts(l, (ix.dv, ix.dvsize));
    }
    if p != 0 {
      FreeFacts(l, (p, nb + rsize));
    }
  }

  /** No chunk is as large as the size that stands for "too big". */
  lemma NothingHuge(l: Layout, ix: Index, end: nat)
    requires Coherent(l, ix, end, {})
    ensures NoneFits(l, WORD - 1) && l.head[l.top].size < WORD - 1 && ix.dvsize < WORD - 1
  {
    assert InSegment(l, l.top);
    forall c | c in Free(l) ensures c.1 < WORD - 1 {
      FreeFacts(l, c);
    }
    assert ix.dvsize != 0 ==> (ix.dv, ix.dvsize) in Free(l);
  }

  /**
   The answer to a request of `nb` bytes: null exactly if nothing fits, else a new live chunk;
   `top` is cut only if no free chunk fits, and a free chunk that is taken is a best fit, or
   the victim for a small request.
   */
  ghost predicate Answer(l: Layout, l': Layout, dv: nat, nb: nat, small: bool, p: nat) {
    && l.top in l.head && (p == 0 <==> !Fits(l, nb)) && (p != 0 ==> Handed(l, l', p, nb))
    && (p != 0 ==> if NoneFits(l, nb) then p == l.top else BestFree(l, p, nb) || (small && p == dv))
  }

  lemma AnswerByBins(l: Layout, l': Layout, dv: nat, nb: nat, small: bool, p: nat)
    requires l.top in l.head && Handed(l, l', p, nb) && BestFree(l, p, nb)
    ensures Answer(l, l', dv, nb, small, p)
  {
  }

  /** What is left when the bins have nothing: the victim, or nothing but top. */
  lemma NothingBinned(l: Layout, ix: Index, end: nat, nb: nat, small: bool)
    requires Coherent(l, ix, end, {}) && nb > 0
    requires if small then nb <= ix.dvsize || NoneFits(l, nb) else VictimBest(l, nb, ix.dvsize)
    ensures Fits(l, nb) <==> nb <= ix.dvsize || nb < l.head[l.top].size
    ensures if nb <= ix.dvsize then !NoneFits(l, nb) && (small || BestFree(l, ix.dv, nb)) else NoneFits(l, nb)
  {
    if nb <= ix.dvsize {
      assert (ix.dv, ix.dvsize) in Free(l);
      FreeFacts(l, (ix.dv, ix.dvsize));
    }
  }

  // ---------------------------------------------------------------- freeing

  /** The victim, if it starts at `q`. */
  function VictimAt(ix: Index, q: nat): set<(nat, nat)> {
    if q == ix.dv then {(ix.dv, ix.dvsize)} else {}
  }

  /** A run that holds the victim becomes the victim. */
  lemma VictimCoherent(l: Layout, ix: Index, end: nat, q: nat, p: nat, e: nat, extra: set<(nat, nat)>)
    requires Coherent(l, ix, end, extra) && ix.dvsize != 0 && Run(l, q, p, e, extra + {(ix.dv, ix.dvsize)})
    ensures Coherent(MergeFree(l, q, e), ix.(dv := q, dvsize := e - q), end, {})
    ensures Live(MergeFree(l, q, e)) == Live(l) - {p} && MergeFree(l, q, e).head[l.top] == l.head[l.top]
  {
    assert InSegment(l, q) && InSegment(l, e);
    ForgetDv(l, ix, end, extra);
    SoundMerge(l, ix.(dv := 0, dvsize := 0), end, q, p, e, extra + {(ix.dv, ix.dvsize)});
    SetDv(MergeFree(l, q, e), ix.(dv := 0, dvsize := 0), end, q, e - q);
  }

  /** `q` is `p` itself, or the free chunk in front of it. */
  predicate InFront(l: Layout, q: nat, p: nat) {
    && q in l.starts && q in l.head && l.head[q].pinuse && q != l.top
    && (q == p || (q < p && End(l, q) == p && !l.head[q].cinuse))
  }

  function FrontPairs(q: nat, p: nat): set<(nat, nat)>
    requires q <= p
  {
    if q == p then {} else {(q, p - q)}
  }

  /** A run of up to three chunks: `q`, `p` and what lies behind `p`, up to `e`. */
  lemma RunOf(l: Layout, q: nat, p: nat, e: nat)
    requires Tiled(l) && p in Live(l) && InFront(l, q, p) && e in l.starts && e in l.head && l.head[e].cinuse
    requires e == End(l, p) || (End(l, p) in l.starts && End(l, p) in l.head && e == End(l, End(l, p)) && !l.head[End(l, p)].cinuse && End(l, p) != l.top)
    ensures Run(l, q, p, e, FrontPairs(q, p) + if e == End(l, p) then {} else {(End(l, p), e - End(l, p))})
  {
    var n := End(l, p);
    NextOfLive(l, p);
    assert ChunkOk(l, q) && ChunkOk(l, p) && (e != n ==> ChunkOk(l, n));
    forall a: nat | a in l.starts && q <= a < e ensures a == q || a == p || a == n {
      Between(l, q, p, a);
      assert n < a ==> Apart(l, n, a);
    }
    forall c ensures c in Free(l) && q <= c.0 < e <==> c in FrontPairs(q, p) + if e == n then {} else {(n, e - n)} {
      FreeMember(l, c);
    }
  }

  /** No chunk starts between `q`, `p` and the end of `p`. */
  lemma Between(l: Layout, q: nat, p: nat, a: nat)
    requires Tiled(l) && p in Live(l) && InFront(l, q, p) && a in l.starts && q <= a
    ensures a == q || a == p || End(l, p) <= a
  {
    assert q < a ==> Apart(l, q, a);
    assert p < a ==> Apart(l, p, a);
  }

  lemma NextUsed(l: Layout, q: nat, p: nat)
    requires Tiled(l) && p in Live(l) && InFront(l, q, p) && End(l, p) in l.head && l.head[End(l, p)].cinuse
    ensures Run(l, q, p, End(l, p), FrontPairs(q, p))
  {
    NextOfLive(l, p);
    RunOf(l, q, p, End(l, p));
    assert FrontPairs(q, p) + {} == FrontPairs(q, p);
  }

  lemma ToTop(l: Layout, q: nat, p: nat)
    requires Tiled(l) && p in Live(l) && InFront(l, q, p) && End(l, p) == l.top
    ensures RunToTop(l, q, p, FrontPairs(q, p))
  {
    forall a: nat | a in l.starts && q <= a ensures a == q || a == p || a == l.top {
      Between(l, q, p, a);
      assert InSegment(l, a);
    }
    assert ChunkOk(l, p);
    forall c ensures c in Free(l) && q <= c.0 <==> c in FrontPairs(q, p) {
      FreeMember(l, c);
    }
  }

  lemma NotVictim(l: Layout, ix: Index, end: nat, p: nat)
    requires Coherent(l, ix, end, {}) && p in Live(l) && l.head[p].pinuse
    ensures p != ix.dv && InFront(l, p, p)
  {
    assert InSegment(l, p);
    assert ix.dvsize != 0 ==> (ix.dv, ix.dvsize) in Free(l);
    FreeMember(l, (ix.dv, ix.dvsize));
  }

  lemma PrevFree(l: Layout, ix: Index, end: nat, p: nat)
    requires Coherent(l, ix, end, {}) && p in Live(l) && !l.head[p].pinuse
    ensures p in l.foot && 0 < l.foot[p] <= p && InFront(l, p - l.foot[p], p) && (p - l.foot[p], l.foot[p]) in Pairs(ix)
    ensures p - l.foot[p] == ix.dv ==> ix.dvsize == l.foot[p]
  {
    FreeInFront(l, p);
    var q := p - l.foot[p];
    FreeMember(l, (q, l.foot[p]));
    assert InSegment(l, q);
    if q == ix.dv {
      SameAddress(l, q, ix.dvsize, l.foot[p]);
    }
  }

  /** The free chunk behind `p` is indexed and ends the run. */
  lemma NextFree(l: Layout, ix: Index, end: nat, q: nat, p: nat, extra: set<(nat, nat)>, n: nat, s: nat)
    requires Coherent(l, ix, end, extra) && p in Live(l) && InFront(l, q, p) && extra + VictimAt(ix, q) == FrontPairs(q, p)
    requires n == End(l, p) && n in l.head && !l.head[n].cinuse && n != l.top && s == l.head[n].size
    ensures Run(l, q, p, n + s, FrontPairs(q, p) + {(n, s)}) && (n, s) in Pairs(ix) && (n, s) in Free(l)
  {
    NextOfLive(l, p);
    assert ChunkOk(l, n) && ChunkOk(l, p);
    FreeMember(l, (n, s));
    RunOf(l, q, p, n + s);
  }

  lemma NextIsVictim(l: Layout, ix: Index, end: nat, q: nat, p: nat, extra: set<(nat, nat)>, run: set<(nat, nat)>)
    requires Coherent(l, ix, end, extra) && p in Live(l) && InFront(l, q, p) && extra + VictimAt(ix, q) == FrontPairs(q, p)
    requires var n := End(l, p); n in l.head && !l.head[n].cinuse && n != l.top && n == ix.dv && run == FrontPairs(q, p) + {(n, l.head[n].size)}
    ensures Run(l, q, p, End(l, ix.dv), run) && ix.dvsize != 0 && run == extra + {(ix.dv, ix.dvsize)}
  {
    var n := End(l, p);
    NextFree(l, ix, end, q, p, extra, n, l.head[n].size);
    FreeFacts(l, (n, l.head[n].size));
    SameAddress(l, n, ix.dvsize, l.head[n].size);
    assert ChunkOk(l, p);
  }

  lemma NextIsBinned(l: Layout, ix: Index, end: nat, q: nat, p: nat, extra: set<(nat, nat)>, run: set<(nat, nat)>)
    requires Coherent(l, ix, end, extra) && p in Live(l) && InFront(l, q, p) && extra + VictimAt(ix, q) == FrontPairs(q, p)
    requires var n := End(l, p); n in l.head && !l.head[n].cinuse && n != l.top && n != ix.dv && run == FrontPairs(q, p) + {(n, l.head[n].size)}
    ensures var n := End(l, p); var s := l.head[n].size; Run(l, q, p, n + s, run) && (n, s) in Pairs(ix) && run == extra + {(n, s)} + VictimAt(ix, q)
  {
    var n := End(l, p);
    NextFree(l, ix, end, q, p, extra, n, l.head[n].size);
  }

  lemma TopCoherent(l: Layout, ix: Index, end: nat, q: nat, p: nat, extra: set<(nat, nat)>)
    requires Coherent(l, ix, end, extra) && RunToTop(l, q, p, extra + VictimAt(ix, q))
    ensures Coherent(MergeTop(l, q), if q == ix.dv then ix.(dv := 0, dvsize := 0) else ix, end, {})
    ensures Live(MergeTop(l, q)) == Live(l) - {p}
  {
    assert InSegment(l, q);
    if q == ix.dv {
      ForgetDv(l, ix, end, extra);
      SoundMergeTop(l, ix.(dv := 0, dvsize := 0), end, q, p, extra + {(ix.dv, ix.dvsize)});
    } else {
      assert extra + VictimAt(ix, q) == extra;
      SoundMergeTop(l, ix, end, q, p, extra);
    }
  }
}
