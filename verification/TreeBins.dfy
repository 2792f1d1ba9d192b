/**
 One tree bin in chunk memory: which trie the memory spells out, where the insertion
 loop and the replacement loop walk to, and what linking a chunk in or out does to the
 trie and to its set of stored chunks.
 */
module TreeBins {
  import opened Common
  import opened Bits
  import opened BinIndex
  import opened Trie
  import opened TrieMemory
  import opened TrieSurgery

  // ---------------------------------------------------------------- the state

  predicate SizesOfBin(t: Tree, i: nat) {
    forall s :: s in Sizes(t) ==> InBin(s, i)
  }

  /** One bin: its memory spells out a trie of its own size range; the map bit says whether it is empty. */
  predicate BinOk(m: Mem, root: nat, mark: bool, t: Tree, i: nat) {
    && i < NTREEBINS
    && Linked(m, root, t, Bin(i), i)
    && IsTrie(t, OpenBits(i), BinLow(i))
    && SizesOfBin(t, i)
    && (mark <==> t.Node?)
  }

  predicate BinsOk(m: Mem, roots: seq<nat>, marks: seq<bool>, trees: seq<Tree>) {
    && |roots| == |marks| == |trees| == NTREEBINS
    && forall i {:trigger BinOk(m, roots[i], marks[i], trees[i], i)} :: 0 <= i < NTREEBINS ==> BinOk(m, roots[i], marks[i], trees[i], i)
  }

  /** All stored chunks, as (address, size) pairs. */
  function Stored(trees: seq<Tree>): set<(nat, nat)> {
    set i, c | 0 <= i < |trees| && c in Chunks(trees[i]) :: c
  }

  // ---------------------------------------------------------------- changing one bin

  /** A change confined to bin `i` (and one chunk that no bin holds) leaves the other bins alone. */
  lemma OtherBins(m: Mem, m': Mem, roots: seq<nat>, marks: seq<bool>, trees: seq<Tree>, i: nat, x: nat,
                  root: nat, mark: bool, t: Tree)
    requires BinsOk(m, roots, marks, trees) && i < NTREEBINS
    requires BinOk(m', root, mark, t, i)
    requires forall j :: 0 <= j < NTREEBINS && j != i ==> x !in Addrs(trees[j])
    requires forall c :: c in m && m[c].index != i && c != x ==> c in m' && m'[c] == m[c]
    ensures BinsOk(m', roots[i := root], marks[i := mark], trees[i := t])
  {
    forall j | 0 <= j < NTREEBINS && j != i ensures BinOk(m', roots[j], marks[j], trees[j], j) {
      assert BinOk(m, roots[j], marks[j], trees[j], j);
      forall c | c in Addrs(trees[j]) ensures c in m && c in m' && m'[c] == m[c] {
        AddrSize(m, roots[j], trees[j], Bin(j), j, c);
      }
      LinkedFrame(m, m', roots[j], trees[j], Bin(j), j);
    }
  }

  /** What the change does to the stored set. */
  lemma StoredUpdate(trees: seq<Tree>, i: nat, t: Tree, gone: set<(nat, nat)>, new_: set<(nat, nat)>)
    requires i < |trees| && Chunks(t) == Chunks(trees[i]) - gone + new_
    requires forall j :: 0 <= j < |trees| && j != i ==> Chunks(trees[j]) !! gone
    ensures Stored(trees[i := t]) == Stored(trees) - gone + new_
  {
    var trees' := trees[i := t];
    forall c ensures c in Stored(trees') <==> c in Stored(trees) - gone + new_ {
      if c in Stored(trees') {
        var j :| 0 <= j < |trees'| && c in Chunks(trees'[j]);
        if j != i { assert c in Chunks(trees[j]); }
      }
      if c in new_ { assert c in Chunks(trees'[i]); }
      if c in Stored(trees) && c !in gone {
        var j :| 0 <= j < |trees| && c in Chunks(trees[j]);
        assert c in Chunks(trees'[j]);
      }
    }
  }

  /** A stored chunk lies in the bin its index field names. */
  lemma StoredWhere(m: Mem, roots: seq<nat>, marks: seq<bool>, trees: seq<Tree>, c: (nat, nat))
    requires BinsOk(m, roots, marks, trees) && c in Stored(trees)
    ensures c.0 in m && m[c.0].size == c.1 && m[c.0].index < NTREEBINS
    ensures InBin(c.1, m[c.0].index) && c in Chunks(trees[m[c.0].index]) && c.0 in Addrs(trees[m[c.0].index])
    ensures forall j :: 0 <= j < NTREEBINS && j != m[c.0].index ==> c.0 !in Addrs(trees[j])
  {
    var i :| 0 <= i < |trees| && c in Chunks(trees[i]);
    assert BinOk(m, roots[i], marks[i], trees[i], i);
    PairInMemory(m, roots[i], trees[i], Bin(i), i, c);
    ChunkSize(trees[i], c);
    AddrSize(m, roots[i], trees[i], Bin(i), i, c.0);
    forall j | 0 <= j < NTREEBINS && j != i ensures c.0 !in Addrs(trees[j]) {
      assert BinOk(m, roots[j], marks[j], trees[j], j);
      if c.0 in Addrs(trees[j]) { AddrSize(m, roots[j], trees[j], Bin(j), j, c.0); }
    }
  }

  lemma AddrStored(m: Mem, roots: seq<nat>, marks: seq<bool>, trees: seq<Tree>, x: nat, j: nat)
    requires BinsOk(m, roots, marks, trees) && j < NTREEBINS && x in Addrs(trees[j])
    ensures x in m && (x, m[x].size) in Stored(trees)
  {
    assert BinOk(m, roots[j], marks[j], trees[j], j);
    AddrSize(m, roots[j], trees[j], Bin(j), j, x);
  }

  /** An address no bin stores is in no tree. */
  lemma NotStored(m: Mem, roots: seq<nat>, marks: seq<bool>, trees: seq<Tree>, x: nat, j: nat)
    requires BinsOk(m, roots, marks, trees) && j < NTREEBINS
    requires forall c :: c in Stored(trees) ==> c.0 != x
    ensures x !in Addrs(trees[j])
  {
    if x in Addrs(trees[j]) {
      AddrStored(m, roots, marks, trees, x, j);
    }
  }

  // ---------------------------------------------------------------- the trees before and after

  /** The place of size `s` with chunk `x` added. */
  function Added(place: Tree, s: nat, x: nat): Tree
    requires place.Node? ==> |place.chain| > 0
  {
    if place.Nil? then Node(s, [x], Nil, Nil) else place.(chain := WithSecond(place.chain, x))
  }

  lemma AddedTree(t: Tree, b: nat, lo: nat, s: nat, x: nat)
    requires IsTrie(t, b, lo) && lo <= s < lo + Pow2(b)
    ensures var place := Sub(t, PathTo(t, b, lo, s)); place.Node? ==> place.size == s && |place.chain| > 0
    ensures var path := PathTo(t, b, lo, s);
            var t' := Graft(t, path, Added(Sub(t, path), s, x));
            IsTrie(t', b, lo) && Sizes(t') <= Sizes(t) + {s} && t'.Node? && Chunks(t') == Chunks(t) + {(x, s)}
  {
    SizeFound(t, b, lo, s);
    AddedFits(t, b, lo, s, x);
    var path := PathTo(t, b, lo, s);
    var u := Added(Sub(t, path), s, x);
    GraftIsTrie(t, b, lo, s, u);
    AddedChunks(t, b, lo, path, u, (x, s));
    GraftNode(t, path, u);
  }

  lemma AddedFits(t: Tree, b: nat, lo: nat, s: nat, x: nat)
    requires Placed(t, b, lo, s)
    ensures var path := PathTo(t, b, lo, s);
            var place := Sub(t, path);
            && (place.Node? ==> place.size == s && |place.chain| > 0)
            && var u := Added(place, s, x);
               u.Node? && IsTrie(u, b - Depth(path), LowAt(t, b, lo, s)) && Sizes(u) <= Sizes(place) + {s} && Chunks(u) == Chunks(place) + {(x, s)}
  {
    var path := PathTo(t, b, lo, s);
    AddedPlace(Sub(t, path), b - Depth(path), LowAt(t, b, lo, s), s, x);
  }

  lemma GraftNode(t: Tree, path: Path, u: Tree)
    requires Leads(t, path) && u.Node?
    ensures Graft(t, path, u).Node?
  {
  }

  lemma AddedChunks(t: Tree, b: nat, lo: nat, path: Path, u: Tree, c: (nat, nat))
    requires IsTrie(t, b, lo) && Leads(t, path) && Chunks(u) == Chunks(Sub(t, path)) + {c}
    ensures Chunks(Graft(t, path, u)) == Chunks(t) + {c}
  {
    TrieOneNodePerSize(t, b, lo);
    GraftChunks(t, path, u);
  }

  lemma AddedPlace(place: Tree, b: nat, lo: nat, s: nat, x: nat)
    requires IsTrie(place, b, lo) && lo <= s < lo + Pow2(b) && (place.Node? ==> place.size == s)
    ensures var u := Added(place, s, x);
            IsTrie(u, b, lo) && Sizes(u) <= Sizes(place) + {s} && Chunks(u) == Chunks(place) + {(x, s)}
  {
    if place.Node? {
      WithSecondPairs(place.chain, x, s);
    } else {
      assert RingPairs([x], s) == {(x, s)};
    }
  }

  lemma WithSecondPairs(ch: seq<nat>, x: nat, s: nat)
    requires |ch| > 0
    ensures RingPairs(WithSecond(ch, x), s) == RingPairs(ch, s) + {(x, s)}
  {
    assert forall c :: c in WithSecond(ch, x) <==> c in ch || c == x;
  }

  /** A node without the `k`-th chunk of its ring. */
  function Removed(place: Tree, k: nat): Tree
    requires place.Node? && k < |place.chain|
  {
    if |place.chain| > 1 then place.(chain := Without(place.chain, k)) else DropNode(place)
  }

  lemma RemovedPlace(place: Tree, b: nat, lo: nat, k: nat)
    requires IsTrie(place, b, lo) && place.Node? && k < |place.chain| && Distinct(place.chain)
    ensures var u := Removed(place, k);
            var c := (place.chain[k], place.size);
            IsTrie(u, b, lo) && Sizes(u) <= Sizes(place) && c in Chunks(place) && Chunks(u) == Chunks(place) - {c}
  {
    var c := (place.chain[k], place.size);
    assert c in RingPairs(place.chain, place.size);
    if c in Chunks(place.left) { ChunkSize(place.left, c); }
    if c in Chunks(place.right) { ChunkSize(place.right, c); }
    if |place.chain| > 1 {
      WithoutPairs(place.chain, k, place.size);
    } else {
      DropIsTrie(place, b, lo);
      DropChunks(place);
      assert RingPairs(place.chain, place.size) == {c};
      if c in Chunks(DropNode(place)) { ChunkSize(DropNode(place), c); }
    }
  }

  lemma WithoutPairs(ch: seq<nat>, k: nat, s: nat)
    requires |ch| > 1 && k < |ch| && Distinct(ch)
    ensures RingPairs(Without(ch, k), s) == RingPairs(ch, s) - {(ch[k], s)}
  {
    WithoutMembers(ch, k);
  }

  lemma RemovedTree(t: Tree, b: nat, lo: nat, s: nat, k: nat)
    requires IsTrie(t, b, lo) && lo <= s < lo + Pow2(b)
    requires var place := Sub(t, PathTo(t, b, lo, s)); place.Node? && k < |place.chain| && Distinct(place.chain)
    ensures var path := PathTo(t, b, lo, s);
            var place := Sub(t, path);
            var t' := Graft(t, path, Removed(place, k));
            IsTrie(t', b, lo) && Sizes(t') <= Sizes(t) && Chunks(t') == Chunks(t) - {(place.chain[k], s)}
  {
    SizeFound(t, b, lo, s);
    RemovedFits(t, b, lo, s, k);
    var path := PathTo(t, b, lo, s);
    var place := Sub(t, path);
    GraftIsTrie(t, b, lo, s, Removed(place, k));
    RemovedChunks(t, b, lo, path, Removed(place, k), (place.chain[k], s));
  }

  lemma RemovedFits(t: Tree, b: nat, lo: nat, s: nat, k: nat)
    requires Placed(t, b, lo, s)
    requires var place := Sub(t, PathTo(t, b, lo, s)); place.Node? && k < |place.chain| && Distinct(place.chain)
    ensures var path := PathTo(t, b, lo, s);
            var place := Sub(t, path);
            var u, c := Removed(place, k), (place.chain[k], s);
            IsTrie(u, b - Depth(path), LowAt(t, b, lo, s)) && Sizes(u) <= Sizes(place) && c in Chunks(place) && Chunks(u) == Chunks(place) - {c}
  {
    RemovedHere(Sub(t, PathTo(t, b, lo, s)), b - Depth(PathTo(t, b, lo, s)), LowAt(t, b, lo, s), s, k);
  }

  lemma RemovedHere(place: Tree, b: nat, lo: nat, s: nat, k: nat)
    requires IsTrie(place, b, lo) && place.Node? && place.size == s && k < |place.chain| && Distinct(place.chain)
    ensures var u, c := Removed(place, k), (place.chain[k], s); IsTrie(u, b, lo) && Sizes(u) <= Sizes(place) && c in Chunks(place) && Chunks(u) == Chunks(place) - {c}
  {
    RemovedPlace(place, b, lo, k);
  }

  lemma RemovedChunks(t: Tree, b: nat, lo: nat, path: Path, u: Tree, c: (nat, nat))
    requires IsTrie(t, b, lo) && Leads(t, path) && Chunks(u) == Chunks(Sub(t, path)) - {c} && c in Chunks(Sub(t, path))
    ensures Chunks(Graft(t, path, u)) == Chunks(t) - {c}
  {
    TrieOneNodePerSize(t, b, lo);
    GraftChunks(t, path, u);
  }

  // ---------------------------------------------------------------- walking down a bin

  /** The next `b` turns that the key register spells out, sign bit first. */
  function Turns(k: nat, b: nat): Path
    requires k < WORD
    decreases b
  {
    if b == 0 then Here else Go(TopBit(k) == 1, Turns(Double(k), b - 1))
  }

  /** The turns towards size `s` in a range of length `2^b` from `lo`. */
  function SizeTurns(s: nat, b: nat, lo: nat): Path {
    if b == 0 then Here else Go(Upper(s, b, lo), SizeTurns(s, b - 1, Half(Upper(s, b, lo), b, lo)))
  }

  /** The key register of the source spells out the turns towards the size. */
  lemma {:induction false} KeySpellsTurns(k: nat, s: nat, b: nat, lo: nat)
    requires b <= 64 && lo <= s < lo + Pow2(b) && k < WORD && k == Scale(s - lo, 64 - b)
    ensures Turns(k, b) == SizeTurns(s, b, lo)
    decreases b
  {
    if b > 0 {
      KeyStep(s - lo, b);
      KeySpellsTurns(Double(k), s, b - 1, Half(Upper(s, b, lo), b, lo));
    }
  }

  /** Following turns until the size is met or the tree ends. */
  function Follow(t: Tree, s: nat, turns: Path): (path: Path)
    ensures Leads(t, path)
  {
    if t.Nil? || t.size == s || turns.Here? then Here
    else Go(turns.right, Follow(Side(t, turns.right), s, turns.rest))
  }

  /** The turns do not run out before the size or the end of the tree. */
  predicate Suffices(t: Tree, s: nat, turns: Path) {
    t.Node? && t.size != s ==> turns.Go? && Suffices(Side(t, turns.right), s, turns.rest)
  }

  lemma {:induction false} TurnsLead(t: Tree, s: nat, b: nat, lo: nat)
    requires IsTrie(t, b, lo) && lo <= s < lo + Pow2(b)
    ensures Follow(t, s, SizeTurns(s, b, lo)) == PathTo(t, b, lo, s)
    ensures Suffices(t, s, SizeTurns(s, b, lo))
    decreases t
  {
    if t.Node? && t.size != s {
      ChosenSide(t, b, lo, s);
      TurnsLead(Side(t, Upper(s, b, lo)), s, b - 1, Half(Upper(s, b, lo), b, lo));
    }
  }

  /** Where a walk ends: at chunk `p` of the wanted size, or at its empty right or left pointer. */
  datatype Walk = Stuck | Found(p: nat) | Empty(p: nat, right: bool)

  /** The walk of insertion through memory. */
  function WalkFrom(m: Mem, p: nat, s: nat, turns: Path): Walk
    decreases turns
  {
    if p !in m then Stuck
    else if m[p].size == s then Found(p)
    else if turns.Here? then Stuck
    else
      var next := SideOf(m[p], turns.right);
      if next == 0 then Empty(p, turns.right) else WalkFrom(m, next, s, turns.rest)
  }

  /** The walk ended at this place of the tree, held by that pointer. */
  predicate Arrived(m: Mem, w: Walk, place: Tree, hold: Hold, idx: nat) {
    match w
    case Stuck => false
    case Found(q) => place.Node? && |place.chain| > 0 && q == place.chain[0] && Linked(m, q, place, hold.up, idx)
    case Empty(q, right) => place.Nil? && hold == Hold(Child(q), right)
  }

  /** The walk finds the chunk of that size, or the empty pointer where it belongs. */
  lemma {:induction false} WalkArrives(m: Mem, idx: nat, s: nat, p: nat, t: Tree, turns: Path, h: Hold)
    requires t.Node? && Apart(t) && Linked(m, p, t, h.up, idx) && Suffices(t, s, turns)
    ensures Arrived(m, WalkFrom(m, p, s, turns), Sub(t, Follow(t, s, turns)), Holder(t, Follow(t, s, turns), h), idx)
    decreases t
  {
    LinkedRoot(m, p, t, h.up, idx);
    if t.size != s {
      var son, next := Side(t, turns.right), SideOf(m[p], turns.right);
      LinkedRoot(m, next, son, Child(p), idx);
      if son.Node? {
        WalkArrives(m, idx, s, next, son, turns.rest, Hold(Child(p), turns.right));
      }
    }
  }

  /** The loop of `insert_large_chunk` up to the place where the chunk goes. */
  method FindPlace(m: Mem, root: nat, s: nat, shift: nat, ghost b0: nat) returns (w: Walk)
    requires s < WORD && !WalkFrom(m, root, s, Turns(Shl(s, shift), b0)).Stuck?
    ensures w == WalkFrom(m, root, s, Turns(Shl(s, shift), b0))
  {
    var p, k: nat := root, Shl(s, shift);
    ghost var b: nat := b0;
    while m[p].size != s
      invariant k < WORD && p in m
      invariant WalkFrom(m, p, s, Turns(k, b)) == WalkFrom(m, root, s, Turns(Shl(s, shift), b0))
      decreases b
    {
      var right := TopBit(k) == 1;
      k := Double(k);
      if SideOf(m[p], right) == 0 {
        return Empty(p, right);
      }
      p := SideOf(m[p], right);
      b := b - 1;
    }
    return Found(p);
  }

  // ---------------------------------------------------------------- insertion

  /** The pointer writes once the walk has ended; `x` is initialised but for its links. */
  function LinkIn(m: Mem, w: Walk, x: nat): Mem
    requires !w.Stuck? && x in m && w.p in m && w.p != x
    requires w.Found? ==> m[w.p].fd in m && m[w.p].fd != x
  {
    match w
    case Found(q) => SpliceIn(m, q, x)
    case Empty(q, right) =>
      var m1 := m[q := Redirect(m[q], right, x)];
      m1[x := m1[x].(fd := x, bk := x, parent := Child(q))]
  }

  /** A chunk of the size exists: the new one joins its ring. */
  lemma LinkInFound(m: Mem, root: nat, t: Tree, i: nat, path: Path, x: nat, q: nat)
    requires Apart(t) && Linked(m, root, t, Bin(i), i) && Leads(t, path)
    requires Arrived(m, Found(q), Sub(t, path), Holder(t, path, Hold(Bin(i), false)), i)
    requires x in m && x != 0 && x !in Addrs(t) && m[x].size == Sub(t, path).size && m[x].index == i && m[x].left == 0 && m[x].right == 0
    ensures q in m && q != x && m[q].fd in m && m[q].fd != x
    ensures var m' := SpliceIn(m, q, x);
            && Linked(m', root, Graft(t, path, Added(Sub(t, path), Sub(t, path).size, x)), Bin(i), i)
            && forall c :: c in m && c !in Addrs(t) && c != x ==> m'[c] == m[c]
  {
    var place, h0 := Sub(t, path), Hold(Bin(i), false);
    var h := Holder(t, path, h0);
    SubInside(t, path);
    SubApart(t, path);
    JoinRing(m, q, place, h.up, i, x);
    var m' := SpliceIn(m, q, x);
    if path.Go? { HolderPoints(m, root, t, i, path, h0); }
    HolderInside(t, path, h0);
    forall c | c in Addrs(t) - Addrs(place) ensures c in m && c in m' && m'[c] == Led(m[c], c, h, q) {
      AddrSize(m, root, t, Bin(i), i, c);
    }
    Replace(m, m', root, t, i, path, place.(chain := WithSecond(place.chain, x)), q, h0);
  }

  /** The size is new: the chunk becomes a leaf at the empty pointer. */
  lemma LinkInEmpty(m: Mem, root: nat, t: Tree, i: nat, path: Path, x: nat, q: nat, right: bool, s: nat)
    requires Apart(t) && Linked(m, root, t, Bin(i), i) && Leads(t, path) && path.Go?
    requires Arrived(m, Empty(q, right), Sub(t, path), Holder(t, path, Hold(Bin(i), false)), i)
    requires x in m && x != 0 && x !in Addrs(t) && m[x].size == s && m[x].index == i && m[x].left == 0 && m[x].right == 0
    ensures q in m && q != x
    ensures var m' := LinkIn(m, Empty(q, right), x);
            && Linked(m', root, Graft(t, path, Node(s, [x], Nil, Nil)), Bin(i), i)
            && forall c :: c in m && c !in Addrs(t) && c != x ==> m'[c] == m[c]
  {
    var h0 := Hold(Bin(i), false);
    HolderInside(t, path, h0);
    AddrSize(m, root, t, Bin(i), i, q);
    var m' := LinkIn(m, Empty(q, right), x);
    LeafLinked(m', x, s, Child(q), i);
    EmptyLed(m, root, t, i, x, q, right);
    Replace(m, m', root, t, i, path, Node(s, [x], Nil, Nil), x, h0);
  }

  /** Linking a chunk below `q` changes one pointer of `q` and the chunk. */
  lemma EmptyLed(m: Mem, root: nat, t: Tree, i: nat, x: nat, q: nat, right: bool)
    requires Linked(m, root, t, Bin(i), i) && x in m && x !in Addrs(t) && q in m && q != x
    ensures var m' := LinkIn(m, Empty(q, right), x);
            forall c :: c in Addrs(t) ==> c in m && c in m' && m'[c] == Led(m[c], c, Hold(Child(q), right), x)
  {
    var m' := LinkIn(m, Empty(q, right), x);
    forall c | c in Addrs(t) ensures c in m && c in m' && m'[c] == Led(m[c], c, Hold(Child(q), right), x) {
      AddrSize(m, root, t, Bin(i), i, c);
    }
  }

  lemma LeafLinked(m: Mem, x: nat, s: nat, up: Up, i: nat)
    requires x != 0 && x in m && m[x] == TChunk(s, x, x, 0, 0, up, i)
    ensures Linked(m, x, Node(s, [x], Nil, Nil), up, i)
  {
    var ch := [x];
    assert RingNode(m, ch[0], Prev(ch, 0), Next(ch, 0), s, i);
  }

  /** Insertion into one bin: the chunk is added and nothing else changes. */
  lemma InsertedBin(m: Mem, root: nat, t: Tree, i: nat, s: nat, x: nat, w: Walk)
    requires BinOk(m, root, true, t, i) && InBin(s, i) && s < WORD
    requires x in m && x != 0 && x !in Addrs(t) && m[x] == TChunk(s, x, x, 0, 0, Bin(i), i)
    requires w == WalkFrom(m, root, s, SizeTurns(s, OpenBits(i), BinLow(i)))
    ensures !w.Stuck? && w.p in m && w.p != x && (w.Found? ==> m[w.p].fd in m && m[w.p].fd != x)
    ensures var m' := LinkIn(m, w, x);
            var path := PathTo(t, OpenBits(i), BinLow(i), s);
            && (Sub(t, path).Node? ==> |Sub(t, path).chain| > 0)
            && var t' := Graft(t, path, Added(Sub(t, path), s, x));
            && BinOk(m', root, true, t', i) && Chunks(t') == Chunks(t) + {(x, s)}
            && forall c :: c in m && c !in Addrs(t) && c != x ==> c in m' && m'[c] == m[c]
  {
    BinApart(m, root, t, i);
    assert BinLow(i) <= s < BinLow(i) + Pow2(OpenBits(i)) by {
      BinRange(s, i);
    }
    InsertedIn(m, root, t, i, OpenBits(i), BinLow(i), s, x, w);
  }

  lemma InsertedIn(m: Mem, root: nat, t: Tree, i: nat, b: nat, lo: nat, s: nat, x: nat, w: Walk)
    requires i < NTREEBINS && b == OpenBits(i) && lo == BinLow(i) && t.Node? && Apart(t) && Linked(m, root, t, Bin(i), i) && IsTrie(t, b, lo) && lo <= s < lo + Pow2(b)
    requires SizesOfBin(t, i) && InBin(s, i) && x in m && x != 0 && x !in Addrs(t) && m[x] == TChunk(s, x, x, 0, 0, Bin(i), i)
    requires w == WalkFrom(m, root, s, SizeTurns(s, b, lo))
    ensures !w.Stuck? && w.p in m && w.p != x && (w.Found? ==> m[w.p].fd in m && m[w.p].fd != x)
    ensures var m' := LinkIn(m, w, x);
            var path := PathTo(t, b, lo, s);
            && (Sub(t, path).Node? ==> |Sub(t, path).chain| > 0)
            && var t' := Graft(t, path, Added(Sub(t, path), s, x));
            && BinOk(m', root, true, t', i) && Chunks(t') == Chunks(t) + {(x, s)}
            && forall c :: c in m && c !in Addrs(t) && c != x ==> c in m' && m'[c] == m[c]
  {
    InsertedTree(m, root, t, i, b, lo, s, x, w);
    var path := PathTo(t, b, lo, s);
    GrownBin(LinkIn(m, w, x), root, t, Graft(t, path, Added(Sub(t, path), s, x)), i, s);
  }

  lemma BinApart(m: Mem, root: nat, t: Tree, i: nat)
    requires BinOk(m, root, true, t, i)
    ensures Apart(t)
  {
    TrieOneNodePerSize(t, OpenBits(i), BinLow(i));
    TrieApart(m, root, t, Bin(i), i);
  }

  lemma GrownBin(m: Mem, root: nat, t: Tree, t': Tree, i: nat, s: nat)
    requires i < NTREEBINS && SizesOfBin(t, i) && InBin(s, i) && Sizes(t') <= Sizes(t) + {s} && t'.Node?
    requires Linked(m, root, t', Bin(i), i) && IsTrie(t', OpenBits(i), BinLow(i))
    ensures BinOk(m, root, true, t', i)
  {
  }

  lemma InsertedTree(m: Mem, root: nat, t: Tree, i: nat, b: nat, lo: nat, s: nat, x: nat, w: Walk)
    requires t.Node? && Apart(t) && Linked(m, root, t, Bin(i), i) && IsTrie(t, b, lo) && lo <= s < lo + Pow2(b)
    requires x in m && x != 0 && x !in Addrs(t) && m[x] == TChunk(s, x, x, 0, 0, Bin(i), i)
    requires w == WalkFrom(m, root, s, SizeTurns(s, b, lo))
    ensures !w.Stuck? && w.p in m && w.p != x && (w.Found? ==> m[w.p].fd in m && m[w.p].fd != x)
    ensures var m' := LinkIn(m, w, x);
            var path := PathTo(t, b, lo, s);
            && (Sub(t, path).Node? ==> |Sub(t, path).chain| > 0)
            && var t' := Graft(t, path, Added(Sub(t, path), s, x));
            && Linked(m', root, t', Bin(i), i) && IsTrie(t', b, lo) && Sizes(t') <= Sizes(t) + {s} && t'.Node?
            && Chunks(t') == Chunks(t) + {(x, s)}
            && forall c :: c in m && c !in Addrs(t) && c != x ==> c in m' && m'[c] == m[c]
  {
    var path, h0 := PathTo(t, b, lo, s), Hold(Bin(i), false);
    TurnsLead(t, s, b, lo);
    WalkArrives(m, i, s, root, t, SizeTurns(s, b, lo), h0);
    AddedTree(t, b, lo, s, x);
    if w.Found? {
      LinkInFound(m, root, t, i, path, x, w.p);
    } else {
      LinkInEmpty(m, root, t, i, path, x, w.p, w.right, s);
    }
  }

  // ---------------------------------------------------------------- removal

  /** A stored chunk is in the ring at the place of its size. */
  lemma {:induction false} ChunkAtPlace(t: Tree, b: nat, lo: nat, x: nat, s: nat)
    requires IsTrie(t, b, lo) && lo <= s < lo + Pow2(b) && (x, s) in Chunks(t)
    ensures var place := Sub(t, PathTo(t, b, lo, s)); place.Node? && place.size == s && x in place.chain
    decreases t
  {
    if (x, s) in Chunks(t.left) { ChunkSize(t.left, (x, s)); }
    if (x, s) in Chunks(t.right) { ChunkSize(t.right, (x, s)); }
    if t.size != s {
      ChosenSide(t, b, lo, s);
      ChunkAtPlace(Side(t, Upper(s, b, lo)), b - 1, Half(Upper(s, b, lo), b, lo), x, s);
    }
  }

  /** Everything removal reads about the place of a stored chunk. */
  lemma PlaceInMemory(m: Mem, root: nat, t: Tree, i: nat, path: Path)
    requires Apart(t) && Linked(m, root, t, Bin(i), i) && Leads(t, path) && Sub(t, path).Node?
    ensures var place, h := Sub(t, path), Holder(t, path, Hold(Bin(i), false));
            && Apart(place) && |place.chain| > 0 && Linked(m, place.chain[0], place, h.up, i)
            && (path.Here? <==> root == place.chain[0]) && (path.Here? ==> h.up == Bin(i))
            && (path.Go? ==> h.up.Child? && h.up.addr in m && h.up.addr !in Addrs(place))
            && (path.Go? ==> SideOf(m[h.up.addr], h.right) == place.chain[0] != SideOf(m[h.up.addr], !h.right))
  {
    var h0 := Hold(Bin(i), false);
    SubApart(t, path);
    HolderInside(t, path, h0);
    LinkedRoot(m, root, t, Bin(i), i);
    if path.Go? {
      HolderPoints(m, root, t, i, path, h0);
      HolderOutside(t, path, h0);
      RootAbove(t, path);
    }
  }

  /** The root's chunks do not occur further down. */
  lemma RootAbove(t: Tree, path: Path)
    requires Apart(t) && Leads(t, path) && path.Go?
    ensures forall c :: c in t.chain ==> c !in Addrs(Sub(t, path))
  {
    SubInside(Side(t, path.right), path.rest);
  }

  /** A younger chunk of a ring is spliced out. */
  lemma UnlinkTail(m: Mem, root: nat, t: Tree, i: nat, path: Path, k: nat)
    requires Apart(t) && Linked(m, root, t, Bin(i), i) && Leads(t, path)
    requires Sub(t, path).Node? && 0 < k < |Sub(t, path).chain|
    ensures var place := Sub(t, path);
            var x := place.chain[k];
            && x in m && m[x].fd in m && m[x].bk in m && m[x].bk != x && m[x].parent == Chained
            && Linked(SpliceOut(m, x), root, Graft(t, path, Removed(place, k)), Bin(i), i)
            && forall c :: c in m && c !in Addrs(t) ==> SpliceOut(m, x)[c] == m[c]
  {
    var place, h0 := Sub(t, path), Hold(Bin(i), false);
    var h := Holder(t, path, h0);
    PlaceInMemory(m, root, t, i, path);
    SubInside(t, path);
    LeaveRing(m, place.chain[0], place, h.up, i, k);
    RingAlone(m, place, i, k);
    var m' := SpliceOut(m, place.chain[k]);
    forall c | c in Addrs(t) - Addrs(place) ensures c in m && c in m' && m'[c] == Led(m[c], c, h, place.chain[0]) {
      AddrSize(m, root, t, Bin(i), i, c);
    }
    Replace(m, m', root, t, i, path, Removed(place, k), place.chain[0], h0);
  }

  /** A chunk is its own neighbour exactly when it is alone. */
  lemma RingAlone(m: Mem, place: Tree, i: nat, k: nat)
    requires place.Node? && k < |place.chain| && Ring(m, place.chain, place.size, i)
    ensures place.chain[k] in m && m[place.chain[k]].bk == Prev(place.chain, k)
    ensures m[place.chain[k]].bk != place.chain[k] <==> |place.chain| > 1
  {
    assert RingNode(m, place.chain[k], Prev(place.chain, k), Next(place.chain, k), place.size, i);
  }

  /** What remains to be hung into the place once the oldest chunk `x` is out. */
  predicate Detached(m: Mem, m1: Mem, place: Tree, u: Tree, x: nat, i: nat) {
    && m1.Keys == m.Keys && x in m1 && x !in Addrs(u)
    && u.Node? && Apart(u) && Addrs(u) <= Addrs(place)
    && Ring(m1, u.chain, u.size, i) && Tail(m1, u.chain)
    && u.chain[0] in m1 && m1[u.chain[0]].left == 0 && m1[u.chain[0]].right == 0
    && Linked(m1, m1[x].left, u.left, Child(x), i) && Linked(m1, m1[x].right, u.right, Child(x), i)
    && forall c :: c in m && c !in Addrs(place) ==> m1[c] == m[c]
  }

  /** The oldest of several chunks: the youngest takes its position. */
  lemma DetachRing(m: Mem, place: Tree, up: Up, i: nat)
    requires place.Node? && Apart(place) && |place.chain| > 1 && Linked(m, place.chain[0], place, up, i)
    ensures var x := place.chain[0];
            && x in m && m[x].fd in m && m[x].bk in m && m[x].bk != x && m[x].parent == up
            && Detached(m, SpliceOut(m, x), place, Removed(place, 0), x, i)
            && m[x].bk == Removed(place, 0).chain[0]
  {
    LeaveAsRoot(m, place.chain[0], place, up, i);
    RingAlone(m, place, i, 0);
    OldestGone(place);
    LinkedParent(m, place.chain[0], place, up, i);
  }

  lemma OldestGone(place: Tree)
    requires place.Node? && Apart(place) && |place.chain| > 1 && Distinct(place.chain)
    ensures place.chain[0] !in Addrs(place.(chain := Without(place.chain, 0)))
  {
    WithoutMembers(place.chain, 0);
  }

  lemma LinkedParent(m: Mem, a: nat, t: Tree, up: Up, idx: nat)
    requires t.Node? && Linked(m, a, t, up, idx)
    ensures a in m && m[a].parent == up
  {
  }

  /** The only chunk of an inner node: the rightmost leaf takes its position. */
  lemma DetachLeaf(m: Mem, place: Tree, up: Up, i: nat, r: nat, h: Hold)
    requires place.Node? && Apart(place) && |place.chain| == 1 && Linked(m, place.chain[0], place, up, i)
    requires place.left.Node? || place.right.Node?
    requires Leads(place, RightPath(place)) && h == Holder(place, RightPath(place), Hold(up, false))
    requires Linked(m, r, Sub(place, RightPath(place)), h.up, i)
    ensures h.up.Child? && h.up.addr in m
    ensures var x := place.chain[0];
            var m1 := m[h.up.addr := Redirect(m[h.up.addr], h.right, 0)];
            && DropNode(place).Node? && |DropNode(place).chain| > 0 && r == DropNode(place).chain[0]
            && Detached(m, m1, place, DropNode(place), x, i)
  {
    var x, path := place.chain[0], RightPath(place);
    var leaf := Sub(place, path);
    DropByLeaf(place);
    CutLeaf(m, x, place, up, i, r, h);
    LinkedRoot(m, x, place, up, i);
    DropsRoot(place);
  }

  /** The dropped chunk does not occur in what replaces it. */
  lemma DropsRoot(place: Tree)
    requires place.Node? && Apart(place) && |place.chain| == 1 && (place.left.Node? || place.right.Node?)
    ensures place.chain[0] !in Addrs(DropNode(place))
  {
    DropByLeaf(place);
    var path := RightPath(place);
    var son := Side(place, path.right);
    SubInside(son, path.rest);
    PruneApart(son, path.rest);
    assert place.chain[0] in place.chain;
  }

  /** Redirecting the holder and crowning the replacement completes the removal. */
  lemma Reattach(m: Mem, m1: Mem, root: nat, t: Tree, i: nat, path: Path, u: Tree, x: nat)
    requires Apart(t) && Linked(m, root, t, Bin(i), i) && Leads(t, path) && Sub(t, path).Node?
    requires Detached(m, m1, Sub(t, path), u, x, i)
    ensures var h, r := Holder(t, path, Hold(Bin(i), false)), u.chain[0];
            && (h.up.Child? ==> h.up.addr in m1)
            && (m1[x].left != 0 ==> m1[x].left in m1) && (m1[x].right != 0 ==> m1[x].right in m1)
            && r in m1 && r != m1[x].left && r != m1[x].right && (m1[x].left != 0 ==> m1[x].left != m1[x].right)
            && var m3 := Crown(Point(m1, h, r), r, h.up, m1[x].left, m1[x].right);
            && Linked(m3, if path.Here? then r else root, Graft(t, path, u), Bin(i), i)
            && forall c :: c in m && c !in Addrs(t) ==> m3[c] == m[c]
  {
    var h0 := Hold(Bin(i), false);
    var c0, c1 := m1[x].left, m1[x].right;
    PlaceInMemory(m, root, t, i, path);
    SubInside(t, path);
    HolderInside(t, path, h0);
    CrownDistinct(m1, u, c0, c1, Child(x), Child(x), i);
    Regraft(m, m1, root, t, i, path, h0, u, c0, c1, Child(x), Child(x));
  }

  // ---------------------------------------------------------------- the steps of unlink_large_chunk

  /** Walk to the rightmost leaf below `r0`, remembering the pointer that leads there. */
  method FindLeaf(m: Mem, r0: nat, h0: Hold, ghost t: Tree, ghost i: nat) returns (r: nat, h: Hold)
    requires t.Node? && Apart(t) && Linked(m, r0, t, h0.up, i)
    ensures Leads(t, RightPath(t)) && h == Holder(t, RightPath(t), h0) && Linked(m, r, Sub(t, RightPath(t)), h.up, i)
  {
    r, h := r0, h0;
    ghost var cur := t;
    RightPathLeaf(t);
    LinkedRoot(m, r, cur, h.up, i);
    while m[r].right != 0 || m[r].left != 0
      invariant cur.Node? && Apart(cur) && Linked(m, r, cur, h.up, i) && r in m
      invariant Leads(cur, RightPath(cur)) && Sub(cur, RightPath(cur)) == Sub(t, RightPath(t))
      invariant Holder(cur, RightPath(cur), h) == Holder(t, RightPath(t), h0)
      decreases cur
    {
      var right := m[r].right != 0;
      LinkedRoot(m, m[r].right, cur.right, Child(r), i);
      LinkedRoot(m, m[r].left, cur.left, Child(r), i);
      cur, h, r := Side(cur, right), Hold(Child(r), right), SideOf(m[r], right);
      LinkedRoot(m, r, cur, h.up, i);
    }
    LinkedRoot(m, m[r].right, cur.right, Child(r), i);
    LinkedRoot(m, m[r].left, cur.left, Child(r), i);
  }

  /** Cut the rightmost leaf below chunk `x`, the only one of its size; 0 if `x` is a leaf. */
  method CutReplacement(m: Mem, x: nat, ghost place: Tree, ghost up: Up, ghost i: nat) returns (m1: Mem, r: nat)
    requires place.Node? && Apart(place) && |place.chain| == 1 && place.chain[0] == x && Linked(m, x, place, up, i)
    ensures r == 0 ==> m1 == m && DropNode(place).Nil?
    ensures r != 0 ==> Detached(m, m1, place, DropNode(place), x, i) && r == DropNode(place).chain[0]
  {
    LinkedRoot(m, x, place, up, i);
    LinkedRoot(m, m[x].left, place.left, Child(x), i);
    LinkedRoot(m, m[x].right, place.right, Child(x), i);
    m1, r := m, if m[x].right != 0 then m[x].right else m[x].left;
    if r != 0 {
      var right := m[x].right != 0;
      var h;
      r, h := FindLeaf(m, r, Hold(Child(x), right), Side(place, right), i);
      DropByLeaf(place);
      DetachLeaf(m, place, up, i, r, h);
      m1 := m[h.up.addr := Redirect(m[h.up.addr], h.right, 0)];
      LinkedRoot(m, r, Sub(place, RightPath(place)), h.up, i);
    }
  }

  /** Give replacement `r` the parent and the children of `x`. */
  method TakeOver(m: Mem, x: nat, r: nat, up: Up) returns (m': Mem)
    requires x in m && r in m && m[r].left == 0 && m[r].right == 0 && x != r
    requires (m[x].left != 0 ==> m[x].left in m) && (m[x].right != 0 ==> m[x].right in m)
    requires x != m[x].left && x != m[x].right
    requires r != m[x].left && r != m[x].right && (m[x].left != 0 ==> m[x].left != m[x].right)
    ensures m' == Crown(m, r, up, m[x].left, m[x].right)
  {
    m' := m[r := m[r].(parent := up)];
    var c0 := m'[x].left;
    if c0 != 0 {
      m' := m'[r := m'[r].(left := c0)];
      m' := m'[c0 := m'[c0].(parent := Child(r))];
    }
    var c1 := m'[x].right;
    if c1 != 0 {
      m' := m'[r := m'[r].(right := c1)];
      m' := m'[c1 := m'[c1].(parent := Child(r))];
    }
  }
}
