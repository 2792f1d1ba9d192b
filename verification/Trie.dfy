/**
 The bitwise digital tree held in one tree bin, as a value. A node carries one
 size and the chain of chunks of that size; the two subtrees split the remaining
 sizes of the node's range by the next bit. A node's own size is unordered with
 respect to its subtrees.
 */
module Trie {
  import opened Bits

  datatype Tree = Nil | Node(size: nat, chain: seq<nat>, left: Tree, right: Tree)

  function Sizes(t: Tree): set<nat> {
    match t
    case Nil => {}
    case Node(s, _, l, r) => {s} + Sizes(l) + Sizes(r)
  }

  /** Addresses of all chunks in the tree. */
  function Addrs(t: Tree): set<nat> {
    match t
    case Nil => {}
    case Node(_, ch, l, r) => (set c | c in ch) + Addrs(l) + Addrs(r)
  }

  /** The stored chunks, as (address, size) pairs. */
  function Chunks(t: Tree): set<(nat, nat)> {
    match t
    case Nil => {}
    case Node(s, ch, l, r) => RingPairs(ch, s) + Chunks(l) + Chunks(r)
  }

  function RingPairs(ch: seq<nat>, s: nat): set<(nat, nat)> {
    set c | c in ch :: (c, s)
  }

  /** All sizes lie in the range of length `2^b` from `lo`; the subtrees halve it. */
  predicate IsTrie(t: Tree, b: nat, lo: nat) {
    match t
    case Nil => true
    case Node(s, ch, l, r) =>
      && |ch| > 0
      && lo <= s < lo + Pow2(b)
      && s !in Sizes(l) && s !in Sizes(r)
      && (if b == 0 then l.Nil? && r.Nil?
          else IsTrie(l, b - 1, lo) && IsTrie(r, b - 1, lo + Pow2(b - 1)))
  }

  /** Whether size `s` belongs to the upper half of the range. */
  predicate Upper(s: nat, b: nat, lo: nat)
    requires b > 0
  {
    s >= lo + Pow2(b - 1)
  }

  function Half(right: bool, b: nat, lo: nat): nat
    requires b > 0
  {
    if right then lo + Pow2(b - 1) else lo
  }

  // ---------------------------------------------------------------- positions

  /** A position in a tree: which pointers lead there. */
  datatype Path = Here | Go(right: bool, rest: Path)

  function Side(t: Tree, right: bool): Tree
    requires t.Node?
  {
    if right then t.right else t.left
  }

  predicate Leads(t: Tree, path: Path) {
    path.Here? || (t.Node? && Leads(Side(t, path.right), path.rest))
  }

  function Sub(t: Tree, path: Path): Tree
    requires Leads(t, path)
  {
    if path.Here? then t else Sub(Side(t, path.right), path.rest)
  }

  function Graft(t: Tree, path: Path, u: Tree): Tree
    requires Leads(t, path)
  {
    if path.Here? then u
    else if path.right then t.(right := Graft(t.right, path.rest, u))
    else t.(left := Graft(t.left, path.rest, u))
  }

  /** The pointers to follow for size `s`: to its node, or to the empty tree where it would go. */
  function PathTo(t: Tree, b: nat, lo: nat, s: nat): (path: Path)
    ensures Leads(t, path)
  {
    if t.Nil? || t.size == s || b == 0 then Here
    else
      var right := Upper(s, b, lo);
      Go(right, PathTo(Side(t, right), b - 1, Half(right, b, lo), s))
  }

  /** Where the range at the end of that path starts. */
  function LowAt(t: Tree, b: nat, lo: nat, s: nat): nat {
    if t.Nil? || t.size == s || b == 0 then lo
    else
      var right := Upper(s, b, lo);
      LowAt(Side(t, right), b - 1, Half(right, b, lo), s)
  }

  /** How many bits a position has decided. */
  function Depth(path: Path): nat {
    if path.Here? then 0 else 1 + Depth(path.rest)
  }

  /** Number of nodes on the longest downward walk. */
  function Height(t: Tree): nat {
    match t
    case Nil => 0
    case Node(_, _, l, r) => 1 + if Height(l) < Height(r) then Height(r) else Height(l)
  }

  /** Every walk is bounded by the open size bits. */
  lemma {:induction false} WalksBounded(t: Tree, b: nat, lo: nat)
    requires IsTrie(t, b, lo)
    ensures Height(t) <= b + 1
    decreases t
  {
    if t.Node? && b > 0 {
      WalksBounded(t.left, b - 1, lo);
      WalksBounded(t.right, b - 1, lo + Pow2(b - 1));
    }
  }

  lemma {:induction false} SizesInRange(t: Tree, b: nat, lo: nat, s: nat)
    requires IsTrie(t, b, lo) && s in Sizes(t)
    ensures lo <= s < lo + Pow2(b)
    decreases t
  {
    if s != t.size {
      if s in Sizes(t.left) {
        SizesInRange(t.left, b - 1, lo, s);
      } else {
        SizesInRange(t.right, b - 1, lo + Pow2(b - 1), s);
      }
    }
  }

  /** Left sizes lie below right sizes. */
  lemma LeftBelowRight(t: Tree, b: nat, lo: nat, x: nat, y: nat)
    requires t.Node? && IsTrie(t, b, lo) && x in Sizes(t.left) && y in Sizes(t.right)
    ensures x < y
  {
    SizesInRange(t.left, b - 1, lo, x);
    SizesInRange(t.right, b - 1, lo + Pow2(b - 1), y);
  }

  /** No size occurs at two nodes. */
  predicate OneNodePerSize(t: Tree) {
    t.Node? ==>
      && t.size !in Sizes(t.left) && t.size !in Sizes(t.right) && Sizes(t.left) !! Sizes(t.right)
      && OneNodePerSize(t.left) && OneNodePerSize(t.right) && |t.chain| > 0
  }

  lemma {:induction false} TrieOneNodePerSize(t: Tree, b: nat, lo: nat)
    requires IsTrie(t, b, lo)
    ensures OneNodePerSize(t)
    decreases t
  {
    if t.Node? && b > 0 {
      TrieOneNodePerSize(t.left, b - 1, lo);
      TrieOneNodePerSize(t.right, b - 1, lo + Pow2(b - 1));
      forall x | x in Sizes(t.left) ensures x !in Sizes(t.right) {
        if x in Sizes(t.right) { LeftBelowRight(t, b, lo, x, x); }
      }
    }
  }

  /** The half a size lies in is the side it belongs to. */
  lemma ChosenSide(t: Tree, b: nat, lo: nat, s: nat)
    requires t.Node? && IsTrie(t, b, lo) && lo <= s < lo + Pow2(b) && t.size != s
    ensures b > 0
    ensures var right := Upper(s, b, lo);
            && IsTrie(Side(t, right), b - 1, Half(right, b, lo))
            && Half(right, b, lo) <= s < Half(right, b, lo) + Pow2(b - 1)
            && s !in Sizes(Side(t, !right))
  {
    var right := Upper(s, b, lo);
    if s in Sizes(Side(t, !right)) {
      SizesInRange(Side(t, !right), b - 1, Half(!right, b, lo), s);
    }
  }

  /** The first step of the path to a size. */
  lemma PathStep(t: Tree, b: nat, lo: nat, s: nat)
    requires t.Node? && IsTrie(t, b, lo) && lo <= s < lo + Pow2(b) && t.size != s
    ensures b > 0
    ensures var right := Upper(s, b, lo);
            var rest := PathTo(Side(t, right), b - 1, Half(right, b, lo), s);
            && PathTo(t, b, lo, s) == Go(right, rest) && Depth(PathTo(t, b, lo, s)) == Depth(rest) + 1
            && LowAt(t, b, lo, s) == LowAt(Side(t, right), b - 1, Half(right, b, lo), s)
            && Sub(t, Go(right, rest)) == Sub(Side(t, right), rest)
  {
    ChosenSide(t, b, lo, s);
  }

  /** A tree with one side replaced. */
  function WithSide(t: Tree, right: bool, u: Tree): Tree
    requires t.Node?
  {
    if right then t.(right := u) else t.(left := u)
  }

  /** Replacing one side by a trie of its range, without the size of the node, keeps the trie. */
  lemma WithSideIsTrie(t: Tree, b: nat, lo: nat, right: bool, u: Tree)
    requires t.Node? && b > 0 && IsTrie(t, b, lo) && IsTrie(u, b - 1, Half(right, b, lo)) && t.size !in Sizes(u)
    ensures IsTrie(WithSide(t, right, u), b, lo)
  {
  }

  /** Size `s` sits at the place its bits lead to, and that place is a trie of its range. */
  predicate Placed(t: Tree, b: nat, lo: nat, s: nat) {
    var path, low := PathTo(t, b, lo, s), LowAt(t, b, lo, s);
    var place := Sub(t, path);
    && Depth(path) <= b
    && IsTrie(place, b - Depth(path), low) && low <= s < low + Pow2(b - Depth(path))
    && (place.Node? ==> place.size == s)
    && (place.Node? <==> s in Sizes(t))
  }

  /** A size of the tree sits where its bits lead, and that position fits it. */
  lemma {:induction false} SizeFound(t: Tree, b: nat, lo: nat, s: nat)
    requires IsTrie(t, b, lo) && lo <= s < lo + Pow2(b)
    ensures Placed(t, b, lo, s)
    decreases b
  {
    if t.Node? && t.size != s {
      ChosenSide(t, b, lo, s);
      var right := Upper(s, b, lo);
      SizeFound(Side(t, right), b - 1, Half(right, b, lo), s);
      PlacedUp(t, b, lo, s);
    } else {
      PlacedHere(t, b, lo, s);
    }
  }

  lemma PlacedHere(t: Tree, b: nat, lo: nat, s: nat)
    requires IsTrie(t, b, lo) && lo <= s < lo + Pow2(b) && (t.Node? ==> t.size == s)
    ensures Placed(t, b, lo, s)
  {
    assert PathTo(t, b, lo, s) == Here;
  }

  lemma PlacedUp(t: Tree, b: nat, lo: nat, s: nat)
    requires t.Node? && b > 0 && IsTrie(t, b, lo) && lo <= s < lo + Pow2(b) && t.size != s
    requires var right := Upper(s, b, lo); Placed(Side(t, right), b - 1, Half(right, b, lo), s)
    ensures Placed(t, b, lo, s)
  {
    PathStep(t, b, lo, s);
    ChosenSide(t, b, lo, s);
    InSide(t, Upper(s, b, lo), s);
  }

  lemma InSide(t: Tree, right: bool, s: nat)
    requires t.Node? && s != t.size && s !in Sizes(Side(t, !right))
    ensures s in Sizes(t) <==> s in Sizes(Side(t, right))
  {
  }

  /** Subtree `u` fits the place of size `s`, and brings no size but `s`. */
  predicate Graftable(t: Tree, b: nat, lo: nat, s: nat, u: Tree) {
    var path := PathTo(t, b, lo, s);
    && IsTrie(t, b, lo) && lo <= s < lo + Pow2(b)
    && Depth(path) <= b && IsTrie(u, b - Depth(path), LowAt(t, b, lo, s)) && Sizes(u) <= Sizes(Sub(t, path)) + {s}
  }

  /** Filling a size's position with a fitting subtree keeps the trie. */
  lemma {:induction false} GraftIsTrie(t: Tree, b: nat, lo: nat, s: nat, u: Tree)
    requires Graftable(t, b, lo, s, u)
    ensures IsTrie(Graft(t, PathTo(t, b, lo, s), u), b, lo)
    ensures Sizes(Graft(t, PathTo(t, b, lo, s), u)) <= Sizes(t) + {s}
    decreases b
  {
    if t.Node? && t.size != s {
      GraftDown(t, b, lo, s, u);
      var right := Upper(s, b, lo);
      GraftIsTrie(Side(t, right), b - 1, Half(right, b, lo), s, u);
      GraftUp(t, b, lo, s, u);
    } else {
      assert PathTo(t, b, lo, s) == Here;
    }
  }

  lemma GraftDown(t: Tree, b: nat, lo: nat, s: nat, u: Tree)
    requires t.Node? && t.size != s && Graftable(t, b, lo, s, u)
    ensures b > 0 && var right := Upper(s, b, lo); Graftable(Side(t, right), b - 1, Half(right, b, lo), s, u)
  {
    ChosenSide(t, b, lo, s);
    PathStep(t, b, lo, s);
  }

  lemma GraftUp(t: Tree, b: nat, lo: nat, s: nat, u: Tree)
    requires t.Node? && b > 0 && IsTrie(t, b, lo) && lo <= s < lo + Pow2(b) && t.size != s
    requires var right := Upper(s, b, lo);
             var son, low := Side(t, right), Half(right, b, lo);
             var son' := Graft(son, PathTo(son, b - 1, low, s), u);
             IsTrie(son', b - 1, low) && Sizes(son') <= Sizes(son) + {s}
    ensures IsTrie(Graft(t, PathTo(t, b, lo, s), u), b, lo)
    ensures Sizes(Graft(t, PathTo(t, b, lo, s), u)) <= Sizes(t) + {s}
  {
    PathStep(t, b, lo, s);
    var right := Upper(s, b, lo);
    var son, low := Side(t, right), Half(right, b, lo);
    var son' := Graft(son, PathTo(son, b - 1, low, s), u);
    assert Graft(t, PathTo(t, b, lo, s), u) == WithSide(t, right, son');
    WithSideIsTrie(t, b, lo, right, son');
    WithSideSizes(t, right, son', s);
  }

  lemma WithSideSizes(t: Tree, right: bool, u: Tree, s: nat)
    requires t.Node? && Sizes(u) <= Sizes(Side(t, right)) + {s}
    ensures Sizes(WithSide(t, right, u)) <= Sizes(t) + {s}
  {
  }

  lemma {:induction false} SubSizes(t: Tree, path: Path)
    requires Leads(t, path)
    ensures Sizes(Sub(t, path)) <= Sizes(t)
    decreases t
  {
    if path.Go? {
      SubSizes(Side(t, path.right), path.rest);
    }
  }

  /** The chunks change exactly at the grafted position. */
  lemma {:induction false} GraftChunks(t: Tree, path: Path, u: Tree)
    requires OneNodePerSize(t) && Leads(t, path)
    ensures Chunks(Sub(t, path)) <= Chunks(t)
    ensures Chunks(Graft(t, path, u)) == Chunks(t) - Chunks(Sub(t, path)) + Chunks(u)
    decreases t
  {
    if path.Go? {
      var son, other := Side(t, path.right), Side(t, !path.right);
      GraftChunks(son, path.rest, u);
      SubSizes(son, path.rest);
      GraftAside(t, path);
    }
  }

  /** Chunks beside a position differ from those in it. */
  lemma GraftAside(t: Tree, path: Path)
    requires OneNodePerSize(t) && Leads(t, path) && path.Go?
    ensures Chunks(Sub(t, path)) !! Chunks(Side(t, !path.right))
    ensures Chunks(Sub(t, path)) !! RingPairs(t.chain, t.size)
  {
    var other := Side(t, !path.right);
    SubSizes(Side(t, path.right), path.rest);
    forall c | c in Chunks(Sub(t, path)) ensures c !in Chunks(other) && c.1 != t.size {
      ChunkSize(Sub(t, path), c);
      if c in Chunks(other) { ChunkSize(other, c); }
    }
  }

  /** Chunk pairs carry sizes of the tree. */
  lemma {:induction false} ChunkSize(t: Tree, c: (nat, nat))
    requires c in Chunks(t)
    ensures c.1 in Sizes(t) && c.0 in Addrs(t)
    decreases t
  {
    if t.Node? {
      if c in Chunks(t.left) { ChunkSize(t.left, c); }
      else if c in Chunks(t.right) { ChunkSize(t.right, c); }
    }
  }

  // ---------------------------------------------------------------- smallest chunk

  /** The smallest size met on the walk that goes left whenever it can. */
  function LeftmostMin(t: Tree): nat
    requires t.Node?
  {
    var c := if t.left.Node? then t.left else t.right;
    if c.Nil? then t.size
    else if LeftmostMin(c) < t.size then LeftmostMin(c) else t.size
  }

  /** That walk meets the smallest size of the whole tree. */
  lemma {:induction false} LeftmostIsMin(t: Tree, b: nat, lo: nat)
    requires t.Node? && IsTrie(t, b, lo)
    ensures LeftmostMin(t) in Sizes(t)
    ensures forall s :: s in Sizes(t) ==> LeftmostMin(t) <= s
    decreases t
  {
    if t.left.Node? {
      LeftmostIsMin(t.left, b - 1, lo);
      forall s | s in Sizes(t.right) ensures LeftmostMin(t) <= s {
        LeftBelowRight(t, b, lo, LeftmostMin(t.left), s);
      }
    } else if t.right.Node? {
      LeftmostIsMin(t.right, b - 1, lo + Pow2(b - 1));
    }
  }

  // ---------------------------------------------------------------- removing a leaf

  /** The leaf that replaces a removed node: the rightmost descendant. */
  function RightmostLeaf(t: Tree): (leaf: Tree)
    requires t.Node?
    ensures leaf.Node? && leaf.left.Nil? && leaf.right.Nil?
  {
    if t.right.Node? then RightmostLeaf(t.right)
    else if t.left.Node? then RightmostLeaf(t.left)
    else t
  }

  function CutRightmost(t: Tree): Tree
    requires t.Node?
  {
    if t.right.Node? then t.(right := CutRightmost(t.right))
    else if t.left.Node? then t.(left := CutRightmost(t.left))
    else Nil
  }

  /** Cutting the rightmost leaf keeps the trie and takes away exactly that leaf. */
  lemma {:induction false} CutIsTrie(t: Tree, b: nat, lo: nat)
    requires t.Node? && IsTrie(t, b, lo)
    ensures IsTrie(CutRightmost(t), b, lo)
    ensures RightmostLeaf(t).size in Sizes(t)
    ensures Sizes(CutRightmost(t)) == Sizes(t) - {RightmostLeaf(t).size}
    ensures |RightmostLeaf(t).chain| > 0
    decreases t
  {
    if t.right.Node? {
      CutIsTrie(t.right, b - 1, lo + Pow2(b - 1));
      var z := RightmostLeaf(t.right).size;
      if z in Sizes(t.left) { LeftBelowRight(t, b, lo, z, z); }
    } else if t.left.Node? {
      CutIsTrie(t.left, b - 1, lo);
    }
  }

  lemma {:induction false} CutChunks(t: Tree)
    requires t.Node?
    ensures Chunks(t) == Chunks(CutRightmost(t)) + Chunks(RightmostLeaf(t))
    decreases t
  {
    if t.right.Node? {
      CutChunks(t.right);
    } else if t.left.Node? {
      CutChunks(t.left);
    }
  }

  /** A node without its own size: empty, or headed by its rightmost leaf. */
  function DropNode(t: Tree): Tree
    requires t.Node?
  {
    if t.right.Node? then
      var leaf := RightmostLeaf(t.right);
      Node(leaf.size, leaf.chain, t.left, CutRightmost(t.right))
    else if t.left.Node? then
      var leaf := RightmostLeaf(t.left);
      Node(leaf.size, leaf.chain, CutRightmost(t.left), Nil)
    else Nil
  }

  /** Replacing an inner node by a leaf below it keeps the trie. */
  lemma DropIsTrie(t: Tree, b: nat, lo: nat)
    requires t.Node? && IsTrie(t, b, lo)
    ensures IsTrie(DropNode(t), b, lo)
    ensures Sizes(DropNode(t)) == Sizes(t) - {t.size}
  {
    if t.right.Node? {
      DropRight(t, b, lo);
    } else if t.left.Node? {
      CutIsTrie(t.left, b - 1, lo);
      var z := RightmostLeaf(t.left).size;
      SizesInRange(t.left, b - 1, lo, z);
    }
  }

  lemma DropRight(t: Tree, b: nat, lo: nat)
    requires t.Node? && IsTrie(t, b, lo) && t.right.Node?
    ensures IsTrie(DropNode(t), b, lo)
    ensures Sizes(DropNode(t)) == Sizes(t) - {t.size}
  {
    CutIsTrie(t.right, b - 1, lo + Pow2(b - 1));
    var z := RightmostLeaf(t.right).size;
    if z in Sizes(t.left) { LeftBelowRight(t, b, lo, z, z); }
    SizesInRange(t.right, b - 1, lo + Pow2(b - 1), z);
  }

  lemma DropChunks(t: Tree)
    requires t.Node?
    ensures Chunks(t) == Chunks(DropNode(t)) + RingPairs(t.chain, t.size)
  {
    if t.right.Node? {
      CutChunks(t.right);
    } else if t.left.Node? {
      CutChunks(t.left);
    }
  }
}
