/**
 The pointer writes of insertion and removal at one place of a trie, as functions
 on memory, and the trees they leave behind: splicing a chunk into a ring, taking
 one out, cutting the rightmost leaf, and crowning a chunk as the new subtree root.
 */
module TrieSurgery {
  import opened Common
  import opened Trie
  import opened TrieMemory

  /** Everything but the ring pointers. */
  predicate SameTreePart(c: TChunk, c': TChunk) {
    c'.size == c.size && c'.index == c.index && c'.left == c.left && c'.right == c.right && c'.parent == c.parent
  }

  // ---------------------------------------------------------------- rings

  /** Put chunk `x` right behind `t` in its ring. */
  function SpliceIn(m: Mem, t: nat, x: nat): (m': Mem)
    requires t in m && x in m && m[t].fd in m && x != t && x != m[t].fd
    ensures m'.Keys == m.Keys
    ensures forall c :: c in m && c != x ==> SameTreePart(m[c], m'[c])
    ensures forall c :: c in m && c != x ==>
              m'[c].fd == (if c == t then x else m[c].fd) &&
              m'[c].bk == (if c == m[t].fd then x else m[c].bk)
    ensures m'[x] == m[x].(fd := m[t].fd, bk := t, parent := Chained)
  {
    var f := m[t].fd;
    var m1 := m[t := m[t].(fd := x)];
    var m2 := m1[f := m1[f].(bk := x)];
    m2[x := m2[x].(fd := f, bk := t, parent := Chained)]
  }

  function WithSecond(ch: seq<nat>, x: nat): seq<nat>
    requires |ch| > 0
  {
    [ch[0], x] + ch[1..]
  }

  lemma RingMember(m: Mem, ch: seq<nat>, s: nat, idx: nat, c: nat)
    requires Ring(m, ch, s, idx) && c in ch
    ensures c in m && c != 0 && m[c].size == s && m[c].index == idx && m[c].fd in ch && m[c].bk in ch
  {
    var k :| 0 <= k < |ch| && ch[k] == c;
    assert RingNode(m, ch[k], Prev(ch, k), Next(ch, k), s, idx);
  }

  lemma SpliceInRing(m: Mem, ch: seq<nat>, s: nat, idx: nat, x: nat)
    requires Ring(m, ch, s, idx) && x in m && x !in ch && x != 0 && m[x].size == s && m[x].index == idx
    requires ch[0] in m && m[ch[0]].fd in m && m[ch[0]].fd in ch
    ensures Ring(SpliceIn(m, ch[0], x), WithSecond(ch, x), s, idx)
  {
    var m' := SpliceIn(m, ch[0], x);
    var ch' := WithSecond(ch, x);
    assert Distinct(ch');
    assert RingNode(m, ch[0], Prev(ch, 0), Next(ch, 0), s, idx);
    forall k | 0 <= k < |ch'| ensures RingNode(m', ch'[k], Prev(ch', k), Next(ch', k), s, idx) {
      if k != 1 {
        SpliceInNode(m, ch, s, idx, x, if k == 0 then 0 else k - 1);
      }
    }
  }

  lemma SpliceInNode(m: Mem, ch: seq<nat>, s: nat, idx: nat, x: nat, j: nat)
    requires Ring(m, ch, s, idx) && x in m && x !in ch && x != 0 && m[x].size == s && m[x].index == idx && j < |ch|
    requires ch[0] in m && m[ch[0]].fd in m && m[ch[0]].fd == Next(ch, 0)
    ensures var ch', k := WithSecond(ch, x), if j == 0 then 0 else j + 1;
            RingNode(SpliceIn(m, ch[0], x), ch'[k], Prev(ch', k), Next(ch', k), s, idx)
  {
    WithSecondNeighbours(ch, x, j);
    assert RingNode(m, ch[j], Prev(ch, j), Next(ch, j), s, idx);
  }

  lemma WithSecondNeighbours(ch: seq<nat>, x: nat, j: nat)
    requires j < |ch| && Distinct(ch)
    ensures var ch', k := WithSecond(ch, x), if j == 0 then 0 else j + 1;
            && ch'[k] == ch[j]
            && Next(ch', k) == (if j == 0 then x else Next(ch, j))
            && Prev(ch', k) == (if ch[j] == Next(ch, 0) then x else Prev(ch, j))
  {
  }

  /** Take chunk `x` out of its ring. */
  function SpliceOut(m: Mem, x: nat): (m': Mem)
    requires x in m && m[x].fd in m && m[x].bk in m
    ensures m'.Keys == m.Keys
    ensures forall c :: c in m ==> SameTreePart(m[c], m'[c])
    ensures forall c :: c in m ==>
              m'[c].bk == (if c == m[x].fd then m[x].bk else m[c].bk) &&
              m'[c].fd == (if c == m[x].bk then m[x].fd else m[c].fd)
  {
    var f, r := m[x].fd, m[x].bk;
    var m1 := m[f := m[f].(bk := r)];
    m1[r := m1[r].(fd := f)]
  }

  /** The ring without member `k`; the youngest takes over from the oldest. */
  function Without(ch: seq<nat>, k: nat): (ch': seq<nat>)
    requires k < |ch| && |ch| > 1
    ensures |ch'| == |ch| - 1
  {
    if k > 0 then ch[..k] + ch[k + 1..] else [ch[|ch| - 1]] + ch[1..|ch| - 1]
  }

  lemma WithoutMembers(ch: seq<nat>, k: nat)
    requires k < |ch| && |ch| > 1 && Distinct(ch)
    ensures Distinct(Without(ch, k))
    ensures forall c :: c in Without(ch, k) <==> c in ch && c != ch[k]
  {
    var ch' := Without(ch, k);
    forall c | c in ch && c != ch[k] ensures c in ch' {
      var j :| 0 <= j < |ch| && ch[j] == c;
      if k > 0 {
        assert ch'[if j < k then j else j - 1] == c;
      } else {
        assert ch'[if j == |ch| - 1 then 0 else j] == c;
      }
    }
  }

  lemma SpliceOutRing(m: Mem, ch: seq<nat>, s: nat, idx: nat, k: nat)
    requires Ring(m, ch, s, idx) && k < |ch| && |ch| > 1
    requires ch[k] in m && m[ch[k]].fd in m && m[ch[k]].bk in m
    ensures Ring(SpliceOut(m, ch[k]), Without(ch, k), s, idx)
  {
    var m' := SpliceOut(m, ch[k]);
    var ch' := Without(ch, k);
    WithoutMembers(ch, k);
    assert RingNode(m, ch[k], Prev(ch, k), Next(ch, k), s, idx);
    forall i | 0 <= i < |ch'| ensures RingNode(m', ch'[i], Prev(ch', i), Next(ch', i), s, idx) {
      var j := OldPlace(ch, k, i);
      WithoutNeighbours(ch, k, i);
      assert RingNode(m, ch[j], Prev(ch, j), Next(ch, j), s, idx);
    }
  }

  function OldPlace(ch: seq<nat>, k: nat, i: nat): (j: nat)
    requires k < |ch| && |ch| > 1 && i < |ch| - 1
    ensures j < |ch| && j != k
  {
    if k > 0 then (if i < k then i else i + 1) else (if i == 0 then |ch| - 1 else i)
  }

  /** Neighbours in the shortened ring: those of before, with the removed member bridged. */
  lemma WithoutNeighbours(ch: seq<nat>, k: nat, i: nat)
    requires k < |ch| && |ch| > 1 && i < |ch| - 1 && Distinct(ch)
    ensures var ch', j := Without(ch, k), OldPlace(ch, k, i);
            && ch'[i] == ch[j]
            && Next(ch', i) == (if ch[j] == Prev(ch, k) then Next(ch, k) else Next(ch, j))
            && Prev(ch', i) == (if ch[j] == Next(ch, k) then Prev(ch, k) else Prev(ch, j))
  {
    if k > 0 {
      WithoutInner(ch, k, i);
    } else {
      WithoutFirst(ch, i);
    }
  }

  lemma WithoutInner(ch: seq<nat>, k: nat, i: nat)
    requires 0 < k < |ch| && i < |ch| - 1 && Distinct(ch)
    ensures var ch', j := Without(ch, k), OldPlace(ch, k, i);
            && ch'[i] == ch[j]
            && Next(ch', i) == (if ch[j] == Prev(ch, k) then Next(ch, k) else Next(ch, j))
            && Prev(ch', i) == (if ch[j] == Next(ch, k) then Prev(ch, k) else Prev(ch, j))
  {
    var ch' := Without(ch, k);
    assert forall x :: 0 <= x < |ch'| ==> ch'[x] == if x < k then ch[x] else ch[x + 1];
    assert ch[OldPlace(ch, k, i)] == ch[k - 1] <==> i == k - 1;
  }

  lemma WithoutFirst(ch: seq<nat>, i: nat)
    requires |ch| > 1 && i < |ch| - 1 && Distinct(ch)
    ensures var ch', j := Without(ch, 0), OldPlace(ch, 0, i);
            && ch'[i] == ch[j]
            && Next(ch', i) == (if ch[j] == Prev(ch, 0) then Next(ch, 0) else Next(ch, j))
            && Prev(ch', i) == (if ch[j] == Next(ch, 0) then Prev(ch, 0) else Prev(ch, j))
  {
    var ch' := Without(ch, 0);
    assert forall x :: 0 <= x < |ch'| ==> ch'[x] == if x == 0 then ch[|ch| - 1] else ch[x];
  }

  /** A new chunk joins the ring of a node. */
  lemma JoinRing(m: Mem, a: nat, t: Tree, up: Up, idx: nat, x: nat)
    requires t.Node? && Apart(t) && Linked(m, a, t, up, idx)
    requires x in m && x != 0 && x !in Addrs(t) && m[x].size == t.size && m[x].index == idx && m[x].left == 0 && m[x].right == 0
    ensures a in m && m[a].fd in m && x != a && x != m[a].fd
    ensures Linked(SpliceIn(m, a, x), a, t.(chain := WithSecond(t.chain, x)), up, idx)
    ensures forall c :: c in m && c !in Addrs(t) && c != x ==> SpliceIn(m, a, x)[c] == m[c]
  {
    RingMember(m, t.chain, t.size, idx, a);
    RingMember(m, t.chain, t.size, idx, m[a].fd);
    var m' := SpliceIn(m, a, x);
    assert Ring(m', WithSecond(t.chain, x), t.size, idx) && Tail(m', WithSecond(t.chain, x)) by {
      SpliceInRing(m, t.chain, t.size, idx, x);
      SpliceInTail(m, t.chain, t.size, idx, x);
    }
    SubtreesUntouched(m, m', a, t, idx, x);
  }

  lemma SpliceInTail(m: Mem, ch: seq<nat>, s: nat, idx: nat, x: nat)
    requires Ring(m, ch, s, idx) && Tail(m, ch) && x in m && x !in ch && m[x].left == 0 && m[x].right == 0
    requires ch[0] in m && m[ch[0]].fd in m && m[ch[0]].fd in ch
    ensures Tail(SpliceIn(m, ch[0], x), WithSecond(ch, x))
  {
    var ch' := WithSecond(ch, x);
    forall k | 2 <= k < |ch'| ensures ch'[k] == ch[k - 1] && ch[k - 1] in ch {
    }
  }

  /** Writes confined to the ring (and one chunk outside) leave both subtrees linked. */
  lemma SubtreesUntouched(m: Mem, m': Mem, a: nat, t: Tree, idx: nat, x: nat)
    requires t.Node? && Apart(t) && a == t.chain[0] && a in m && (x in t.chain || x !in Addrs(t))
    requires Linked(m, m[a].left, t.left, Child(a), idx) && Linked(m, m[a].right, t.right, Child(a), idx)
    requires m'.Keys == m.Keys && forall c :: c in m && c !in t.chain && c != x ==> m'[c] == m[c]
    ensures Linked(m', m[a].left, t.left, Child(a), idx) && Linked(m', m[a].right, t.right, Child(a), idx)
  {
    forall c | c in Addrs(t.left) ensures c in m && m'[c] == m[c] {
      AddrSize(m, m[a].left, t.left, Child(a), idx, c);
    }
    forall c | c in Addrs(t.right) ensures c in m && m'[c] == m[c] {
      AddrSize(m, m[a].right, t.right, Child(a), idx, c);
    }
    LinkedFrame(m, m', m[a].left, t.left, Child(a), idx);
    LinkedFrame(m, m', m[a].right, t.right, Child(a), idx);
  }

  /** A chunk behind the oldest leaves the ring of a node. */
  lemma LeaveRing(m: Mem, a: nat, t: Tree, up: Up, idx: nat, k: nat)
    requires t.Node? && Apart(t) && Linked(m, a, t, up, idx) && 0 < k < |t.chain|
    ensures t.chain[k] in m && m[t.chain[k]].fd in m && m[t.chain[k]].bk in m
    ensures Linked(SpliceOut(m, t.chain[k]), a, t.(chain := Without(t.chain, k)), up, idx)
    ensures forall c :: c in m && c !in Addrs(t) ==> SpliceOut(m, t.chain[k])[c] == m[c]
  {
    var x := t.chain[k];
    RingMember(m, t.chain, t.size, idx, x);
    RingMember(m, t.chain, t.size, idx, m[x].fd);
    RingMember(m, t.chain, t.size, idx, m[x].bk);
    var m' := SpliceOut(m, x);
    SpliceOutRing(m, t.chain, t.size, idx, k);
    SpliceOutTail(m, t.chain, k);
    SubtreesUntouched(m, m', a, t, idx, x);
  }

  lemma SpliceOutTail(m: Mem, ch: seq<nat>, k: nat)
    requires Tail(m, ch) && |ch| > 1 && k < |ch| && ch[k] in m && m[ch[k]].fd in m && m[ch[k]].bk in m
    ensures Tail(SpliceOut(m, ch[k]), Without(ch, k))
  {
    var ch' := Without(ch, k);
    forall i | 1 <= i < |ch'| ensures ch'[i] == ch[OldPlace(ch, k, i)] && OldPlace(ch, k, i) >= 1 {
    }
  }

  // ---------------------------------------------------------------- a new root

  /** Make chunk `r` the parent of `c0` and `c1` and hang it from `up`. */
  function Crown(m: Mem, r: nat, up: Up, c0: nat, c1: nat): (m': Mem)
    requires r in m && (c0 != 0 ==> c0 in m) && (c1 != 0 ==> c1 in m)
    requires r != c0 && r != c1 && (c0 != 0 ==> c0 != c1)
    ensures m'.Keys == m.Keys
    ensures m'[r] == m[r].(parent := up, left := c0, right := c1)
    ensures forall c :: c in m && c != r ==>
              m'[c] == if c != 0 && (c == c0 || c == c1) then m[c].(parent := Child(r)) else m[c]
  {
    var m1 := m[r := m[r].(parent := up, left := c0, right := c1)];
    var m2 := if c0 != 0 then m1[c0 := m1[c0].(parent := Child(r))] else m1;
    if c1 != 0 then m2[c1 := m2[c1].(parent := Child(r))] else m2
  }

  /** A ring crowned over two trees is a tree. */
  lemma CrownLinked(m: Mem, t: Tree, up: Up, c0: nat, c1: nat, u0: Up, u1: Up, idx: nat)
    requires t.Node? && Apart(t) && Ring(m, t.chain, t.size, idx) && Tail(m, t.chain)
    requires Linked(m, c0, t.left, u0, idx) && Linked(m, c1, t.right, u1, idx)
    requires t.chain[0] in m && (c0 != 0 ==> c0 in m) && (c1 != 0 ==> c1 in m)
    requires t.chain[0] != c0 && t.chain[0] != c1 && (c0 != 0 ==> c0 != c1)
    ensures Linked(Crown(m, t.chain[0], up, c0, c1), t.chain[0], t, up, idx)
  {
    var r := t.chain[0];
    assert r in t.chain;
    LinkedRoot(m, c0, t.left, u0, idx);
    LinkedRoot(m, c1, t.right, u1, idx);
    var m' := Crown(m, r, up, c0, c1);
    CrownRing(m, m', t, idx, c0, c1);
    CrownSide(m, m', c0, t.left, u0, r, idx, c1);
    CrownSide(m, m', c1, t.right, u1, r, idx, c0);
  }

  /** The three chunks a crowning touches are different and belong to the tree. */
  lemma CrownDistinct(m: Mem, t: Tree, c0: nat, c1: nat, u0: Up, u1: Up, idx: nat)
    requires t.Node? && RootApart(t) && Ring(m, t.chain, t.size, idx)
    requires Linked(m, c0, t.left, u0, idx) && Linked(m, c1, t.right, u1, idx)
    ensures t.chain[0] in m && (c0 != 0 ==> c0 in m && c0 in Addrs(t)) && (c1 != 0 ==> c1 in m && c1 in Addrs(t))
    ensures t.chain[0] in Addrs(t) && t.chain[0] != c0 && t.chain[0] != c1 && (c0 != 0 ==> c0 != c1)
  {
    assert t.chain[0] in t.chain;
    RingMember(m, t.chain, t.size, idx, t.chain[0]);
    LinkedRoot(m, c0, t.left, u0, idx);
    LinkedRoot(m, c1, t.right, u1, idx);
  }

  lemma CrownRing(m: Mem, m': Mem, t: Tree, idx: nat, c0: nat, c1: nat)
    requires t.Node? && RootApart(t) && Ring(m, t.chain, t.size, idx) && Tail(m, t.chain) && m'.Keys == m.Keys
    requires (c0 in Addrs(t.left) || c0 == 0) && (c1 in Addrs(t.right) || c1 == 0)
    requires t.chain[0] in m && SameLinks(m[t.chain[0]], m'[t.chain[0]])
    requires forall c :: c in m && c != t.chain[0] && c != 0 && c != c0 && c != c1 ==> m'[c] == m[c]
    ensures Ring(m', t.chain, t.size, idx) && Tail(m', t.chain)
  {
    forall c | c in t.chain ensures c in m && c in m' && SameLinks(m[c], m'[c]) && (c != t.chain[0] ==> m'[c] == m[c]) {
      RingMember(m, t.chain, t.size, idx, c);
    }
    RingSameLinks(m, m', t.chain, t.size, idx);
    forall k | 1 <= k < |t.chain| ensures t.chain[k] in m' && m'[t.chain[k]] == m[t.chain[k]] {
      assert t.chain[k] in t.chain && t.chain[0] != t.chain[k];
    }
  }

  lemma CrownSide(m: Mem, m': Mem, c0: nat, l: Tree, u0: Up, r: nat, idx: nat, c1: nat)
    requires Apart(l) && Linked(m, c0, l, u0, idx) && m'.Keys == m.Keys && r !in Addrs(l) && (c1 == 0 || c1 !in Addrs(l))
    requires c0 != 0 ==> c0 in m && m'[c0] == m[c0].(parent := Child(r))
    requires forall c :: c in m && c != r && c != 0 && c != c0 && c != c1 ==> m'[c] == m[c]
    ensures Linked(m', c0, l, Child(r), idx)
  {
    if l.Node? {
      forall c | c in Addrs(l) ensures c in m && c in m' && m'[c] == if c == c0 then m[c].(parent := Child(r)) else m[c] {
        AddrSize(m, c0, l, u0, idx, c);
      }
      Reparent(m, m', c0, l, u0, Child(r), idx);
    }
  }

  // ---------------------------------------------------------------- removing the oldest chunk

  /** The oldest chunk of a longer ring goes; the youngest becomes the tree node. */
  lemma LeaveAsRoot(m: Mem, a: nat, t: Tree, up: Up, idx: nat)
    requires t.Node? && Apart(t) && Linked(m, a, t, up, idx) && |t.chain| > 1
    ensures a in m && m[a].fd in m && m[a].bk in m
    ensures var m1 := SpliceOut(m, a);
            var u := t.(chain := Without(t.chain, 0));
            var r := m[a].bk;
            && u.chain[0] == r && Apart(u) && Addrs(u) <= Addrs(t)
            && Ring(m1, u.chain, u.size, idx) && Tail(m1, u.chain)
            && m1[a].left == m[a].left && m1[a].right == m[a].right && m1[r].left == 0 && m1[r].right == 0
            && Linked(m1, m1[a].left, u.left, Child(a), idx) && Linked(m1, m1[a].right, u.right, Child(a), idx)
            && (forall c :: c in m && c !in Addrs(t) ==> m1[c] == m[c])
  {
    RingMember(m, t.chain, t.size, idx, a);
    RingMember(m, t.chain, t.size, idx, m[a].fd);
    RingMember(m, t.chain, t.size, idx, m[a].bk);
    assert RingNode(m, t.chain[0], Prev(t.chain, 0), Next(t.chain, 0), t.size, idx);
    SpliceOutRing(m, t.chain, t.size, idx, 0);
    SpliceOutTail(m, t.chain, 0);
    WithoutMembers(t.chain, 0);
    SubtreesUntouched(m, SpliceOut(m, a), a, t, idx, a);
  }

  // ---------------------------------------------------------------- cutting the rightmost leaf

  function RightPath(t: Tree): Path
    requires t.Node?
  {
    if t.right.Node? then Go(true, RightPath(t.right))
    else if t.left.Node? then Go(false, RightPath(t.left))
    else Here
  }

  lemma {:induction false} RightPathLeaf(t: Tree)
    requires t.Node?
    ensures Leads(t, RightPath(t)) && Sub(t, RightPath(t)) == RightmostLeaf(t)
    ensures Graft(t, RightPath(t), Nil) == CutRightmost(t)
    decreases t
  {
    if t.right.Node? {
      RightPathLeaf(t.right);
    } else if t.left.Node? {
      RightPathLeaf(t.left);
    }
  }

  /** Dropping a node with children is cutting its rightmost leaf and crowning it. */
  lemma DropByLeaf(t: Tree)
    requires t.Node? && Apart(t) && (t.left.Node? || t.right.Node?)
    ensures var path := RightPath(t);
            && path.Go? && Leads(t, path)
            && Sub(t, path).Node? && Sub(t, path).left.Nil? && Sub(t, path).right.Nil?
            && Graft(t, path, Nil).Node? && Graft(t, path, Nil).chain == t.chain
            && DropNode(t) == Node(Sub(t, path).size, Sub(t, path).chain, Graft(t, path, Nil).left, Graft(t, path, Nil).right)
            && Addrs(DropNode(t)) <= Addrs(t)
            && Apart(DropNode(t))
  {
    RightPathLeaf(t);
    var path := RightPath(t);
    PruneApart(t, path);
    SubInside(t, path);
    LeafApart(t, path);
    if t.right.Node? {
      RightPathLeaf(t.right);
    } else {
      RightPathLeaf(t.left);
    }
  }

  lemma LeafApart(t: Tree, path: Path)
    requires t.Node? && Apart(t) && path.Go? && Leads(t, path)
    requires Sub(t, path).Node? && Sub(t, path).left.Nil? && Sub(t, path).right.Nil?
    ensures var leaf, rest := Sub(t, path), Graft(t, path, Nil);
            var u := Node(leaf.size, leaf.chain, rest.left, rest.right);
            Apart(u) && Addrs(u) <= Addrs(t)
  {
    PruneApart(t, path);
    SubInside(t, path);
    SubApart(t, path);
    var leaf := Sub(t, path);
    assert forall c :: c in leaf.chain ==> c in Addrs(leaf);
  }

  lemma {:induction false} SubApart(t: Tree, path: Path)
    requires Apart(t) && Leads(t, path)
    ensures Apart(Sub(t, path))
    decreases t
  {
    if path.Go? {
      SubApart(Side(t, path.right), path.rest);
    }
  }

  /** Clearing the pointer to the rightmost leaf detaches it and nothing else. */
  lemma CutLeaf(m: Mem, a: nat, t: Tree, up: Up, idx: nat, r: nat, h: Hold)
    requires t.Node? && Apart(t) && Linked(m, a, t, up, idx) && RightPath(t).Go? && Leads(t, RightPath(t))
    requires h == Holder(t, RightPath(t), Hold(up, false))
    requires Linked(m, r, Sub(t, RightPath(t)), h.up, idx) && Sub(t, RightPath(t)).Node?
    ensures h.up.Child? && h.up.addr in m && h.up.addr in Addrs(t)
    ensures var m1 := m[h.up.addr := Redirect(m[h.up.addr], h.right, 0)];
            var leaf := Sub(t, RightPath(t));
            && Linked(m1, a, Graft(t, RightPath(t), Nil), up, idx)
            && Ring(m1, leaf.chain, leaf.size, idx) && Tail(m1, leaf.chain) && r == leaf.chain[0] && r in m1 && m1[r] == m[r]
  {
    var path := RightPath(t);
    var leaf := Sub(t, path);
    HolderOutside(t, path, Hold(up, false));
    AddrSize(m, a, t, up, idx, h.up.addr);
    var m1 := m[h.up.addr := Redirect(m[h.up.addr], h.right, 0)];
    forall c | c in Addrs(t) - Addrs(leaf) ensures c in m && c in m1 && m1[c] == Led(m[c], c, h, 0) {
      AddrSize(m, a, t, up, idx, c);
    }
    Replace(m, m1, a, t, idx, path, Nil, 0, Hold(up, false));
    LinkedRoot(m, r, leaf, h.up, idx);
    forall c | c in leaf.chain ensures c in m && m1[c] == m[c] {
      RingMember(m, leaf.chain, leaf.size, idx, c);
      assert c in Addrs(leaf);
    }
    RingFrame(m, m1, leaf.chain, leaf.size, idx);
  }

  // ---------------------------------------------------------------- hanging a subtree into its place

  /** The holder's pointer is the one that leads to the position; its other one is not. */
  lemma {:induction false} HolderPoints(m: Mem, a: nat, t: Tree, idx: nat, path: Path, h: Hold)
    requires Leads(t, path) && Apart(t) && Linked(m, a, t, h.up, idx) && path.Go? && Sub(t, path).Node?
    ensures var h' := Holder(t, path, h);
            && h'.up.Child? && h'.up.addr in m && |Sub(t, path).chain| > 0
            && SideOf(m[h'.up.addr], h'.right) == Sub(t, path).chain[0]
            && SideOf(m[h'.up.addr], !h'.right) != Sub(t, path).chain[0]
            && Linked(m, Sub(t, path).chain[0], Sub(t, path), h'.up, idx)
    decreases t
  {
    var son := Side(t, path.right);
    var h' := Hold(Child(a), path.right);
    LinkedRoot(m, a, t, h.up, idx);
    if path.rest.Go? {
      HolderPoints(m, SideOf(m[a], path.right), son, idx, path.rest, h');
    } else {
      LinkedRoot(m, SideOf(m[a], path.right), son, Child(a), idx);
      LinkedRoot(m, SideOf(m[a], !path.right), Side(t, !path.right), Child(a), idx);
    }
  }

  /** Point the holder (a chunk, unless the place is the bin's root) at `r`. */
  function Point(m: Mem, h: Hold, r: nat): (m': Mem)
    requires h.up.Child? ==> h.up.addr in m
    ensures m'.Keys == m.Keys
    ensures forall c :: c in m ==> m'[c] == Led(m[c], c, h, r)
  {
    if h.up.Child? then m[h.up.addr := Redirect(m[h.up.addr], h.right, r)] else m
  }

  /** Redirecting the holder and crowning the new root puts subtree `u` into the place. */
  lemma Regraft(m: Mem, m1: Mem, a: nat, t: Tree, idx: nat, path: Path, h0: Hold, u: Tree, c0: nat, c1: nat, u0: Up, u1: Up)
    requires Leads(t, path) && Apart(t) && Linked(m, a, t, h0.up, idx) && !h0.up.Child?
    requires u.Node? && Apart(u) && Addrs(u) <= Addrs(Sub(t, path)) && Ring(m1, u.chain, u.size, idx) && Tail(m1, u.chain)
    requires Linked(m1, c0, u.left, u0, idx) && Linked(m1, c1, u.right, u1, idx)
    requires forall c :: c in m && c !in Addrs(Sub(t, path)) ==> c in m1 && m1[c] == m[c]
    requires var h := Holder(t, path, h0); h.up.Child? ==> h.up.addr in m1
    requires u.chain[0] in m1 && (c0 != 0 ==> c0 in m1 && c0 in Addrs(u)) && (c1 != 0 ==> c1 in m1 && c1 in Addrs(u))
    requires u.chain[0] in Addrs(u) && u.chain[0] != c0 && u.chain[0] != c1 && (c0 != 0 ==> c0 != c1)
    ensures var h := Holder(t, path, h0);
            var m3 := Crown(Point(m1, h, u.chain[0]), u.chain[0], h.up, c0, c1);
            Linked(m3, if path.Here? then u.chain[0] else a, Graft(t, path, u), h0.up, idx)
  {
    var h, r := Holder(t, path, h0), u.chain[0];
    HolderInside(t, path, h0);
    if path.Go? { HolderOutside(t, path, h0); }
    var m2 := Point(m1, h, r);
    assert forall c :: c in Addrs(u) && c in m1 ==> m2[c] == m1[c];
    RegraftRing(m1, m2, u, idx);
    RegraftSide(m1, m2, c0, u.left, u0, idx);
    RegraftSide(m1, m2, c1, u.right, u1, idx);
    CrownLinked(m2, u, h.up, c0, c1, u0, u1, idx);
    var m3 := Crown(m2, r, h.up, c0, c1);
    forall c | c in Addrs(t) - Addrs(Sub(t, path)) ensures c in m && c in m3 && m3[c] == Led(m[c], c, h, r) {
      AddrSize(m, a, t, h0.up, idx, c);
    }
    Replace(m, m3, a, t, idx, path, u, r, h0);
  }

  lemma RegraftRing(m: Mem, m': Mem, u: Tree, idx: nat)
    requires u.Node? && Ring(m, u.chain, u.size, idx) && Tail(m, u.chain) && m'.Keys == m.Keys
    requires forall c :: c in Addrs(u) && c in m ==> m'[c] == m[c]
    ensures Ring(m', u.chain, u.size, idx) && Tail(m', u.chain)
  {
    forall c | c in u.chain ensures c in m && m'[c] == m[c] {
      RingMember(m, u.chain, u.size, idx, c);
      assert c in Addrs(u);
    }
    RingFrame(m, m', u.chain, u.size, idx);
  }

  lemma RegraftSide(m: Mem, m': Mem, c0: nat, l: Tree, u0: Up, idx: nat)
    requires Linked(m, c0, l, u0, idx) && m'.Keys == m.Keys
    requires forall c :: c in Addrs(l) && c in m ==> m'[c] == m[c]
    ensures Linked(m', c0, l, u0, idx)
  {
    forall c | c in Addrs(l) ensures c in m && m'[c] == m[c] {
      AddrSize(m, c0, l, u0, idx, c);
    }
    LinkedFrame(m, m', c0, l, u0, idx);
  }

  /** Clearing the holder's pointer empties the place. */
  lemma Ungraft(m: Mem, a: nat, t: Tree, idx: nat, path: Path, h0: Hold)
    requires Leads(t, path) && Apart(t) && Linked(m, a, t, h0.up, idx) && !h0.up.Child?
    ensures var h := Holder(t, path, h0);
            && (h.up.Child? ==> h.up.addr in m)
            && Linked(Point(m, h, 0), if path.Here? then 0 else a, Graft(t, path, Nil), h0.up, idx)
  {
    var h := Holder(t, path, h0);
    HolderInside(t, path, h0);
    if path.Go? { AddrSize(m, a, t, h0.up, idx, h.up.addr); }
    var m' := Point(m, h, 0);
    forall c | c in Addrs(t) - Addrs(Sub(t, path)) ensures c in m && c in m' && m'[c] == Led(m[c], c, h, 0) {
      AddrSize(m, a, t, h0.up, idx, c);
    }
    Replace(m, m', a, t, idx, path, Nil, 0, h0);
  }
}
