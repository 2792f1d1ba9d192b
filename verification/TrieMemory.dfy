/**
 The tries as they lie in memory: tree chunks at addresses, linked by child and
 parent pointers, chunks of one size in a ring of fd/bk pointers of which only the
 oldest has a parent. `Linked` says that the memory below an address spells out a
 given `Tree`; the lemmas say which few pointer writes turn one tree into another.
 */
module TrieMemory {
  import opened Common
  import opened Trie

  /** The parent field: null for chained chunks, the bin slot for a root. */
  datatype Up = Chained | Bin(i: nat) | Child(addr: nat)

  datatype TChunk = TChunk(size: nat, fd: nat, bk: nat, left: nat, right: nat, parent: Up, index: nat)

  type Mem = map<nat, TChunk>

  // ---------------------------------------------------------------- rings

  function Next(ch: seq<nat>, k: nat): nat
    requires k < |ch|
  {
    if k + 1 < |ch| then ch[k + 1] else ch[0]
  }

  function Prev(ch: seq<nat>, k: nat): nat
    requires k < |ch|
  {
    if k > 0 then ch[k - 1] else ch[|ch| - 1]
  }

  predicate RingNode(m: Mem, c: nat, prev: nat, next: nat, s: nat, idx: nat) {
    c != 0 && c in m && m[c].size == s && m[c].index == idx && m[c].fd == next && m[c].bk == prev
  }

  predicate Ring(m: Mem, ch: seq<nat>, s: nat, idx: nat) {
    && |ch| > 0 && Distinct(ch)
    && forall k :: 0 <= k < |ch| ==> RingNode(m, ch[k], Prev(ch, k), Next(ch, k), s, idx)
  }

  /** Chunks behind the oldest are outside the tree. */
  predicate Tail(m: Mem, ch: seq<nat>) {
    forall k :: 1 <= k < |ch| ==> ch[k] in m && m[ch[k]].parent == Chained && m[ch[k]].left == 0 && m[ch[k]].right == 0
  }

  /** Memory below address `a` spells out tree `t`, hanging from `up`. */
  predicate Linked(m: Mem, a: nat, t: Tree, up: Up, idx: nat)
    decreases t
  {
    match t
    case Nil => a == 0
    case Node(s, ch, l, r) =>
      && Ring(m, ch, s, idx) && Tail(m, ch)
      && a == ch[0] && m[a].parent == up
      && Linked(m, m[a].left, l, Child(a), idx)
      && Linked(m, m[a].right, r, Child(a), idx)
  }

  lemma LinkedRoot(m: Mem, a: nat, t: Tree, up: Up, idx: nat)
    requires Linked(m, a, t, up, idx)
    ensures a == 0 <==> t.Nil?
    ensures t.Node? ==> a in m && a in Addrs(t) && m[a].size == t.size && m[a].index == idx
  {
    if t.Node? {
      assert RingNode(m, t.chain[0], Prev(t.chain, 0), Next(t.chain, 0), t.size, idx);
    }
  }

  /** Chunks of a tree hold sizes of the tree. */
  lemma {:induction false} AddrSize(m: Mem, a: nat, t: Tree, up: Up, idx: nat, c: nat)
    requires Linked(m, a, t, up, idx) && c in Addrs(t)
    ensures c in m && c != 0 && m[c].size in Sizes(t) && m[c].index == idx && (c, m[c].size) in Chunks(t)
    decreases t
  {
    if c in t.chain {
      var k :| 0 <= k < |t.chain| && t.chain[k] == c;
      assert RingNode(m, t.chain[k], Prev(t.chain, k), Next(t.chain, k), t.size, idx);
    } else if c in Addrs(t.left) {
      AddrSize(m, m[a].left, t.left, Child(a), idx, c);
    } else {
      AddrSize(m, m[a].right, t.right, Child(a), idx, c);
    }
  }

  /** A chunk pair of the tree is a chunk of the memory. */
  lemma {:induction false} PairInMemory(m: Mem, a: nat, t: Tree, up: Up, idx: nat, c: (nat, nat))
    requires Linked(m, a, t, up, idx) && c in Chunks(t)
    ensures c.0 in Addrs(t) && c.0 in m && m[c.0].size == c.1
    decreases t
  {
    if c in Chunks(t.left) {
      PairInMemory(m, m[a].left, t.left, Child(a), idx, c);
    } else if c in Chunks(t.right) {
      PairInMemory(m, m[a].right, t.right, Child(a), idx, c);
    } else {
      var k :| 0 <= k < |t.chain| && t.chain[k] == c.0;
      assert RingNode(m, t.chain[k], Prev(t.chain, k), Next(t.chain, k), t.size, idx);
    }
  }

  /** No chunk occurs in two parts of the tree. */
  predicate Apart(t: Tree) {
    t.Node? ==> |t.chain| > 0 && RootApart(t) && Apart(t.left) && Apart(t.right)
  }

  predicate RootApart(t: Tree)
    requires t.Node?
  {
    && Addrs(t.left) !! Addrs(t.right)
    && forall c :: c in t.chain ==> c !in Addrs(t.left) && c !in Addrs(t.right)
  }


  /** A tree with one node per size never shares a chunk between two parts. */
  lemma {:induction false} TrieApart(m: Mem, a: nat, t: Tree, up: Up, idx: nat)
    requires OneNodePerSize(t) && Linked(m, a, t, up, idx)
    ensures Apart(t)
    decreases t
  {
    if t.Node? {
      PartsDisjoint(m, a, t, up, idx);
      TrieApart(m, m[a].left, t.left, Child(a), idx);
      TrieApart(m, m[a].right, t.right, Child(a), idx);
    }
  }

  lemma PartsDisjoint(m: Mem, a: nat, t: Tree, up: Up, idx: nat)
    requires t.Node? && OneNodePerSize(t) && Linked(m, a, t, up, idx)
    ensures RootApart(t)
  {
    forall c | c in Addrs(t.left) ensures c !in Addrs(t.right) && c !in t.chain {
      AddrSize(m, m[a].left, t.left, Child(a), idx, c);
      if c in Addrs(t.right) { AddrSize(m, m[a].right, t.right, Child(a), idx, c); }
      if c in t.chain { ChainSize(m, t, idx, c); }
    }
    forall c | c in Addrs(t.right) ensures c !in t.chain {
      AddrSize(m, m[a].right, t.right, Child(a), idx, c);
      if c in t.chain { ChainSize(m, t, idx, c); }
    }
  }

  lemma ChainSize(m: Mem, t: Tree, idx: nat, c: nat)
    requires t.Node? && Ring(m, t.chain, t.size, idx) && c in t.chain
    ensures c in m && m[c].size == t.size
  {
    var k :| 0 <= k < |t.chain| && t.chain[k] == c;
    assert RingNode(m, t.chain[k], Prev(t.chain, k), Next(t.chain, k), t.size, idx);
  }

  // ---------------------------------------------------------------- frames

  predicate SameOn(m: Mem, m': Mem, cs: set<nat>) {
    forall c :: c in cs ==> c in m && c in m' && m'[c] == m[c]
  }

  /** Trees whose chunks are untouched stay linked. */
  lemma {:induction false} LinkedFrame(m: Mem, m': Mem, a: nat, t: Tree, up: Up, idx: nat)
    requires Linked(m, a, t, up, idx) && SameOn(m, m', Addrs(t))
    ensures Linked(m', a, t, up, idx)
    decreases t
  {
    if t.Node? {
      RingFrame(m, m', t.chain, t.size, idx);
      LinkedFrame(m, m', m[a].left, t.left, Child(a), idx);
      LinkedFrame(m, m', m[a].right, t.right, Child(a), idx);
    }
  }

  lemma RingFrame(m: Mem, m': Mem, ch: seq<nat>, s: nat, idx: nat)
    requires Ring(m, ch, s, idx) && Tail(m, ch)
    requires forall c :: c in ch ==> c in m && c in m' && m'[c] == m[c]
    ensures Ring(m', ch, s, idx) && Tail(m', ch)
  {
    forall k | 0 <= k < |ch| ensures RingNode(m', ch[k], Prev(ch, k), Next(ch, k), s, idx) {
      assert RingNode(m, ch[k], Prev(ch, k), Next(ch, k), s, idx);
    }
  }

  /** Equal up to the tree pointers. */
  predicate SameLinks(c: TChunk, c': TChunk) {
    c'.size == c.size && c'.index == c.index && c'.fd == c.fd && c'.bk == c.bk
  }

  /** A ring does not depend on the tree pointers of its chunks. */
  lemma RingSameLinks(m: Mem, m': Mem, ch: seq<nat>, s: nat, idx: nat)
    requires Ring(m, ch, s, idx)
    requires forall c :: c in ch ==> c in m && c in m' && SameLinks(m[c], m'[c])
    ensures Ring(m', ch, s, idx)
  {
    forall k | 0 <= k < |ch| ensures RingNode(m', ch[k], Prev(ch, k), Next(ch, k), s, idx) {
      assert RingNode(m, ch[k], Prev(ch, k), Next(ch, k), s, idx);
    }
  }

  predicate OnlyParent(m: Mem, m': Mem, cs: set<nat>, a: nat, up: Up) {
    forall c :: c in cs ==> c in m && c in m' && m'[c] == if c == a then m[c].(parent := up) else m[c]
  }

  /** Setting the root's parent field hangs the tree elsewhere. */
  lemma Reparent(m: Mem, m': Mem, a: nat, t: Tree, up: Up, up': Up, idx: nat)
    requires Apart(t) && Linked(m, a, t, up, idx)
    requires OnlyParent(m, m', Addrs(t), a, up')
    ensures Linked(m', a, t, up', idx)
  {
    if t.Node? {
      ReparentRing(m, m', a, t, up', idx);
      LinkedFrame(m, m', m[a].left, t.left, Child(a), idx);
      LinkedFrame(m, m', m[a].right, t.right, Child(a), idx);
    }
  }

  lemma ReparentRing(m: Mem, m': Mem, a: nat, t: Tree, up': Up, idx: nat)
    requires t.Node? && Ring(m, t.chain, t.size, idx) && Tail(m, t.chain) && a == t.chain[0]
    requires OnlyParent(m, m', Addrs(t), a, up')
    ensures Ring(m', t.chain, t.size, idx) && Tail(m', t.chain)
    ensures a in m && a in m' && m'[a] == m[a].(parent := up')
  {
    assert a in t.chain;
    ReparentChain(m, m', a, t.chain, up', t.size, idx);
  }

  lemma ReparentChain(m: Mem, m': Mem, a: nat, ch: seq<nat>, up': Up, s: nat, idx: nat)
    requires Ring(m, ch, s, idx) && Tail(m, ch) && a == ch[0]
    requires forall c :: c in ch ==> c in m && c in m' && m'[c] == if c == a then m[c].(parent := up') else m[c]
    ensures Ring(m', ch, s, idx) && Tail(m', ch)
  {
    RingSameLinks(m, m', ch, s, idx);
  }

  // ---------------------------------------------------------------- replacing a subtree

  function SideOf(c: TChunk, right: bool): nat {
    if right then c.right else c.left
  }

  function Redirect(c: TChunk, right: bool, a: nat): TChunk {
    if right then c.(right := a) else c.(left := a)
  }

  /** The pointer that leads to a position: who holds it, and which of the two it is. */
  datatype Hold = Hold(up: Up, right: bool)

  function Holder(t: Tree, path: Path, h: Hold): Hold
    requires Leads(t, path) && Apart(t)
  {
    if path.Here? then h else Holder(Side(t, path.right), path.rest, Hold(Child(t.chain[0]), path.right))
  }

  lemma {:induction false} SubInside(t: Tree, path: Path)
    requires Leads(t, path)
    ensures Addrs(Sub(t, path)) <= Addrs(t)
  {
    if path.Go? {
      SubInside(Side(t, path.right), path.rest);
    }
  }

  lemma {:induction false} HolderInside(t: Tree, path: Path, h: Hold)
    requires Leads(t, path) && Apart(t)
    ensures path.Here? ==> Holder(t, path, h) == h
    ensures path.Go? ==> Holder(t, path, h).up.Child? && Holder(t, path, h).up.addr in Addrs(t)
  {
    if path.Go? {
      assert t.chain[0] in t.chain;
      HolderInside(Side(t, path.right), path.rest, Hold(Child(t.chain[0]), path.right));
    }
  }

  lemma {:induction false} HolderOutside(t: Tree, path: Path, h: Hold)
    requires Leads(t, path) && Apart(t) && path.Go?
    ensures Holder(t, path, h).up.Child? && Holder(t, path, h).up.addr in Addrs(t)
    ensures Holder(t, path, h).up.addr !in Addrs(Sub(t, path))
    decreases t
  {
    assert t.chain[0] in t.chain;
    if path.rest.Go? {
      HolderOutside(Side(t, path.right), path.rest, Hold(Child(t.chain[0]), path.right));
    }
  }

  /** Pruning a position takes away exactly its chunks. */
  lemma {:induction false} PruneApart(t: Tree, path: Path)
    requires Leads(t, path) && Apart(t)
    ensures Apart(Graft(t, path, Nil))
    ensures Addrs(Graft(t, path, Nil)) == Addrs(t) - Addrs(Sub(t, path))
    decreases t
  {
    if path.Go? {
      PruneApart(Side(t, path.right), path.rest);
      SubInside(Side(t, path.right), path.rest);
    }
  }

  /** The chunk after the pointer `h` has been set to `x`. */
  function Led(k: TChunk, c: nat, h: Hold, x: nat): TChunk {
    if h.up == Child(c) then Redirect(k, h.right, x) else k
  }

  /** Memory outside a position, unchanged but for the pointer that leads there. */
  predicate Redirected(m: Mem, m': Mem, outside: set<nat>, h: Hold, x: nat) {
    forall c :: c in outside ==> c in m && c in m' && m'[c] == Led(m[c], c, h, x)
  }

  lemma RedirectedSubset(m: Mem, m': Mem, big: set<nat>, small: set<nat>, h: Hold, x: nat)
    requires Redirected(m, m', big, h, x) && small <= big
    ensures Redirected(m, m', small, h, x)
  {
  }

  /** Grafting in memory: a linked subtree plus one redirected pointer. */
  lemma {:induction false} Replace(m: Mem, m': Mem, a: nat, t: Tree, idx: nat, path: Path, u: Tree, x: nat, h: Hold)
    requires Leads(t, path) && Apart(t) && Linked(m, a, t, h.up, idx)
    requires Linked(m', x, u, Holder(t, path, h).up, idx)
    requires Redirected(m, m', Addrs(t) - Addrs(Sub(t, path)), Holder(t, path, h), x)
    ensures Linked(m', if path.Here? then x else a, Graft(t, path, u), h.up, idx)
    decreases t
  {
    if path.Go? {
      var son, other := Side(t, path.right), Side(t, !path.right);
      var h' := Hold(Child(a), path.right);
      SubInside(son, path.rest);
      HolderInside(son, path.rest, h');
      RedirectedSubset(m, m', Addrs(t) - Addrs(Sub(t, path)), Addrs(son) - Addrs(Sub(t, path)), Holder(t, path, h), x);
      Replace(m, m', SideOf(m[a], path.right), son, idx, path.rest, u, x, h');
      ReplaceRoot(m, m', a, t, idx, path, Holder(t, path, h), x, Addrs(Sub(t, path)));
      LinkedFrame(m, m', SideOf(m[a], !path.right), other, Child(a), idx);
      assert m'[a].parent == h.up;
    }
  }

  /** One level of `Replace`: the ring of the root and the subtree left aside. */
  lemma ReplaceRoot(m: Mem, m': Mem, a: nat, t: Tree, idx: nat, path: Path, h: Hold, x: nat, inside: set<nat>)
    requires t.Node? && path.Go? && Apart(t) && Ring(m, t.chain, t.size, idx) && Tail(m, t.chain) && a == t.chain[0]
    requires inside <= Addrs(Side(t, path.right))
    requires h.up.Child? && (if path.rest.Here? then h == Hold(Child(a), path.right) else h.up.addr in Addrs(Side(t, path.right)))
    requires Redirected(m, m', Addrs(t) - inside, h, x)
    ensures Ring(m', t.chain, t.size, idx) && Tail(m', t.chain)
    ensures SameOn(m, m', Addrs(Side(t, !path.right)))
    ensures a in m && a in m' && m'[a] == if path.rest.Here? then Redirect(m[a], path.right, x) else m[a]
  {
    assert a in t.chain;
    assert SameOn(m, m', Addrs(Side(t, !path.right))) by {
      RedirectedSubset(m, m', Addrs(t) - inside, Addrs(Side(t, !path.right)), h, x);
    }
    assert forall c :: c in t.chain ==> c in m && c in m' && m'[c] == Led(m[c], c, h, x);
    ReplaceRing(m, m', t, idx, h, x);
  }

  lemma ReplaceRing(m: Mem, m': Mem, t: Tree, idx: nat, h: Hold, x: nat)
    requires t.Node? && Ring(m, t.chain, t.size, idx) && Tail(m, t.chain)
    requires h.up.Child? && (h.up.addr == t.chain[0] || h.up.addr !in t.chain)
    requires forall c :: c in t.chain ==> c in m && c in m' && m'[c] == Led(m[c], c, h, x)
    ensures Ring(m', t.chain, t.size, idx) && Tail(m', t.chain)
  {
    forall c | c in t.chain ensures c in m && c in m' && SameLinks(m[c], m'[c]) {
      assert m'[c] == Led(m[c], c, h, x);
    }
    RingSameLinks(m, m', t.chain, t.size, idx);
    forall k | 1 <= k < |t.chain| ensures t.chain[k] in m' && m'[t.chain[k]] == m[t.chain[k]] {
      assert t.chain[k] in t.chain && t.chain[0] != t.chain[k];
    }
  }
}
