/**
 The search of `tmalloc_large` and `tmalloc_small`: down the path of the wanted
 size, then to the leftmost node of the deepest subtree passed on the right (or of
 the next non-empty bin). Proved to find a smallest chunk that is large enough.
 */
module BestFit {
  import opened Common
  import opened Bits
  import opened BinIndex
  import opened Trie
  import opened TrieMemory
  import opened TreeBins

  /** The best chunk so far and its surplus over the request; chunk 0 means none. */
  datatype Best = Best(v: nat, rsize: nat)

  /** Compare a chunk with the best so far, in unsigned 64-bit arithmetic. */
  function Better(m: Mem, t: nat, nb: nat, best: Best): Best
    requires t in m && m[t].size < WORD && nb < WORD
  {
    var trem := Sub64(m[t].size, nb);
    if trem < best.rsize then Best(t, trem) else best
  }

  /** `-nb`, the surplus that every fitting chunk beats. */
  function NoBest(nb: nat): Best
    requires 0 < nb < WORD
  {
    Best(0, WORD - nb)
  }

  /** The best is a chunk of the memory with exactly that surplus, or there is none yet. */
  predicate Sound(m: Mem, best: Best, nb: nat) {
    && nb + best.rsize <= WORD
    && (best.v == 0 ==> nb + best.rsize == WORD)
    && (best.v != 0 ==> best.v in m && m[best.v].size == nb + best.rsize)
  }

  lemma BetterOf(m: Mem, t: nat, nb: nat, best: Best)
    requires t in m && t != 0 && m[t].size < WORD && 0 < nb < WORD && Sound(m, best, nb)
    ensures var best' := Better(m, t, nb, best);
            && Sound(m, best', nb) && best'.rsize <= best.rsize && (best' == best || best'.v == t)
            && (m[t].size >= nb ==> nb + best'.rsize <= m[t].size)
  {
  }

  // ---------------------------------------------------------------- to the leftmost node

  function LeftmostChild(c: TChunk): nat {
    if c.left != 0 then c.left else c.right
  }

  function LeftmostTree(t: Tree): Tree
    requires t.Node?
  {
    if t.left.Node? then t.left else t.right
  }

  /** The loop to the smallest node of a tree, following the tree it walks. */
  function LeftWalk(m: Mem, p: nat, nb: nat, best: Best, t: Tree): Best
    requires nb < WORD
    decreases t
  {
    if t.Nil? || p !in m || m[p].size >= WORD then best
    else LeftWalk(m, LeftmostChild(m[p]), nb, Better(m, p, nb, best), LeftmostTree(t))
  }

  method SmallestOf(m: Mem, p0: nat, nb: nat, best0: Best, ghost t: Tree, ghost up: Up, ghost idx: nat) returns (best: Best)
    requires nb < WORD && Linked(m, p0, t, up, idx) && (forall s :: s in Sizes(t) ==> s < WORD)
    ensures best == LeftWalk(m, p0, nb, best0, t)
  {
    var p := p0;
    best := best0;
    ghost var cur, h := t, up;
    LinkedRoot(m, p, cur, h, idx);
    while p != 0
      invariant Linked(m, p, cur, h, idx) && (p == 0 <==> cur.Nil?) && (p != 0 ==> p in m && m[p].size == cur.size)
      invariant forall s :: s in Sizes(cur) ==> s < WORD
      invariant LeftWalk(m, p, nb, best, cur) == LeftWalk(m, p0, nb, best0, t)
      decreases cur
    {
      assert cur.size in Sizes(cur);
      LinkedRoot(m, m[p].left, cur.left, Child(p), idx);
      best := Better(m, p, nb, best);
      cur, h, p := LeftmostTree(cur), Child(p), LeftmostChild(m[p]);
      LinkedRoot(m, p, cur, h, idx);
    }
  }

  /** The walk brings the bound down to the smallest size of a tree whose sizes all fit. */
  lemma {:induction false} LeftWalkBest(m: Mem, p: nat, nb: nat, best: Best, t: Tree, up: Up, idx: nat)
    requires 0 < nb < WORD && Linked(m, p, t, up, idx) && Sound(m, best, nb)
    requires forall s :: s in Sizes(t) ==> s < WORD
    ensures var best' := LeftWalk(m, p, nb, best, t);
            && Sound(m, best', nb) && best'.rsize <= best.rsize && (best' == best || best'.v in Addrs(t))
            && (t.Node? && LeftmostMin(t) >= nb ==> nb + best'.rsize <= LeftmostMin(t))
    decreases t
  {
    if t.Node? {
      assert t.size in Sizes(t);
      LinkedRoot(m, p, t, up, idx);
      LinkedRoot(m, m[p].left, t.left, Child(p), idx);
      BetterOf(m, p, nb, best);
      LeftWalkBest(m, LeftmostChild(m[p]), nb, Better(m, p, nb, best), LeftmostTree(t), Child(p), idx);
    }
  }

  // ---------------------------------------------------------------- down the path of the wanted size

  /** Where the first loop ends: the best so far and the subtree to search on. */
  datatype Descent = Lost | Descent(best: Best, t: nat)

  /** The first loop: along the turns of `nb`, remembering the last subtree left aside on the right. */
  function Descend(m: Mem, p: nat, nb: nat, best: Best, rst: nat, turns: Path): Descent
    requires nb < WORD
    decreases turns
  {
    if p !in m || m[p].size >= WORD || turns.Here? then Lost
    else
      var best' := Better(m, p, nb, best);
      if best' != best && best'.rsize == 0 then Descent(best', p)
      else
        var next := SideOf(m[p], turns.right);
        var rst' := if m[p].right != 0 && m[p].right != next then m[p].right else rst;
        if next == 0 then Descent(best', rst')
        else Descend(m, next, nb, best', rst', turns.rest)
  }

  /** The surplus after one comparison. */
  function Surplus(size: nat, nb: nat, rsize: nat): nat {
    if nb <= size < nb + rsize then size - nb else rsize
  }

  /** The surplus the first loop ends with, seen on the tree. */
  function DescentSurplus(t: Tree, nb: nat, rsize: nat, turns: Path): (r: nat)
    ensures r <= rsize
  {
    if t.Nil? || turns.Here? || t.size == nb then (if t.Node? && turns.Go? then 0 else rsize)
    else DescentSurplus(Side(t, turns.right), nb, Surplus(t.size, nb, rsize), turns.rest)
  }

  /** The subtree the first loop ends with, seen on the tree. */
  function DescentRest(t: Tree, nb: nat, turns: Path, aside: Tree): Tree {
    if t.Nil? || turns.Here? then aside
    else if t.size == nb then t
    else DescentRest(Side(t, turns.right), nb, turns.rest, if !turns.right && t.right.Node? then t.right else aside)
  }

  /** The turns last for the whole walk. */
  predicate Enough(t: Tree, turns: Path) {
    t.Node? ==> turns.Go? && Enough(Side(t, turns.right), turns.rest)
  }

  /** Memory and tree agree on the first loop. */
  lemma {:induction false} DescendOnTree(m: Mem, idx: nat, p: nat, nb: nat, best: Best, rst: nat, turns: Path,
                                         t: Tree, up: Up, aside: Tree, upA: Up) returns (upR: Up)
    requires t.Node? && Apart(t) && Linked(m, p, t, up, idx) && Linked(m, rst, aside, upA, idx)
    requires forall s :: s in Sizes(t) ==> s < WORD
    requires 0 < nb < WORD && Sound(m, best, nb) && best.rsize > 0 && Enough(t, turns)
    ensures var d := Descend(m, p, nb, best, rst, turns);
            && d.Descent? && Sound(m, d.best, nb) && (d.best == best || d.best.v in Addrs(t))
            && d.best.rsize == DescentSurplus(t, nb, best.rsize, turns)
            && Linked(m, d.t, DescentRest(t, nb, turns, aside), upR, idx)
    decreases t
  {
    assert t.size in Sizes(t);
    var best' := DescendStep(m, idx, p, nb, best, rst, turns, t, up);
    if t.size == nb {
      upR := up;
    } else {
      var son := Side(t, turns.right);
      var kept := !turns.right && t.right.Node?;
      var aside', rst', upA' := if kept then t.right else aside, if kept then m[p].right else rst, if kept then Child(p) else upA;
      assert DescentRest(t, nb, turns, aside) == DescentRest(son, nb, turns.rest, aside');
      if son.Nil? {
        upR := upA';
        assert Descend(m, p, nb, best, rst, turns) == Descent(best', rst');
      } else {
        upR := DescendOnTree(m, idx, SideOf(m[p], turns.right), nb, best', rst', turns.rest, son, Child(p), aside', upA');
      }
    }
  }

  /** One round of the first loop. */
  lemma DescendStep(m: Mem, idx: nat, p: nat, nb: nat, best: Best, rst: nat, turns: Path, t: Tree, up: Up) returns (best': Best)
    requires t.Node? && Apart(t) && Linked(m, p, t, up, idx) && t.size < WORD
    requires 0 < nb < WORD && Sound(m, best, nb) && best.rsize > 0 && turns.Go?
    ensures p in m && p in Addrs(t) && Sound(m, best', nb) && (best' == best || best'.v == p)
    ensures best'.rsize == Surplus(t.size, nb, best.rsize) && (best'.rsize == 0 <==> t.size == nb)
    ensures SideOf(m[p], turns.right) == 0 <==> Side(t, turns.right).Nil?
    ensures Descend(m, p, nb, best, rst, turns) ==
            if t.size == nb then Descent(best', p)
            else
              var next, rst' := SideOf(m[p], turns.right), if !turns.right && t.right.Node? then m[p].right else rst;
              if next == 0 then Descent(best', rst') else Descend(m, next, nb, best', rst', turns.rest)
  {
    LinkedRoot(m, p, t, up, idx);
    BetterOf(m, p, nb, best);
    best' := Better(m, p, nb, best);
    LinkedRoot(m, m[p].left, t.left, Child(p), idx);
    LinkedRoot(m, m[p].right, t.right, Child(p), idx);
    if !turns.right && t.right.Node? && t.left.Node? {
      assert m[p].right in Addrs(t.right) && m[p].left in Addrs(t.left);
    }
  }

  // ---------------------------------------------------------------- why that subtree is enough

  /** Turns that are right as long as bits are open, and do not run out even then. */
  predicate TurnsFor(turns: Path, s: nat, b: nat, lo: nat) {
    && turns.Go?
    && (b > 0 ==> turns.right == Upper(s, b, lo) && TurnsFor(turns.rest, s, b - 1, Half(Upper(s, b, lo), b, lo)))
  }

  lemma {:induction false} KeyTurnsFor(k: nat, s: nat, b: nat, lo: nat)
    requires b <= 64 && lo <= s < lo + Pow2(b) && k < WORD && k == Scale(s - lo, 64 - b)
    ensures TurnsFor(Turns(k, b + 1), s, b, lo)
    decreases b
  {
    if b > 0 {
      KeyStep(s - lo, b);
      KeyTurnsFor(Double(k), s, b - 1, Half(Upper(s, b, lo), b, lo));
    }
  }

  lemma {:induction false} TurnsEnough(t: Tree, b: nat, lo: nat, s: nat, turns: Path)
    requires IsTrie(t, b, lo) && TurnsFor(turns, s, b, lo)
    ensures Enough(t, turns)
    decreases t
  {
    if t.Node? && b > 0 {
      TurnsEnough(Side(t, turns.right), b - 1, Half(turns.right, b, lo), s, turns.rest);
    }
  }

  /** The leftmost walk finds the least size. */
  predicate HasLeast(r: Tree) {
    r.Node? ==> LeftmostMin(r) in Sizes(r) && forall s :: s in Sizes(r) ==> LeftmostMin(r) <= s
  }

  lemma TrieHasLeast(t: Tree, b: nat, lo: nat)
    requires IsTrie(t, b, lo)
    ensures HasLeast(t)
  {
    if t.Node? {
      LeftmostIsMin(t, b, lo);
    }
  }

  predicate From(low: nat, sizes: set<nat>) {
    forall s :: s in sizes ==> low <= s
  }

  predicate Below(sizes: set<nat>, high: nat) {
    forall s :: s in sizes ==> s < high
  }

  /**
   What is left to do: every fitting size is at least the bound or at least the smallest
   size of `rest`, and `rest` holds fitting sizes only (unless an exact fit was found).
   */
  predicate Covers(rsize: nat, rest: Tree, nb: nat, sizes: set<nat>) {
    && (forall s :: s in sizes && s >= nb ==> nb + rsize <= s || (rest.Node? && LeftmostMin(rest) <= s))
    && (rsize == 0 || rest.Nil? || nb <= LeftmostMin(rest))
  }

  /** Sizes beyond a covered fitting size are covered; so are sizes that do not fit, and visited ones. */
  lemma CoversMore(rsize: nat, rest: Tree, nb: nat, sizes: set<nat>, more: set<nat>)
    requires Covers(rsize, rest, nb, sizes)
    requires forall s :: s in more ==> s < nb || nb + rsize <= s || exists z :: z in sizes && nb <= z <= s
    ensures Covers(rsize, rest, nb, sizes + more)
  {
  }

  /** The two subtrees lie in the two halves of the range. */
  lemma Halves(t: Tree, b: nat, lo: nat)
    requires t.Node? && IsTrie(t, b, lo) && b > 0
    ensures Below(Sizes(t.left), lo + Pow2(b - 1))
    ensures From(lo + Pow2(b - 1), Sizes(t.right)) && Below(Sizes(t.right), lo + Pow2(b))
  {
    forall s | s in Sizes(t.left) ensures s < lo + Pow2(b - 1) {
      SizesInRange(t.left, b - 1, lo, s);
    }
    forall s | s in Sizes(t.right) ensures lo + Pow2(b - 1) <= s < lo + Pow2(b) {
      SizesInRange(t.right, b - 1, lo + Pow2(b - 1), s);
    }
  }

  /** The first loop leaves exactly the subtree that still matters. */
  lemma {:induction false} DescentCovers(t: Tree, b: nat, lo: nat, nb: nat, rsize: nat, turns: Path, aside: Tree)
    requires IsTrie(t, b, lo) && lo <= nb < lo + Pow2(b) && TurnsFor(turns, nb, b, lo)
    requires HasLeast(aside) && From(lo + Pow2(b), Sizes(aside))
    ensures HasLeast(DescentRest(t, nb, turns, aside))
    ensures Covers(DescentSurplus(t, nb, rsize, turns), DescentRest(t, nb, turns, aside), nb, Sizes(t) + Sizes(aside))
    decreases b, 1
  {
    if t.Nil? {
    } else if t.size == nb {
      TrieHasLeast(t, b, lo);
    } else if b == 0 {
    } else {
      Halves(t, b, lo);
      if turns.right {
        CoversRight(t, b, lo, nb, rsize, turns, aside);
      } else {
        CoversLeft(t, b, lo, nb, rsize, turns, aside);
      }
    }
  }

  lemma CoversRight(t: Tree, b: nat, lo: nat, nb: nat, rsize: nat, turns: Path, aside: Tree)
    requires t.Node? && b > 0 && IsTrie(t, b, lo) && lo <= nb < lo + Pow2(b) && TurnsFor(turns, nb, b, lo) && turns.right
    requires HasLeast(aside) && From(lo + Pow2(b), Sizes(aside)) && t.size != nb
    requires Below(Sizes(t.left), lo + Pow2(b - 1))
    ensures HasLeast(DescentRest(t, nb, turns, aside))
    ensures Covers(DescentSurplus(t, nb, rsize, turns), DescentRest(t, nb, turns, aside), nb, Sizes(t) + Sizes(aside))
    decreases b, 0
  {
    var rs := Surplus(t.size, nb, rsize);
    DescentCovers(t.right, b - 1, lo + Pow2(b - 1), nb, rs, turns.rest, aside);
    CoversMore(DescentSurplus(t, nb, rsize, turns), DescentRest(t, nb, turns, aside), nb, Sizes(t.right) + Sizes(aside), {t.size} + Sizes(t.left));
    assert Sizes(t) + Sizes(aside) == Sizes(t.right) + Sizes(aside) + ({t.size} + Sizes(t.left));
  }

  lemma CoversLeft(t: Tree, b: nat, lo: nat, nb: nat, rsize: nat, turns: Path, aside: Tree)
    requires t.Node? && b > 0 && IsTrie(t, b, lo) && lo <= nb < lo + Pow2(b) && TurnsFor(turns, nb, b, lo) && !turns.right
    requires HasLeast(aside) && From(lo + Pow2(b), Sizes(aside)) && t.size != nb
    requires From(lo + Pow2(b - 1), Sizes(t.right)) && Below(Sizes(t.right), lo + Pow2(b))
    ensures HasLeast(DescentRest(t, nb, turns, aside))
    ensures Covers(DescentSurplus(t, nb, rsize, turns), DescentRest(t, nb, turns, aside), nb, Sizes(t) + Sizes(aside))
    decreases b, 0
  {
    var aside' := if t.right.Node? then t.right else aside;
    TurnLeft(t, b, lo, nb, turns, aside);
    DescentCovers(t.left, b - 1, lo, nb, Surplus(t.size, nb, rsize), turns.rest, aside');
    AfterLeft(t, nb, rsize, turns, aside, lo + Pow2(b));
  }

  lemma AfterLeft(t: Tree, nb: nat, rsize: nat, turns: Path, aside: Tree, top: nat)
    requires t.Node? && turns.Go? && !turns.right && t.size != nb && From(nb, Sizes(t.right)) && Below(Sizes(t.right), top) && From(top, Sizes(aside))
    requires var aside' := if t.right.Node? then t.right else aside;
             var rest := DescentRest(t.left, nb, turns.rest, aside');
             HasLeast(rest) && Covers(DescentSurplus(t.left, nb, Surplus(t.size, nb, rsize), turns.rest), rest, nb, Sizes(t.left) + Sizes(aside'))
    ensures HasLeast(DescentRest(t, nb, turns, aside))
    ensures Covers(DescentSurplus(t, nb, rsize, turns), DescentRest(t, nb, turns, aside), nb, Sizes(t) + Sizes(aside))
  {
    CoversAside(DescentSurplus(t, nb, rsize, turns), DescentRest(t, nb, turns, aside), nb, Sizes(t.left), t.size, t.right, aside, top);
    assert Sizes(t) + Sizes(aside) == Sizes(t.left) + {t.size} + Sizes(t.right) + Sizes(aside);
  }

  /** Going left, the right subtree is left aside. */
  lemma TurnLeft(t: Tree, b: nat, lo: nat, nb: nat, turns: Path, aside: Tree)
    requires t.Node? && b > 0 && IsTrie(t, b, lo) && lo <= nb < lo + Pow2(b) && TurnsFor(turns, nb, b, lo) && !turns.right
    requires HasLeast(aside) && From(lo + Pow2(b), Sizes(aside)) && From(lo + Pow2(b - 1), Sizes(t.right))
    ensures IsTrie(t.left, b - 1, lo) && nb < lo + Pow2(b - 1) && TurnsFor(turns.rest, nb, b - 1, lo) && From(nb, Sizes(t.right))
    ensures var aside' := if t.right.Node? then t.right else aside; HasLeast(aside') && From(lo + Pow2(b - 1), Sizes(aside'))
  {
    assert Pow2(b) == 2 * Pow2(b - 1);
    TrieHasLeast(t.right, b - 1, lo + Pow2(b - 1));
  }

  /** The nearest right subtree left aside covers those further up. */
  lemma CoversAside(rsize: nat, rest: Tree, nb: nat, left: set<nat>, size: nat, right: Tree, aside: Tree, top: nat)
    requires Covers(rsize, rest, nb, left + Sizes(if right.Node? then right else aside)) && (size < nb || nb + rsize <= size)
    requires From(nb, Sizes(right)) && Below(Sizes(right), top) && From(top, Sizes(aside))
    ensures Covers(rsize, rest, nb, left + {size} + Sizes(right) + Sizes(aside))
  {
    var sizes := left + Sizes(if right.Node? then right else aside);
    if right.Node? {
      assert right.size in Sizes(right);
    }
    CoversMore(rsize, rest, nb, sizes, {size} + Sizes(aside));
    assert left + {size} + Sizes(right) + Sizes(aside) == sizes + ({size} + Sizes(aside));
  }

  // ---------------------------------------------------------------- over all bins

  /** The first loop of `tmalloc_large`, in the bin of the request. */
  method DescendBin(m: Mem, p0: nat, nb: nat, shift: nat, ghost b0: nat) returns (best: Best, p: nat)
    requires 0 < nb < WORD && Descend(m, p0, nb, NoBest(nb), 0, Turns(Shl(nb, shift), b0)).Descent?
    ensures Descent(best, p) == Descend(m, p0, nb, NoBest(nb), 0, Turns(Shl(nb, shift), b0))
  {
    best, p := NoBest(nb), p0;
    var k: nat, rst := Shl(nb, shift), 0;
    ghost var b: nat := b0;
    while true
      invariant k < WORD
      invariant Descend(m, p, nb, best, rst, Turns(k, b)) == Descend(m, p0, nb, NoBest(nb), 0, Turns(Shl(nb, shift), b0))
      decreases b
    {
      var trem := Sub64(m[p].size, nb);
      if trem < best.rsize {
        best := Best(p, trem);
        if trem == 0 {
          return;
        }
      }
      var right := TopBit(k) == 1;
      var rt, next := m[p].right, SideOf(m[p], right);
      if rt != 0 && rt != next {
        rst := rt;
      }
      if next == 0 {
        p := rst;
        return;
      }
      p, k, b := next, Double(k), b - 1;
    }
  }

  lemma {:induction false} DescentRestInside(t: Tree, nb: nat, turns: Path, aside: Tree)
    ensures Sizes(DescentRest(t, nb, turns, aside)) <= Sizes(t) + Sizes(aside)
    ensures Addrs(DescentRest(t, nb, turns, aside)) <= Addrs(t) + Addrs(aside)
    decreases t
  {
    if t.Node? && turns.Go? && t.size != nb {
      DescentRestInside(Side(t, turns.right), nb, turns.rest, if !turns.right && t.right.Node? then t.right else aside);
    }
  }

  /** The turns that the source's key register spells out for a request in bin `i`. */
  function RequestTurns(nb: nat, i: nat): Path
    requires nb < WORD && i < NTREEBINS
  {
    Turns(Shl(nb, LeftShift(i)), OpenBits(i) + 1)
  }

  lemma RequestTurnsFor(nb: nat, i: nat)
    requires 0 < nb < WORD && i < NTREEBINS && InBin(nb, i)
    ensures BinLow(i) <= nb < BinLow(i) + Pow2(OpenBits(i)) && TurnsFor(RequestTurns(nb, i), nb, OpenBits(i), BinLow(i))
  {
    BinRange(nb, i);
    KeyTurnsFor(Shl(nb, LeftShift(i)), nb, OpenBits(i), BinLow(i));
  }

  /** The part of a bin that the first loop leaves to search. */
  predicate Remaining(m: Mem, best: Best, p: nat, rest: Tree, up: Up, t: Tree, i: nat, nb: nat) {
    && Sound(m, best, nb) && (best.v == 0 || best.v in Addrs(t))
    && Linked(m, p, rest, up, i) && HasLeast(rest) && Sizes(rest) <= Sizes(t) && Addrs(rest) <= Addrs(t)
    && Covers(best.rsize, rest, nb, Sizes(t))
  }

  lemma BinDescent(m: Mem, root: nat, t: Tree, i: nat, nb: nat) returns (rest: Tree, up: Up)
    requires BinOk(m, root, true, t, i) && 0 < nb < WORD && InBin(nb, i) && Below(Sizes(t), WORD)
    ensures var d := Descend(m, root, nb, NoBest(nb), 0, RequestTurns(nb, i));
            d.Descent? && Remaining(m, d.best, d.t, rest, up, t, i, nb)
  {
    var b, lo := OpenBits(i), BinLow(i);
    RequestTurnsFor(nb, i);
    TrieOneNodePerSize(t, b, lo);
    TrieApart(m, root, t, Bin(i), i);
    rest, up := TreeDescent(m, root, t, i, nb, RequestTurns(nb, i), b, lo);
  }

  lemma TreeDescent(m: Mem, root: nat, t: Tree, i: nat, nb: nat, turns: Path, b: nat, lo: nat) returns (rest: Tree, up: Up)
    requires t.Node? && Apart(t) && Linked(m, root, t, Bin(i), i) && IsTrie(t, b, lo) && Below(Sizes(t), WORD)
    requires 0 < nb < WORD && lo <= nb < lo + Pow2(b) && TurnsFor(turns, nb, b, lo)
    ensures var d := Descend(m, root, nb, NoBest(nb), 0, turns);
            d.Descent? && Remaining(m, d.best, d.t, rest, up, t, i, nb)
  {
    TurnsEnough(t, b, lo, nb, turns);
    up := DescendOnTree(m, i, root, nb, NoBest(nb), 0, turns, t, Bin(i), Nil, Chained);
    RestHolds(t, b, lo, nb, WORD - nb, turns, Nil);
    RestInside(t, nb, turns, Nil);
    rest := DescentRest(t, nb, turns, Nil);
  }

  /** Nothing is set aside at the start. */
  lemma RestHolds(t: Tree, b: nat, lo: nat, nb: nat, rsize: nat, turns: Path, aside: Tree)
    requires IsTrie(t, b, lo) && lo <= nb < lo + Pow2(b) && TurnsFor(turns, nb, b, lo) && aside.Nil?
    ensures HasLeast(DescentRest(t, nb, turns, aside)) && Covers(DescentSurplus(t, nb, rsize, turns), DescentRest(t, nb, turns, aside), nb, Sizes(t))
  {
    assert HasLeast(aside) && From(lo + Pow2(b), Sizes(aside));
    DescentCovers(t, b, lo, nb, rsize, turns, aside);
    assert Sizes(t) + Sizes(aside) == Sizes(t);
  }

  lemma RestInside(t: Tree, nb: nat, turns: Path, aside: Tree)
    requires aside.Nil?
    ensures Sizes(DescentRest(t, nb, turns, aside)) <= Sizes(t) && Addrs(DescentRest(t, nb, turns, aside)) <= Addrs(t)
  {
    DescentRestInside(t, nb, turns, aside);
  }

  /** Every stored size fits into a word. */
  lemma BinBelowWord(m: Mem, root: nat, mark: bool, t: Tree, i: nat)
    requires BinOk(m, root, mark, t, i)
    ensures Below(Sizes(t), WORD)
  {
    forall s | s in Sizes(t) ensures s < WORD {
      SizesInRange(t, OpenBits(i), BinLow(i), s);
      BinEnds(i);
    }
  }

  lemma BinEnds(i: nat)
    requires i < NTREEBINS
    ensures BinLow(i) + Pow2(OpenBits(i)) <= WORD
  {
    Pow2Values();
    if i < NTREEBINS - 1 {
      MinSizeStep(i);
      MinSizeMono(i + 1, 31);
      MinSizeOfLastTwo();
    }
  }

  // ---------------------------------------------------------------- the result

  /** No stored chunk that is large enough is smaller; chunk 0 only if none is large enough. */
  predicate IsBestFit(best: Best, nb: nat, trees: seq<Tree>) {
    && (best.v != 0 ==> (best.v, nb + best.rsize) in Stored(trees))
    && (best.v == 0 ==> forall c :: c in Stored(trees) ==> c.1 < nb)
    && (best.v != 0 ==> forall c :: c in Stored(trees) && c.1 >= nb ==> nb + best.rsize <= c.1)
  }

  /** All bins are covered by the bound and one remaining subtree. */
  predicate AllCovered(best: Best, rest: Tree, nb: nat, trees: seq<Tree>) {
    && (forall c :: c in Stored(trees) && c.1 >= nb ==> nb + best.rsize <= c.1 || (rest.Node? && LeftmostMin(rest) <= c.1))
    && (best.rsize == 0 || rest.Nil? || nb <= LeftmostMin(rest))
  }

  lemma StoredInBin(m: Mem, roots: seq<nat>, marks: seq<bool>, trees: seq<Tree>, c: (nat, nat)) returns (j: nat)
    requires BinsOk(m, roots, marks, trees) && c in Stored(trees)
    ensures j < NTREEBINS && c in Chunks(trees[j]) && c.1 in Sizes(trees[j]) && InBin(c.1, j) && c.1 < WORD && marks[j]
  {
    j :| 0 <= j < |trees| && c in Chunks(trees[j]);
    assert BinOk(m, roots[j], marks[j], trees[j], j);
    ChunkSize(trees[j], c);
    BinBelowWord(m, roots[j], marks[j], trees[j], j);
  }

  /** A stored chunk that fits lies in the request's bin or above; sizes grow with the bin. */
  lemma FitsWhere(m: Mem, roots: seq<nat>, marks: seq<bool>, trees: seq<Tree>, i: nat, nb: nat, c: (nat, nat)) returns (j: nat)
    requires BinsOk(m, roots, marks, trees) && i < NTREEBINS && InBin(nb, i) && c in Stored(trees) && c.1 >= nb
    ensures i <= j < NTREEBINS && marks[j] && c.1 in Sizes(trees[j])
  {
    j := StoredInBin(m, roots, marks, trees, c);
    if j < i {
      BinsOrdered(c.1, j, nb, i);
    }
  }

  lemma SizesGrow(m: Mem, roots: seq<nat>, marks: seq<bool>, trees: seq<Tree>, i: nat, x: nat, j: nat, y: nat)
    requires BinsOk(m, roots, marks, trees) && i < j < NTREEBINS
    requires x in Sizes(trees[i]) || InBin(x, i)
    requires y in Sizes(trees[j])
    ensures x < y
  {
    assert BinOk(m, roots[i], marks[i], trees[i], i) && BinOk(m, roots[j], marks[j], trees[j], j);
    BinsOrdered(x, i, y, j);
  }

  /** Something was found in the request's own bin: one of its sizes bounds the search. */
  lemma OwnBinWitness(m: Mem, roots: seq<nat>, marks: seq<bool>, trees: seq<Tree>, i: nat, nb: nat, best: Best, rest: Tree) returns (x: nat)
    requires BinsOk(m, roots, marks, trees) && i < NTREEBINS && Sound(m, best, nb) && (best.v == 0 || best.v in Addrs(trees[i]))
    requires HasLeast(rest) && Sizes(rest) <= Sizes(trees[i]) && (best.v != 0 || rest.Node?)
    ensures x in Sizes(trees[i]) && (x == nb + best.rsize || (rest.Node? && x == LeftmostMin(rest)))
  {
    if best.v != 0 {
      FoundSize(m, roots, marks, trees, i, best.v);
      x := nb + best.rsize;
    } else {
      x := LeftmostMin(rest);
    }
  }

  /** Higher bins hold nothing smaller. */
  lemma HigherBinsAbove(m: Mem, roots: seq<nat>, marks: seq<bool>, trees: seq<Tree>, i: nat, nb: nat, x: nat)
    requires BinsOk(m, roots, marks, trees) && i < NTREEBINS && InBin(nb, i) && x in Sizes(trees[i])
    ensures forall c :: c in Stored(trees) && c.1 >= nb ==> c.1 in Sizes(trees[i]) || x <= c.1
  {
    forall c | c in Stored(trees) && c.1 >= nb ensures c.1 in Sizes(trees[i]) || x <= c.1 {
      var j := FitsWhere(m, roots, marks, trees, i, nb, c);
      if j > i {
        SizesGrow(m, roots, marks, trees, i, x, j, c.1);
      }
    }
  }

  lemma CoveredByOwnBin(best: Best, rest: Tree, nb: nat, trees: seq<Tree>, i: nat, x: nat)
    requires i < |trees| && Covers(best.rsize, rest, nb, Sizes(trees[i]))
    requires x == nb + best.rsize || (rest.Node? && x == LeftmostMin(rest))
    requires forall c :: c in Stored(trees) && c.1 >= nb ==> c.1 in Sizes(trees[i]) || x <= c.1
    ensures AllCovered(best, rest, nb, trees)
  {
  }

  lemma FoundSize(m: Mem, roots: seq<nat>, marks: seq<bool>, trees: seq<Tree>, i: nat, v: nat)
    requires BinsOk(m, roots, marks, trees) && i < NTREEBINS && v in Addrs(trees[i])
    ensures v in m && m[v].size in Sizes(trees[i])
  {
    assert BinOk(m, roots[i], marks[i], trees[i], i);
    AddrSize(m, roots[i], trees[i], Bin(i), i, v);
  }

  /** Nothing fits in the request's own bin: the next non-empty bin decides. */
  lemma NextBinEnough(m: Mem, roots: seq<nat>, marks: seq<bool>, trees: seq<Tree>, i: nat, nb: nat, j: nat)
    requires BinsOk(m, roots, marks, trees) && i < NTREEBINS && 0 < nb < WORD && InBin(nb, i)
    requires forall s :: s in Sizes(trees[i]) ==> s < nb
    requires i < j < NTREEBINS && (forall l :: i < l < j ==> !marks[l]) && marks[j]
    ensures AllCovered(NoBest(nb), trees[j], nb, trees)
  {
    var rest := trees[j];
    BinHasLeast(m, roots, marks, trees, j);
    SizesGrow(m, roots, marks, trees, i, nb, j, LeftmostMin(rest));
    forall c | c in Stored(trees) && c.1 >= nb ensures LeftmostMin(rest) <= c.1 {
      var l := FitsWhere(m, roots, marks, trees, i, nb, c);
      if l > j {
        SizesGrow(m, roots, marks, trees, j, LeftmostMin(rest), l, c.1);
      }
    }
  }

  lemma BinHasLeast(m: Mem, roots: seq<nat>, marks: seq<bool>, trees: seq<Tree>, j: nat)
    requires BinsOk(m, roots, marks, trees) && j < NTREEBINS && marks[j]
    ensures trees[j].Node? && HasLeast(trees[j])
  {
    assert BinOk(m, roots[j], marks[j], trees[j], j);
    TrieHasLeast(trees[j], OpenBits(j), BinLow(j));
  }

  /** No bin from the request's own on holds a chunk that fits. */
  lemma NothingFits(m: Mem, roots: seq<nat>, marks: seq<bool>, trees: seq<Tree>, i: nat, nb: nat)
    requires BinsOk(m, roots, marks, trees) && i < NTREEBINS && 0 < nb < WORD && InBin(nb, i)
    requires forall s :: s in Sizes(trees[i]) ==> s < nb
    requires forall l :: i < l < NTREEBINS ==> !marks[l]
    ensures AllCovered(NoBest(nb), Nil, nb, trees)
  {
    forall c | c in Stored(trees) ensures c.1 < nb {
      if c.1 >= nb {
        var l := FitsWhere(m, roots, marks, trees, i, nb, c);
      }
    }
  }

  lemma BoundIsBest(best: Best, best': Best, rest: Tree, nb: nat, trees: seq<Tree>)
    requires AllCovered(best, rest, nb, trees) || forall c :: c in Stored(trees) ==> c.1 < nb
    requires best'.rsize <= best.rsize
    requires rest.Node? && LeftmostMin(rest) >= nb ==> nb + best'.rsize <= LeftmostMin(rest)
    ensures forall c :: c in Stored(trees) && c.1 >= nb ==> nb + best'.rsize <= c.1
  {
  }

  lemma BestConcluded(best: Best, nb: nat, trees: seq<Tree>)
    requires forall c :: c in Stored(trees) && c.1 >= nb ==> nb + best.rsize <= c.1
    requires best.v != 0 ==> (best.v, nb + best.rsize) in Stored(trees)
    requires best.v == 0 ==> nb + best.rsize == WORD && forall c :: c in Stored(trees) ==> c.1 < WORD
    ensures IsBestFit(best, nb, trees)
  {
  }

  lemma StoredBelowWord(m: Mem, roots: seq<nat>, marks: seq<bool>, trees: seq<Tree>)
    requires BinsOk(m, roots, marks, trees)
    ensures forall c :: c in Stored(trees) ==> c.1 < WORD
  {
    forall c | c in Stored(trees) ensures c.1 < WORD {
      var j := StoredInBin(m, roots, marks, trees, c);
    }
  }

  // ---------------------------------------------------------------- the searches

  /** The search of `tmalloc_large`. */
  method FindLarge(m: Mem, roots: seq<nat>, marks: seq<bool>, nb: nat, ghost trees: seq<Tree>) returns (best: Best)
    requires BinsOk(m, roots, marks, trees) && MIN_LARGE <= nb < WORD
    requires Indexable(nb) || forall c :: c in Stored(trees) ==> c.1 < nb
    ensures IsBestFit(best, nb, trees)
  {
    var i := TreeIndex(nb);
    var p;
    ghost var rest, up;
    best, p, rest, up := FindInOwnBin(m, roots, marks, nb, i, trees);
    if p == 0 && best.v == 0 {
      var j := NextMarked(marks, i + 1);
      if j < NTREEBINS {
        NextBinDecides(m, roots, marks, trees, i, nb, j);
        p := roots[j];
        rest, up, i := trees[j], Bin(j), j;
      } else {
        NoBinDecides(m, roots, marks, trees, i, nb);
      }
    }
    best := FinishSearch(m, roots, marks, nb, best, p, i, trees, rest, up);
  }

  /** A request for which the source's index is right, or which nothing stored can satisfy. */
  predicate Answerable(nb: nat, trees: seq<Tree>) {
    MIN_LARGE <= nb < WORD && (Indexable(nb) || forall c :: c in Stored(trees) ==> c.1 < nb)
  }

  lemma NextBinDecides(m: Mem, roots: seq<nat>, marks: seq<bool>, trees: seq<Tree>, i: nat, nb: nat, j: nat)
    requires BinsOk(m, roots, marks, trees) && Answerable(nb, trees) && i == TreeIndex(nb)
    requires forall s :: s in Sizes(trees[i]) ==> s < nb
    requires i < j < NTREEBINS && (forall l :: i < l < j ==> !marks[l]) && marks[j]
    ensures Linked(m, roots[j], trees[j], Bin(j), j) && Below(Sizes(trees[j]), WORD)
    ensures AllCovered(NoBest(nb), trees[j], nb, trees) || forall c :: c in Stored(trees) ==> c.1 < nb
  {
    assert BinOk(m, roots[j], marks[j], trees[j], j);
    BinBelowWord(m, roots[j], marks[j], trees[j], j);
    if Indexable(nb) {
      IndexableInBin(nb);
      NextBinEnough(m, roots, marks, trees, i, nb, j);
    }
  }

  lemma NoBinDecides(m: Mem, roots: seq<nat>, marks: seq<bool>, trees: seq<Tree>, i: nat, nb: nat)
    requires BinsOk(m, roots, marks, trees) && Answerable(nb, trees) && i == TreeIndex(nb)
    requires forall s :: s in Sizes(trees[i]) ==> s < nb
    requires forall l :: i < l < NTREEBINS ==> !marks[l]
    ensures forall c :: c in Stored(trees) ==> c.1 < nb
  {
    if Indexable(nb) {
      IndexableInBin(nb);
      NothingFits(m, roots, marks, trees, i, nb);
      StoredBelowWord(m, roots, marks, trees);
    }
  }

  /** The bound and the subtree that the search of bin `i` leaves. */
  predicate OwnBin(m: Mem, best: Best, p: nat, rest: Tree, up: Up, i: nat, nb: nat, trees: seq<Tree>)
    requires nb < WORD && i < |trees|
  {
    && Sound(m, best, nb) && (best.v == 0 || best.v in Addrs(trees[i]))
    && Linked(m, p, rest, up, i) && Below(Sizes(rest), WORD) && Addrs(rest) <= Addrs(trees[i])
    && (rest.Node? || best.v != 0 ==> AllCovered(best, rest, nb, trees) || forall c :: c in Stored(trees) ==> c.1 < nb)
    && (rest.Nil? && best.v == 0 ==> forall s :: s in Sizes(trees[i]) ==> s < nb)
  }

  method FindInOwnBin(m: Mem, roots: seq<nat>, marks: seq<bool>, nb: nat, i: nat, ghost trees: seq<Tree>)
    returns (best: Best, p: nat, ghost rest: Tree, ghost up: Up)
    requires BinsOk(m, roots, marks, trees) && Answerable(nb, trees) && i == TreeIndex(nb)
    ensures OwnBin(m, best, p, rest, up, i, nb, trees) && (p == 0 <==> rest.Nil?)
  {
    if roots[i] == 0 {
      EmptyBin(m, roots, marks, trees, i, nb);
      best, p, rest, up := NoBest(nb), 0, Nil, Chained;
    } else {
      FullBin(m, roots, marks, trees, i);
      rest, up := AnyDescent(m, roots, marks, trees, i, nb);
      best, p := DescendFor(m, roots[i], nb, i);
      LinkedRoot(m, p, rest, up, i);
    }
  }

  method DescendFor(m: Mem, root: nat, nb: nat, i: nat) returns (best: Best, p: nat)
    requires 0 < nb < WORD && i < NTREEBINS && Descend(m, root, nb, NoBest(nb), 0, RequestTurns(nb, i)).Descent?
    ensures Descent(best, p) == Descend(m, root, nb, NoBest(nb), 0, RequestTurns(nb, i))
  {
    best, p := DescendBin(m, root, nb, LeftShift(i), OpenBits(i) + 1);
  }

  lemma EmptyBin(m: Mem, roots: seq<nat>, marks: seq<bool>, trees: seq<Tree>, i: nat, nb: nat)
    requires BinsOk(m, roots, marks, trees) && 0 < nb < WORD && i < NTREEBINS && roots[i] == 0
    ensures OwnBin(m, NoBest(nb), 0, Nil, Chained, i, nb, trees)
  {
    assert BinOk(m, roots[i], marks[i], trees[i], i);
    LinkedRoot(m, roots[i], trees[i], Bin(i), i);
  }

  lemma FullBin(m: Mem, roots: seq<nat>, marks: seq<bool>, trees: seq<Tree>, i: nat)
    requires BinsOk(m, roots, marks, trees) && i < NTREEBINS && roots[i] != 0
    ensures marks[i] && Below(Sizes(trees[i]), WORD)
  {
    assert BinOk(m, roots[i], marks[i], trees[i], i);
    LinkedRoot(m, roots[i], trees[i], Bin(i), i);
    BinBelowWord(m, roots[i], marks[i], trees[i], i);
  }

  /** What the first loop achieves, for a right index and for a hopeless request alike. */
  lemma AnyDescent(m: Mem, roots: seq<nat>, marks: seq<bool>, trees: seq<Tree>, i: nat, nb: nat) returns (rest: Tree, up: Up)
    requires BinsOk(m, roots, marks, trees) && Answerable(nb, trees) && i == TreeIndex(nb) && marks[i] && Below(Sizes(trees[i]), WORD)
    ensures var d := Descend(m, roots[i], nb, NoBest(nb), 0, RequestTurns(nb, i));
            d.Descent? && OwnBin(m, d.best, d.t, rest, up, i, nb, trees)
  {
    assert BinOk(m, roots[i], marks[i], trees[i], i);
    if Indexable(nb) {
      IndexableInBin(nb);
      rest, up := BinDescent(m, roots[i], trees[i], i, nb);
      var best := Descend(m, roots[i], nb, NoBest(nb), 0, RequestTurns(nb, i)).best;
      if best.v != 0 || rest.Node? {
        var x := OwnBinWitness(m, roots, marks, trees, i, nb, best, rest);
        HigherBinsAbove(m, roots, marks, trees, i, nb, x);
        CoveredByOwnBin(best, rest, nb, trees, i, x);
      }
    } else {
      rest, up := HopelessDescent(m, roots[i], trees[i], i, nb);
      SizesAreStored(m, roots, marks, trees, i, nb);
    }
  }

  lemma SizesAreStored(m: Mem, roots: seq<nat>, marks: seq<bool>, trees: seq<Tree>, i: nat, nb: nat)
    requires BinsOk(m, roots, marks, trees) && i < NTREEBINS && forall c :: c in Stored(trees) ==> c.1 < nb
    ensures forall s :: s in Sizes(trees[i]) ==> s < nb
  {
    assert BinOk(m, roots[i], marks[i], trees[i], i);
    forall s | s in Sizes(trees[i]) ensures s < nb {
      var c := SizeHasChunk(trees[i], OpenBits(i), BinLow(i), s);
      assert c in Stored(trees);
    }
  }

  lemma {:induction false} SizeHasChunk(t: Tree, b: nat, lo: nat, s: nat) returns (c: (nat, nat))
    requires IsTrie(t, b, lo) && s in Sizes(t)
    ensures c in Chunks(t) && c.1 == s
    decreases t
  {
    if t.size == s {
      c := (t.chain[0], s);
      assert t.chain[0] in t.chain;
    } else if s in Sizes(t.left) {
      c := SizeHasChunk(t.left, b - 1, lo, s);
    } else {
      c := SizeHasChunk(t.right, b - 1, lo + Pow2(b - 1), s);
    }
  }

  /** The walk through the wrong bin for a request too large for everything stored. */
  lemma HopelessDescent(m: Mem, root: nat, t: Tree, i: nat, nb: nat) returns (rest: Tree, up: Up)
    requires BinOk(m, root, true, t, i) && 0 < nb < WORD && Below(Sizes(t), WORD)
    ensures var d := Descend(m, root, nb, NoBest(nb), 0, RequestTurns(nb, i));
            && d.Descent? && Sound(m, d.best, nb) && (d.best.v == 0 || d.best.v in Addrs(t))
            && Linked(m, d.t, rest, up, i) && Below(Sizes(rest), WORD) && Addrs(rest) <= Addrs(t)
  {
    TrieOneNodePerSize(t, OpenBits(i), BinLow(i));
    TrieApart(m, root, t, Bin(i), i);
    LongEnough(t, OpenBits(i), BinLow(i), Shl(nb, LeftShift(i)));
    var turns := RequestTurns(nb, i);
    up := DescendOnTree(m, i, root, nb, NoBest(nb), 0, turns, t, Bin(i), Nil, Chained);
    DescentRestInside(t, nb, turns, Nil);
    rest := DescentRest(t, nb, turns, Nil);
  }

  lemma {:induction false} LongEnough(t: Tree, b: nat, lo: nat, k: nat)
    requires IsTrie(t, b, lo) && k < WORD
    ensures Enough(t, Turns(k, b + 1))
    decreases t
  {
    if t.Node? && b > 0 {
      LongEnough(t.left, b - 1, lo, Double(k));
      LongEnough(t.right, b - 1, lo + Pow2(b - 1), Double(k));
    }
  }

  method FinishSearch(m: Mem, roots: seq<nat>, marks: seq<bool>, nb: nat, best0: Best, p: nat, ghost i: nat, ghost trees: seq<Tree>, ghost rest: Tree, ghost up: Up)
    returns (best: Best)
    requires BinsOk(m, roots, marks, trees) && 0 < nb < WORD && i < NTREEBINS
    requires Sound(m, best0, nb) && (best0.v == 0 || best0.v in Addrs(trees[i]))
    requires AllCovered(best0, rest, nb, trees) || forall c :: c in Stored(trees) ==> c.1 < nb
    requires Linked(m, p, rest, up, i) && Below(Sizes(rest), WORD) && Addrs(rest) <= Addrs(trees[i])
    ensures IsBestFit(best, nb, trees)
  {
    best := SmallestOf(m, p, nb, best0, rest, up, i);
    LeftWalkBest(m, p, nb, best0, rest, up, i);
    SearchDone(m, roots, marks, nb, best0, best, i, trees, rest);
  }

  /** A sound bound that covers what the walk could not is a best fit. */
  lemma SearchDone(m: Mem, roots: seq<nat>, marks: seq<bool>, nb: nat, best0: Best, best: Best, i: nat, trees: seq<Tree>, rest: Tree)
    requires BinsOk(m, roots, marks, trees) && 0 < nb < WORD && i < NTREEBINS
    requires AllCovered(best0, rest, nb, trees) || forall c :: c in Stored(trees) ==> c.1 < nb
    requires Sound(m, best, nb) && best.rsize <= best0.rsize && (best.v == 0 || best.v in Addrs(trees[i]))
    requires rest.Node? && LeftmostMin(rest) >= nb ==> nb + best.rsize <= LeftmostMin(rest)
    ensures IsBestFit(best, nb, trees)
  {
    BoundIsBest(best0, best, rest, nb, trees);
    FoundStored(m, roots, marks, nb, best, i, trees);
    BestConcluded(best, nb, trees);
  }

  lemma FoundStored(m: Mem, roots: seq<nat>, marks: seq<bool>, nb: nat, best: Best, i: nat, trees: seq<Tree>)
    requires BinsOk(m, roots, marks, trees) && 0 < nb < WORD && i < NTREEBINS && Sound(m, best, nb) && (best.v == 0 || best.v in Addrs(trees[i]))
    ensures best.v != 0 ==> (best.v, nb + best.rsize) in Stored(trees)
    ensures best.v == 0 ==> nb + best.rsize == WORD && forall c :: c in Stored(trees) ==> c.1 < WORD
  {
    if best.v != 0 {
      AddrStored(m, roots, marks, trees, best.v, i);
    } else {
      StoredBelowWord(m, roots, marks, trees);
    }
  }

  /** The search of `tmalloc_small`: any tree chunk is large enough, so the lowest bin decides. */
  method FindSmall(m: Mem, roots: seq<nat>, marks: seq<bool>, nb: nat, ghost trees: seq<Tree>) returns (best: Best)
    requires BinsOk(m, roots, marks, trees) && 0 < nb < MIN_LARGE && true in marks
    ensures IsBestFit(best, nb, trees) && best.v != 0
  {
    var i := NextMarked(marks, 0);
    assert BinOk(m, roots[i], marks[i], trees[i], i);
    LowestBinEnough(m, roots, marks, trees, nb, i);
    BinBelowWord(m, roots[i], marks[i], trees[i], i);
    best := FinishSearch(m, roots, marks, nb, NoBest(nb), roots[i], i, trees, trees[i], Bin(i));
    RootStored(m, roots, marks, trees, i);
  }

  lemma LowestBinEnough(m: Mem, roots: seq<nat>, marks: seq<bool>, trees: seq<Tree>, nb: nat, i: nat)
    requires BinsOk(m, roots, marks, trees) && 0 < nb < MIN_LARGE
    requires i < NTREEBINS && marks[i] && forall l :: 0 <= l < i ==> !marks[l]
    ensures AllCovered(NoBest(nb), trees[i], nb, trees)
  {
    BinHasLeast(m, roots, marks, trees, i);
    var low := LeftmostMin(trees[i]);
    LargeSize(m, roots, marks, trees, i, low);
    forall c | c in Stored(trees) ensures low <= c.1 {
      var j := StoredInBin(m, roots, marks, trees, c);
      if j > i {
        SizesGrow(m, roots, marks, trees, i, low, j, c.1);
      }
    }
  }

  lemma LargeSize(m: Mem, roots: seq<nat>, marks: seq<bool>, trees: seq<Tree>, i: nat, s: nat)
    requires BinsOk(m, roots, marks, trees) && i < NTREEBINS && s in Sizes(trees[i])
    ensures s >= MIN_LARGE
  {
    assert BinOk(m, roots[i], marks[i], trees[i], i);
    MinSizeMono(0, i);
    Pow2Values();
  }

  lemma RootStored(m: Mem, roots: seq<nat>, marks: seq<bool>, trees: seq<Tree>, i: nat)
    requires BinsOk(m, roots, marks, trees) && i < NTREEBINS && marks[i]
    ensures exists c :: c in Stored(trees) && c.1 >= MIN_LARGE
  {
    assert BinOk(m, roots[i], marks[i], trees[i], i);
    LinkedRoot(m, roots[i], trees[i], Bin(i), i);
    AddrStored(m, roots, marks, trees, roots[i], i);
    FoundSize(m, roots, marks, trees, i, roots[i]);
    LargeSize(m, roots, marks, trees, i, m[roots[i]].size);
    assert (roots[i], m[roots[i]].size) in Stored(trees);
  }
}
