/**
 `list_sort`: merge sort of a doubly linked list in place. Nodes are addresses, 0 is
 null; the keys nodes are compared by do not change.
 */
module ListSort {

  import opened Common

  datatype Node = Node(next: nat, prev: nat)

  type Memory = map<nat, Node>
  type Keys = map<nat, nat>

  // ---------------------------------------------------------------- lists in memory

  function First(s: seq<nat>): nat {
    if s == [] then 0 else s[0]
  }

  function Last(s: seq<nat>): nat {
    if s == [] then 0 else s[|s| - 1]
  }

  function After(s: seq<nat>, i: nat): nat {
    if i + 1 < |s| then s[i + 1] else 0
  }

  function Before(s: seq<nat>, i: nat): nat
    requires i <= |s|
  {
    if i > 0 then s[i - 1] else 0
  }

  /** The nodes of `s`, linked forward. */
  predicate Linked(m: Memory, s: seq<nat>) {
    forall i :: 0 <= i < |s| ==> s[i] in m && s[i] != 0 && m[s[i]].next == After(s, i)
  }

  /** Linked backward as well. */
  predicate LinkedBack(m: Memory, s: seq<nat>) {
    forall i :: 0 <= i < |s| ==> s[i] in m && m[s[i]].prev == Before(s, i)
  }

  /** Memory outside `s` is as before. */
  predicate Outside(m: Memory, m': Memory, s: seq<nat>) {
    m'.Keys == m.Keys && forall n :: n in m && n !in s ==> m'[n] == m[n]
  }

  // ---------------------------------------------------------------- merging as a function

  predicate Known(key: Keys, s: seq<nat>) {
    forall n :: n in s ==> n in key
  }

  predicate Sorted(key: Keys, s: seq<nat>)
    requires Known(key, s)
  {
    forall i, j :: 0 <= i < j < |s| ==> key[s[i]] <= key[s[j]]
  }

  /** What `merge` takes next: the right head unless the left one is smaller. */
  function Merged(key: Keys, l: seq<nat>, r: seq<nat>): seq<nat>
    requires Known(key, l) && Known(key, r)
    decreases |l| + |r|
  {
    if l == [] then r else if r == [] then l
    else if key[l[0]] >= key[r[0]] then [r[0]] + Merged(key, l, r[1..]) else [l[0]] + Merged(key, l[1..], r)
  }

  lemma {:induction false} MergedMultiset(key: Keys, l: seq<nat>, r: seq<nat>)
    requires Known(key, l) && Known(key, r)
    ensures multiset(Merged(key, l, r)) == multiset(l) + multiset(r)
    decreases |l| + |r|
  {
    if l != [] && r != [] {
      if key[l[0]] >= key[r[0]] {
        MergedMultiset(key, l, r[1..]);
        assert r == [r[0]] + r[1..];
      } else {
        MergedMultiset(key, l[1..], r);
        assert l == [l[0]] + l[1..];
      }
    }
  }

  lemma MergedMembers(key: Keys, l: seq<nat>, r: seq<nat>, n: nat)
    requires Known(key, l) && Known(key, r)
    ensures n in Merged(key, l, r) <==> n in l || n in r
  {
    MergedMultiset(key, l, r);
    assert n in Merged(key, l, r) <==> n in multiset(Merged(key, l, r));
    assert n in l <==> n in multiset(l);
    assert n in r <==> n in multiset(r);
  }

  lemma ConsSorted(key: Keys, n: nat, s: seq<nat>)
    requires Known(key, s) && Sorted(key, s) && n in key && forall k :: k in s ==> key[n] <= key[k]
    ensures Known(key, [n] + s) && Sorted(key, [n] + s)
  {
  }

  lemma HeadSmallest(key: Keys, s: seq<nat>)
    requires s != [] && Known(key, s) && Sorted(key, s)
    ensures Known(key, s[1..]) && Sorted(key, s[1..]) && s[0] in key && forall n :: n in s ==> key[s[0]] <= key[n]
  {
  }

  lemma {:induction false} MergedSorted(key: Keys, l: seq<nat>, r: seq<nat>)
    requires Known(key, l) && Known(key, r) && Sorted(key, l) && Sorted(key, r)
    ensures Known(key, Merged(key, l, r)) && Sorted(key, Merged(key, l, r))
    decreases |l| + |r|
  {
    if l != [] && r != [] {
      HeadSmallest(key, l);
      HeadSmallest(key, r);
      if key[l[0]] >= key[r[0]] {
        MergedSorted(key, l, r[1..]);
        SmallestFirst(key, l, r[1..], r[0]);
        ConsSorted(key, r[0], Merged(key, l, r[1..]));
      } else {
        MergedSorted(key, l[1..], r);
        SmallestFirst(key, l[1..], r, l[0]);
        ConsSorted(key, l[0], Merged(key, l[1..], r));
      }
    }
  }

  lemma SmallestFirst(key: Keys, l: seq<nat>, r: seq<nat>, first: nat)
    requires Known(key, l) && Known(key, r) && first in key
    requires (forall n :: n in l ==> key[first] <= key[n]) && (forall n :: n in r ==> key[first] <= key[n])
    ensures forall n :: n in Merged(key, l, r) ==> n in key && key[first] <= key[n]
  {
    forall n | n in Merged(key, l, r) ensures n in key && key[first] <= key[n] {
      MergedMembers(key, l, r, n);
    }
  }

  // ---------------------------------------------------------------- the operations

  /** `split`: cut the list behind its middle, found with a slow and a fast pointer. */
  method Split(m: Memory, head: nat, ghost s: seq<nat>) returns (m': Memory, mid: nat, ghost k: nat)
    requires |s| >= 2 && Distinct(s) && Linked(m, s) && head == s[0]
    ensures 0 < k < |s| && Linked(m', s[..k]) && Linked(m', s[k..]) && mid == s[k] && Outside(m, m', s)
  {
    var slow, fast := head, m[head].next;
    ghost var i: nat, f: nat := 0, 1;
    while fast != 0
      invariant i < f <= |s| && i + 1 < |s| && slow == s[i] && fast == (if f < |s| then s[f] else 0)
      invariant f < |s| ==> f == 2 * i + 1
      decreases |s| - f
    {
      fast, f := m[fast].next, f + 1;
      if fast != 0 {
        slow, i := m[slow].next, i + 1;
        fast, f := m[fast].next, f + 1;
      }
    }
    k := i + 1;
    mid := m[slow].next;
    m' := m[slow := m[slow].(next := 0)];
    CutBehind(m, s, i);
  }

  lemma CutBehind(m: Memory, s: seq<nat>, i: nat)
    requires Distinct(s) && Linked(m, s) && i + 1 < |s|
    ensures var m' := m[s[i] := m[s[i]].(next := 0)]; Linked(m', s[..i + 1]) && Linked(m', s[i + 1..]) && Outside(m, m', s)
  {
    var m' := m[s[i] := m[s[i]].(next := 0)];
    forall j | 0 <= j < i + 1 ensures s[j] in m' && m'[s[j]].next == After(s[..i + 1], j) {
    }
    var t := s[i + 1..];
    forall j | 0 <= j < |t| ensures t[j] in m' && m'[t[j]].next == After(t, j) {
      assert t[j] == s[i + 1 + j];
    }
  }

  /** The nodes of `d` are linked both ways, up to the last one's next pointer. */
  predicate Built(m: Memory, d: seq<nat>) {
    && LinkedBack(m, d) && forall i :: 0 <= i < |d| ==> d[i] in m && d[i] != 0 && (i + 1 < |d| ==> m[d[i]].next == d[i + 1])
  }

  /** Append node `p` behind the nodes built so far. */
  function Append(m: Memory, tail: nat, p: nat): Memory
    requires p in m && (tail != 0 ==> tail in m)
  {
    var m1 := if tail == 0 then m else m[tail := m[tail].(next := p)];
    m1[p := m1[p].(prev := tail)]
  }

  lemma AppendBuilt(m: Memory, d: seq<nat>, p: nat)
    requires Built(m, d) && Distinct(d) && p in m && p != 0 && p !in d
    ensures (Last(d) != 0 ==> Last(d) in m) && Built(Append(m, Last(d), p), d + [p]) && Append(m, Last(d), p)[p].next == m[p].next
  {
    var m', d' := Append(m, Last(d), p), d + [p];
    forall i | 0 <= i < |d'| ensures d'[i] in m' && m'[d'[i]].prev == Before(d', i) && (i + 1 < |d'| ==> m'[d'[i]].next == d'[i + 1]) {
      if i < |d| {
        assert d'[i] == d[i] && Before(d', i) == Before(d, i);
      }
    }
  }

  lemma AppendAside(m: Memory, d: seq<nat>, p: nat, rest: seq<nat>)
    requires Built(m, d) && p in m && Linked(m, rest) && p !in rest && (forall n :: n in d ==> n !in rest) && (d != [] ==> Last(d) in d)
    ensures (Last(d) != 0 ==> Last(d) in m) && Linked(Append(m, Last(d), p), rest)
  {
    forall i | 0 <= i < |rest| ensures rest[i] != Last(d) || Last(d) == 0 {
      assert rest[i] in rest;
    }
  }

  predicate Apart(a: seq<nat>, b: seq<nat>) {
    forall n :: n in a ==> n !in b
  }

  /** Three lists of nodes without a node in common. */
  predicate Lists(d: seq<nat>, a: seq<nat>, b: seq<nat>) {
    Distinct(d) && Distinct(a) && Distinct(b) && Apart(d, a) && Apart(d, b) && Apart(a, b)
  }

  /** `d` is built, `a` and `b` are linked, and the last node of `d` points to one of them. */
  predicate InMemory(m: Memory, d: seq<nat>, a: seq<nat>, b: seq<nat>) {
    && Built(m, d) && Linked(m, a) && Linked(m, b)
    && (d != [] ==> Last(d) in m && (m[Last(d)].next == First(a) || m[Last(d)].next == First(b)))
  }

  ghost predicate Within(d: seq<nat>, a: seq<nat>, b: seq<nat>, all: seq<nat>) {
    forall n :: n in d || n in a || n in b ==> n in all
  }

  /** `d` is done, the merge of `a` and `b` is still to come. */
  ghost predicate Merging(m0: Memory, m: Memory, key: Keys, all: seq<nat>, d: seq<nat>, a: seq<nat>, b: seq<nat>, goal: seq<nat>) {
    && Known(key, a) && Known(key, b) && Lists(d, a, b) && InMemory(m, d, a, b) && Within(d, a, b, all) && Outside(m0, m, all)
    && d + Merged(key, a, b) == goal
  }

  /** Taking the head of a list off it. */
  lemma Behead(m: Memory, b: seq<nat>)
    requires b != [] && Linked(m, b)
    ensures m[b[0]].next == First(b[1..]) && Linked(m, b[1..])
  {
    var t := b[1..];
    forall i | 0 <= i < |t| ensures m[t[i]].next == After(t, i) {
      assert t[i] == b[i + 1];
    }
  }

  lemma ListsStep(d: seq<nat>, a: seq<nat>, b: seq<nat>, all: seq<nat>)
    requires Lists(d, a, b) && b != [] && Within(d, a, b, all)
    ensures Lists(d + [b[0]], a, b[1..]) && b[0] !in d && b[0] !in a && b[0] !in b[1..] && Within(d + [b[0]], a, b[1..], all) && b[0] in all
  {
    assert b[0] in b;
    assert forall n :: n in b[1..] ==> n in b;
  }

  lemma MemoryStep(m: Memory, d: seq<nat>, a: seq<nat>, b: seq<nat>)
    requires Lists(d, a, b) && InMemory(m, d, a, b) && b != [] && b[0] !in d && b[0] !in a && b[0] !in b[1..]
    ensures b[0] in m && (Last(d) != 0 ==> Last(d) in m) && b[0] != 0 && m[b[0]].next == First(b[1..])
    ensures InMemory(Append(m, Last(d), b[0]), d + [b[0]], a, b[1..])
  {
    Behead(m, b);
    AppendBuilt(m, d, b[0]);
    AppendAside(m, d, b[0], a);
    AppendAside(m, d, b[0], b[1..]);
  }

  lemma OutsideStep(m0: Memory, m: Memory, all: seq<nat>, tail: nat, p: nat)
    requires Outside(m0, m, all) && p in m && p in all && (tail != 0 ==> tail in m && tail in all)
    ensures Outside(m0, Append(m, tail, p), all)
  {
  }

  lemma KnownRest(key: Keys, b: seq<nat>)
    requires Known(key, b) && b != []
    ensures Known(key, b[1..]) && b == [b[0]] + b[1..]
  {
    forall n | n in b[1..] ensures n in key {
      assert n in b;
    }
  }

  lemma Regroup(d: seq<nat>, x: nat, rest: seq<nat>)
    ensures d + ([x] + rest) == d + [x] + rest
  {
  }

  lemma TakeRight(m0: Memory, m: Memory, key: Keys, all: seq<nat>, d: seq<nat>, a: seq<nat>, b: seq<nat>, goal: seq<nat>)
    requires Merging(m0, m, key, all, d, a, b, goal) && b != [] && (a == [] || key[a[0]] >= key[b[0]])
    ensures b[0] in m && (Last(d) != 0 ==> Last(d) in m) && b[0] != 0 && m[b[0]].next == First(b[1..])
    ensures Merging(m0, Append(m, Last(d), b[0]), key, all, d + [b[0]], a, b[1..], goal)
  {
    ListsStep(d, a, b, all);
    MemoryStep(m, d, a, b);
    assert Last(d) != 0 ==> Last(d) in d;
    OutsideStep(m0, m, all, Last(d), b[0]);
    KnownRest(key, b);
    Regroup(d, b[0], Merged(key, a, b[1..]));
  }

  lemma TakeLeft(m0: Memory, m: Memory, key: Keys, all: seq<nat>, d: seq<nat>, a: seq<nat>, b: seq<nat>, goal: seq<nat>)
    requires Merging(m0, m, key, all, d, a, b, goal) && a != [] && (b == [] || key[a[0]] < key[b[0]])
    ensures a[0] in m && (Last(d) != 0 ==> Last(d) in m) && a[0] != 0 && m[a[0]].next == First(a[1..])
    ensures Merging(m0, Append(m, Last(d), a[0]), key, all, d + [a[0]], a[1..], b, goal)
  {
    ListsStep(d, b, a, all);
    MemoryStep(m, d, b, a);
    assert Last(d) != 0 ==> Last(d) in d;
    OutsideStep(m0, m, all, Last(d), a[0]);
    KnownRest(key, a);
    Regroup(d, a[0], Merged(key, a[1..], b));
  }

  lemma MergeStart(m: Memory, key: Keys, l: seq<nat>, r: seq<nat>)
    requires Linked(m, l) && Linked(m, r) && Distinct(l) && Distinct(r) && Apart(l, r) && Known(key, l) && Known(key, r)
    ensures Merging(m, m, key, l + r, [], l, r, Merged(key, l, r))
  {
  }

  /** A list with a first node is not empty. */
  lemma Heads(m: Memory, a: seq<nat>)
    requires Linked(m, a)
    ensures First(a) == 0 <==> a == []
  {
  }

  lemma MergeEnd(m0: Memory, m: Memory, key: Keys, all: seq<nat>, d: seq<nat>, goal: seq<nat>)
    requires Merging(m0, m, key, all, d, [], [], goal)
    ensures d == goal && Linked(m, d) && LinkedBack(m, d)
  {
    assert d + [] == d;
  }

  method AppendNode(m0: Memory, head0: nat, tail: nat, p: nat) returns (m: Memory, head: nat)
    requires p in m0 && (head0 == 0 <==> tail == 0) && (tail != 0 ==> tail in m0)
    ensures m == Append(m0, tail, p) && head == if head0 == 0 then p else head0
  {
    m, head := m0, head0;
    if head == 0 {
      head := p;
    } else {
      m := m[tail := m[tail].(next := p)];
    }
    m := m[p := m[p].(prev := tail)];
  }

  /** `merge`. */
  method Merge(m0: Memory, left0: nat, right0: nat, key: Keys, ghost l: seq<nat>, ghost r: seq<nat>) returns (m: Memory, head: nat, tail: nat)
    requires Linked(m0, l) && Linked(m0, r) && left0 == First(l) && right0 == First(r) && Distinct(l) && Distinct(r) && Apart(l, r) && Known(key, l) && Known(key, r)
    ensures var s := Merged(key, l, r); Linked(m, s) && LinkedBack(m, s) && head == First(s) && tail == Last(s) && Outside(m0, m, l + r)
  {
    m, head, tail := m0, 0, 0;
    var left, right := left0, right0;
    ghost var d: seq<nat>, a, b, goal := [], l, r, Merged(key, l, r);
    MergeStart(m0, key, l, r);
    while left != 0 || right != 0
      invariant Merging(m0, m, key, l + r, d, a, b, goal)
      invariant left == First(a) && right == First(b) && head == First(d) && tail == Last(d)
      decreases |a| + |b|
    {
      var p;
      Heads(m, a);
      Heads(m, b);
      if left == 0 || (right != 0 && key[left] >= key[right]) {
        TakeRight(m0, m, key, l + r, d, a, b, goal);
        p := right;
        right := m[p].next;
        b := b[1..];
      } else {
        TakeLeft(m0, m, key, l + r, d, a, b, goal);
        p := left;
        left := m[p].next;
        a := a[1..];
      }
      m, head := AppendNode(m, head, tail, p);
      d := d + [p];
      tail := p;
    }
    MergeEnd(m0, m, key, l + r, d, goal);
  }

  /** `mergesort`. A single node comes back with no tail. */
  method MergeSort(m0: Memory, head0: nat, key: Keys, ghost s: seq<nat>) returns (m: Memory, head: nat, tail: nat, ghost t: seq<nat>)
    requires Linked(m0, s) && Distinct(s) && head0 == First(s) && Known(key, s)
    ensures multiset(t) == multiset(s) && Known(key, t) && Sorted(key, t) && Linked(m, t) && head == First(t) && Outside(m0, m, s)
    ensures |s| >= 2 ==> LinkedBack(m, t) && tail == Last(t)
    ensures |s| < 2 ==> m == m0 && tail == 0 && t == s
    decreases |s|
  {
    if head0 == 0 || m0[head0].next == 0 {
      return m0, head0, 0, s;
    }
    ghost var k;
    var mid;
    m, mid, k := Split(m0, head0, s);
    Halves(key, s, k);
    var h1, t1, h2, t2;
    ghost var l, r;
    ghost var m1 := m;
    m, h1, t1, l := MergeSort(m, head0, key, s[..k]);
    LinkedKept(m1, m, s[..k], s[k..]);
    ghost var m2 := m;
    m, h2, t2, r := MergeSort(m, mid, key, s[k..]);
    SameNodes(s[..k], l);
    SameNodes(s[k..], r);
    LinkedKept(m2, m, s[k..], l);
    ghost var m3 := m;
    m, head, tail := Merge(m, h1, h2, key, l, r);
    t := Merged(key, l, r);
    MergedSorted(key, l, r);
    MergedMultiset(key, l, r);
    OutsideAll(m0, m1, m2, m3, m, s, k, l, r);
  }

  lemma Halves(key: Keys, s: seq<nat>, k: nat)
    requires Distinct(s) && k <= |s| && Known(key, s)
    ensures Distinct(s[..k]) && Distinct(s[k..]) && Apart(s[..k], s[k..]) && Known(key, s[..k]) && Known(key, s[k..]) && multiset(s) == multiset(s[..k]) + multiset(s[k..])
  {
    assert s == s[..k] + s[k..];
    forall n | n in s[..k] ensures n !in s[k..] && n in key {
      var i :| 0 <= i < k && s[i] == n;
    }
    forall n | n in s[k..] ensures n in key {
      assert n in s;
    }
  }

  /** Lists with the same nodes: distinct alike, apart alike. */
  lemma SameNodes(s: seq<nat>, t: seq<nat>)
    requires multiset(s) == multiset(t) && Distinct(s)
    ensures Distinct(t) && |t| == |s| && forall n :: n in s <==> n in t
  {
    assert |multiset(s)| == |multiset(t)|;
    forall n ensures n in s <==> n in t {
      assert n in s <==> n in multiset(s);
      assert n in t <==> n in multiset(t);
    }
    forall i, j | 0 <= i < j < |t| ensures t[i] != t[j] {
      if t[i] == t[j] {
        CountTwice(t, i, j);
        CountOnce(s, t[i]);
      }
    }
  }

  lemma CountTwice(t: seq<nat>, i: nat, j: nat)
    requires i < j < |t| && t[i] == t[j]
    ensures multiset(t)[t[i]] >= 2
  {
    assert t == t[..j] + [t[j]] + t[j + 1..];
    assert t[..j] == t[..i] + [t[i]] + t[..j][i + 1..];
  }

  lemma {:induction false} CountOnce(s: seq<nat>, n: nat)
    requires Distinct(s)
    ensures multiset(s)[n] <= 1
    decreases |s|
  {
    if s != [] {
      CountOnce(s[1..], n);
      assert s == [s[0]] + s[1..];
      if n == s[0] {
        assert n !in s[1..];
      }
    }
  }

  lemma LinkedKept(m: Memory, m': Memory, s: seq<nat>, t: seq<nat>)
    requires Outside(m, m', s) && Apart(s, t) && Linked(m, t)
    ensures Linked(m', t)
  {
    forall i | 0 <= i < |t| ensures t[i] !in s {
      assert t[i] in t;
    }
  }

  lemma OutsideAll(m0: Memory, m1: Memory, m2: Memory, m3: Memory, m4: Memory, s: seq<nat>, k: nat, l: seq<nat>, r: seq<nat>)
    requires k <= |s| && Outside(m0, m1, s) && Outside(m1, m2, s[..k]) && Outside(m2, m3, s[k..]) && Outside(m3, m4, l + r)
    requires (forall n :: n in l ==> n in s[..k]) && (forall n :: n in r ==> n in s[k..])
    ensures Outside(m0, m4, s)
  {
    forall n | n in m0 && n !in s ensures m4[n] == m0[n] {
      assert n !in s[..k] && n !in s[k..] && n !in l && n !in r;
    }
  }

  // ---------------------------------------------------------------- list_sort

  /** A list record. */
  datatype List = List(head: nat, tail: nat)

  /** A well-formed doubly linked list of the nodes of `s`. */
  predicate WellFormed(m: Memory, list: List, s: seq<nat>) {
    list.head == First(s) && list.tail == Last(s) && Linked(m, s) && LinkedBack(m, s)
  }

  /** `list_sort`: the result is well formed if and only if the list has not exactly one node. */
  method Sort(m0: Memory, list0: List, key: Keys, ghost s: seq<nat>) returns (m: Memory, list: List, ghost t: seq<nat>)
    requires WellFormed(m0, list0, s) && Distinct(s) && Known(key, s)
    ensures multiset(t) == multiset(s) && Known(key, t) && Sorted(key, t) && Linked(m, t) && list.head == First(t) && Outside(m0, m, s)
    ensures WellFormed(m, list, t) <==> |s| != 1
  {
    var head, tail;
    m, head, tail, t := MergeSort(m0, list0.head, key, s);
    list := List(head, tail);
    assert multiset(t) == multiset(s) && |multiset(t)| == |multiset(s)|;
  }
}
