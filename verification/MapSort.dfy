/**
 The end of `mm_map_sanitize`: the settled entries are sorted by their addresses as a linked list,
 which leaves the runs of each type in ascending order.
 */
module MapSort {
  import opened Common
  import opened MemoryMap
  import ListSort

  /** Each entry ends before the next one starts, and entries of one type do not touch. */
  predicate Ascending(es: seq<Entry>) {
    forall i, j :: 0 <= i < j < |es| ==> es[i].end < es[j].start && (es[i].kind == es[j].kind ==> es[i].end + 1 < es[j].start)
  }

  /** The entries in the order of their nodes; node `n` holds entry `n - 1`. */
  function Image(es: seq<Entry>, s: seq<nat>): (r: seq<Entry>)
    requires InRange(es, s)
    ensures |r| == |s| && forall k :: 0 <= k < |s| ==> r[k] == es[s[k] - 1]
  {
    seq(|s|, k requires 0 <= k < |s| => es[s[k] - 1])
  }

  predicate InRange(es: seq<Entry>, s: seq<nat>) {
    forall k :: 0 <= k < |s| ==> 0 < s[k] <= |es|
  }

  function Nodes(n: nat): (s: seq<nat>)
    ensures |s| == n && forall k :: 0 <= k < n ==> s[k] == k + 1
  {
    seq(n, k requires 0 <= k < n => k + 1)
  }

  /** `n` nodes, linked in both directions. */
  function Chain(n: nat): (m: ListSort.Memory)
    ensures ListSort.WellFormed(m, ListSort.List(if n == 0 then 0 else 1, n), Nodes(n))
  {
    map k | k in Nodes(n) :: ListSort.Node(if k < n then k + 1 else 0, k - 1)
  }

  function StartKeys(es: seq<Entry>): (key: ListSort.Keys)
    ensures ListSort.Known(key, Nodes(|es|)) && forall k :: k in key ==> 0 < k <= |es| && key[k] == es[k - 1].start
  {
    map k | k in Nodes(|es|) :: es[k - 1].start
  }

  // ---------------------------------------------------------------- the same entries in another order

  lemma {:induction false} SameImage(es: seq<Entry>, s: seq<nat>, t: seq<nat>)
    requires InRange(es, s) && InRange(es, t) && multiset(s) == multiset(t)
    ensures multiset(Image(es, s)) == multiset(Image(es, t))
    decreases |s|
  {
    assert |multiset(s)| == |multiset(t)|;
    if s != [] {
      assert s[0] in multiset(t);
      var i :| 0 <= i < |t| && t[i] == s[0];
      SameWithout(s, t, i);
      ImageHead(es, s);
      ImageWithout(es, t, i);
      SameImage(es, s[1..], t[..i] + t[i + 1..]);
    }
  }

  lemma SameWithout(s: seq<nat>, t: seq<nat>, i: nat)
    requires s != [] && multiset(s) == multiset(t) && i < |t| && t[i] == s[0]
    ensures multiset(s[1..]) == multiset(t[..i] + t[i + 1..])
  {
    assert s == [s[0]] + s[1..];
    assert multiset(s[1..]) == multiset(s) - multiset{s[0]};
    WithoutOne(t, i);
  }

  lemma ImageHead(es: seq<Entry>, s: seq<nat>)
    requires InRange(es, s) && s != []
    ensures InRange(es, s[1..]) && multiset(Image(es, s)) == multiset(Image(es, s[1..])) + multiset{es[s[0] - 1]}
  {
    assert Image(es, s) == [es[s[0] - 1]] + Image(es, s[1..]);
  }

  lemma WithoutOne<T>(t: seq<T>, i: nat)
    requires i < |t|
    ensures multiset(t[..i] + t[i + 1..]) == multiset(t) - multiset{t[i]} && multiset(t) == multiset(t[..i] + t[i + 1..]) + multiset{t[i]}
  {
    assert t == t[..i] + [t[i]] + t[i + 1..];
  }

  lemma ImageWithout(es: seq<Entry>, t: seq<nat>, i: nat)
    requires InRange(es, t) && i < |t|
    ensures InRange(es, t[..i] + t[i + 1..]) && multiset(Image(es, t)) == multiset(Image(es, t[..i] + t[i + 1..])) + multiset{es[t[i] - 1]}
  {
    var r := Image(es, t);
    WithoutOne(r, i);
    assert Image(es, t[..i] + t[i + 1..]) == r[..i] + r[i + 1..];
  }

  lemma {:induction false} TypeAtLeast(es: seq<Entry>, x: nat, k: nat)
    requires k < |es|
    ensures KindOf(es[k], x) <= TypeAt(es, x)
    decreases k
  {
    if k > 0 {
      TypeAtLeast(es[1..], x, k - 1);
    }
  }

  lemma {:induction false} TypeAttained(es: seq<Entry>, x: nat) returns (k: nat)
    requires TypeAt(es, x) > 0
    ensures k < |es| && KindOf(es[k], x) == TypeAt(es, x)
    decreases |es|
  {
    if KindOf(es[0], x) == TypeAt(es, x) {
      k := 0;
    } else {
      k := TypeAttained(es[1..], x);
      k := k + 1;
    }
  }

  lemma TypeNotMore(es: seq<Entry>, es': seq<Entry>, x: nat)
    requires forall e :: e in es ==> e in es'
    ensures TypeAt(es, x) <= TypeAt(es', x)
  {
    if TypeAt(es, x) > 0 {
      var k := TypeAttained(es, x);
      assert es[k] in es;
      var j :| 0 <= j < |es'| && es'[j] == es[k];
      TypeAtLeast(es', x, j);
    }
  }

  /** Types do not depend on the order of the entries. */
  lemma OrderIrrelevant(es: seq<Entry>, es': seq<Entry>)
    requires multiset(es) == multiset(es')
    ensures SameTypes(es, es')
  {
    forall x: nat ensures TypeAt(es', x) == TypeAt(es, x) {
      assert forall e :: e in es ==> e in multiset(es');
      assert forall e :: e in es' ==> e in multiset(es);
      TypeNotMore(es, es', x);
      TypeNotMore(es', es, x);
    }
  }

  lemma {:induction false} DistinctStays(s: seq<nat>, t: seq<nat>, i: nat, j: nat)
    requires Distinct(s) && multiset(s) == multiset(t) && i < j < |t|
    ensures t[i] != t[j]
  {
    if t[i] == t[j] {
      assert t == t[..i] + [t[i]] + t[i + 1..j] + [t[j]] + t[j + 1..];
      assert multiset(t)[t[i]] >= 2;
      AtMostOnce(s, t[i]);
    }
  }

  lemma {:induction false} AtMostOnce(s: seq<nat>, v: nat)
    requires Distinct(s)
    ensures multiset(s)[v] <= 1
    decreases |s|
  {
    if s != [] {
      var r := s[..|s| - 1];
      assert s == r + [s[|s| - 1]];
      AtMostOnce(r, v);
      if v == s[|s| - 1] {
        assert v !in r;
      }
    }
  }

  /** Settled entries sorted by their starts ascend, and stay settled. */
  lemma SortedAscends(es: seq<Entry>, key: ListSort.Keys, t: seq<nat>)
    requires AllOk(es) && Settled(es) && key == StartKeys(es) && InRange(es, t) && ListSort.Known(key, t) && ListSort.Sorted(key, t) && Distinct(t)
    ensures Ascending(Image(es, t))
  {
    var r := Image(es, t);
    forall i, j | 0 <= i < j < |r| ensures r[i].end < r[j].start && (r[i].kind == r[j].kind ==> r[i].end + 1 < r[j].start) {
      assert key[t[i]] <= key[t[j]];
      SettledMeans(es, t[i] - 1, t[j] - 1);
      assert EntryOk(es[t[i] - 1]) && EntryOk(es[t[j] - 1]);
    }
  }

  lemma SortedSettled(es: seq<Entry>, t: seq<nat>)
    requires AllOk(es) && Settled(es) && InRange(es, t) && Distinct(t)
    ensures var r := Image(es, t); AllOk(r) && Settled(r)
  {
    var r := Image(es, t);
    forall i, j | 0 <= i < |r| && 0 <= j < |r| && i != j ensures RuleFor(r[i], r[j]) == NoRule {
      assert t[i] != t[j];
    }
  }

  lemma SortedSame(es: seq<Entry>, s: seq<nat>, t: seq<nat>)
    requires s == Nodes(|es|) && multiset(t) == multiset(s)
    ensures InRange(es, t) && Distinct(t) && multiset(Image(es, t)) == multiset(es) && SameTypes(es, Image(es, t))
  {
    SortedRange(es, s, t);
    forall i, j | 0 <= i < j < |t| ensures t[i] != t[j] {
      DistinctStays(s, t, i, j);
    }
    SameImage(es, s, t);
    assert Image(es, s) == es;
    OrderIrrelevant(es, Image(es, t));
  }

  /** `list_sort` on the entries of a settled map. */
  method SortEntries(es: seq<Entry>) returns (r: seq<Entry>)
    requires AllOk(es) && Settled(es)
    ensures AllOk(r) && Settled(r) && Ascending(r) && multiset(r) == multiset(es) && SameTypes(es, r)
  {
    var m, head, t := SortNodes(es);
    SortedOk(es, t);
    r := Collect(es, m, head, t);
  }

  method SortNodes(es: seq<Entry>) returns (m: ListSort.Memory, head: nat, ghost t: seq<nat>)
    ensures multiset(t) == multiset(Nodes(|es|)) && ListSort.Known(StartKeys(es), t) && ListSort.Sorted(StartKeys(es), t) && ListSort.Linked(m, t) && head == ListSort.First(t)
  {
    var n := |es|;
    var list;
    m, list, t := ListSort.Sort(Chain(n), ListSort.List(if n == 0 then 0 else 1, n), StartKeys(es), Nodes(n));
    head := list.head;
  }

  lemma SortedOk(es: seq<Entry>, t: seq<nat>)
    requires AllOk(es) && Settled(es) && multiset(t) == multiset(Nodes(|es|)) && ListSort.Known(StartKeys(es), t) && ListSort.Sorted(StartKeys(es), t)
    ensures InRange(es, t)
    ensures var r := Image(es, t); AllOk(r) && Settled(r) && Ascending(r) && multiset(r) == multiset(es) && SameTypes(es, r)
  {
    SortedSame(es, Nodes(|es|), t);
    SortedSettled(es, t);
    SortedAscends(es, StartKeys(es), t);
  }

  lemma SortedRange(es: seq<Entry>, s: seq<nat>, t: seq<nat>)
    requires s == Nodes(|es|) && multiset(t) == multiset(s)
    ensures InRange(es, t)
  {
    forall k | 0 <= k < |t| ensures 0 < t[k] <= |es| {
      assert t[k] in multiset(s);
    }
  }

  /** The entries along the list. */
  method Collect(es: seq<Entry>, m: ListSort.Memory, head: nat, ghost t: seq<nat>) returns (r: seq<Entry>)
    requires InRange(es, t) && ListSort.Linked(m, t) && head == ListSort.First(t)
    ensures r == Image(es, t)
  {
    r := [];
    var node := head;
    while node != 0
      invariant |r| <= |t| && node == (if |r| < |t| then t[|r|] else 0) && forall k :: 0 <= k < |r| ==> r[k] == es[t[k] - 1]
      decreases |t| - |r|
    {
      r := r + [es[node - 1]];
      node := m[node].next;
    }
  }
}
