/**
 The kernel's virtual heap: a list of nodes, each a header page followed by its
 payload. A node that is moved to an aligned place leaves a gap behind.
 */
module KernelHeap {

  import opened Common

  const FRAME_SIZE: nat := 4096
  const FRAME_SIZE_1G: nat := 0x4000_0000
  const HEAP_START: nat := 0xFFFF_8000_0000_0000
  const HEAP_END: nat := 0xFFFF_FEFE_FFDF_FFFF

  datatype State = Free | Reserved | Allocated

  /** The payload of a node; its last byte is `end`. */
  datatype Node = Node(start: nat, end: int, state: State)

  function Header(n: Node): int {
    n.start - FRAME_SIZE
  }

  // ---------------------------------------------------------------- node lists

  predicate NodeOk(n: Node) {
    HEAP_START <= Header(n) && n.start <= n.end + 1 <= HEAP_END + 1 && n.start % FRAME_SIZE == 0 && (n.end + 1) % FRAME_SIZE == 0
  }

  /** The nodes, headers included, lie in the heap one behind the other. */
  predicate Ordered(ns: seq<Node>) {
    && (forall i :: 0 <= i < |ns| ==> NodeOk(ns[i]))
    && (forall i :: 0 <= i < |ns| - 1 ==> ns[i].end < Header(ns[i + 1]))
  }

  predicate Touch(n: Node, m: Node) {
    n.state.Free? && m.state.Free? && n.end + 1 == Header(m)
  }

  /** No free node touches the next one if that is free too. */
  predicate Settled(ns: seq<Node>) {
    forall i :: 0 <= i < |ns| - 1 ==> !Touch(ns[i], ns[i + 1])
  }

  function Live(ns: seq<Node>): set<Node> {
    set n | n in ns && !n.state.Free?
  }

  lemma {:induction false} Behind(ns: seq<Node>, i: nat, j: nat)
    requires Ordered(ns) && i < j < |ns|
    ensures ns[i].end < Header(ns[j])
    decreases j - i
  {
    if i + 1 < j {
      Behind(ns, i + 1, j);
      assert NodeOk(ns[i + 1]);
    }
  }

  /** Different nodes share no address, header pages included. */
  lemma NodesDisjoint(ns: seq<Node>, n: Node, m: Node, x: int)
    requires Ordered(ns) && n in ns && m in ns && Header(n) <= x <= n.end && Header(m) <= x <= m.end
    ensures n == m
  {
    var i :| 0 <= i < |ns| && ns[i] == n;
    var j :| 0 <= j < |ns| && ns[j] == m;
    if i < j {
      Behind(ns, i, j);
    } else if j < i {
      Behind(ns, j, i);
    }
  }

  lemma OneStart(ns: seq<Node>, i: nat, j: nat)
    requires Ordered(ns) && i < |ns| && j < |ns| && ns[i].start == ns[j].start
    ensures i == j
  {
    assert NodeOk(ns[i]) && NodeOk(ns[j]);
    if i < j {
      Behind(ns, i, j);
    } else if j < i {
      Behind(ns, j, i);
    }
  }

  // ---------------------------------------------------------------- the fit

  predicate AlignmentOk(a: nat) {
    a == FRAME_SIZE || a == FRAME_SIZE_1G
  }

  predicate Aligned(x: nat, a: nat)
    requires AlignmentOk(a)
  {
    if a == FRAME_SIZE then x % FRAME_SIZE == 0 else x % FRAME_SIZE_1G == 0
  }

  /** The mask with `alignment - 1`, for the two alignments in use. */
  function AlignUp(x: nat, a: nat): (r: nat)
    requires AlignmentOk(a)
    ensures x <= r < x + a && Aligned(r, a) && (r == x <==> Aligned(x, a))
  {
    if a == FRAME_SIZE then (x + FRAME_SIZE - 1) / FRAME_SIZE * FRAME_SIZE else (x + FRAME_SIZE_1G - 1) / FRAME_SIZE_1G * FRAME_SIZE_1G
  }

  lemma PageAligned(x: nat, a: nat)
    requires AlignmentOk(a) && Aligned(x, a)
    ensures x % FRAME_SIZE == 0
  {
    if a == FRAME_SIZE_1G {
      assert x == FRAME_SIZE * (0x4_0000 * (x / FRAME_SIZE_1G));
    }
  }

  predicate Fits(n: Node, size: nat, a: nat)
    requires AlignmentOk(a)
  {
    n.state.Free? && AlignUp(n.start, a) + size <= n.end + 1
  }

  /** The test of the source, on 64-bit words. */
  predicate Accepts(n: Node, size: nat, a: nat)
    requires AlignmentOk(a)
  {
    n.state.Free? && (AlignUp(n.start, a) + size) % WORD <= n.end + 1
  }

  /** The test is right exactly if the sum does not wrap round, or wraps round to behind the node. */
  lemma AcceptsIff(n: Node, size: nat, a: nat)
    requires AlignmentOk(a) && NodeOk(n) && n.state.Free? && AlignUp(n.start, a) < WORD && size < WORD
    ensures (Accepts(n, size, a) <==> Fits(n, size, a)) <==> AlignUp(n.start, a) + size < WORD || AlignUp(n.start, a) + size - WORD > n.end + 1
  {
    var s := AlignUp(n.start, a) + size;
    assert s % WORD == if s < WORD then s else s - WORD;
  }

  /** In a new heap a request that ends at the end of the address space is taken to fit. */
  lemma AcceptsWraps(n: Node, size: nat)
    requires n == Node(HEAP_START + FRAME_SIZE, HEAP_END, Free) && size == WORD - n.start
    ensures NodeOk(n) && size == 0x7FFF_FFFF_F000 && !Fits(n, size, FRAME_SIZE) && Accepts(n, size, FRAME_SIZE)
  {
    assert n.start % FRAME_SIZE == 0 && AlignUp(n.start, FRAME_SIZE) == n.start;
  }

  /** Requests up to this size cannot wrap round. */
  const MAX_REQUEST: nat := WORD - (HEAP_END + 1) - FRAME_SIZE_1G

  // ---------------------------------------------------------------- taking a node

  function Kept(n: Node, payload: nat, size: nat, split: bool): Node {
    Node(payload, if split then payload + size - 1 else n.end, Reserved)
  }

  function Rest(n: Node, next: nat, split: bool): seq<Node> {
    if split then [Node(next + FRAME_SIZE, n.end, Free)] else []
  }

  /** Node `i` moved to `payload`, with what is behind the payload split off. */
  function Found(ns: seq<Node>, i: nat, payload: nat, size: nat, split: bool): seq<Node>
    requires i < |ns|
  {
    ns[..i] + [Kept(ns[i], payload, size, split)] + Rest(ns[i], payload + size, split) + ns[i + 1..]
  }

  predicate Foundable(ns: seq<Node>, i: nat, payload: nat, size: nat, split: bool) {
    && i < |ns| && ns[i].state.Free? && ns[i].start <= payload && payload % FRAME_SIZE == 0 && size % FRAME_SIZE == 0
    && payload + size <= ns[i].end + 1 && (split ==> payload + size + 2 * FRAME_SIZE <= ns[i].end + 1)
  }

  lemma FoundOrdered(ns: seq<Node>, i: nat, payload: nat, size: nat, split: bool)
    requires Ordered(ns) && Foundable(ns, i, payload, size, split)
    ensures Ordered(Found(ns, i, payload, size, split))
  {
    var n := ns[i];
    var m := Kept(n, payload, size, split);
    assert NodeOk(n);
    PiecesOk(n, payload, size, split);
    Replaced(ns, i, m, Rest(n, payload + size, split));
    assert ns[..i] + ([m] + Rest(n, payload + size, split)) + ns[i + 1..] == Found(ns, i, payload, size, split);
  }

  lemma PiecesOk(n: Node, payload: nat, size: nat, split: bool)
    requires NodeOk(n) && Foundable([n], 0, payload, size, split)
    ensures NodeOk(Kept(n, payload, size, split)) && (split ==> NodeOk(Rest(n, payload + size, split)[0]))
  {
    AlignedSum(payload, size);
  }

  /** One or two nodes in the place of one, inside of it. */
  lemma Replaced(ns: seq<Node>, i: nat, m: Node, rest: seq<Node>)
    requires Ordered(ns) && i < |ns| && NodeOk(m) && Header(ns[i]) <= Header(m) && |rest| <= 1 && m.end <= ns[i].end
    requires rest != [] ==> NodeOk(rest[0]) && m.end < Header(rest[0]) && rest[0].end <= ns[i].end
    ensures Ordered(ns[..i] + ([m] + rest) + ns[i + 1..])
  {
    var t := ns[..i] + ([m] + rest) + ns[i + 1..];
    var d := |rest|;
    assert forall j :: 0 <= j < i ==> t[j] == ns[j];
    assert forall j :: i + d < j < |t| ==> t[j] == ns[j - d];
    assert t[i] == m && (d == 1 ==> t[i + 1] == rest[0]);
    forall j | 0 <= j < |t| - 1 ensures t[j].end < Header(t[j + 1]) {
      assert j + 1 < i ==> ns[j].end < Header(ns[j + 1]);
      assert 0 < i ==> ns[i - 1].end < Header(ns[i - 1 + 1]);
      assert i + 1 < |ns| ==> ns[i].end < Header(ns[i + 1]);
      assert j > i + d ==> ns[j - d].end < Header(ns[j - d + 1]);
    }
  }

  lemma AlignedSum(a: nat, b: nat)
    requires a % FRAME_SIZE == 0 && b % FRAME_SIZE == 0
    ensures (a + b) % FRAME_SIZE == 0 && (a + b + FRAME_SIZE) % FRAME_SIZE == 0
  {
  }

  lemma FoundSettled(ns: seq<Node>, i: nat, payload: nat, size: nat, split: bool)
    requires Settled(ns) && Foundable(ns, i, payload, size, split)
    ensures Settled(Found(ns, i, payload, size, split))
  {
    var t := Found(ns, i, payload, size, split);
    var d := if split then 1 else 0;
    assert forall j :: 0 <= j < i ==> t[j] == ns[j];
    assert forall j :: i + d < j < |t| ==> t[j] == ns[j - d];
    assert t[i] == Kept(ns[i], payload, size, split) && (split ==> t[i + 1] == Rest(ns[i], payload + size, split)[0]);
    forall j | 0 <= j < |t| - 1 ensures !Touch(t[j], t[j + 1]) {
      assert i + 1 < |ns| ==> !Touch(ns[i], ns[i + 1]);
      assert j + 1 < i ==> !Touch(ns[j], ns[j + 1]);
      assert j > i + d ==> !Touch(ns[j - d], ns[j - d + 1]);
    }
  }

  lemma FoundLive(ns: seq<Node>, i: nat, payload: nat, size: nat, split: bool)
    requires Foundable(ns, i, payload, size, split)
    ensures Live(Found(ns, i, payload, size, split)) == Live(ns) + {Kept(ns[i], payload, size, split)}
  {
    var l, r := ns[..i], ns[i + 1..];
    assert ns == l + [ns[i]] + r;
    var t := Found(ns, i, payload, size, split);
    assert Kept(ns[i], payload, size, split) in t;
    assert forall n :: n in t <==> n in l || n == Kept(ns[i], payload, size, split) || n in Rest(ns[i], payload + size, split) || n in r;
  }

  // ---------------------------------------------------------------- giving a node back

  predicate JoinsNext(ns: seq<Node>, i: nat)
    requires i < |ns|
  {
    i + 1 < |ns| && ns[i + 1].state.Free? && ns[i].end + 1 == Header(ns[i + 1])
  }

  predicate JoinsPrev(ns: seq<Node>, i: nat)
    requires i < |ns|
  {
    i > 0 && ns[i - 1].state.Free? && ns[i - 1].end + 1 == Header(ns[i])
  }

  /** Nodes `j` to `k` are one free node. */
  function Merged(ns: seq<Node>, j: nat, k: nat): seq<Node>
    requires j <= k < |ns|
  {
    ns[..j] + [Node(ns[j].start, ns[k].end, Free)] + ns[k + 1..]
  }

  /** Node `i` is free and joined with the free nodes it touches. */
  function Freed(ns: seq<Node>, i: nat): seq<Node>
    requires i < |ns|
  {
    Merged(ns, if JoinsPrev(ns, i) then i - 1 else i, if JoinsNext(ns, i) then i + 1 else i)
  }

  lemma MergedAt(ns: seq<Node>, j: nat, k: nat, l: nat)
    requires j <= k < |ns| && l < |Merged(ns, j, k)|
    ensures l - j + k < |ns| && Merged(ns, j, k)[l] == if l < j then ns[l] else if l == j then Node(ns[j].start, ns[k].end, Free) else ns[l - j + k]
  {
  }

  lemma MergedNode(ns: seq<Node>, j: nat, k: nat, l: nat)
    requires Ordered(ns) && j <= k < |ns| && l < |Merged(ns, j, k)|
    ensures NodeOk(Merged(ns, j, k)[l])
  {
    MergedAt(ns, j, k, l);
    assert NodeOk(ns[j]) && NodeOk(ns[k]);
    if j < k {
      Behind(ns, j, k);
    }
  }

  lemma MergedOrder(ns: seq<Node>, j: nat, k: nat, l: nat)
    requires Ordered(ns) && j <= k < |ns| && l + 1 < |Merged(ns, j, k)|
    ensures Merged(ns, j, k)[l].end < Header(Merged(ns, j, k)[l + 1])
  {
    MergedAt(ns, j, k, l);
    MergedAt(ns, j, k, l + 1);
    if l < j {
      assert ns[l].end < Header(ns[l + 1]);
    } else {
      assert ns[l - j + k].end < Header(ns[l - j + k + 1]);
    }
  }

  lemma FreedOrdered(ns: seq<Node>, i: nat)
    requires Ordered(ns) && i < |ns|
    ensures Ordered(Freed(ns, i))
  {
    var j := if JoinsPrev(ns, i) then i - 1 else i;
    var k := if JoinsNext(ns, i) then i + 1 else i;
    var t := Freed(ns, i);
    forall l | 0 <= l < |t| ensures NodeOk(t[l]) {
      MergedNode(ns, j, k, l);
    }
    forall l | 0 <= l < |t| - 1 ensures t[l].end < Header(t[l + 1]) {
      MergedOrder(ns, j, k, l);
    }
  }

  lemma FreedSettled(ns: seq<Node>, i: nat)
    requires Settled(ns) && i < |ns|
    ensures Settled(Freed(ns, i))
  {
    var j := if JoinsPrev(ns, i) then i - 1 else i;
    var k := if JoinsNext(ns, i) then i + 1 else i;
    var t := Freed(ns, i);
    forall l | 0 <= l < |t| - 1 ensures !Touch(t[l], t[l + 1]) {
      MergedAt(ns, j, k, l);
      MergedAt(ns, j, k, l + 1);
      assert l < j ==> !Touch(ns[l], ns[l + 1]);
      assert l >= j ==> !Touch(ns[l - j + k], ns[l - j + k + 1]);
    }
  }

  lemma FreedLive(ns: seq<Node>, i: nat)
    requires Ordered(ns) && i < |ns|
    ensures Live(Freed(ns, i)) == Live(ns) - {ns[i]}
  {
    forall n | n in Live(ns) && n != ns[i] ensures n in Freed(ns, i) {
      FreedStays(ns, i, n);
    }
    forall n | n in Live(Freed(ns, i)) ensures n in ns && n != ns[i] {
      FreedKeeps(ns, i, n);
    }
  }

  lemma FreedStays(ns: seq<Node>, i: nat, n: Node)
    requires i < |ns| && n in Live(ns) && n != ns[i]
    ensures n in Freed(ns, i)
  {
    var j := if JoinsPrev(ns, i) then i - 1 else i;
    var k := if JoinsNext(ns, i) then i + 1 else i;
    var t := Freed(ns, i);
    var l :| 0 <= l < |ns| && ns[l] == n;
    assert l < j || l > k;
    assert l > k ==> t[l - k + j] == ns[l];
    assert l < j ==> t[l] == ns[l];
  }

  lemma FreedKeeps(ns: seq<Node>, i: nat, n: Node)
    requires Ordered(ns) && i < |ns| && n in Live(Freed(ns, i))
    ensures n in ns && n != ns[i]
  {
    var j := if JoinsPrev(ns, i) then i - 1 else i;
    var k := if JoinsNext(ns, i) then i + 1 else i;
    var t := Freed(ns, i);
    var l :| 0 <= l < |t| && t[l] == n;
    MergedAt(ns, j, k, l);
    var m := if l < j then l else l - j + k;
    if ns[m].start == ns[i].start {
      OneStart(ns, m, i);
    }
  }

  /** Giving a node straight back restores the list exactly if the node did not have to move. */
  lemma FoundFreed(ns: seq<Node>, i: nat, payload: nat, size: nat, split: bool)
    requires Ordered(ns) && Settled(ns) && Foundable(ns, i, payload, size, split)
    ensures Freed(Found(ns, i, payload, size, split), i) == ns <==> payload == ns[i].start
  {
    var t := Found(ns, i, payload, size, split);
    var n := ns[i];
    var d := if split then 1 else 0;
    assert t[i] == Kept(n, payload, size, split) && t[..i] == ns[..i] && t[i + d + 1..] == ns[i + 1..];
    assert i > 0 ==> t[i - 1] == ns[i - 1] && !Touch(ns[i - 1], ns[i]) && ns[i - 1].end < Header(ns[i - 1 + 1]);
    assert !JoinsPrev(t, i);
    if split {
      assert t[i + 1] == Rest(n, payload + size, split)[0];
    } else {
      assert i + 1 < |ns| ==> t[i + 1] == ns[i + 1] && !Touch(ns[i], ns[i + 1]);
    }
    assert JoinsNext(t, i) == split;
    assert Freed(t, i) == ns[..i] + [Node(payload, n.end, Free)] + ns[i + 1..];
    assert ns == ns[..i] + [n] + ns[i + 1..];
    if payload != n.start {
      assert Freed(t, i)[i].start == payload;
    }
  }

  /** A node of the new heap that has to move to a 1G boundary does not come back as it was. */
  lemma MovedStays()
    ensures var ns := [Node(HEAP_START + FRAME_SIZE, HEAP_END, Free)];
            var payload := AlignUp(ns[0].start, FRAME_SIZE_1G);
            Ordered(ns) && Settled(ns) && Foundable(ns, 0, payload, FRAME_SIZE, true) && Freed(Found(ns, 0, payload, FRAME_SIZE, true), 0) != ns
  {
    var ns := [Node(HEAP_START + FRAME_SIZE, HEAP_END, Free)];
    var payload := AlignUp(ns[0].start, FRAME_SIZE_1G);
    assert payload == HEAP_START + FRAME_SIZE_1G;
    FoundFreed(ns, 0, payload, FRAME_SIZE, true);
  }

  // ---------------------------------------------------------------- the heap

  class Heap {
    var nodes: seq<Node>

    ghost predicate Valid()
      reads this
    {
      Ordered(nodes) && Settled(nodes)
    }

    /** `heap_init`. */
    constructor ()
      ensures Valid() && Live(nodes) == {}
    {
      nodes := [Node(HEAP_START + FRAME_SIZE, HEAP_END, Free)];
    }

    /** `find_node`. `frame` tells whether a frame for a new header can be had and mapped. */
    method FindNode(size: nat, a: nat, frame: bool) returns (found: bool, i: nat)
      requires Valid() && size % FRAME_SIZE == 0 && size <= MAX_REQUEST && AlignmentOk(a)
      modifies this
      ensures Valid() && (!found ==> nodes == old(nodes))
      ensures found <==> exists n :: n in old(nodes) && Fits(n, size, a)
      ensures found ==> i < |old(nodes)| && i < |nodes| && Fits(old(nodes)[i], size, a) && (forall j :: 0 <= j < i ==> !Fits(old(nodes)[j], size, a))
      ensures found ==> nodes[i].start == AlignUp(old(nodes)[i].start, a) && nodes[i].state == Reserved && nodes[i].end + 1 >= nodes[i].start + size
      ensures found && frame ==> nodes[i].end + 1 < nodes[i].start + size + 2 * FRAME_SIZE
      ensures found ==> exists split :: Foundable(old(nodes), i, nodes[i].start, size, split) && nodes == Found(old(nodes), i, nodes[i].start, size, split)
      ensures found ==> Live(nodes) == old(Live(nodes)) + {nodes[i]}
    {
      i := 0;
      while i < |nodes|
        invariant 0 <= i <= |nodes| && nodes == old(nodes)
        invariant forall j :: 0 <= j < i ==> !Fits(nodes[j], size, a)
      {
        assert NodeOk(nodes[i]);
        if nodes[i].state.Free? {
          AcceptsIff(nodes[i], size, a);
        }
        if Accepts(nodes[i], size, a) {
          assert nodes[i] in nodes;
          ReserveFit(i, size, a, frame);
          found := true;
          return;
        }
        i := i + 1;
      }
      found, i := false, 0;
    }

    /** Node `i` fits: move it to the alignment and split off what is behind the payload, if asked and large enough. */
    method ReserveFit(i: nat, size: nat, a: nat, frame: bool)
      requires Valid() && size % FRAME_SIZE == 0 && AlignmentOk(a) && i < |nodes| && Fits(nodes[i], size, a)
      modifies this
      ensures Valid() && i < |nodes| && nodes[i].start == AlignUp(old(nodes)[i].start, a) && nodes[i].state == Reserved && nodes[i].end + 1 >= nodes[i].start + size
      ensures frame ==> nodes[i].end + 1 < nodes[i].start + size + 2 * FRAME_SIZE
      ensures exists split :: Foundable(old(nodes), i, nodes[i].start, size, split) && nodes == Found(old(nodes), i, nodes[i].start, size, split)
      ensures Live(nodes) == old(Live(nodes)) + {nodes[i]}
    {
      var n := nodes[i];
      var payload := AlignUp(n.start, a);
      PageAligned(payload, a);
      var split := n.end + 1 - (payload + size) >= 2 * FRAME_SIZE && frame;
      Reserve(i, payload, size, split);
    }

    method Reserve(i: nat, payload: nat, size: nat, split: bool)
      requires Valid() && Foundable(nodes, i, payload, size, split)
      modifies this
      ensures Valid() && nodes == Found(old(nodes), i, payload, size, split) && nodes[i] == Kept(old(nodes)[i], payload, size, split)
      ensures Live(nodes) == old(Live(nodes)) + {nodes[i]}
    {
      FoundOrdered(nodes, i, payload, size, split);
      FoundSettled(nodes, i, payload, size, split);
      FoundLive(nodes, i, payload, size, split);
      var n := nodes[i];
      var rest := if split then [Node(payload + size + FRAME_SIZE, n.end, Free)] else [];
      nodes := nodes[..i] + [Node(payload, if split then payload + size - 1 else n.end, Reserved)] + rest + nodes[i + 1..];
    }

    /** `_heap_free` of node `i`: first the next node is joined, then the previous one. */
    method Release(i: nat)
      requires Valid() && i < |nodes|
      modifies this
      ensures Valid() && nodes == Freed(old(nodes), i) && Live(nodes) == old(Live(nodes)) - {old(nodes)[i]}
    {
      FreedOrdered(nodes, i);
      FreedSettled(nodes, i);
      FreedLive(nodes, i);
      var j, n, next := i, nodes[i].(state := Free), i + 1;
      if i + 1 < |nodes| && nodes[i + 1].state.Free? && n.end + 1 == Header(nodes[i + 1]) {
        n, next := n.(end := nodes[i + 1].end), i + 2;
      }
      if i > 0 && nodes[i - 1].state.Free? && nodes[i - 1].end + 1 == Header(n) {
        j, n := i - 1, nodes[i - 1].(end := n.end);
      }
      nodes := nodes[..j] + [n] + nodes[next..];
    }

    /**
     An allocation of whole pages: the node is found, and given back if its frames cannot be had.
     Single pages ask for page alignment, contiguous ones for 1G.
     */
    method Alloc(size: nat, a: nat, frame: bool, mapped: bool) returns (ptr: nat)
      requires Valid() && size % FRAME_SIZE == 0 && size <= MAX_REQUEST && AlignmentOk(a)
      modifies this
      ensures Valid()
      ensures ptr == 0 ==> Live(nodes) == old(Live(nodes))
      ensures ptr == 0 && a == FRAME_SIZE ==> nodes == old(nodes)
      ensures ptr != 0 ==> Aligned(ptr, a) && exists n :: n !in old(Live(nodes)) && n.start == ptr && n.end + 1 >= ptr + size && n.state == Allocated && Live(nodes) == old(Live(nodes)) + {n}
      ensures mapped ==> (ptr != 0 <==> exists n :: n in old(nodes) && Fits(n, size, a))
    {
      var found, i := FindNode(size, a, frame);
      if !found {
        return 0;
      }
      NewIsNew(old(nodes), nodes, i, size, a);
      if !mapped {
        GiveBack(i, old(nodes), size, a);
        return 0;
      }
      ptr := nodes[i].start;
      assert NodeOk(nodes[i]);
      MarkOk(nodes, i);
      nodes := nodes[i := nodes[i].(state := Allocated)];
      assert Live(nodes) == old(Live(nodes)) + {nodes[i]};
    }

    /** The path on which no frames could be had. */
    method GiveBack(i: nat, ghost before: seq<Node>, ghost size: nat, ghost a: nat)
      requires Valid() && i < |nodes| && i < |before| && Ordered(before) && Settled(before) && AlignmentOk(a)
      requires nodes[i] !in Live(before) && Live(nodes) == Live(before) + {nodes[i]} && nodes[i].start == AlignUp(before[i].start, a)
      requires exists split :: Foundable(before, i, nodes[i].start, size, split) && nodes == Found(before, i, nodes[i].start, size, split)
      modifies this
      ensures Valid() && Live(nodes) == Live(before) && (a == FRAME_SIZE ==> nodes == before)
    {
      ghost var split :| Foundable(before, i, nodes[i].start, size, split) && nodes == Found(before, i, nodes[i].start, size, split);
      FoundFreed(before, i, nodes[i].start, size, split);
      assert NodeOk(before[i]);
      Release(i);
    }
  }

  lemma NewIsNew(before: seq<Node>, after: seq<Node>, i: nat, size: nat, a: nat)
    requires Ordered(before) && i < |before| && i < |after| && AlignmentOk(a) && before[i].state.Free?
    requires exists split :: Foundable(before, i, after[i].start, size, split) && after == Found(before, i, after[i].start, size, split)
    ensures forall n :: n in Live(before) ==> n.start != after[i].start
  {
    var split :| Foundable(before, i, after[i].start, size, split) && after == Found(before, i, after[i].start, size, split);
    FoundOrdered(before, i, after[i].start, size, split);
    assert NodeOk(before[i]);
    forall n | n in Live(before) && n.start == after[i].start ensures false {
      assert n in before && before[i] in before;
      NodesDisjoint(before, n, before[i], Header(n));
    }
  }

  lemma MarkOk(ns: seq<Node>, i: nat)
    requires Ordered(ns) && Settled(ns) && i < |ns| && !ns[i].state.Free?
    ensures var t := ns[i := ns[i].(state := Allocated)]; Ordered(t) && Settled(t) && Live(t) == Live(ns) - {ns[i]} + {t[i]}
  {
    var t := ns[i := ns[i].(state := Allocated)];
    forall j | 0 <= j < |ns| && j != i ensures t[j] == ns[j] && ns[j] != ns[i] {
      if ns[j].start == ns[i].start {
        OneStart(ns, i, j);
      }
    }
    assert t[i] in t;
    forall n | n in ns && n != ns[i] ensures n in t {
      var j :| 0 <= j < |ns| && ns[j] == n;
      assert t[j] == n;
    }
    forall n | n in t && n != t[i] ensures n in ns && n != ns[i] {
      var j :| 0 <= j < |t| && t[j] == n;
      assert ns[j] == n && j != i;
    }
  }
}
