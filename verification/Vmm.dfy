/**
 The virtual memory manager: `_vmm_touch`, `_vmm_maps`, `_vmm_unmaps` and
 `_vmm_untouch` on table memory. Frames for tables come from a set of free 4K frames.
 */
module Vmm {
  import opened Common
  import opened PageTables
  import opened Addresses

  /** Entries `index` of the tables on a walk lie at positions 0 (root) to 3; a page of size 0, 1, 2 is an entry at 3, 2, 1. */
  function Slot(size: nat): nat
    requires size < 3
  {
    3 - size
  }

  /** The table that holds page entries of this size for `ix`. */
  function TableFor(s: Space, ix: seq<nat>, size: nat): nat
    requires |ix| == 4 && size < 3
  {
    Reach(s.mem, s.root, 4, ix[..Slot(size)])
  }

  /** The walk after the page of this size that holds `ix` is given entry `e`, or removed. */
  function Mapped(was: Hit, ix: seq<nat>, jx: seq<nat>, size: nat, e: Entry): Hit
    requires |ix| == 4 && size < 3
  {
    if ix[..Slot(size) + 1] <= jx then (if e.present then Page(size + 1, e) else Fault) else was
  }

  /** How many tables along a path are there already. */
  function Known(m: Memory, f: nat, level: nat, path: seq<nat>): (n: nat)
    requires |path| < level
    ensures n <= |path|
    decreases level
  {
    if path == [] || !TableOk(m, f) || path[0] >= ENTRIES || !m[f][path[0]].present || Leaf(m[f][path[0]], level) then 0
    else 1 + Known(m, m[f][path[0]].addr, level - 1, path[1..])
  }

  /** A large page lies in the way. */
  predicate Blocked(m: Memory, f: nat, level: nat, path: seq<nat>)
    requires |path| < level
    decreases level
  {
    path != [] && TableOk(m, f) && path[0] < ENTRIES && m[f][path[0]].present
    && (Leaf(m[f][path[0]], level) || Blocked(m, m[f][path[0]].addr, level - 1, path[1..]))
  }

  /** Enough frames, and no large page in the way. */
  predicate Touchable(s: Space, f: nat, level: nat, path: seq<nat>)
    requires |path| < level
  {
    !Blocked(s.mem, f, level, path) && |s.free| >= |path| - Known(s.mem, f, level, path)
  }

  lemma SameTouchable(s: Space, s': Space, f: nat, path: seq<nat>)
    requires Inv(s) && SameTables(s, s') && f in s.owner && |s.owner[f]| + |path| <= 3 && (f == s.root && path != [] ==> path[0] != SELF)
    ensures Touchable(s', f, 4 - |s.owner[f]|, path) <==> Touchable(s, f, 4 - |s.owner[f]|, path)
  {
    SameKnown(s, s', f, path, 4 - |s.owner[f]|);
  }

  lemma {:induction false} SameKnown(s: Space, s': Space, f: nat, path: seq<nat>, level: nat)
    requires Inv(s) && SameTables(s, s') && f in s.owner && level == 4 - |s.owner[f]| && |path| < level && (f == s.root && path != [] ==> path[0] != SELF)
    ensures Known(s'.mem, f, level, path) == Known(s.mem, f, level, path) && Blocked(s'.mem, f, level, path) == Blocked(s.mem, f, level, path)
    decreases |path|
  {
    assert OwnedTable(s, f);
    if path != [] && path[0] < ENTRIES && s.mem[f][path[0]].present && !Leaf(s.mem[f][path[0]], level) {
      assert Child(s, f, path[0]) && OwnedTable(s, s.mem[f][path[0]].addr);
      SameKnown(s, s', s.mem[f][path[0]].addr, path[1..], level - 1);
    }
  }

  /** Once the first table is ensured, the rest is touchable just as the whole was. */
  lemma TouchableOn(s: Space, s1: Space, f: nat, path: seq<nat>, child: nat, created: nat, user: bool)
    requires Inv(s) && f in s.owner && path != [] && |s.owner[f]| + |path| <= 3 && path[0] < ENTRIES && TableOk(s.mem, f)
    requires s.mem[f][path[0]].present ==> !Leaf(s.mem[f][path[0]], Level(s, f))
    requires created == 0 ==> s1 == s && s.mem[f][path[0]].present && child == s.mem[f][path[0]].addr
    requires created != 0 ==> child == created && Creatable(s, f, path[0], created) && s1 == Create(s, f, path[0], created, user)
    ensures Touchable(s, f, 4 - |s.owner[f]|, path) <==> Touchable(s1, child, 3 - |s.owner[f]|, path[1..])
  {
    if created != 0 {
      CreateFrame(s, f, path[0], created);
      assert s1.mem[created] == EmptyTable();
      assert |s1.free| == |s.free| - 1;
    }
  }

  /** What decides the first step of touching a path. */
  lemma TouchFacts(s: Space, f: nat, path: seq<nat>)
    requires Inv(s) && f in s.owner && |s.owner[f]| + |path| <= 3 && Index(path)
    ensures TableOk(s.mem, f) && f != 0 && Unnoticed(s, s) && SameTables(s, s)
    ensures path == [] ==> Touchable(s, f, 4 - |s.owner[f]|, path)
    ensures path != [] && f != s.root && s.mem[f][path[0]].present && s.mem[f][path[0]].big ==> !Touchable(s, f, 4 - |s.owner[f]|, path)
    ensures path != [] && !s.mem[f][path[0]].present && s.free == {} ==> !Touchable(s, f, 4 - |s.owner[f]|, path)
    ensures path != [] && s.mem[f][path[0]].present && !(f != s.root && s.mem[f][path[0]].big) ==> !Leaf(s.mem[f][path[0]], Level(s, f))
  {
    assert OwnedTable(s, f);
    UnnoticedSelf(s);
  }

  lemma ReachedThrough(s: Space, f: nat, path: seq<nat>, child: nat, d: nat)
    requires Inv(s) && f in s.owner && |s.owner[f]| == d && path != [] && d + |path| <= 3 && path[0] < ENTRIES
    requires child in s.owner && s.owner[child] == s.owner[f] + [path[0]] && Reach(s.mem, child, 3 - d, path[1..]) != 0
    ensures Reach(s.mem, f, 4 - d, path) != 0
  {
    NothingBelow(s, f, path[0], child);
  }

  lemma UnnoticedSelf(s: Space)
    requires Inv(s)
    ensures Unnoticed(s, s) && SameTables(s, s)
  {
    forall f | f in s.owner ensures f in s.mem {
      assert OwnedTable(s, f);
    }
  }

  /** The table of a path, and the entry in it that a walk along `ix` reads. */
  lemma TableFound(s: Space, ix: seq<nat>, size: nat)
    requires Inv(s) && Plain(ix) && size < 3 && TableFor(s, ix, size) != 0
    ensures var f := TableFor(s, ix, size); f in s.owner && s.owner[f] == ix[..Slot(size)] && f != s.root && TableOk(s.mem, f) && Level(s, f) == size + 1
  {
    var f := TableFor(s, ix, size);
    assert OwnedTable(s, s.root);
    ReachOwner(s, s.root, ix[..Slot(size)]);
    assert OwnedTable(s, f);
    assert [] + ix[..Slot(size)] == ix[..Slot(size)];
  }

  /** A page is found in the table of its size. */
  lemma {:induction false} PageEntry(s: Space, f: nat, ix: seq<nat>)
    requires Inv(s) && f in s.owner && |s.owner[f]| + |ix| == 4 && |ix| > 0 && (f == s.root ==> ix[0] != SELF) && Lookup(s.mem, f, |ix|, ix).Page?
    ensures var hit := Lookup(s.mem, f, |ix|, ix);
            && 0 < hit.level <= |ix| && hit.level < 4
            && var t := Reach(s.mem, f, |ix|, ix[..|ix| - hit.level]);
               t != 0 && TableOk(s.mem, t) && ix[|ix| - hit.level] < ENTRIES && s.mem[t][ix[|ix| - hit.level]] == hit.entry && hit.entry.present && Leaf(hit.entry, hit.level)
    decreases |ix|
  {
    assert OwnedTable(s, f);
    var e := s.mem[f][ix[0]];
    if !Leaf(e, |ix|) {
      var hit := Lookup(s.mem, f, |ix|, ix);
      assert Child(s, f, ix[0]) && OwnedTable(s, e.addr);
      PageEntry(s, e.addr, ix[1..]);
      assert ix[..|ix| - hit.level][1..] == ix[1..][..|ix| - 1 - hit.level];
    }
  }

  /** Tables above a table are there. */
  lemma {:induction false} ReachAbove(s: Space, f: nat, path: seq<nat>, i: nat)
    requires Inv(s) && f in s.owner && |s.owner[f]| + |path| + 1 <= 3 && (f == s.root ==> (path + [i])[0] != SELF)
    requires Reach(s.mem, f, 4 - |s.owner[f]|, path + [i]) != 0
    ensures Reach(s.mem, f, 4 - |s.owner[f]|, path) != 0
    decreases |path|
  {
    assert OwnedTable(s, f);
    if path != [] {
      assert (path + [i])[1..] == path[1..] + [i];
      assert Child(s, f, path[0]) && OwnedTable(s, s.mem[f][path[0]].addr);
      ReachAbove(s, s.mem[f][path[0]].addr, path[1..], i);
    }
  }

  /** Writing the page entry of `ix`: that page and nothing else. */
  lemma SetPage(s: Space, ix: seq<nat>, size: nat, e: Entry)
    requires Inv(s) && Plain(ix) && size < 3 && TableFor(s, ix, size) != 0 && (if e.present then Leaf(e, size + 1) else e == NO_ENTRY)
    ensures var f := TableFor(s, ix, size);
            && f in s.owner && Settable(s, f, ix[Slot(size)], e) && Inv(SetEntry(s, f, ix[Slot(size)], e))
            && forall jx {:trigger Look(SetEntry(s, f, ix[Slot(size)], e), jx)} :: Plain(jx) ==> Look(SetEntry(s, f, ix[Slot(size)], e), jx) == Mapped(Look(s, jx), ix, jx, size, e)
  {
    TableFound(s, ix, size);
    var f, i := TableFor(s, ix, size), ix[Slot(size)];
    SetEntryInv(s, f, i, e);
    assert s.owner[f] + [i] == ix[..Slot(size) + 1];
    forall jx | Plain(jx) ensures Look(SetEntry(s, f, i, e), jx) == Mapped(Look(s, jx), ix, jx, size, e) {
      SetEntryLook(s, f, i, e, jx);
    }
  }

  lemma EntryLeads(s: Space, f: nat, i: nat, g: nat)
    requires Inv(s) && f in s.owner && i < ENTRIES && g in s.owner && s.owner[f] + [i] <= s.owner[g]
    ensures |s.owner[f]| < 3 && Reach(s.mem, s.root, 4, s.owner[f] + [i]) != 0
  {
    NothingBelow(s, f, i, g);
    assert OwnedTable(s, s.mem[f][i].addr);
  }

  /** An entry that leads to a table is no page. */
  lemma LeadsMeans(s: Space, ix: seq<nat>, size: nat)
    requires Inv(s) && Plain(ix) && size < 3 && TableFor(s, ix, size) != 0 && LeadsToTable(s, ix, size)
    ensures TableOk(s.mem, TableFor(s, ix, size)) && !Leaf(s.mem[TableFor(s, ix, size)][ix[Slot(size)]], size + 1)
  {
    TableFound(s, ix, size);
    assert OwnedTable(s, s.root);
    var p := ix[..Slot(size) + 1];
    ReachOwner(s, s.root, p);
    assert [] + p == p && p == ix[..Slot(size)] + [ix[Slot(size)]];
    NothingBelow(s, TableFor(s, ix, size), ix[Slot(size)], Reach(s.mem, s.root, 4, p));
  }

  /** Tables are lost below an entry exactly when it leads to one. */
  lemma LostTables(s: Space, ix: seq<nat>, size: nat)
    requires Inv(s) && Plain(ix) && size < 3 && TableFor(s, ix, size) != 0
    ensures var f := TableFor(s, ix, size);
            f in s.owner && (Prune(s.owner, s.owner[f] + [ix[Slot(size)]]).Keys + s.free == s.owner.Keys + s.free <==> !LeadsToTable(s, ix, size))
  {
    TableFound(s, ix, size);
    var f, i := TableFor(s, ix, size), ix[Slot(size)];
    var p := s.owner[f] + [i];
    assert p == ix[..Slot(size) + 1];
    if LeadsToTable(s, ix, size) {
      var g := Reach(s.mem, s.root, 4, p);
      assert OwnedTable(s, s.root);
      ReachOwner(s, s.root, p);
      assert OwnedTable(s, g) && [] + p == p;
      assert g in s.owner.Keys + s.free && g !in Prune(s.owner, p).Keys + s.free;
    } else {
      forall g | g in s.owner ensures !(p <= s.owner[g]) {
        if p <= s.owner[g] { EntryLeads(s, f, i, g); }
      }
      assert Prune(s.owner, p) == s.owner;
    }
  }

  /** The page entry of `ix` leads to a table. */
  predicate LeadsToTable(s: Space, ix: seq<nat>, size: nat)
    requires |ix| == 4 && size < 3
  {
    size > 0 && Reach(s.mem, s.root, 4, ix[..Slot(size) + 1]) != 0
  }

  // ---------------------------------------------------------------- the window

  /** Entry `j` behind a pointer of `addr_to_index` is entry `j` of the table that a walk along the address reaches. */
  lemma PointerLeads(s: Space, addr: nat, k: nat, j: nat)
    requires Inv(s) && Canonical(addr) && Plain(Ix(Fold(addr))) && k <= 3 && j < ENTRIES && Reach(s.mem, s.root, 4, Ix(Fold(addr))[..k]) != 0
    ensures Canonical(Pointer(AddrToIndex(addr), k) + 8 * j)
    ensures var v := Fold(Pointer(AddrToIndex(addr), k) + 8 * j);
            v % B12 == 8 * j && Look(s, Ix(v)).Page? && Look(s, Ix(v)).level == 1 && Look(s, Ix(v)).entry.addr == Reach(s.mem, s.root, 4, Ix(Fold(addr))[..k])
  {
    PointerIndex(addr, k, j);
    SelfMap(s, Ix(Fold(addr)), k);
  }

  lemma PointerIndex(addr: nat, k: nat, j: nat)
    requires Canonical(addr) && k <= 3 && j < ENTRIES
    ensures Canonical(Pointer(AddrToIndex(addr), k) + 8 * j)
    ensures var v := Fold(Pointer(AddrToIndex(addr), k) + 8 * j); v % B12 == 8 * j && Ix(v) == Window(Ix(Fold(addr)), k)
  {
    IndexAgrees(addr);
    PointersInWindow(addr, k, j);
    var p := AddrToIndex(addr);
    assert Ix(Fold(addr)) == [p.i4, p.i3, p.i2, p.i1];
  }

  // ---------------------------------------------------------------- page entries

  const B52: nat := 0x10_0000_0000_0000

  /** `PG_ADDR_MASK`: bits 12 to 51. */
  function Masked(x: nat): nat {
    x % B52 / B12 * B12
  }

  predicate Bit(x: nat, b: nat)
    requires b > 0
  {
    x / b % 2 == 1
  }

  /** The entry that `_vmm_maps` writes: the flags are added to the address, so that its other bits are flags too. */
  function EntryFor(phy: nat, size: nat, write: bool, user: bool, exec: bool): Entry {
    Entry(true, size > 0 || Bit(phy, 0x80), Masked(phy), write || Bit(phy, 2), user || Bit(phy, 4), !exec || Bit(phy, 0x8000_0000_0000_0000))
  }

  lemma MaskedFacts(x: nat)
    ensures Masked(x) <= x && Masked(x) % B12 == 0 && Masked(x) < B52 && (Masked(x) == x <==> x % B12 == 0 && x < B52)
  {
  }

  lemma MaskedTwice(x: nat)
    ensures Masked(Masked(x)) == Masked(x)
  {
    MaskedFacts(x);
    MaskedFacts(Masked(x));
  }

  lemma MaskedWord(x: nat)
    ensures Masked(x % WORD) == Masked(x)
  {
    assert x == x / WORD * 0x1000 * B52 + x % WORD;
    assert x % B52 == x % WORD % B52;
  }

  // ---------------------------------------------------------------- the flat map

  /** The physical address of a folded virtual address, as the processor finds it. */
  function Translate(s: Space, n: nat): Option<nat> {
    match Look(s, Ix(n))
    case Fault => None
    case Page(level, e) => if level == 0 then None else Some(Masked(e.addr) / PageBytes(level - 1) * PageBytes(level - 1) + n % PageBytes(level - 1))
  }

  /** `PAGE_ALIGN`. */
  function AlignUp(bytes: nat): (r: nat)
    ensures r % B12 == 0 && bytes <= r < bytes + B12
  {
    (bytes + B12 - 1) / B12 * B12
  }

  /** The range lies in one half of the address space and outside the window. */
  predicate InOneHalf(n: nat, len: nat) {
    (n + len <= B47 || (B47 <= n && n + len <= B48)) && (n + len <= SELF * B39 || (SELF + 1) * B39 <= n)
  }

  /**
   Address `k` lies on a page in the first `off` bytes of the range at `n`, of a size
   that is enabled, whose entry holds what the mask leaves of `phy` plus the place of the page in the range.
   */
  predicate OnPage(s: Space, n: nat, phy: nat, off: nat, k: nat, enable2m: bool, enable1g: bool) {
    match Look(s, Ix(k))
    case Fault => false
    case Page(level, e) =>
      && 0 < level < 4 && (level == 2 ==> enable2m) && (level == 3 ==> enable1g)
      && var start := k / PageBytes(level - 1) * PageBytes(level - 1);
         n <= start && start + PageBytes(level - 1) <= n + off && e.addr == Masked(phy + (start - n))
  }

  /** The first `off` bytes of the range are mapped page by page; all other walks end as in `s`. */
  ghost predicate RangeMapped(s: Space, s': Space, n: nat, phy: nat, off: nat, enable2m: bool, enable1g: bool) {
    forall k: nat {:trigger Look(s', Ix(k))} :: Plain(Ix(k)) ==> if n <= k < n + off then OnPage(s', n, phy, off, k, enable2m, enable1g) else Look(s', Ix(k)) == Look(s, Ix(k))
  }

  /** The size of the page an address lies on. */
  function SizeAt(s: Space, k: nat): nat {
    match Look(s, Ix(k))
    case Fault => 0
    case Page(level, e) => if level == 0 then 0 else level - 1
  }

  /** Both addresses have the same offset into a page, and the physical one fits into an entry. */
  predicate Reachable(n: nat, phy: nat, k: nat, size: nat)
    requires n <= k
  {
    phy % PageBytes(size) == n % PageBytes(size) && phy + (k - n) < B52
  }

  /** An address of a mapped range translates as asked exactly if it is reachable. */
  lemma RangeExact(s: Space, n: nat, phy: nat, off: nat, k: nat, enable2m: bool, enable1g: bool)
    requires OnPage(s, n, phy, off, k, enable2m, enable1g)
    ensures n <= k && (Translate(s, k) == Some(phy + (k - n)) <==> Reachable(n, phy, k, SizeAt(s, k)))
  {
    var size := SizeAt(s, k);
    var start := k / PageBytes(size) * PageBytes(size);
    PageStart(k, size);
    ExactAt(n, phy, start - n, k % PageBytes(size), size);
  }

  lemma ExactAt(n: nat, phy: nat, off: nat, rest: nat, size: nat)
    requires size < 3 && (n + off) % PageBytes(size) == 0 && rest < PageBytes(size)
    ensures Masked(Masked(phy + off)) / PageBytes(size) * PageBytes(size) + rest == phy + off + rest <==> phy % PageBytes(size) == n % PageBytes(size) && phy + off + rest < B52
  {
    MaskedTwice(phy + off);
    Congruent(n, phy, off, size);
    if phy % PageBytes(size) == n % PageBytes(size) {
      PageFits(n, phy, off, rest, size);
    }
  }

  /** A page starts below the end of what an entry can hold exactly if it ends there. */
  lemma PageFits(n: nat, phy: nat, off: nat, rest: nat, size: nat)
    requires size < 3 && (n + off) % PageBytes(size) == 0 && phy % PageBytes(size) == n % PageBytes(size) && rest < PageBytes(size)
    ensures phy + off < B52 <==> phy + off + rest < B52
  {
    AlignedTogether(n, phy, off, size);
    if size == 0 {
    } else if size == 1 {
    } else {
    }
  }

  lemma PageStart(k: nat, size: nat)
    requires size < 3
    ensures var start := k / PageBytes(size) * PageBytes(size); start % PageBytes(size) == 0 && k == start + k % PageBytes(size)
  {
    if size == 0 {
    } else if size == 1 {
    } else {
    }
  }

  lemma RangeDone(s: Space, s': Space, n: nat, phy: nat, len: nat, enable2m: bool, enable1g: bool)
    requires RangeMapped(s, s', n, phy, len, enable2m, enable1g)
    ensures forall k: nat {:trigger Translate(s', k)} :: Plain(Ix(k)) && n <= k < n + len ==>
      (Translate(s', k) == Some(phy + (k - n)) <==> Reachable(n, phy, k, SizeAt(s', k)))
    ensures AllSuit(n, phy, len, enable2m, enable1g) ==>
      forall k: nat {:trigger Translate(s', k)} :: Plain(Ix(k)) ==> Translate(s', k) == if n <= k < n + len then Some(phy + (k - n)) else Translate(s, k)
  {
    forall k: nat | Plain(Ix(k)) && n <= k < n + len
      ensures Translate(s', k) == Some(phy + (k - n)) <==> Reachable(n, phy, k, SizeAt(s', k))
      ensures AllSuit(n, phy, len, enable2m, enable1g) ==> Translate(s', k) == Some(phy + (k - n))
    {
      assert Look(s', Ix(k)) == Look(s', Ix(k));
      RangeExact(s', n, phy, len, k, enable2m, enable1g);
      if AllSuit(n, phy, len, enable2m, enable1g) {
        RangeSuits(s', n, phy, len, k, enable2m, enable1g);
      }
    }
  }

  /** Where the sizes suit, a mapped range translates as asked. */
  lemma RangeSuits(s: Space, n: nat, phy: nat, len: nat, k: nat, enable2m: bool, enable1g: bool)
    requires OnPage(s, n, phy, len, k, enable2m, enable1g)
    requires AllSuit(n, phy, len, enable2m, enable1g)
    ensures Translate(s, k) == Some(phy + (k - n))
  {
    var size := SizeAt(s, k);
    RangeExact(s, n, phy, len, k, enable2m, enable1g);
    PageStart(k, size);
    assert PageAt(n, len, size, k / PageBytes(size) * PageBytes(size) - n);
  }

  /** Whole 4K pages done, whole 4K pages left. */
  predicate Steps(off: nat, len: nat) {
    off % B12 == 0 && len % B12 == 0
  }

  lemma StepBounds(n: nat, off: nat, len: nat)
    requires n % B12 == 0 && Steps(off, len) && off < len
    ensures (n + off) % B12 == 0 && off + B12 <= len
    ensures Steps(off + B12, len) && Steps(off + B21, len) && Steps(off + B30, len)
  {
  }

  lemma RangePlain(n: nat, len: nat, k: nat)
    requires InOneHalf(n, len) && n <= k < n + len
    ensures Plain(Ix(k)) && k < B48
  {
    ComposeOfIx(k);
    var off := k % B12;
    assert k / B39 != SELF by { Near39(k); }
  }

  lemma Near39(k: nat)
    ensures k / B39 == SELF <==> SELF * B39 <= k < (SELF + 1) * B39
  {
  }

  /** A folded address with proper indices. */
  lemma PlainBound(k: nat)
    requires Plain(Ix(k))
    ensures k < B48
  {
  }

  /** The tables for a 4K page at this address cannot be made. */
  predicate Stuck(s: Space, k: nat) {
    !Touchable(s, s.root, 4, Ix(k)[..3])
  }

  /** No page of this size lies in the range, or both addresses have the same offset into such a page. */
  ghost predicate Suits(n: nat, phy: nat, len: nat, size: nat)
    requires size < 3
  {
    phy % PageBytes(size) == n % PageBytes(size) || forall off: nat :: !PageAt(n, len, size, off)
  }

  /** The enabled sizes suit, and all physical addresses fit into an entry. */
  ghost predicate AllSuit(n: nat, phy: nat, len: nat, enable2m: bool, enable1g: bool) {
    phy + len <= B52 && Suits(n, phy, len, 0) && (enable2m ==> Suits(n, phy, len, 1)) && (enable1g ==> Suits(n, phy, len, 2))
  }

  /** A page of this size starts at `off` in the range and ends in it. */
  predicate PageAt(n: nat, len: nat, size: nat, off: nat)
    requires size < 3
  {
    off + PageBytes(size) <= len && (n + off) % PageBytes(size) == 0
  }

  lemma RangeGrows(s: Space, s0: Space, s1: Space, n: nat, phy: nat, off: nat, size: nat, e: Entry, enable2m: bool, enable1g: bool)
    requires size < 3 && (size == 1 ==> enable2m) && (size == 2 ==> enable1g) && (n + off) % PageBytes(size) == 0 && n + off < B48
    requires RangeMapped(s, s0, n, phy, off, enable2m, enable1g) && e.present && e.addr == Masked(phy + off)
    requires forall jx {:trigger Look(s1, jx)} :: Plain(jx) ==> Look(s1, jx) == Mapped(Look(s0, jx), Ix(n + off), jx, size, e)
    ensures RangeMapped(s, s1, n, phy, off + PageBytes(size), enable2m, enable1g)
  {
    forall k: nat | Plain(Ix(k)) ensures if n <= k < n + off + PageBytes(size) then OnPage(s1, n, phy, off + PageBytes(size), k, enable2m, enable1g) else Look(s1, Ix(k)) == Look(s, Ix(k)) {
      RangeStep(s, s0, s1, n, phy, off, size, k, e, enable2m, enable1g);
    }
  }

  /** One more page of the range. */
  lemma RangeStep(s: Space, s0: Space, s1: Space, n: nat, phy: nat, off: nat, size: nat, k: nat, e: Entry, enable2m: bool, enable1g: bool)
    requires size < 3 && (size == 1 ==> enable2m) && (size == 2 ==> enable1g) && (n + off) % PageBytes(size) == 0 && n + off < B48 && Plain(Ix(k))
    requires RangeMapped(s, s0, n, phy, off, enable2m, enable1g) && e.present && e.addr == Masked(phy + off)
    requires Look(s1, Ix(k)) == Mapped(Look(s0, Ix(k)), Ix(n + off), Ix(k), size, e)
    ensures if n <= k < n + off + PageBytes(size) then OnPage(s1, n, phy, off + PageBytes(size), k, enable2m, enable1g) else Look(s1, Ix(k)) == Look(s, Ix(k))
  {
    assert Ix(n + off)[..Slot(size) + 1] <= Ix(k) <==> n + off <= k < n + off + PageBytes(size) by {
      PlainBound(k);
      SamePage(n + off, k, size);
      PageRange(n + off, k, size);
    }
    if n + off <= k < n + off + PageBytes(size) {
      StepInside(s1, n, phy, off, size, k, e, enable2m, enable1g);
    } else {
      assert Look(s0, Ix(k)) == Look(s0, Ix(k));
      if n <= k < n + off {
        StepOutside(s0, s1, n, phy, off, off + PageBytes(size), k, enable2m, enable1g);
      }
    }
  }

  lemma StepInside(s1: Space, n: nat, phy: nat, off: nat, size: nat, k: nat, e: Entry, enable2m: bool, enable1g: bool)
    requires size < 3 && (size == 1 ==> enable2m) && (size == 2 ==> enable1g) && (n + off) % PageBytes(size) == 0 && n + off <= k < n + off + PageBytes(size)
    requires e.addr == Masked(phy + off) && Look(s1, Ix(k)) == Page(size + 1, e)
    ensures OnPage(s1, n, phy, off + PageBytes(size), k, enable2m, enable1g)
  {
    PageRange(n + off, k, size);
    PageStart(k, size);
  }

  lemma StepOutside(s0: Space, s1: Space, n: nat, phy: nat, off: nat, more: nat, k: nat, enable2m: bool, enable1g: bool)
    requires OnPage(s0, n, phy, off, k, enable2m, enable1g) && off <= more && Look(s1, Ix(k)) == Look(s0, Ix(k))
    ensures OnPage(s1, n, phy, more, k, enable2m, enable1g)
  {
  }

  /** Nothing changed. */
  lemma RangeStays(s: Space, s0: Space, s1: Space, n: nat, phy: nat, off: nat, enable2m: bool, enable1g: bool)
    requires Inv(s0) && Inv(s1) && SameTables(s0, s1) && RangeMapped(s, s0, n, phy, off, enable2m, enable1g) && Plain(Ix(n + off))
    ensures RangeMapped(s, s1, n, phy, off, enable2m, enable1g) && (Stuck(s0, n + off) <==> Stuck(s1, n + off))
  {
    StillStuck(s0, s1, Ix(n + off));
    assert forall k: nat {:trigger Look(s1, Ix(k))} :: Plain(Ix(k)) ==> Look(s1, Ix(k)) == Look(s0, Ix(k)) by {
      UnnoticedSame(s0, s1);
    }
    RangeSame(s, s0, s1, n, phy, off, enable2m, enable1g);
  }

  lemma RangeSame(s: Space, s0: Space, s1: Space, n: nat, phy: nat, off: nat, enable2m: bool, enable1g: bool)
    requires RangeMapped(s, s0, n, phy, off, enable2m, enable1g) && forall k: nat {:trigger Look(s1, Ix(k))} :: Plain(Ix(k)) ==> Look(s1, Ix(k)) == Look(s0, Ix(k))
    ensures RangeMapped(s, s1, n, phy, off, enable2m, enable1g)
  {
    forall k: nat | Plain(Ix(k)) ensures if n <= k < n + off then OnPage(s1, n, phy, off, k, enable2m, enable1g) else Look(s1, Ix(k)) == Look(s, Ix(k)) {
      assert Look(s1, Ix(k)) == Look(s0, Ix(k));
    }
  }

  lemma StillStuck(s0: Space, s1: Space, ix: seq<nat>)
    requires Inv(s0) && SameTables(s0, s1) && Plain(ix)
    ensures Touchable(s0, s0.root, 4, ix[..3]) <==> Touchable(s1, s1.root, 4, ix[..3])
  {
    assert OwnedTable(s0, s0.root);
    SameTouchable(s0, s1, s0.root, ix[..3]);
  }

  /** The page just mapped translates its first address as asked exactly if it is reachable. */
  lemma PageExact(s: Space, n: nat, phy: nat, off: nat, size: nat, e: Entry)
    requires size < 3 && (n + off) % PageBytes(size) == 0 && Look(s, Ix(n + off)) == Page(size + 1, e) && e.addr == Masked(phy + off)
    ensures Translate(s, n + off) == Some(phy + off) <==> Reachable(n, phy, n + off, size)
  {
    MaskedTwice(phy + off);
    Congruent(n, phy, off, size);
  }

  /** The mask and the page size leave an address as it is exactly if it is aligned and fits. */
  lemma Congruent(n: nat, phy: nat, off: nat, size: nat)
    requires size < 3 && (n + off) % PageBytes(size) == 0
    ensures Masked(phy + off) / PageBytes(size) * PageBytes(size) == phy + off <==> phy % PageBytes(size) == n % PageBytes(size) && phy + off < B52
  {
    AlignedTogether(n, phy, off, size);
    MaskedFacts(phy + off);
    PageStart(Masked(phy + off), size);
    Multiple(phy + off, size);
  }

  lemma Multiple(x: nat, size: nat)
    requires size < 3
    ensures x % PageBytes(size) == 0 ==> x % B12 == 0 && x / PageBytes(size) * PageBytes(size) == x
  {
    if size == 0 {
    } else if size == 1 {
    } else {
    }
  }

  /** Congruent addresses are aligned together. */
  lemma AlignedTogether(n: nat, phy: nat, off: nat, size: nat)
    requires size < 3 && (n + off) % PageBytes(size) == 0
    ensures (phy + off) % PageBytes(size) == 0 <==> phy % PageBytes(size) == n % PageBytes(size)
  {
    if size == 0 {
      Shifted12(n, phy, off);
    } else if size == 1 {
      Shifted21(n, phy, off);
    } else {
      Shifted30(n, phy, off);
    }
  }

  lemma Shifted12(n: nat, phy: nat, off: nat)
    requires (n + off) % B12 == 0
    ensures (phy + off) % B12 == 0 <==> phy % B12 == n % B12
  {
  }

  lemma Shifted21(n: nat, phy: nat, off: nat)
    requires (n + off) % B21 == 0
    ensures (phy + off) % B21 == 0 <==> phy % B21 == n % B21
  {
  }

  lemma Shifted30(n: nat, phy: nat, off: nat)
    requires (n + off) % B30 == 0
    ensures (phy + off) % B30 == 0 <==> phy % B30 == n % B30
  {
  }

  lemma Truncated(a: nat, b: nat)
    requires b > 0
    ensures a / b * b == a <==> a % b == 0
  {
  }

  class AddressSpace {
    var mem: Memory
    var free: set<nat>
    const root: nat
    const enable2m: bool
    const enable1g: bool
    ghost var owner: map<nat, seq<nat>>

    /** A root table with nothing but the self-reference. */
    constructor (root: nat, free: set<nat>, enable2m: bool, enable1g: bool)
      requires root != 0 && 0 !in free && root !in free
      ensures Valid() && this.root == root && this.free == free && this.enable2m == enable2m && this.enable1g == enable1g
      ensures mem == map[root := EmptyTable()[SELF := TableEntry(root, false)]] && owner == map[root := []]
      ensures forall ix :: Plain(ix) ==> Look(S(), ix) == Fault
    {
      this.root, this.free, this.enable2m, this.enable1g := root, free, enable2m, enable1g;
      mem := map[root := EmptyTable()[SELF := TableEntry(root, false)]];
      owner := map[root := []];
      new;
      assert OwnedTable(S(), root) by {
        forall i: nat | i < ENTRIES ensures Child(S(), root, i) {
        }
      }
    }

    ghost function S(): Space
      reads this
    {
      Space(mem, root, free, owner)
    }

    ghost predicate Valid()
      reads this
    {
      Inv(S())
    }

    /** Create the table behind an entry unless it exists; `child` is 0 if no frame is left. */
    method EnsureTable(f: nat, i: nat, user: bool) returns (child: nat, created: nat)
      requires Valid() && f in owner && i < ENTRIES && (f != root || i != SELF) && |owner[f]| < 3
      requires TableOk(mem, f) && (mem[f][i].present ==> !Leaf(mem[f][i], Level(S(), f)))
      modifies this`mem, this`free, this`owner
      ensures Valid() && Ensured(old(S()), S(), f, i, child, created, user)
    {
      assert OwnedTable(S(), f);
      assert Child(S(), f, i);
      if mem[f][i].present {
        assert OwnedTable(S(), mem[f][i].addr);
        UnnoticedSelf(S());
        return mem[f][i].addr, 0;
      }
      if free == {} {
        return 0, 0;
      }
      ghost var s := S();
      var frame :| frame in free;
      UnnoticedCreate(s, f, i, frame, user);
      DestroyCreated(s, f, i, frame, user);
      CreateFrame(s, f, i, frame);
      free := free - {frame};
      mem := mem[frame := EmptyTable()][f := mem[f][i := TableEntry(frame, user)]];
      owner := owner[frame := owner[f] + [i]];
      return frame, frame;
    }

    /** Take a table that `EnsureTable` created off again. */
    method RemoveTable(f: nat, i: nat)
      requires Valid() && f in owner && i < ENTRIES && Destroyable(S(), f, i)
      modifies this`mem, this`free, this`owner
      ensures Valid() && S() == Destroy(old(S()), f, i)
    {
      DestroyInv(S(), f, i);
      var frame := mem[f][i].addr;
      free := free + {frame};
      mem := mem[f := mem[f][i := NO_ENTRY]];
      owner := owner - {frame};
    }

    /** Whether a table has no present entry. */
    method TableEmpty(f: nat) returns (empty: bool)
      requires TableOk(mem, f)
      ensures empty <==> IsEmpty(mem[f])
    {
      empty := true;
      var i := 0;
      while i < ENTRIES && empty
        invariant i <= ENTRIES && (empty ==> forall k :: 0 <= k < i ==> !mem[f][k].present) && (!empty ==> !IsEmpty(mem[f]))
      {
        if mem[f][i].present {
          empty := false;
        }
        i := i + 1;
      }
    }

    /** The levels of `_vmm_touch` from table `f` down: create what is missing, undo it all on failure. */
    method TouchFrom(f: nat, path: seq<nat>, user: bool) returns (ok: bool)
      requires Valid() && f in owner && |owner[f]| + |path| <= 3 && Index(path) && (f == root && path != [] ==> path[0] != SELF)
      modifies this`mem, this`free, this`owner
      ensures Valid() && Touched(old(S()), S(), f, path, ok)
      ensures ok <==> old(Touchable(S(), f, 4 - |owner[f]|, path))
      decreases |path|, 2
    {
      ghost var s := S();
      TouchFacts(s, f, path);
      TouchedNot(s, s, f, path);
      if path == [] {
        return true;
      }
      if f != root && mem[f][path[0]].present && mem[f][path[0]].big {
        return false;
      }
      ok := TouchStep(f, path, user);
    }

    /** One level: the table behind the entry, then the levels below it. */
    method TouchStep(f: nat, path: seq<nat>, user: bool) returns (ok: bool)
      requires Valid() && f in owner && |owner[f]| + |path| <= 3 && Index(path) && path != [] && (f == root ==> path[0] != SELF)
      requires TableOk(mem, f) && (mem[f][path[0]].present ==> !Leaf(mem[f][path[0]], Level(S(), f)))
      modifies this`mem, this`free, this`owner
      ensures Valid() && Touched(old(S()), S(), f, path, ok)
      ensures ok <==> old(Touchable(S(), f, 4 - |owner[f]|, path))
      decreases |path|, 1
    {
      ghost var s := S();
      var child, created := EnsureTable(f, path[0], user);
      if child == 0 {
        TouchFacts(s, f, path);
        TouchedNot(s, s, f, path);
        return false;
      }
      TouchableOn(s, S(), f, path, child, created, user);
      ok := TouchBelow(f, path, child, created, user, s);
    }

    /** Go on below an ensured table; on failure, take it off if it is new. */
    method TouchBelow(f: nat, path: seq<nat>, child: nat, created: nat, user: bool, ghost s: Space) returns (ok: bool)
      requires Valid() && Inv(s) && s.root == root && path != [] && Index(path) && f in s.owner && |s.owner[f]| + |path| <= 3 && TableOk(s.mem, f)
      requires child != 0 && Ensured(s, S(), f, path[0], child, created, user)
      modifies this`mem, this`free, this`owner
      ensures Valid() && Touched(s, S(), f, path, ok)
      ensures ok <==> old(Touchable(S(), child, 3 - |s.owner[f]|, path[1..]))
      decreases |path|, 0
    {
      ghost var s1 := S();
      ok := TouchFrom(child, path[1..], user);
      if ok {
        TouchedBelow(s, s1, S(), f, path, child);
      } else {
        if created != 0 {
          TakeBack(f, path[0], s, s1);
        }
        TouchedNot(s, S(), f, path);
      }
    }

    /** Nothing below came about: the new table goes, and all is as it was. */
    method TakeBack(f: nat, i: nat, ghost s: Space, ghost s1: Space)
      requires Valid() && Inv(s1) && SameTables(s1, S()) && f in s1.owner && i < ENTRIES && Destroyable(s1, f, i) && SameTables(s, Destroy(s1, f, i))
      modifies this`mem, this`free, this`owner
      ensures Valid() && SameTables(s, S())
    {
      DestroySame(s1, S(), f, i);
      RemoveTable(f, i);
      SameTablesTrans(s, Destroy(s1, f, i), S());
    }

    /** `_vmm_touch`: user-space tables are marked as such. */
    method Touch(ix: seq<nat>, size: nat) returns (ok: bool)
      requires Valid() && Plain(ix) && size < 3
      modifies this`mem, this`free, this`owner
      ensures Valid()
      ensures ok <==> old(Touchable(S(), root, 4, ix[..Slot(size)]))
      ensures ok ==> Unnoticed(old(S()), S()) && TableFor(S(), ix, size) != 0 && (LeadsToTable(S(), ix, size) <==> old(LeadsToTable(S(), ix, size)))
      ensures !ok ==> SameTables(old(S()), S())
    {
      ghost var s := S();
      assert OwnedTable(s, root);
      ok := TouchFrom(root, ix[..Slot(size)], ix[0] < 256);
      if size > 0 {
        SameDeepTable(s, S(), ix[..Slot(size) + 1]);
      }
    }

    /** Follow the table entries of `ix` to the table of its page entry. */
    method FindTable(ix: seq<nat>, size: nat) returns (f: nat)
      requires Valid() && Plain(ix) && size < 3 && TableFor(S(), ix, size) != 0
      ensures f == TableFor(S(), ix, size) && TableOk(mem, f)
    {
      f := root;
      var k := 0;
      assert OwnedTable(S(), root);
      while k < Slot(size)
        invariant k <= Slot(size) && f in owner && owner[f] == ix[..k] && (k == 0 ==> f == root)
        invariant Reach(mem, f, 4 - k, ix[k..Slot(size)]) == TableFor(S(), ix, size)
      {
        assert OwnedTable(S(), f) && Child(S(), f, ix[k]);
        assert ix[k..Slot(size)][1..] == ix[k + 1..Slot(size)] && ix[..k] + [ix[k]] == ix[..k + 1];
        f := mem[f][ix[k]].addr;
        k := k + 1;
      }
      assert OwnedTable(S(), f);
    }

    /** The walk of `_vmm_size` and `_vmm_virt_to_phys`, table by table. */
    method Walk(ix: seq<nat>) returns (h: Hit)
      requires Valid() && Plain(ix)
      ensures h == Look(S(), ix) && (h.Page? ==> 0 < h.level < 4)
    {
      var f, k := root, 0;
      assert ix[0..] == ix && OwnedTable(S(), root);
      while k < 3
        invariant k <= 3 && f in owner && owner[f] == ix[..k] && (k == 0 <==> f == root)
        invariant Lookup(mem, f, 4 - k, ix[k..]) == Look(S(), ix)
      {
        assert OwnedTable(S(), f) && Child(S(), f, ix[k]);
        var e := mem[f][ix[k]];
        if !e.present {
          return Fault;
        }
        if k > 0 && e.big {
          return Page(4 - k, e);
        }
        assert ix[k..][1..] == ix[k + 1..] && ix[..k] + [ix[k]] == ix[..k + 1];
        f, k := e.addr, k + 1;
        assert OwnedTable(S(), f);
      }
      assert OwnedTable(S(), f);
      h := if mem[f][ix[3]].present then Page(1, mem[f][ix[3]]) else Fault;
    }

    /** `_vmm_size`: the size of the page that holds the address, -1 if there is none. */
    method Size(n: nat) returns (size: int)
      requires Valid() && Plain(Ix(n))
      ensures size < 0 <==> Translate(S(), n).None?
      ensures size == if Look(S(), Ix(n)).Fault? then -1 else Look(S(), Ix(n)).level - 1
    {
      var h := Walk(Ix(n));
      size := if h.Fault? then -1 else h.level - 1;
    }

    /** `_vmm_virt_to_phys`: it finds what the processor finds exactly if the masked frame of a large page is aligned to the page. */
    method VirtToPhys(n: nat) returns (p: nat)
      requires Valid() && Plain(Ix(n))
      ensures Translate(S(), n).None? ==> p == 0
      ensures var h := Look(S(), Ix(n)); h.Page? ==> h.level > 0 && (Translate(S(), n) == Some(p) <==> Masked(h.entry.addr) % PageBytes(h.level - 1) == 0)
    {
      var h := Walk(Ix(n));
      p := if h.Fault? then 0 else Masked(h.entry.addr) + n % PageBytes(h.level - 1);
      assert h.Page? ==> PageBytes(h.level - 1) > 0;
      if h.Page? {
        Truncated(Masked(h.entry.addr), PageBytes(h.level - 1));
      }
    }

    /** `_vmm_maps`. */
    method Maps(ix: seq<nat>, phy: nat, write: bool, exec: bool, size: nat) returns (ok: bool)
      requires Valid() && Plain(ix) && size < 3 && phy < WORD
      modifies this`mem, this`free, this`owner
      ensures Valid()
      ensures ok <==> (size == 2 ==> enable1g) && (size == 1 ==> enable2m) && old(Touchable(S(), root, 4, ix[..Slot(size)]))
      ensures ok ==> forall jx {:trigger Look(S(), jx)} :: Plain(jx) ==> Look(S(), jx) == Mapped(old(Look(S(), jx)), ix, jx, size, EntryFor(phy, size, write, ix[0] < 256, exec))
      ensures ok ==> (owner.Keys + free == old(owner.Keys + free) <==> !old(LeadsToTable(S(), ix, size)))
      ensures !ok ==> SameTables(old(S()), S())
    {
      ghost var s := S();
      UnnoticedSelf(s);
      if (size == 2 && !enable1g) || (size == 1 && !enable2m) {
        return false;
      }
      ok := Touch(ix, size);
      if !ok {
        return;
      }
      var f := FindTable(ix, size);
      WritePage(ix, size, f, EntryFor(phy, size, write, ix[0] < 256, exec));
    }

    /** `_vmm_unmaps`: what the entry held comes back, the page is gone, empty tables are freed. */
    method Unmaps(ix: seq<nat>, size: nat) returns (frame: nat)
      requires Valid() && Plain(ix) && size < 3 && TableFor(S(), ix, size) != 0
      modifies this`mem, this`free, this`owner
      ensures Valid() && frame == if old(LeadsToTable(S(), ix, size)) then Masked(old(Reach(mem, root, 4, ix[..Slot(size) + 1]))) else if old(Look(S(), ix).Fault?) then 0 else Masked(old(Look(S(), ix).entry.addr))
      ensures forall jx {:trigger Look(S(), jx)} :: Plain(jx) ==> Look(S(), jx) == Mapped(old(Look(S(), jx)), ix, jx, size, NO_ENTRY)
      ensures owner.Keys + free == old(owner.Keys + free) <==> !old(LeadsToTable(S(), ix, size))
      ensures Swept(S(), ix, if ix[0] < 256 then 1 else 2, Slot(size))
    {
      ghost var s := S();
      EntryMeans(s, ix, size);
      var f := FindTable(ix, size);
      frame := 0;
      if mem[f][ix[Slot(size)]].present {
        frame := Masked(mem[f][ix[Slot(size)]].addr);
      }
      WritePage(ix, size, f, NO_ENTRY);
      ghost var s1 := S();
      TableStays(s, ix, size, NO_ENTRY);
      Untouch(ix, size);
      assert forall jx {:trigger Look(S(), jx)} :: Plain(jx) ==> Look(S(), jx) == Look(s1, jx);
    }

    /** `_vmm_untouch`: free the tables of `ix` that are empty, from the lowest up; kernel tables of the root stay. */
    method Untouch(ix: seq<nat>, size: nat)
      requires Valid() && Plain(ix) && size < 3 && TableFor(S(), ix, size) != 0
      modifies this`mem, this`free, this`owner
      ensures Valid() && Unnoticed(old(S()), S()) && Swept(S(), ix, if ix[0] < 256 then 1 else 2, Slot(size))
    {
      ghost var s := S();
      UnnoticedSelf(s);
      var k: nat := Slot(size);
      while k > 0
        invariant k <= Slot(size) && Valid() && Unnoticed(s, S()) && Reach(mem, root, 4, ix[..k]) != 0
        invariant Swept(S(), ix, if k == 0 && ix[0] >= 256 then 2 else k + 1, Slot(size))
      {
        if k > 1 || ix[0] < 256 {
          UntouchOne(ix, k, Slot(size));
        } else {
          ParentTable(S(), ix, k);
        }
        k := k - 1;
      }
    }

    /** Free the table at depth `k` of the walk if it is empty. */
    method UntouchOne(ix: seq<nat>, k: nat, ghost hi: nat)
      requires Valid() && Plain(ix) && 0 < k <= 3 && Reach(mem, root, 4, ix[..k]) != 0 && Swept(S(), ix, k + 1, hi)
      modifies this`mem, this`free, this`owner
      ensures Valid() && Unnoticed(old(S()), S()) && Reach(mem, root, 4, ix[..k - 1]) != 0 && Swept(S(), ix, k, hi)
    {
      ParentTable(S(), ix, k);
      UnnoticedSelf(S());
      var f := FindTable(ix, 3 - k);
      var empty := TableEmpty(f);
      if empty {
        var g := root;
        if k > 1 {
          g := FindTable(ix, 4 - k);
        }
        UnnoticedDestroy(S(), g, ix[k - 1]);
        ParentStays(S(), ix, k, g);
        SweptDestroy(S(), ix, k, hi, g);
        RemoveTable(g, ix[k - 1]);
      } else {
        SweptKept(S(), ix, k, hi);
      }
    }

    /** `_vmm_map_range`, as far as it succeeds: each step takes the largest page that fits, or a smaller one if that fails. */
    method MapRange(n: nat, phy: nat, bytes: nat, write: bool, exec: bool) returns (ok: bool)
      requires Valid() && n % B12 == 0 && InOneHalf(n, AlignUp(bytes)) && phy < WORD
      modifies this`mem, this`free, this`owner
      ensures Valid()
      ensures ok ==> RangeMapped(old(S()), S(), n, phy, AlignUp(bytes), enable2m, enable1g)
      ensures ok ==> forall k: nat {:trigger Translate(S(), k)} :: Plain(Ix(k)) && n <= k < n + AlignUp(bytes) ==>
        (Translate(S(), k) == Some(phy + (k - n)) <==> Reachable(n, phy, k, SizeAt(S(), k)))
      ensures ok && AllSuit(n, phy, AlignUp(bytes), enable2m, enable1g) ==>
        forall k: nat {:trigger Translate(S(), k)} :: Plain(Ix(k)) ==> Translate(S(), k) == if n <= k < n + AlignUp(bytes) then Some(phy + (k - n)) else old(Translate(S(), k))
      ensures !ok ==> exists k: nat :: n <= k < n + AlignUp(bytes) && Stuck(S(), k)
    {
      var len := AlignUp(bytes);
      var off := 0;
      ghost var s := S();
      while off < len
        invariant Valid() && off <= len && Steps(off, len)
        invariant RangeMapped(s, S(), n, phy, off, enable2m, enable1g)
        decreases len - off
      {
        var step := MapNext(n, phy, off, len, write, exec, s);
        if step == 0 {
          return false;
        }
        off := off + step;
      }
      ok := true;
      RangeDone(s, S(), n, phy, len, enable2m, enable1g);
    }

    /** The largest page that fits, or a smaller one; 0 if none can be mapped. */
    method MapNext(n: nat, phy: nat, off: nat, len: nat, write: bool, exec: bool, ghost s: Space) returns (step: nat)
      requires Valid() && n % B12 == 0 && InOneHalf(n, len) && off < len && Steps(off, len)
      requires RangeMapped(s, S(), n, phy, off, enable2m, enable1g)
      modifies this`mem, this`free, this`owner
      ensures Valid() && RangeMapped(s, S(), n, phy, off + step, enable2m, enable1g) && off + step <= len && Steps(off + step, len)
      ensures step == 0 ==> Stuck(S(), n + off)
    {
      StepBounds(n, off, len);
      if (n + off) % B30 == 0 && len - off >= B30 {
        var done := MapPage(n, phy, off, write, exec, 2, s, len);
        if done { return B30; }
      }
      if (n + off) % B21 == 0 && len - off >= B21 {
        var done := MapPage(n, phy, off, write, exec, 1, s, len);
        if done { return B21; }
      }
      var done := MapPage(n, phy, off, write, exec, 0, s, len);
      step := if done then B12 else 0;
    }

    /** Map the next page of a range; a failure leaves the range mapped so far. */
    method MapPage(n: nat, phy: nat, off: nat, write: bool, exec: bool, size: nat, ghost s: Space, ghost len: nat) returns (ok: bool)
      requires Valid() && size < 3 && (n + off) % PageBytes(size) == 0 && off + PageBytes(size) <= len && InOneHalf(n, len)
      requires RangeMapped(s, S(), n, phy, off, enable2m, enable1g)
      modifies this`mem, this`free, this`owner
      ensures Valid() && RangeMapped(s, S(), n, phy, if ok then off + PageBytes(size) else off, enable2m, enable1g) && (!ok && size == 0 ==> Stuck(S(), n + off))
    {
      ghost var s0 := S();
      RangePlain(n, len, n + off);
      var target := (phy + off) % WORD;
      assert Masked(target) == Masked(phy + off) by {
        MaskedWord(phy + off);
      }
      ok := Maps(Ix(n + off), target, write, exec, size);
      if ok {
        RangeGrows(s, s0, S(), n, phy, off, size, EntryFor(target, size, write, Ix(n + off)[0] < 256, exec), enable2m, enable1g);
      } else {
        RangeStays(s, s0, S(), n, phy, off, enable2m, enable1g);
      }
    }

    /** Write a page entry into its table. */
    method WritePage(ix: seq<nat>, size: nat, f: nat, e: Entry)
      requires Valid() && Plain(ix) && size < 3 && TableFor(S(), ix, size) != 0 && f == TableFor(S(), ix, size) && (if e.present then Leaf(e, size + 1) else e == NO_ENTRY)
      modifies this`mem, this`owner
      ensures Valid() && f in old(owner) && S() == SetEntry(old(S()), f, ix[Slot(size)], e)
      ensures forall jx {:trigger Look(S(), jx)} :: Plain(jx) ==> Look(S(), jx) == Mapped(old(Look(S(), jx)), ix, jx, size, e)
      ensures owner.Keys + free == old(owner.Keys + free) <==> !old(LeadsToTable(S(), ix, size))
    {
      SetPage(S(), ix, size, e);
      LostTables(S(), ix, size);
      assert OwnedTable(S(), f);
      ghost var path := owner[f] + [ix[Slot(size)]];
      mem := mem[f := mem[f][ix[Slot(size)] := e]];
      owner := Prune(owner, path);
    }
  }

  /** Tables keep their paths, and new ones lie at most `depth` entries deep. */
  predicate Grows(s: Space, s': Space, depth: nat) {
    && (forall g :: g in s.owner ==> g in s'.owner && s'.owner[g] == s.owner[g])
    && (forall g :: g in s'.owner && g !in s.owner ==> |s'.owner[g]| <= depth)
  }

  lemma GrowsTrans(s: Space, s1: Space, s2: Space, depth: nat)
    requires Grows(s, s1, depth) && Grows(s1, s2, depth)
    ensures Grows(s, s2, depth)
  {
  }

  /** What ensuring the table behind entry `i` of `f` does. */
  ghost predicate Ensured(s: Space, s1: Space, f: nat, i: nat, child: nat, created: nat, user: bool)
    requires Inv(s) && Inv(s1) && f in s.owner && i < ENTRIES && TableOk(s.mem, f)
  {
    && s1.root == s.root && Grows(s, s1, |s.owner[f]| + 1)
    && (child == 0 <==> !s.mem[f][i].present && s.free == {})
    && (created == 0 ==> s1 == s && (child != 0 ==> s.mem[f][i].present && child == s.mem[f][i].addr))
    && (created != 0 ==> child == created && Creatable(s, f, i, created) && s1 == Create(s, f, i, created, user))
    && (child != 0 ==> f in s1.owner && child in s1.owner && child != s.root && s1.owner[child] == s.owner[f] + [i] && Unnoticed(s, s1))
    && (created != 0 ==> Destroyable(s1, f, i) && SameTables(s, Destroy(s1, f, i)))
  }

  /** What touching a path from table `f` does, as a whole or not at all. */
  ghost predicate Touched(s: Space, s': Space, f: nat, path: seq<nat>, ok: bool)
    requires f in s.owner && |s.owner[f]| + |path| <= 3
  {
    && f in s'.owner && s'.owner[f] == s.owner[f] && Grows(s, s', |s.owner[f]| + |path|)
    && if ok then Unnoticed(s, s') && Reach(s'.mem, f, 4 - |s.owner[f]|, path) != 0 else SameTables(s, s')
  }

  lemma TouchedNot(s: Space, s': Space, f: nat, path: seq<nat>)
    requires f in s.owner && |s.owner[f]| + |path| <= 3 && SameTables(s, s')
    ensures Touched(s, s', f, path, false)
  {
  }

  /** A path touched below its first table is touched as a whole. */
  lemma TouchedBelow(s: Space, s1: Space, s2: Space, f: nat, path: seq<nat>, child: nat)
    requires Inv(s2) && path != [] && path[0] < ENTRIES && f in s.owner && |s.owner[f]| + |path| <= 3
    requires f in s1.owner && child in s1.owner && s1.owner[child] == s.owner[f] + [path[0]]
    requires Unnoticed(s, s1) && Grows(s, s1, |s.owner[f]| + 1) && Touched(s1, s2, child, path[1..], true)
    ensures Touched(s, s2, f, path, true)
  {
    UnnoticedTrans(s, s1, s2);
    GrownBelow(s, s1, s2, f, child, |s.owner[f]| + |path|);
    ReachedThrough(s2, f, path, child, |s.owner[f]|);
  }

  lemma GrownBelow(s: Space, s1: Space, s2: Space, f: nat, child: nat, depth: nat)
    requires f in s.owner && child in s1.owner && |s.owner[f]| + 1 <= depth && Grows(s, s1, |s.owner[f]| + 1) && Grows(s1, s2, depth)
    ensures f in s2.owner && s2.owner[f] == s.owner[f] && child in s2.owner && s2.owner[child] == s1.owner[child] && Grows(s, s2, depth)
  {
    GrowsTrans(s, s1, s2, depth);
  }

  /** Touching makes no table as deep as the page entry itself. */
  lemma SameDeepTable(s: Space, s': Space, path: seq<nat>)
    requires Inv(s) && Inv(s') && s'.root == s.root && |path| <= 3 && path != [] && path[0] != SELF && Grows(s, s', |path| - 1)
    ensures Reach(s.mem, s.root, 4, path) != 0 <==> Reach(s'.mem, s.root, 4, path) != 0
  {
    assert OwnedTable(s, s.root) && OwnedTable(s', s.root) && [] + path == path;
    if Reach(s.mem, s.root, 4, path) != 0 {
      ReachOwner(s, s.root, path);
      assert OwnedTable(s', Reach(s.mem, s.root, 4, path));
    }
    if Reach(s'.mem, s.root, 4, path) != 0 {
      ReachOwner(s', s.root, path);
      assert OwnedTable(s, Reach(s'.mem, s.root, 4, path));
    }
  }

  /** The table of a mapped page is there. */
  lemma PageTable(s: Space, ix: seq<nat>, size: nat)
    requires Inv(s) && Plain(ix) && size < 3 && Look(s, ix).Page? && Look(s, ix).level == size + 1
    ensures TableFor(s, ix, size) != 0 && !LeadsToTable(s, ix, size)
    ensures TableOk(s.mem, TableFor(s, ix, size)) && s.mem[TableFor(s, ix, size)][ix[Slot(size)]] == Look(s, ix).entry && Look(s, ix).entry.present
  {
    assert OwnedTable(s, s.root);
    PageEntry(s, s.root, ix);
    TableFound(s, ix, size);
    if LeadsToTable(s, ix, size) { LeadsMeans(s, ix, size); }
  }

  /** What the page entry of `ix` holds: a table, a page of its size, or nothing. */
  lemma EntryMeans(s: Space, ix: seq<nat>, size: nat)
    requires Inv(s) && Plain(ix) && size < 3 && TableFor(s, ix, size) != 0
    ensures TableOk(s.mem, TableFor(s, ix, size))
    ensures var e := s.mem[TableFor(s, ix, size)][ix[Slot(size)]];
            if LeadsToTable(s, ix, size) then e.present && e.addr == Reach(s.mem, s.root, 4, ix[..Slot(size) + 1])
            else Look(s, ix) == if e.present then Page(size + 1, e) else Fault
  {
    TableFound(s, ix, size);
    var f, path, i := TableFor(s, ix, size), ix[..Slot(size)], ix[Slot(size)];
    LookThrough(s.mem, s.root, 4, path, ix[Slot(size)..]);
    assert path + ix[Slot(size)..] == ix && path + [i] == ix[..Slot(size) + 1];
    assert OwnedTable(s, f);
    assert Child(s, f, i);
    var e := s.mem[f][i];
    if e.present && !Leaf(e, size + 1) {
      assert OwnedTable(s, e.addr);
    }
    if size > 0 {
      ReachOn(s.mem, s.root, 4, path, i);
    }
  }

  /** A table stays when an entry in it is written. */
  lemma TableStays(s: Space, ix: seq<nat>, size: nat, e: Entry)
    requires Inv(s) && Plain(ix) && size < 3 && TableFor(s, ix, size) != 0 && TableFor(s, ix, size) in s.owner
    requires Inv(SetEntry(s, TableFor(s, ix, size), ix[Slot(size)], e))
    ensures TableFor(SetEntry(s, TableFor(s, ix, size), ix[Slot(size)], e), ix, size) != 0
  {
    TableFound(s, ix, size);
    var f := TableFor(s, ix, size);
    assert OwnedTable(SetEntry(s, f, ix[Slot(size)], e), f);
  }

  /** The table above one on the walk, and the entry that leads down. */
  lemma ParentTable(s: Space, ix: seq<nat>, k: nat)
    requires Inv(s) && Plain(ix) && 0 < k <= 3 && Reach(s.mem, s.root, 4, ix[..k]) != 0
    ensures var f, g := Reach(s.mem, s.root, 4, ix[..k]), Reach(s.mem, s.root, 4, ix[..k - 1]);
            && g != 0 && g in s.owner && s.owner[g] == ix[..k - 1] && (g != s.root || ix[k - 1] != SELF) && (k == 1 <==> g == s.root)
            && TableOk(s.mem, g) && s.mem[g][ix[k - 1]].present && !Leaf(s.mem[g][ix[k - 1]], Level(s, g)) && s.mem[g][ix[k - 1]].addr == f
            && f in s.mem
  {
    assert OwnedTable(s, s.root);
    assert ix[..k - 1] + [ix[k - 1]] == ix[..k] && [] + ix[..k] == ix[..k] && [] + ix[..k - 1] == ix[..k - 1];
    ReachAbove(s, s.root, ix[..k - 1], ix[k - 1]);
    ReachOwner(s, s.root, ix[..k]);
    ReachOwner(s, s.root, ix[..k - 1]);
    var f, g := Reach(s.mem, s.root, 4, ix[..k]), Reach(s.mem, s.root, 4, ix[..k - 1]);
    assert OwnedTable(s, g) && OwnedTable(s, f);
    NothingBelow(s, g, ix[k - 1], f);
  }

  /** No empty table is left on the walk of `ix` from depth `lo` to depth `hi`. */
  ghost predicate Swept(s: Space, ix: seq<nat>, lo: nat, hi: nat) {
    forall f {:trigger f in s.owner} :: f in s.owner && lo <= |s.owner[f]| <= hi && s.owner[f] <= ix ==> f in s.mem && !IsEmpty(s.mem[f])
  }

  lemma OwnerOnce(s: Space, f: nat, g: nat)
    requires Inv(s) && f in s.owner && g in s.owner && s.owner[f] == s.owner[g]
    ensures f == g
  {
    assert OwnedTable(s, f) && OwnedTable(s, g);
  }

  lemma SweptKept(s: Space, ix: seq<nat>, k: nat, hi: nat)
    requires Inv(s) && Plain(ix) && 0 < k <= 3 && Reach(s.mem, s.root, 4, ix[..k]) != 0 && Swept(s, ix, k + 1, hi)
    requires var f := Reach(s.mem, s.root, 4, ix[..k]); f in s.mem && !IsEmpty(s.mem[f])
    ensures Swept(s, ix, k, hi)
  {
    assert OwnedTable(s, s.root) && [] + ix[..k] == ix[..k];
    ReachOwner(s, s.root, ix[..k]);
    var f := Reach(s.mem, s.root, 4, ix[..k]);
    forall h | h in s.owner && |s.owner[h]| == k && s.owner[h] <= ix ensures h == f {
      assert s.owner[h] == ix[..k];
      OwnerOnce(s, h, f);
    }
  }

  lemma SweptDestroy(s: Space, ix: seq<nat>, k: nat, hi: nat, g: nat)
    requires Inv(s) && Plain(ix) && 0 < k <= 3 && g in s.owner && s.owner[g] == ix[..k - 1] && Destroyable(s, g, ix[k - 1])
    ensures Swept(Destroy(s, g, ix[k - 1]), ix, k, hi)
  {
    OnlyChild(s, g, ix[k - 1]);
    var s' := Destroy(s, g, ix[k - 1]);
    assert ix[..k - 1] + [ix[k - 1]] == ix[..k];
    assert forall h :: h in s'.owner ==> !(ix[..k] <= s'.owner[h]);
    assert forall h :: h in s'.owner && s'.owner[h] <= ix ==> |s'.owner[h]| < k;
  }

  /** The table above stays when an empty one is removed. */
  lemma ParentStays(s: Space, ix: seq<nat>, k: nat, g: nat)
    requires Inv(s) && Plain(ix) && 0 < k <= 3 && g in s.owner && s.owner[g] == ix[..k - 1] && Destroyable(s, g, ix[k - 1]) && Inv(Destroy(s, g, ix[k - 1]))
    ensures Reach(Destroy(s, g, ix[k - 1]).mem, s.root, 4, ix[..k - 1]) == g && g != 0
  {
    OnlyChild(s, g, ix[k - 1]);
    assert OwnedTable(Destroy(s, g, ix[k - 1]), g);
  }

  // ---------------------------------------------------------------- where the code falls short

  /** Along a path to a table nothing has to be made. */
  lemma {:induction false} ReachedTouchable(m: Memory, f: nat, level: nat, path: seq<nat>)
    requires |path| < level && Reach(m, f, level, path) != 0
    ensures !Blocked(m, f, level, path) && Known(m, f, level, path) == |path|
    decreases |path|
  {
    if path != [] {
      ReachedTouchable(m, m[f][path[0]].addr, level - 1, path[1..]);
    }
  }

  /** A new address space is touchable with a frame for every table. */
  lemma NewTouchable(s: Space, path: seq<nat>)
    requires s.mem == map[s.root := EmptyTable()[SELF := TableEntry(s.root, false)]] && |path| <= 3 && Index(path) && (path != [] ==> path[0] != SELF) && |s.free| >= |path|
    ensures Touchable(s, s.root, 4, path)
  {
  }

  /** Behind a 4K page there is a page table, and a 2M page can be mapped over it. */
  lemma SmallUnderLarge(s: Space, ix: seq<nat>)
    requires Inv(s) && Plain(ix) && Look(s, ix).Page? && Look(s, ix).level == 1
    ensures LeadsToTable(s, ix, 1) && Touchable(s, s.root, 4, ix[..2])
  {
    PageTable(s, ix, 0);
    assert OwnedTable(s, s.root);
    assert ix[..2] + [ix[2]] == ix[..3];
    ReachAbove(s, s.root, ix[..2], ix[2]);
    ReachedTouchable(s.mem, s.root, 4, ix[..2]);
  }

  /** A 2M page mapped over a 4K page: the page table of the latter is lost. */
  method LargeOverSmall(root: nat, frames: set<nat>, ix: seq<nat>, small: nat, large: nat) returns (space: AddressSpace)
    requires root != 0 && 0 !in frames && root !in frames && |frames| >= 3 && Plain(ix) && small < WORD && large < WORD
    ensures space.Valid() && space.owner.Keys + space.free != {root} + frames
  {
    space := new AddressSpace(root, frames, true, false);
    NewTouchable(space.S(), ix[..3]);
    var ok := space.Maps(ix, small, true, false, 0);
    assert ix[..4] <= ix;
    SmallUnderLarge(space.S(), ix);
    ok := space.Maps(ix, large, true, false, 1);
  }

  /** A new address space with one 2M page. */
  method MapLarge(root: nat, frames: set<nat>, ix: seq<nat>, phy: nat) returns (space: AddressSpace)
    requires root != 0 && 0 !in frames && root !in frames && |frames| >= 2 && Plain(ix) && phy < WORD
    ensures space.Valid() && Look(space.S(), ix) == Page(2, EntryFor(phy, 1, true, ix[0] < 256, false))
  {
    space := new AddressSpace(root, frames, true, false);
    NewTouchable(space.S(), ix[..2]);
    var ok := space.Maps(ix, phy, true, false, 1);
    assert ix[..3] <= ix;
  }

  /** A 2M page: where its masked frame is misaligned, the processor drops the offset and `_vmm_virt_to_phys` adds it. */
  method Misaligned(root: nat, frames: set<nat>, n: nat, phy: nat) returns (space: AddressSpace, p: nat)
    requires root != 0 && 0 !in frames && root !in frames && |frames| >= 2 && Plain(Ix(n)) && phy < WORD
    ensures space.Valid() && Translate(space.S(), n) == Some(Masked(phy) / B21 * B21 + n % B21)
    ensures Translate(space.S(), n) == Some(p) <==> Masked(phy) % B21 == 0
  {
    space := MapLarge(root, frames, Ix(n), phy);
    p := space.VirtToPhys(n);
    MaskedTwice(phy);
  }

  /** A 4K page mapped read-only for an address off the 4K grid: a bit of the address makes it writable. */
  method AddressBits(root: nat, frames: set<nat>, ix: seq<nat>) returns (space: AddressSpace)
    requires root != 0 && 0 !in frames && root !in frames && |frames| >= 3 && Plain(ix)
    ensures space.Valid() && Look(space.S(), ix) == Page(1, Entry(true, false, 0x1000, true, ix[0] < 256, true))
  {
    space := new AddressSpace(root, frames, true, false);
    NewTouchable(space.S(), ix[..3]);
    BitOfAddress(0x1002, ix[0] < 256);
    var ok := space.Maps(ix, 0x1002, false, false, 0);
    assert ix[..4] <= ix;
  }

  lemma BitOfAddress(phy: nat, user: bool)
    requires phy == 0x1002
    ensures EntryFor(phy, 0, false, user, false) == Entry(true, false, 0x1000, true, user, true)
  {
  }
}
