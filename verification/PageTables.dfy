/**
 Four-level page tables in physical memory. Every table has one owner path, the
 indices that lead to it from the root; entry 510 of the root points to the root
 itself and is the window through which the kernel edits tables.
 */
module PageTables {

  const ENTRIES: nat := 512
  const SELF: nat := 510

  datatype Entry = Entry(present: bool, big: bool, addr: nat, writable: bool, user: bool, noexec: bool)

  const NO_ENTRY: Entry := Entry(false, false, 0, false, false, false)

  /** The outcome of a walk: a page of level 1 (4K), 2 (2M) or 3 (1G), or a fault. */
  datatype Hit = Fault | Page(level: nat, entry: Entry)

  type Memory = map<nat, seq<Entry>>

  /** Table memory, free frames, and the owner path of every table. */
  datatype Space = Space(mem: Memory, root: nat, free: set<nat>, owner: map<nat, seq<nat>>)

  // ---------------------------------------------------------------- walking

  /** An entry that ends the walk at `level`. */
  predicate Leaf(e: Entry, level: int) {
    level == 1 || (level < 4 && e.big)
  }

  predicate TableOk(m: Memory, f: nat) {
    f in m && |m[f]| == ENTRIES
  }

  /** The walk the processor does, from table `f` of `level` along `ix`. */
  function Lookup(m: Memory, f: nat, level: nat, ix: seq<nat>): Hit
    requires |ix| == level
    decreases level
  {
    if level == 0 || !TableOk(m, f) || ix[0] >= ENTRIES || !m[f][ix[0]].present then Fault
    else if Leaf(m[f][ix[0]], level) then Page(level, m[f][ix[0]])
    else Lookup(m, m[f][ix[0]].addr, level - 1, ix[1..])
  }

  /** The table at the end of a path of table entries; 0 if there is none. */
  function Reach(m: Memory, f: nat, level: nat, path: seq<nat>): nat
    requires |path| < level
    decreases level
  {
    if path == [] then f
    else if !TableOk(m, f) || path[0] >= ENTRIES || !m[f][path[0]].present || Leaf(m[f][path[0]], level) then 0
    else Reach(m, m[f][path[0]].addr, level - 1, path[1..])
  }

  // ---------------------------------------------------------------- the invariant

  predicate Index(ix: seq<nat>) {
    forall k :: 0 <= k < |ix| ==> ix[k] < ENTRIES
  }

  function Level(s: Space, f: nat): int
    requires f in s.owner
  {
    4 - |s.owner[f]|
  }

  /** A table entry leads to the table that owns the longer path; an absent entry is all zero, a root entry never large. */
  predicate Child(s: Space, f: nat, i: nat)
    requires f in s.owner && TableOk(s.mem, f) && i < ENTRIES
  {
    var e := s.mem[f][i];
    && (!e.present ==> e == NO_ENTRY) && (f == s.root ==> !e.big)
    && (e.present && !Leaf(e, Level(s, f)) && (f != s.root || i != SELF) ==> e.addr in s.owner && s.owner[e.addr] == s.owner[f] + [i])
  }

  predicate OwnedTable(s: Space, f: nat) {
    && f in s.owner && TableOk(s.mem, f) && f != 0 && f !in s.free && |s.owner[f]| <= 3 && Index(s.owner[f])
    && (s.owner[f] == [] <==> f == s.root) && (s.owner[f] != [] ==> s.owner[f][0] != SELF)
    && Reach(s.mem, s.root, 4, s.owner[f]) == f
    && forall i: nat {:trigger Child(s, f, i)} :: i < ENTRIES ==> Child(s, f, i)
  }

  /** The tables are exactly those reached from the root, each along its own path. */
  predicate Inv(s: Space) {
    && s.root in s.owner && 0 !in s.free
    && (forall f {:trigger OwnedTable(s, f)} :: f in s.owner ==> OwnedTable(s, f))
    && TableOk(s.mem, s.root) && s.mem[s.root][SELF].present && s.mem[s.root][SELF].addr == s.root
  }

  /** What a walk from the root finds. */
  function Look(s: Space, ix: seq<nat>): Hit
    requires |ix| == 4
  {
    Lookup(s.mem, s.root, 4, ix)
  }

  /** The index of an address outside the window. */
  predicate Plain(ix: seq<nat>) {
    |ix| == 4 && Index(ix) && ix[0] != SELF
  }

  /** Same tables, same contents, same free frames. */
  predicate SameTables(s: Space, s': Space) {
    && s'.root == s.root && s'.owner == s.owner && s'.free == s.free
    && forall f :: f in s.owner ==> f in s.mem && f in s'.mem && s'.mem[f] == s.mem[f]
  }

  // ---------------------------------------------------------------- tables are found where their owner path says

  lemma {:induction false} ReachOwner(s: Space, f: nat, path: seq<nat>)
    requires Inv(s) && f in s.owner && |s.owner[f]| + |path| <= 3 && (f == s.root && path != [] ==> path[0] != SELF)
    requires Reach(s.mem, f, 4 - |s.owner[f]|, path) != 0
    ensures var g := Reach(s.mem, f, 4 - |s.owner[f]|, path); g in s.owner && s.owner[g] == s.owner[f] + path
    decreases |path|
  {
    assert OwnedTable(s, f);
    if path != [] {
      var g := s.mem[f][path[0]].addr;
      assert Child(s, f, path[0]);
      assert OwnedTable(s, g);
      ReachOwner(s, g, path[1..]);
      assert s.owner[f] + [path[0]] + path[1..] == s.owner[f] + path;
    }
  }

  lemma {:induction false} LookThrough(m: Memory, f: nat, level: nat, path: seq<nat>, rest: seq<nat>)
    requires |path| < level == |path| + |rest| && Reach(m, f, level, path) != 0
    ensures Lookup(m, f, level, path + rest) == Lookup(m, Reach(m, f, level, path), |rest|, rest)
    decreases |path|
  {
    if path == [] {
      assert path + rest == rest;
    } else {
      LookThrough(m, m[f][path[0]].addr, level - 1, path[1..], rest);
      assert (path + rest)[1..] == path[1..] + rest;
    }
  }

  /** Writing one entry changes no walk that does not read it. */
  lemma {:induction false} WalkPast(s: Space, f: nat, i: nat, e: Entry, g: nat, rest: seq<nat>)
    requires Inv(s) && f in s.owner && i < ENTRIES && g in s.owner && |s.owner[g]| + |rest| == 4 && |rest| > 0 && TableOk(s.mem, f)
    requires g == s.root ==> rest[0] != SELF
    requires !(s.owner[f] + [i] <= s.owner[g] + rest)
    ensures Lookup(s.mem[f := s.mem[f][i := e]], g, |rest|, rest) == Lookup(s.mem, g, |rest|, rest)
    decreases |rest|
  {
    assert OwnedTable(s, g);
    var m' := s.mem[f := s.mem[f][i := e]];
    assert rest[0] < ENTRIES ==> m'[g][rest[0]] == s.mem[g][rest[0]];
    if rest[0] < ENTRIES && s.mem[g][rest[0]].present && !Leaf(s.mem[g][rest[0]], |rest|) {
      assert Child(s, g, rest[0]) && OwnedTable(s, s.mem[g][rest[0]].addr);
      assert s.owner[g] + [rest[0]] + rest[1..] == s.owner[g] + rest;
      WalkPast(s, f, i, e, s.mem[g][rest[0]].addr, rest[1..]);
    }
  }

  lemma {:induction false} ReachPast(s: Space, f: nat, i: nat, e: Entry, g: nat, path: seq<nat>)
    requires Inv(s) && f in s.owner && i < ENTRIES && g in s.owner && |s.owner[g]| + |path| <= 3 && TableOk(s.mem, f)
    requires g == s.root && path != [] ==> path[0] != SELF
    requires !(s.owner[f] + [i] <= s.owner[g] + path)
    ensures Reach(s.mem[f := s.mem[f][i := e]], g, 4 - |s.owner[g]|, path) == Reach(s.mem, g, 4 - |s.owner[g]|, path)
    decreases |path|
  {
    assert OwnedTable(s, g);
    var m' := s.mem[f := s.mem[f][i := e]];
    if path != [] {
      assert path[0] < ENTRIES ==> m'[g][path[0]] == s.mem[g][path[0]];
      if path[0] < ENTRIES && s.mem[g][path[0]].present && !Leaf(s.mem[g][path[0]], 4 - |s.owner[g]|) {
        assert Child(s, g, path[0]) && OwnedTable(s, s.mem[g][path[0]].addr);
        assert s.owner[g] + [path[0]] + path[1..] == s.owner[g] + path;
        ReachPast(s, f, i, e, s.mem[g][path[0]].addr, path[1..]);
      }
    }
  }

  /** One more step of a path. */
  lemma {:induction false} ReachOn(m: Memory, f: nat, level: nat, path: seq<nat>, i: nat)
    requires |path| + 1 < level && Reach(m, f, level, path) != 0
    ensures var g := Reach(m, f, level, path);
            Reach(m, f, level, path + [i]) == Reach(m, g, level - |path|, [i])
    decreases |path|
  {
    if path == [] {
      assert path + [i] == [i];
    } else {
      ReachOn(m, m[f][path[0]].addr, level - 1, path[1..], i);
      assert (path + [i])[1..] == path[1..] + [i];
    }
  }

  /** Walks see only the tables. */
  lemma {:induction false} SameWalks(s: Space, m': Memory, g: nat, rest: seq<nat>)
    requires Inv(s) && (forall f :: f in s.owner && f in s.mem ==> f in m' && m'[f] == s.mem[f])
    requires g in s.owner && |s.owner[g]| + |rest| <= 4 && (g == s.root && rest != [] ==> rest[0] != SELF)
    ensures |s.owner[g]| + |rest| == 4 ==> Lookup(m', g, |rest|, rest) == Lookup(s.mem, g, |rest|, rest)
    ensures |s.owner[g]| + |rest| < 4 ==> Reach(m', g, 4 - |s.owner[g]|, rest) == Reach(s.mem, g, 4 - |s.owner[g]|, rest)
    decreases |rest|
  {
    assert OwnedTable(s, g);
    if rest != [] && rest[0] < ENTRIES && s.mem[g][rest[0]].present && !Leaf(s.mem[g][rest[0]], 4 - |s.owner[g]|) {
      assert Child(s, g, rest[0]) && OwnedTable(s, s.mem[g][rest[0]].addr);
      SameWalks(s, m', s.mem[g][rest[0]].addr, rest[1..]);
    }
  }

  // ---------------------------------------------------------------- writing a page or clearing an entry

  function Prune(owner: map<nat, seq<nat>>, path: seq<nat>): map<nat, seq<nat>> {
    map g | g in owner && !(path <= owner[g]) :: owner[g]
  }

  /** Entry `i` of table `f` becomes `e`; tables that hung below it are lost. */
  function SetEntry(s: Space, f: nat, i: nat, e: Entry): Space
    requires Inv(s) && f in s.owner && i < ENTRIES
  {
    assert OwnedTable(s, f);
    s.(mem := s.mem[f := s.mem[f][i := e]], owner := Prune(s.owner, s.owner[f] + [i]))
  }

  /** A page entry of the table's level, or none; not the window. */
  predicate Settable(s: Space, f: nat, i: nat, e: Entry)
    requires Inv(s) && f in s.owner && i < ENTRIES
  {
    (f != s.root || i != SELF) && (if e.present then Leaf(e, Level(s, f)) else e == NO_ENTRY)
  }

  /** Along a path to a table, no entry is large. */
  lemma {:induction false} WindowWalk(s: Space, f: nat, path: seq<nat>)
    requires Inv(s) && f in s.owner && |s.owner[f]| + |path| <= 3 && path != [] && (f == s.root ==> path[0] != SELF)
    requires Reach(s.mem, f, 4 - |s.owner[f]|, path) != 0
    ensures var hit := Lookup(s.mem, f, |path|, path); hit.Page? && hit.level == 1 && hit.entry.addr == Reach(s.mem, f, 4 - |s.owner[f]|, path)
    decreases |path|
  {
    assert OwnedTable(s, f) && Child(s, f, path[0]);
    if |path| > 1 {
      assert OwnedTable(s, s.mem[f][path[0]].addr);
      WindowWalk(s, s.mem[f][path[0]].addr, path[1..]);
    } else {
      assert path[1..] == [];
    }
  }

  /** Entry 510 leads from the root to the root, one level lower. */
  lemma WindowStep(s: Space, rest: seq<nat>)
    requires Inv(s) && 0 < |rest| < 4
    ensures Lookup(s.mem, s.root, |rest| + 1, [SELF] + rest) == Lookup(s.mem, s.root, |rest|, rest)
  {
    assert OwnedTable(s, s.root) && Child(s, s.root, SELF);
    assert ([SELF] + rest)[1..] == rest;
  }

  /** The indices of the window address of the table `k` entries down a walk along `ix`. */
  function Window(ix: seq<nat>, k: nat): (window: seq<nat>)
    requires |ix| == 4
    ensures |window| == 4
  {
    if k == 0 then [SELF, SELF, SELF, SELF] else if k == 1 then [SELF, SELF, SELF, ix[0]] else if k == 2 then [SELF, SELF, ix[0], ix[1]] else [SELF, ix[0], ix[1], ix[2]]
  }

  /** The self-map: the walk to a table's window address ends at the frame of that very table. */
  lemma SelfMap(s: Space, ix: seq<nat>, k: nat)
    requires Inv(s) && Plain(ix) && k <= 3 && Reach(s.mem, s.root, 4, ix[..k]) != 0
    ensures var hit := Look(s, Window(ix, k));
            hit.Page? && hit.level == 1 && hit.entry.addr == Reach(s.mem, s.root, 4, ix[..k])
  {
    assert OwnedTable(s, s.root) && Child(s, s.root, SELF);
    if k == 0 {
      WindowStep(s, [SELF, SELF, SELF]);
      WindowStep(s, [SELF, SELF]);
      WindowStep(s, [SELF]);
      assert [SELF] + [SELF, SELF, SELF] == [SELF, SELF, SELF, SELF] && [SELF] + [SELF, SELF] == [SELF, SELF, SELF] && [SELF] + [SELF] == [SELF, SELF];
    } else {
      WindowWalk(s, s.root, ix[..k]);
      if k == 1 {
        WindowStep(s, [SELF, SELF, ix[0]]);
        WindowStep(s, [SELF, ix[0]]);
        WindowStep(s, [ix[0]]);
        assert ix[..1] == [ix[0]] && [SELF] + [ix[0]] == [SELF, ix[0]] && [SELF] + [SELF, ix[0]] == [SELF, SELF, ix[0]];
        assert [SELF] + [SELF, SELF, ix[0]] == [SELF, SELF, SELF, ix[0]];
      } else if k == 2 {
        WindowStep(s, [SELF, ix[0], ix[1]]);
        WindowStep(s, [ix[0], ix[1]]);
        assert ix[..2] == [ix[0], ix[1]] && [SELF] + [ix[0], ix[1]] == [SELF, ix[0], ix[1]];
        assert [SELF] + [SELF, ix[0], ix[1]] == [SELF, SELF, ix[0], ix[1]];
      } else {
        WindowStep(s, [ix[0], ix[1], ix[2]]);
        assert ix[..3] == [ix[0], ix[1], ix[2]] && [SELF] + [ix[0], ix[1], ix[2]] == [SELF, ix[0], ix[1], ix[2]];
      }
    }
  }

  lemma SetEntryInv(s: Space, f: nat, i: nat, e: Entry)
    requires Inv(s) && f in s.owner && i < ENTRIES && Settable(s, f, i, e)
    ensures Inv(SetEntry(s, f, i, e))
  {
    var s' := SetEntry(s, f, i, e);
    assert OwnedTable(s, f) && OwnedTable(s, s.root);
    forall g | g in s'.owner ensures OwnedTable(s', g) {
      SetEntryTable(s, f, i, e, g);
    }
  }

  /** A table that does not hang below a written entry is still reached. */
  lemma StillReached(s: Space, f: nat, i: nat, e: Entry, g: nat)
    requires Inv(s) && f in s.owner && i < ENTRIES && g in s.owner && !(s.owner[f] + [i] <= s.owner[g]) && TableOk(s.mem, f)
    ensures |s.owner[g]| < 4 && Reach(s.mem[f := s.mem[f][i := e]], s.root, 4, s.owner[g]) == g
  {
    assert OwnedTable(s, s.root) && OwnedTable(s, g);
    assert s.owner[s.root] + s.owner[g] == s.owner[g];
    ReachPast(s, f, i, e, s.root, s.owner[g]);
  }

  lemma SetEntryTable(s: Space, f: nat, i: nat, e: Entry, g: nat)
    requires Inv(s) && f in s.owner && i < ENTRIES && Settable(s, f, i, e) && g in s.owner && !(s.owner[f] + [i] <= s.owner[g])
    ensures OwnedTable(SetEntry(s, f, i, e), g)
  {
    var s' := SetEntry(s, f, i, e);
    assert OwnedTable(s, f) && OwnedTable(s, g);
    StillReached(s, f, i, e, g);
    forall j: nat | j < ENTRIES ensures Child(s', g, j) {
      SetEntryChild(s, f, i, e, g, j);
    }
  }

  lemma SetEntryChild(s: Space, f: nat, i: nat, e: Entry, g: nat, j: nat)
    requires Inv(s) && f in s.owner && i < ENTRIES && Settable(s, f, i, e) && g in s.owner && !(s.owner[f] + [i] <= s.owner[g])
    requires j < ENTRIES && TableOk(SetEntry(s, f, i, e).mem, g)
    ensures Child(SetEntry(s, f, i, e), g, j)
  {
    assert OwnedTable(s, f) && OwnedTable(s, g) && Child(s, g, j);
    if g != f || j != i {
      ChildKept(s, f, i, g, j);
    }
  }

  /** Only the entry (`f`, `i`) itself leads below its path. */
  lemma ChildKept(s: Space, f: nat, i: nat, g: nat, j: nat)
    requires Inv(s) && f in s.owner && g in s.owner && !(s.owner[f] + [i] <= s.owner[g]) && (g != f || j != i)
    ensures !(s.owner[f] + [i] <= s.owner[g] + [j])
  {
    assert OwnedTable(s, f) && OwnedTable(s, g);
    Longer(s.owner[f], i, s.owner[g], j);
  }

  lemma Longer(p: seq<nat>, i: nat, q: seq<nat>, j: nat)
    ensures p + [i] <= q + [j] ==> p + [i] <= q || (p == q && i == j)
  {
    if p + [i] <= q + [j] && |p| == |q| {
      assert (p + [i])[..|p|] == p && (q + [j])[..|q|] == q;
      assert (p + [i])[|p|] == i && (q + [j])[|q|] == j;
    }
    if p + [i] <= q + [j] && |p| < |q| {
      assert (q + [j])[..|p| + 1] == q[..|p| + 1];
    }
  }

  /** The walk after an entry is written: new below the entry, as before elsewhere. */
  lemma SetEntryLook(s: Space, f: nat, i: nat, e: Entry, ix: seq<nat>)
    requires Inv(s) && f in s.owner && i < ENTRIES && Settable(s, f, i, e) && Plain(ix)
    ensures Look(SetEntry(s, f, i, e), ix) == if s.owner[f] + [i] <= ix then (if e.present then Page(4 - |s.owner[f]|, e) else Fault) else Look(s, ix)
  {
    assert OwnedTable(s, f) && OwnedTable(s, s.root);
    var s', p := SetEntry(s, f, i, e), s.owner[f];
    if p + [i] <= ix {
      ReachPast(s, f, i, e, s.root, p);
      assert s.owner[s.root] + p == p;
      assert ix == p + ix[|p|..] && ix[|p|] == i;
      LookThrough(s'.mem, s.root, 4, p, ix[|p|..]);
    } else {
      assert s.owner[s.root] + ix == ix;
      WalkPast(s, f, i, e, s.root, ix);
    }
  }

  /** Tables below an entry exist only if the entry leads to a table. */
  lemma NothingBelow(s: Space, f: nat, i: nat, g: nat)
    requires Inv(s) && f in s.owner && i < ENTRIES && g in s.owner && s.owner[f] + [i] <= s.owner[g]
    ensures TableOk(s.mem, f) && s.mem[f][i].present && !Leaf(s.mem[f][i], Level(s, f)) && |s.owner[f]| < 3
    ensures s.mem[f][i].addr in s.owner && s.owner[s.mem[f][i].addr] == s.owner[f] + [i]
    ensures s.owner[g] == s.owner[f] + [i] ==> g == s.mem[f][i].addr
  {
    assert OwnedTable(s, f) && OwnedTable(s, g) && OwnedTable(s, s.root) && Child(s, f, i);
    var p, rest := s.owner[f], s.owner[g][|s.owner[f]|..];
    assert s.owner[g] == p + rest && rest[0] == i;
    ReachParts(s.mem, s.root, 4, p, rest);
    if s.owner[g] == p + [i] {
      assert rest == [i];
    }
  }

  lemma {:induction false} ReachParts(m: Memory, f: nat, level: nat, path: seq<nat>, rest: seq<nat>)
    requires |path| + |rest| < level && Reach(m, f, level, path) != 0
    ensures Reach(m, f, level, path + rest) == Reach(m, Reach(m, f, level, path), level - |path|, rest)
    decreases |path|
  {
    if path == [] {
      assert path + rest == rest;
    } else {
      ReachParts(m, m[f][path[0]].addr, level - 1, path[1..], rest);
      assert (path + rest)[1..] == path[1..] + rest;
    }
  }

  // ---------------------------------------------------------------- adding and removing a table

  function EmptyTable(): (t: seq<Entry>)
    ensures |t| == ENTRIES && forall i :: 0 <= i < ENTRIES ==> t[i] == NO_ENTRY
  {
    seq(ENTRIES, i => NO_ENTRY)
  }

  function TableEntry(frame: nat, user: bool): Entry {
    Entry(true, false, frame, true, user, false)
  }

  /** A free frame becomes an empty table behind an absent entry. */
  function Create(s: Space, f: nat, i: nat, frame: nat, user: bool): Space
    requires Inv(s) && f in s.owner && i < ENTRIES
  {
    assert OwnedTable(s, f);
    s.(mem := s.mem[frame := EmptyTable()][f := s.mem[f][i := TableEntry(frame, user)]],
       free := s.free - {frame},
       owner := s.owner[frame := s.owner[f] + [i]])
  }

  predicate Creatable(s: Space, f: nat, i: nat, frame: nat)
    requires Inv(s) && f in s.owner && i < ENTRIES
  {
    frame in s.free && (f != s.root || i != SELF) && |s.owner[f]| < 3 && TableOk(s.mem, f) && !s.mem[f][i].present
  }

  /** The new frame's memory is no table yet. */
  lemma CreateFrame(s: Space, f: nat, i: nat, frame: nat)
    requires Inv(s) && f in s.owner && i < ENTRIES && Creatable(s, f, i, frame)
    ensures frame !in s.owner && frame != 0 && frame != f && Inv(s.(mem := s.mem[frame := EmptyTable()]))
  {
    assert OwnedTable(s, f);
    if frame in s.owner { assert OwnedTable(s, frame); }
    var s1 := s.(mem := s.mem[frame := EmptyTable()]);
    forall g | g in s1.owner ensures OwnedTable(s1, g) {
      assert OwnedTable(s, g) && OwnedTable(s, s.root);
      SameWalks(s, s1.mem, s.root, s.owner[g]);
      forall j: nat | j < ENTRIES ensures Child(s1, g, j) {
        assert Child(s, g, j);
      }
    }
    assert OwnedTable(s1, s.root);
  }

  lemma CreateInv(s: Space, f: nat, i: nat, frame: nat, user: bool)
    requires Inv(s) && f in s.owner && i < ENTRIES && Creatable(s, f, i, frame)
    ensures Inv(Create(s, f, i, frame, user))
  {
    CreateFrame(s, f, i, frame);
    var s' := Create(s, f, i, frame, user);
    forall g | g in s'.owner ensures OwnedTable(s', g) {
      if g == frame {
        CreateNew(s, f, i, frame, user);
      } else {
        CreateOld(s, f, i, frame, user, g);
      }
    }
    assert OwnedTable(s, s.root);
  }

  lemma CreateOld(s: Space, f: nat, i: nat, frame: nat, user: bool, g: nat)
    requires Inv(s) && f in s.owner && i < ENTRIES && Creatable(s, f, i, frame) && g in s.owner
    requires frame !in s.owner && frame != 0 && Inv(s.(mem := s.mem[frame := EmptyTable()]))
    ensures OwnedTable(Create(s, f, i, frame, user), g)
  {
    var s1, s' := s.(mem := s.mem[frame := EmptyTable()]), Create(s, f, i, frame, user);
    assert OwnedTable(s1, f) && OwnedTable(s1, g) && OwnedTable(s, f);
    if s.owner[f] + [i] <= s.owner[g] { NothingBelow(s, f, i, g); }
    StillReached(s1, f, i, TableEntry(frame, user), g);
    forall j: nat | j < ENTRIES ensures Child(s', g, j) {
      CreateChild(s, f, i, frame, user, g, j);
    }
  }

  lemma CreateChild(s: Space, f: nat, i: nat, frame: nat, user: bool, g: nat, j: nat)
    requires Inv(s) && f in s.owner && i < ENTRIES && Creatable(s, f, i, frame) && g in s.owner && j < ENTRIES
    requires frame !in s.owner && frame != 0 && Inv(s.(mem := s.mem[frame := EmptyTable()]))
    ensures TableOk(Create(s, f, i, frame, user).mem, g) && Child(Create(s, f, i, frame, user), g, j)
  {
    var s1 := s.(mem := s.mem[frame := EmptyTable()]);
    assert OwnedTable(s1, f) && OwnedTable(s1, g) && OwnedTable(s, f);
    assert Child(s1, g, j);
  }

  lemma CreateNew(s: Space, f: nat, i: nat, frame: nat, user: bool)
    requires Inv(s) && f in s.owner && i < ENTRIES && Creatable(s, f, i, frame)
    requires frame !in s.owner && frame != 0 && frame != f && Inv(s.(mem := s.mem[frame := EmptyTable()]))
    ensures OwnedTable(Create(s, f, i, frame, user), frame)
  {
    var s1, s' := s.(mem := s.mem[frame := EmptyTable()]), Create(s, f, i, frame, user);
    assert OwnedTable(s1, f) && OwnedTable(s1, s.root) && OwnedTable(s, f);
    assert s.owner[s.root] + s.owner[f] == s.owner[f];
    ReachPast(s1, f, i, TableEntry(frame, user), s.root, s.owner[f]);
    ReachOn(s'.mem, s.root, 4, s.owner[f], i);
    assert s'.mem[f][i] == TableEntry(frame, user);
  }

  lemma CreateLook(s: Space, f: nat, i: nat, frame: nat, user: bool, ix: seq<nat>)
    requires Inv(s) && f in s.owner && i < ENTRIES && Creatable(s, f, i, frame) && Plain(ix)
    ensures Look(Create(s, f, i, frame, user), ix) == Look(s, ix)
  {
    CreateFrame(s, f, i, frame);
    CreateNew(s, f, i, frame, user);
    var s1, s', p := s.(mem := s.mem[frame := EmptyTable()]), Create(s, f, i, frame, user), s.owner[f];
    assert OwnedTable(s1, f) && OwnedTable(s1, s.root) && OwnedTable(s, f) && OwnedTable(s, s.root);
    if p + [i] <= ix {
      assert ix == p + ix[|p|..] && ix == p + [i] + ix[|p| + 1..];
      LookThrough(s.mem, s.root, 4, p, ix[|p|..]);
      LookThrough(s'.mem, s.root, 4, p + [i], ix[|p| + 1..]);
    } else {
      SameWalks(s, s1.mem, s.root, ix);
      assert s.owner[s.root] + ix == ix;
      WalkPast(s1, f, i, TableEntry(frame, user), s.root, ix);
    }
  }

  predicate IsEmpty(t: seq<Entry>) {
    forall i :: 0 <= i < |t| ==> !t[i].present
  }

  /** The empty table behind an entry is taken off and its frame freed. */
  function Destroy(s: Space, f: nat, i: nat): Space
    requires Inv(s) && f in s.owner && i < ENTRIES
  {
    assert OwnedTable(s, f);
    var g := s.mem[f][i].addr;
    s.(mem := s.mem[f := s.mem[f][i := NO_ENTRY]], free := s.free + {g}, owner := s.owner - {g})
  }

  predicate Destroyable(s: Space, f: nat, i: nat)
    requires Inv(s) && f in s.owner && i < ENTRIES
  {
    && TableOk(s.mem, f) && (f != s.root || i != SELF) && s.mem[f][i].present && !Leaf(s.mem[f][i], Level(s, f))
    && s.mem[f][i].addr in s.mem && IsEmpty(s.mem[s.mem[f][i].addr])
  }

  /** Only the empty table itself hangs below the entry. */
  lemma OnlyChild(s: Space, f: nat, i: nat)
    requires Inv(s) && f in s.owner && i < ENTRIES && Destroyable(s, f, i)
    ensures s.mem[f][i].addr in s.owner && s.owner[s.mem[f][i].addr] == s.owner[f] + [i]
    ensures Prune(s.owner, s.owner[f] + [i]) == s.owner - {s.mem[f][i].addr}
  {
    var g := s.mem[f][i].addr;
    assert OwnedTable(s, f) && Child(s, f, i) && OwnedTable(s, g);
    forall h | h in s.owner && s.owner[f] + [i] <= s.owner[h] ensures h == g {
      assert OwnedTable(s, h);
      NothingBelow(s, f, i, h);
      if s.owner[h] != s.owner[g] {
        NothingBelow(s, g, s.owner[h][|s.owner[g]|], h);
      }
    }
  }

  lemma DestroyInv(s: Space, f: nat, i: nat)
    requires Inv(s) && f in s.owner && i < ENTRIES && Destroyable(s, f, i)
    ensures Inv(Destroy(s, f, i)) && Destroy(s, f, i) == SetEntry(s, f, i, NO_ENTRY).(free := s.free + {s.mem[f][i].addr})
  {
    OnlyChild(s, f, i);
    var s1, s' := SetEntry(s, f, i, NO_ENTRY), Destroy(s, f, i);
    SetEntryInv(s, f, i, NO_ENTRY);
    assert OwnedTable(s, f) && Child(s, f, i) && OwnedTable(s, s.mem[f][i].addr);
    forall h | h in s'.owner ensures OwnedTable(s', h) {
      assert OwnedTable(s1, h);
      forall j: nat | j < ENTRIES ensures Child(s', h, j) {
        assert Child(s1, h, j);
      }
    }
  }

  lemma DestroyLook(s: Space, f: nat, i: nat, ix: seq<nat>)
    requires Inv(s) && f in s.owner && i < ENTRIES && Destroyable(s, f, i) && Plain(ix)
    ensures Look(Destroy(s, f, i), ix) == Look(s, ix)
  {
    SetEntryLook(s, f, i, NO_ENTRY, ix);
    var g, p := s.mem[f][i].addr, s.owner[f];
    assert OwnedTable(s, f) && Child(s, f, i) && OwnedTable(s, g);
    if p + [i] <= ix {
      assert ix == p + [i] + ix[|p| + 1..];
      LookThrough(s.mem, s.root, 4, p + [i], ix[|p| + 1..]);
    }
  }

  // ---------------------------------------------------------------- undoing

  lemma DestroyCreated(s: Space, f: nat, i: nat, frame: nat, user: bool)
    requires Inv(s) && f in s.owner && i < ENTRIES && Creatable(s, f, i, frame) && Inv(Create(s, f, i, frame, user))
    ensures Destroyable(Create(s, f, i, frame, user), f, i)
    ensures SameTables(s, Destroy(Create(s, f, i, frame, user), f, i))
  {
    CreateFrame(s, f, i, frame);
    assert OwnedTable(s, f) && Child(s, f, i);
    var s1 := Create(s, f, i, frame, user);
    var s2 := Destroy(s1, f, i);
    assert s1.mem[f][i].addr == frame;
    assert s2.mem[f] == s.mem[f];
    forall g | g in s.owner ensures g in s.mem && g in s2.mem && s2.mem[g] == s.mem[g] {
      assert OwnedTable(s, g);
    }
  }

  lemma DestroySame(s: Space, s': Space, f: nat, i: nat)
    requires Inv(s) && Inv(s') && SameTables(s, s') && f in s.owner && i < ENTRIES && Destroyable(s, f, i)
    ensures Destroyable(s', f, i) && SameTables(Destroy(s, f, i), Destroy(s', f, i))
  {
    assert OwnedTable(s, f) && OwnedTable(s', f) && Child(s, f, i);
  }

  lemma SameTablesTrans(s: Space, s1: Space, s2: Space)
    requires SameTables(s, s1) && SameTables(s1, s2)
    ensures SameTables(s, s2)
  {
  }

  // ---------------------------------------------------------------- changes that no walk notices

  /** Every walk outside the window ends as before, and no frame is lost or gained. */
  ghost predicate Unnoticed(s: Space, s': Space) {
    && Inv(s') && s'.root == s.root && s'.owner.Keys + s'.free == s.owner.Keys + s.free
    && forall ix {:trigger Look(s', ix)} :: Plain(ix) ==> Look(s', ix) == Look(s, ix)
  }

  lemma UnnoticedCreate(s: Space, f: nat, i: nat, frame: nat, user: bool)
    requires Inv(s) && f in s.owner && i < ENTRIES && Creatable(s, f, i, frame)
    ensures Unnoticed(s, Create(s, f, i, frame, user))
  {
    CreateInv(s, f, i, frame, user);
    forall ix | Plain(ix) ensures Look(Create(s, f, i, frame, user), ix) == Look(s, ix) {
      CreateLook(s, f, i, frame, user, ix);
    }
  }

  lemma UnnoticedDestroy(s: Space, f: nat, i: nat)
    requires Inv(s) && f in s.owner && i < ENTRIES && Destroyable(s, f, i)
    ensures Unnoticed(s, Destroy(s, f, i))
  {
    OnlyChild(s, f, i);
    DestroyInv(s, f, i);
    forall ix | Plain(ix) ensures Look(Destroy(s, f, i), ix) == Look(s, ix) {
      DestroyLook(s, f, i, ix);
    }
  }

  lemma UnnoticedTrans(s: Space, s1: Space, s2: Space)
    requires Unnoticed(s, s1) && Unnoticed(s1, s2)
    ensures Unnoticed(s, s2)
  {
    forall ix | Plain(ix) ensures Look(s2, ix) == Look(s, ix) {
      assert Look(s1, ix) == Look(s, ix);
    }
  }

  lemma UnnoticedSame(s: Space, s': Space)
    requires Inv(s) && Inv(s') && SameTables(s, s')
    ensures Unnoticed(s, s')
  {
    forall ix | Plain(ix) ensures Look(s', ix) == Look(s, ix) {
      assert OwnedTable(s, s.root);
      SameWalks(s, s'.mem, s.root, ix);
    }
  }
}
