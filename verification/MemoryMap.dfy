/**
 `mm_map_sanitize`: overlapping typed intervals are rewritten, pass after pass, until
 no rule applies. Higher types take precedence.
 */
module MemoryMap {

  import opened Common

  /** Both ends inclusive, as in `mm_map_entry_t`. */
  datatype Entry = Entry(kind: nat, start: nat, end: nat)

  predicate EntryOk(e: Entry) {
    e.kind > 0 && e.start <= e.end < WORD
  }

  /** One entry ends at the last address and one of the same type starts at address 0. */
  predicate Wraps(e: Entry, inner: Entry) {
    e.kind == inner.kind && e.end == WORD - 1 && inner.start == 0
  }

  predicate AllOk(es: seq<Entry>) {
    && (forall k :: 0 <= k < |es| ==> EntryOk(es[k]))
    && forall k, l {:trigger Wraps(es[k], es[l])} :: 0 <= k < |es| && 0 <= l < |es| ==> !Wraps(es[k], es[l])
  }

  // ---------------------------------------------------------------- what a list of entries means

  /** The type an entry gives an address; 0 if it does not cover it. */
  function KindOf(e: Entry, x: nat): nat {
    if e.start <= x <= e.end then e.kind else 0
  }

  function Max(a: nat, b: nat): nat {
    if a < b then b else a
  }

  /** The highest type among the entries that cover an address; 0 if none does. */
  function TypeAt(es: seq<Entry>, x: nat): nat {
    if es == [] then 0 else Max(KindOf(es[0], x), TypeAt(es[1..], x))
  }

  function Length(e: Entry): nat {
    if e.start <= e.end then e.end - e.start + 1 else 0
  }

  function Total(es: seq<Entry>): nat {
    if es == [] then 0 else Length(es[0]) + Total(es[1..])
  }

  function Remove(es: seq<Entry>, i: nat): seq<Entry>
    requires i < |es|
  {
    es[..i] + es[i + 1..]
  }

  /** Where the entries of a list with one entry removed come from. */
  function Skip(i: nat, k: nat): nat {
    if k < i then k else k + 1
  }

  lemma RemoveAt(es: seq<Entry>, i: nat, k: nat)
    requires i < |es| && k < |Remove(es, i)|
    ensures Skip(i, k) < |es| && Remove(es, i)[k] == es[Skip(i, k)]
  {
  }

  lemma {:induction false} Concat(a: seq<Entry>, b: seq<Entry>, x: nat)
    ensures TypeAt(a + b, x) == Max(TypeAt(a, x), TypeAt(b, x)) && Total(a + b) == Total(a) + Total(b)
    decreases |a|
  {
    if a == [] {
      assert a + b == b;
    } else {
      Concat(a[1..], b, x);
      assert (a + b)[1..] == a[1..] + b;
    }
  }

  /** Any entry can be taken out of the meaning of a list. */
  lemma TakeOut(es: seq<Entry>, i: nat, x: nat)
    requires i < |es|
    ensures TypeAt(es, x) == Max(KindOf(es[i], x), TypeAt(Remove(es, i), x)) && Total(es) == Length(es[i]) + Total(Remove(es, i))
  {
    Concat(es[..i], es[i..], x);
    Concat(es[..i], es[i + 1..], x);
    assert es == es[..i] + es[i..] && es[i..][1..] == es[i + 1..];
  }

  /** The list without entries `i` and `j`. */
  function Others(es: seq<Entry>, i: nat, j: nat): seq<Entry>
    requires i < |es| && j < |es| && i != j
  {
    Remove(Remove(es, i), if j < i then j else j - 1)
  }

  lemma TakeOutTwo(es: seq<Entry>, i: nat, j: nat, x: nat)
    requires i < |es| && j < |es| && i != j
    ensures TypeAt(es, x) == Max(Max(KindOf(es[i], x), KindOf(es[j], x)), TypeAt(Others(es, i, j), x))
    ensures Total(es) == Length(es[i]) + Length(es[j]) + Total(Others(es, i, j))
  {
    TakeOut(es, i, x);
    var k := if j < i then j else j - 1;
    TakeOut(Remove(es, i), k, x);
    assert Remove(es, i)[k] == es[j];
  }

  lemma OthersSymmetric(es: seq<Entry>, i: nat, j: nat)
    requires i < |es| && j < |es| && i != j
    ensures Others(es, i, j) == Others(es, j, i)
  {
    OthersParts(es, i, j);
    OthersParts(es, j, i);
  }

  lemma OthersParts(es: seq<Entry>, i: nat, j: nat)
    requires i < |es| && j < |es| && i != j
    ensures Others(es, i, j) == if i < j then es[..i] + es[i + 1..j] + es[j + 1..] else es[..j] + es[j + 1..i] + es[i + 1..]
  {
    var r := Remove(es, i);
    if i < j {
      assert r[..j - 1] == es[..i] + es[i + 1..j] && r[j..] == es[j + 1..];
    } else {
      assert r[..j] == es[..j] && r[j + 1..] == es[j + 1..i] + es[i + 1..];
    }
  }

  // ---------------------------------------------------------------- the rules

  datatype Rule = NoRule | Coalesce | Enclosed | Split | CutLeft | CutRight

  /** The first rule that applies to an entry and another one, as the source tests them. */
  function RuleFor(e: Entry, inner: Entry): Rule {
    if e.kind == inner.kind && (e.end + 1) % WORD == inner.start then Coalesce
    else if inner.kind < e.kind then NoRule
    else if e.start >= inner.start && e.end <= inner.end then Enclosed
    else if inner.start >= e.start && inner.end <= e.end then Split
    else if e.start >= inner.start && e.start <= inner.end then CutLeft
    else if e.end >= inner.start && e.end <= inner.end then CutRight
    else NoRule
  }

  /** The pieces of an entry around one inside it. */
  function Pieces(e: Entry, inner: Entry): seq<Entry>
    requires inner.start >= e.start
  {
    (if e.start != inner.start then [Entry(e.kind, e.start, inner.start - 1)] else [])
    + if e.end != inner.end then [Entry(e.kind, inner.end + 1, e.end)] else []
  }

  /** The list after the rule for entries `i` and `j`; new entries go to the tail. */
  function Apply(es: seq<Entry>, i: nat, j: nat): seq<Entry>
    requires i < |es| && j < |es| && i != j && EntryOk(es[i]) && EntryOk(es[j])
  {
    var e, inner := es[i], es[j];
    match RuleFor(e, inner)
    case NoRule => es
    case Coalesce => Remove(es[i := e.(end := inner.end)], j)
    case Enclosed => Remove(es, i)
    case Split => Remove(es + Pieces(e, inner), i)
    case CutLeft => es[i := e.(start := (inner.end + 1) % WORD)]
    case CutRight => es[i := e.(end := inner.start - 1)]
  }

  /** Two lists give every address the same type. */
  ghost predicate SameTypes(es: seq<Entry>, es': seq<Entry>) {
    forall x: nat {:trigger TypeAt(es', x)} :: TypeAt(es', x) == TypeAt(es, x)
  }

  /** Progress of the passes: total length, then number of entries. */
  predicate Smaller(es': seq<Entry>, es: seq<Entry>) {
    Total(es') < Total(es) || (Total(es') == Total(es) && |es'| < |es|)
  }

  /** The meaning of a list after entry `i` is removed, with entry `j` taken out. */
  lemma AfterRemove(es: seq<Entry>, i: nat, j: nat, x: nat)
    requires i < |es| && j < |es| && i != j
    ensures TypeAt(Remove(es, i), x) == Max(KindOf(es[j], x), TypeAt(Others(es, i, j), x))
    ensures Total(Remove(es, i)) == Length(es[j]) + Total(Others(es, i, j))
  {
    var k := if j < i then j else j - 1;
    TakeOut(Remove(es, i), k, x);
    assert Remove(es, i)[k] == es[j];
  }

  lemma OthersUpdate(es: seq<Entry>, i: nat, j: nat, e: Entry)
    requires i < |es| && j < |es| && i != j
    ensures Others(es[i := e], i, j) == Others(es, i, j) && Others(es[i := e], j, i) == Others(es, i, j)
  {
    OthersSymmetric(es, i, j);
  }

  lemma Joined(e: Entry, inner: Entry, x: nat)
    requires EntryOk(e) && EntryOk(inner) && RuleFor(e, inner) == Coalesce && !Wraps(e, inner)
    ensures KindOf(e.(end := inner.end), x) == Max(KindOf(e, x), KindOf(inner, x)) && Length(e.(end := inner.end)) == Length(e) + Length(inner)
  {
  }

  lemma CoalesceStep(es: seq<Entry>, i: nat, j: nat, x: nat)
    requires i < |es| && j < |es| && i != j && EntryOk(es[i]) && EntryOk(es[j]) && RuleFor(es[i], es[j]) == Coalesce && !Wraps(es[i], es[j])
    ensures TypeAt(Apply(es, i, j), x) == TypeAt(es, x) && Total(Apply(es, i, j)) == Total(es) && |Apply(es, i, j)| == |es| - 1
  {
    var e := es[i].(end := es[j].end);
    TakeOutTwo(es, i, j, x);
    OthersUpdate(es, i, j, e);
    AfterRemove(es[i := e], j, i, x);
    Joined(es[i], es[j], x);
  }

  lemma EnclosedStep(es: seq<Entry>, i: nat, j: nat, x: nat)
    requires i < |es| && j < |es| && i != j && EntryOk(es[i]) && EntryOk(es[j]) && RuleFor(es[i], es[j]) == Enclosed
    ensures TypeAt(Apply(es, i, j), x) == TypeAt(es, x) && Total(Apply(es, i, j)) < Total(es)
  {
    TakeOutTwo(es, i, j, x);
    AfterRemove(es, i, j, x);
  }

  lemma CutKinds(e: Entry, inner: Entry, e': Entry, x: nat)
    requires EntryOk(e) && EntryOk(inner)
    requires (RuleFor(e, inner) == CutLeft && e' == e.(start := inner.end + 1)) || (RuleFor(e, inner) == CutRight && e' == e.(end := inner.start - 1))
    ensures Max(KindOf(e', x), KindOf(inner, x)) == Max(KindOf(e, x), KindOf(inner, x)) && Length(e') < Length(e)
  {
  }

  lemma CutStep(es: seq<Entry>, i: nat, j: nat, x: nat)
    requires i < |es| && j < |es| && i != j && EntryOk(es[i]) && EntryOk(es[j]) && RuleFor(es[i], es[j]) in {CutLeft, CutRight}
    ensures TypeAt(Apply(es, i, j), x) == TypeAt(es, x) && Total(Apply(es, i, j)) < Total(es)
  {
    var e' := if RuleFor(es[i], es[j]) == CutLeft then es[i].(start := es[j].end + 1) else es[i].(end := es[j].start - 1);
    CutKinds(es[i], es[j], e', x);
    ReplaceStep(es, i, j, e', x);
  }

  lemma ReplaceStep(es: seq<Entry>, i: nat, j: nat, e': Entry, x: nat)
    requires i < |es| && j < |es| && i != j
    requires Max(KindOf(e', x), KindOf(es[j], x)) == Max(KindOf(es[i], x), KindOf(es[j], x)) && Length(e') < Length(es[i])
    ensures TypeAt(es[i := e'], x) == TypeAt(es, x) && Total(es[i := e']) < Total(es)
  {
    TakeOutTwo(es, i, j, x);
    TakeOutTwo(es[i := e'], i, j, x);
    OthersUpdate(es, i, j, e');
  }

  lemma PiecesMeaning(e: Entry, inner: Entry, x: nat)
    requires e.start <= inner.start <= inner.end <= e.end && e.kind <= inner.kind
    ensures Max(TypeAt(Pieces(e, inner), x), KindOf(inner, x)) == Max(KindOf(e, x), KindOf(inner, x))
    ensures Total(Pieces(e, inner)) + Length(inner) == Length(e)
  {
    var a := if e.start != inner.start then [Entry(e.kind, e.start, inner.start - 1)] else [];
    var b := if e.end != inner.end then [Entry(e.kind, inner.end + 1, e.end)] else [];
    Concat(a, b, x);
  }

  lemma SplitStep(es: seq<Entry>, i: nat, j: nat, x: nat)
    requires i < |es| && j < |es| && i != j && EntryOk(es[i]) && EntryOk(es[j]) && RuleFor(es[i], es[j]) == Split
    ensures TypeAt(Apply(es, i, j), x) == TypeAt(es, x) && Total(Apply(es, i, j)) < Total(es)
  {
    var extra := Pieces(es[i], es[j]);
    PiecesMeaning(es[i], es[j], x);
    TakeOutTwo(es, i, j, x);
    AfterRemove(es + extra, i, j, x);
    OthersMore(es, i, j, extra);
    Concat(Others(es, i, j), extra, x);
  }

  lemma OthersMore(es: seq<Entry>, i: nat, j: nat, extra: seq<Entry>)
    requires i < |es| && j < |es| && i != j
    ensures Others(es + extra, i, j) == Others(es, i, j) + extra
  {
    assert Remove(es + extra, i) == Remove(es, i) + extra;
    var k := if j < i then j else j - 1;
    assert Remove(Remove(es, i) + extra, k) == Remove(Remove(es, i), k) + extra;
  }

  /** Every rule keeps every address's type, and makes progress. */
  lemma ApplyStep(es: seq<Entry>, i: nat, j: nat)
    requires AllOk(es) && i < |es| && j < |es| && i != j && RuleFor(es[i], es[j]) != NoRule
    ensures AllOk(Apply(es, i, j)) && SameTypes(es, Apply(es, i, j)) && Smaller(Apply(es, i, j), es)
  {
    ApplyOk(es, i, j);
    forall x: nat ensures TypeAt(Apply(es, i, j), x) == TypeAt(es, x) && Smaller(Apply(es, i, j), es) {
      assert !Wraps(es[i], es[j]);
      match RuleFor(es[i], es[j])
      case Coalesce => CoalesceStep(es, i, j, x);
      case Enclosed => EnclosedStep(es, i, j, x);
      case Split => SplitStep(es, i, j, x);
      case CutLeft => CutStep(es, i, j, x);
      case CutRight => CutStep(es, i, j, x);
    }
    assert TypeAt(Apply(es, i, j), 0) == TypeAt(es, 0);
  }

  /** An entry that stems from entries of its type: it ends last only if `last` does, starts at 0 only if `first` does. */
  predicate Stems(e: Entry, last: Entry, first: Entry) {
    && EntryOk(e) && last.kind == first.kind == e.kind
    && (e.end == WORD - 1 ==> last.end == WORD - 1) && (e.start == 0 ==> first.start == 0)
  }

  lemma JoinOrigin(es: seq<Entry>, i: nat, j: nat, k: nat) returns (a: nat, b: nat)
    requires AllOk(es) && i < |es| && j < |es| && i != j && RuleFor(es[i], es[j]) == Coalesce && k < |es| - 1
    ensures a < |es| && b < |es| && Stems(Apply(es, i, j)[k], es[a], es[b])
  {
    assert !Wraps(es[i], es[j]);
    RemoveAt(es[i := es[i].(end := es[j].end)], j, k);
    b := Skip(j, k);
    a := if b == i then j else b;
  }

  lemma SplitOrigin(es: seq<Entry>, i: nat, j: nat, k: nat) returns (a: nat)
    requires AllOk(es) && i < |es| && j < |es| && i != j && RuleFor(es[i], es[j]) == Split && k < |es + Pieces(es[i], es[j])| - 1
    ensures a < |es| && Stems(Apply(es, i, j)[k], es[a], es[a])
  {
    RemoveAt(es + Pieces(es[i], es[j]), i, k);
    a := if Skip(i, k) < |es| then Skip(i, k) else i;
  }

  lemma Origin(es: seq<Entry>, i: nat, j: nat, k: nat) returns (a: nat, b: nat)
    requires AllOk(es) && i < |es| && j < |es| && i != j && k < |Apply(es, i, j)|
    ensures a < |es| && b < |es| && Stems(Apply(es, i, j)[k], es[a], es[b])
  {
    match RuleFor(es[i], es[j])
    case Coalesce =>
      a, b := JoinOrigin(es, i, j, k);
    case Enclosed =>
      RemoveAt(es, i, k);
      a := Skip(i, k);
      b := a;
    case Split =>
      a := SplitOrigin(es, i, j, k);
      b := a;
    case _ =>
      a, b := k, k;
  }

  lemma ApplyOk(es: seq<Entry>, i: nat, j: nat)
    requires AllOk(es) && i < |es| && j < |es| && i != j
    ensures AllOk(Apply(es, i, j))
  {
    var es' := Apply(es, i, j);
    forall k, l | 0 <= k < |es'| && 0 <= l < |es'| ensures EntryOk(es'[k]) && !Wraps(es'[k], es'[l]) {
      var a, b := Origin(es, i, j, k);
      var c, d := Origin(es, i, j, l);
      assert !Wraps(es[a], es[d]);
    }
  }

  // ---------------------------------------------------------------- the passes

  predicate Settled(es: seq<Entry>) {
    forall i, j :: 0 <= i < |es| && 0 <= j < |es| && i != j ==> RuleFor(es[i], es[j]) == NoRule
  }

  /** Where no rule applies, entries are disjoint and cannot be joined. */
  lemma SettledMeans(es: seq<Entry>, i: nat, j: nat)
    requires AllOk(es) && Settled(es) && i < |es| && j < |es| && i != j
    ensures es[i].end < es[j].start || es[j].end < es[i].start
    ensures es[i].kind == es[j].kind ==> es[i].end + 1 != es[j].start
  {
    assert RuleFor(es[i], es[j]) == NoRule && RuleFor(es[j], es[i]) == NoRule;
  }

  lemma {:induction false} NotCovered(es: seq<Entry>, x: nat)
    requires forall k :: 0 <= k < |es| ==> KindOf(es[k], x) == 0
    ensures TypeAt(es, x) == 0
    decreases |es|
  {
    if es != [] {
      NotCovered(es[1..], x);
    }
  }

  /** In a settled list an address has the type of the one entry that covers it. */
  lemma TypeOfEntry(es: seq<Entry>, i: nat, x: nat)
    requires AllOk(es) && Settled(es) && i < |es| && es[i].start <= x <= es[i].end
    ensures TypeAt(es, x) == es[i].kind
  {
    var rest := Remove(es, i);
    forall k | 0 <= k < |rest| ensures KindOf(rest[k], x) == 0 {
      RemoveAt(es, i, k);
      SettledMeans(es, i, Skip(i, k));
    }
    NotCovered(rest, x);
    TakeOut(es, i, x);
  }

  /** An address with a type is covered by an entry of that type. */
  lemma {:induction false} EntryOfType(es: seq<Entry>, x: nat) returns (i: nat)
    requires TypeAt(es, x) > 0
    ensures i < |es| && es[i].start <= x <= es[i].end && es[i].kind == TypeAt(es, x)
    decreases |es|
  {
    if KindOf(es[0], x) == TypeAt(es, x) {
      i := 0;
    } else {
      i := EntryOfType(es[1..], x);
      i := i + 1;
    }
  }

  class Map {
    var entries: seq<Entry>

    ghost predicate Valid()
      reads this
    {
      AllOk(entries)
    }

    constructor ()
      ensures Valid() && entries == []
    {
      entries := [];
    }

    /** `mm_map_add`. */
    method Add(kind: nat, start: nat, end: nat)
      requires AllOk(entries + [Entry(kind, start, end)])
      modifies this
      ensures Valid() && entries == old(entries) + [Entry(kind, start, end)]
      ensures forall x: nat {:trigger TypeAt(entries, x)} :: TypeAt(entries, x) == if start <= x <= end then Max(old(TypeAt(entries, x)), kind) else old(TypeAt(entries, x))
    {
      var e := Entry(kind, start, end);
      forall x: nat ensures TypeAt(entries + [e], x) == Max(TypeAt(entries, x), KindOf(e, x)) {
        Concat(entries, [e], x);
        assert TypeAt([e], x) == Max(KindOf(e, x), TypeAt([e][1..], x));
      }
      entries := entries + [e];
    }

    /** The nested loops of a pass: the first pair of entries a rule applies to. */
    method FindPair() returns (found: bool, i: nat, j: nat)
      ensures found ==> i < |entries| && j < |entries| && i != j && RuleFor(entries[i], entries[j]) != NoRule
      ensures !found ==> Settled(entries)
    {
      found, i, j := false, 0, 0;
      while i < |entries|
        invariant i <= |entries| && forall k, l :: 0 <= k < i && 0 <= l < |entries| && k != l ==> RuleFor(entries[k], entries[l]) == NoRule
      {
        j := 0;
        while j < |entries|
          invariant j <= |entries| && forall l :: 0 <= l < j && i != l ==> RuleFor(entries[i], entries[l]) == NoRule
        {
          if i != j && RuleFor(entries[i], entries[j]) != NoRule {
            return true, i, j;
          }
          j := j + 1;
        }
        i := i + 1;
      }
    }

    /** `mm_map_sanitize` up to the sort: passes until no rule applies. */
    method Sanitize()
      requires Valid()
      modifies this
      ensures Valid() && Settled(entries) && SameTypes(old(entries), entries)
    {
      ghost var es := entries;
      while true
        invariant Valid() && SameTypes(es, entries)
        decreases Total(entries), |entries|
      {
        var found, i, j := FindPair();
        if !found {
          return;
        }
        ApplyStep(entries, i, j);
        ghost var before := entries;
        entries := Apply(entries, i, j);
        assert forall x: nat {:trigger TypeAt(entries, x)} :: TypeAt(entries, x) == TypeAt(before, x);
      }
    }
  }

  // ---------------------------------------------------------------- at the top of the address space

  /** The comparison with `end + 1` wraps: the last entry and one at address 0 are joined, and types are lost. */
  lemma CoalesceWraps()
    ensures var es := [Entry(1, WORD - 0x1000, WORD - 1), Entry(1, 0, 0xFFF)];
            RuleFor(es[0], es[1]) == Coalesce && TypeAt(es, 0) == 1 && TypeAt(Remove(es[0 := es[0].(end := 0xFFF)], 1), 0) == 0
  {
    var es := [Entry(1, WORD - 0x1000, WORD - 1), Entry(1, 0, 0xFFF)];
    var es' := Remove(es[0 := es[0].(end := 0xFFF)], 1);
    assert es' == [Entry(1, WORD - 0x1000, 0xFFF)];
    assert TypeAt(es', 0) == Max(0, TypeAt(es'[1..], 0));
  }

  /** Joining two entries keeps the types if and only if the first ends below the last address, or both are the whole address space. */
  lemma CoalesceKeepsIff(e: Entry, inner: Entry)
    requires e.kind > 0 && e.start <= e.end < WORD && inner.start <= inner.end < WORD && RuleFor(e, inner) == Coalesce
    ensures (forall x: nat {:trigger KindOf(e, x)} :: KindOf(e.(end := inner.end), x) == Max(KindOf(e, x), KindOf(inner, x))) <==> e.end < WORD - 1 || (e.start == 0 && inner.end == WORD - 1)
  {
    assert KindOf(e, e.end) == e.kind;
    assert KindOf(e, 0) == if e.start == 0 then e.kind else 0;
  }
}
