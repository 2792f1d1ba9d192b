/**
 How free chunks are found again: the designated victim `dv`, 32 lists of small
 chunks (one size each) with their bit map, and the chunks held in the tree bins.
 The index as a value; `Pairs` is the set of (address, size) pairs it holds.
 */
module FreeIndex {
  import opened Common
  import opened Chunks

  const NSMALLBINS: nat := 32

  datatype Index = Index(dv: nat, dvsize: nat, small: seq<seq<nat>>, smallmap: seq<bool>, large: set<(nat, nat)>)

  predicate IsSmall(s: nat) {
    s < MIN_LARGE
  }

  function SmallIndex(s: nat): (i: nat)
    requires IsSmall(s)
    ensures i < NSMALLBINS
  {
    s / 8
  }

  /** The chunks of the small lists. */
  function SmallPairs(small: seq<seq<nat>>): set<(nat, nat)> {
    set i, a | 0 <= i < |small| && a in small[i] :: (a, 8 * i)
  }

  function DvPairs(dv: nat, dvsize: nat): set<(nat, nat)> {
    if dvsize == 0 then {} else {(dv, dvsize)}
  }

  function Pairs(ix: Index): set<(nat, nat)> {
    DvPairs(ix.dv, ix.dvsize) + SmallPairs(ix.small) + ix.large
  }

  /** No chunk is held twice, the map tells the empty lists, and tree chunks are large. */
  predicate IndexOk(ix: Index) {
    && |ix.small| == |ix.smallmap| == NSMALLBINS
    && (forall i :: 0 <= i < NSMALLBINS ==> (ix.smallmap[i] <==> ix.small[i] != []) && Distinct(ix.small[i]))
    && (ix.dv == 0 <==> ix.dvsize == 0)
    && (ix.dvsize != 0 ==> (ix.dv, ix.dvsize) !in SmallPairs(ix.small) && (ix.dv, ix.dvsize) !in ix.large)
    && (forall c :: c in ix.large ==> c.1 >= MIN_LARGE)
  }

  /** A chunk the index can take in. */
  predicate Insertable(ix: Index, p: nat, s: nat) {
    p != 0 && s >= MIN_CHUNK_SIZE && s % ALIGNMENT == 0 && (p, s) !in Pairs(ix)
  }

  lemma SmallMember(small: seq<seq<nat>>, p: nat, s: nat)
    requires |small| == NSMALLBINS
    ensures (p, s) in SmallPairs(small) <==> s % 8 == 0 && s / 8 < NSMALLBINS && p in small[s / 8]
  {
    if s % 8 == 0 && s / 8 < NSMALLBINS && p in small[s / 8] {
      assert (p, 8 * (s / 8)) in SmallPairs(small);
    }
  }

  /** `insert_small_chunk`: the chunk goes to the front of its list. */
  function PutSmall(ix: Index, p: nat, s: nat): Index
    requires IndexOk(ix) && IsSmall(s)
  {
    var i := SmallIndex(s);
    ix.(small := ix.small[i := [p] + ix.small[i]], smallmap := ix.smallmap[i := true])
  }

  lemma PutSmallOk(ix: Index, p: nat, s: nat)
    requires IndexOk(ix) && Insertable(ix, p, s) && IsSmall(s)
    ensures IndexOk(PutSmall(ix, p, s)) && Pairs(PutSmall(ix, p, s)) == Pairs(ix) + {(p, s)}
  {
    var i := SmallIndex(s);
    SmallMember(ix.small, p, s);
    PutPairs(ix.small, i, p);
  }

  lemma PutPairs(small: seq<seq<nat>>, i: nat, p: nat)
    requires i < |small|
    ensures SmallPairs(small[i := [p] + small[i]]) == SmallPairs(small) + {(p, 8 * i)}
  {
    var small' := small[i := [p] + small[i]];
    assert p in small'[i];
    forall c | c in SmallPairs(small) ensures c in SmallPairs(small') {
      var j, a :| 0 <= j < |small| && a in small[j] && c == (a, 8 * j);
      assert a in small'[j];
    }
    forall c | c in SmallPairs(small') && c != (p, 8 * i) ensures c in SmallPairs(small) {
      var j, a :| 0 <= j < |small'| && a in small'[j] && c == (a, 8 * j);
      assert a in small[j];
    }
  }

  function Drop(q: seq<nat>, p: nat): seq<nat> {
    if q == [] then [] else if q[0] == p then q[1..] else [q[0]] + Drop(q[1..], p)
  }

  lemma {:induction false} DropOk(q: seq<nat>, p: nat)
    requires Distinct(q)
    ensures Distinct(Drop(q, p))
    ensures forall a :: a in Drop(q, p) <==> a in q && a != p
    decreases |q|
  {
    if q != [] {
      DropOk(q[1..], p);
      assert q == [q[0]] + q[1..];
      assert forall k :: 0 <= k < |q| - 1 ==> q[1..][k] == q[k + 1];
      DropDistinct(q[0], Drop(q[1..], p));
    }
  }

  lemma DropDistinct(a: nat, q: seq<nat>)
    ensures Distinct(q) && a !in q ==> Distinct([a] + q)
  {
  }

  /** `unlink_small_chunk`, and `unlink_first_small_chunk` for the first of its list. */
  function TakeSmall(ix: Index, p: nat, s: nat): Index
    requires IndexOk(ix) && IsSmall(s)
  {
    var i := SmallIndex(s);
    var q := Drop(ix.small[i], p);
    ix.(small := ix.small[i := q], smallmap := ix.smallmap[i := q != []])
  }

  lemma TakeSmallOk(ix: Index, p: nat, s: nat)
    requires IndexOk(ix) && IsSmall(s) && s % 8 == 0
    ensures IndexOk(TakeSmall(ix, p, s))
    ensures (p, s) in SmallPairs(ix.small) ==> Pairs(TakeSmall(ix, p, s)) == Pairs(ix) - {(p, s)}
  {
    var i := SmallIndex(s);
    DropOk(ix.small[i], p);
    TakePairs(ix.small, i, p, Drop(ix.small[i], p));
  }

  lemma TakePairs(small: seq<seq<nat>>, i: nat, p: nat, q: seq<nat>)
    requires i < |small| && forall a :: a in q <==> a in small[i] && a != p
    ensures SmallPairs(small[i := q]) == SmallPairs(small) - {(p, 8 * i)}
  {
    var small' := small[i := q];
    forall c | c in SmallPairs(small') ensures c in SmallPairs(small) && c != (p, 8 * i) {
      var j, a :| 0 <= j < |small'| && a in small'[j] && c == (a, 8 * j);
      assert a in small[j];
    }
    forall c | c in SmallPairs(small) && c != (p, 8 * i) ensures c in SmallPairs(small') {
      var j, a :| 0 <= j < |small| && a in small[j] && c == (a, 8 * j);
      assert a in small'[j];
    }
  }

  /** `replace_dv`: the old victim, always small here, goes to its list. */
  function ReplaceDv(ix: Index, r: nat, rsize: nat): Index
    requires IndexOk(ix) && IsSmall(ix.dvsize)
  {
    (if ix.dvsize != 0 then PutSmall(ix.(dv := 0, dvsize := 0), ix.dv, ix.dvsize) else ix).(dv := r, dvsize := rsize)
  }

  lemma ReplaceDvOk(ix: Index, r: nat, rsize: nat)
    requires IndexOk(ix) && IsSmall(ix.dvsize) && Insertable(ix, r, rsize)
    requires ix.dvsize != 0 ==> ix.dvsize >= MIN_CHUNK_SIZE && ix.dvsize % ALIGNMENT == 0
    ensures IndexOk(ReplaceDv(ix, r, rsize)) && Pairs(ReplaceDv(ix, r, rsize)) == Pairs(ix) + {(r, rsize)}
  {
    if ix.dvsize != 0 {
      var ix0 := ix.(dv := 0, dvsize := 0);
      assert Pairs(ix) == Pairs(ix0) + {(ix.dv, ix.dvsize)};
      PutSmallOk(ix0, ix.dv, ix.dvsize);
    }
  }

  /** The sizes in the small lists from list `i` on. */
  lemma SmallSizesFrom(ix: Index, i: nat, j: nat)
    requires IndexOk(ix) && i <= j <= NSMALLBINS && (forall l :: i <= l < j ==> !ix.smallmap[l])
    ensures forall c :: c in SmallPairs(ix.small) && c.1 >= 8 * i ==> c.1 >= 8 * j
  {
    forall c | c in SmallPairs(ix.small) && c.1 >= 8 * i ensures c.1 >= 8 * j {
      var l, a :| 0 <= l < |ix.small| && a in ix.small[l] && c == (a, 8 * l);
      assert ix.smallmap[l];
    }
  }
}
