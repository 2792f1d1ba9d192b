/**
 What several parts of the kernel share.
 */
module Common {

  /** One more than the largest 64-bit word. */
  const WORD: nat := 0x1_0000_0000_0000_0000

  /** Chunks from this size on are kept in tree bins. */
  const MIN_LARGE: nat := 256

  /** The bytes of a 4K, 2M or 1G page. */
  function PageBytes(size: nat): nat {
    if size == 0 then 0x1000 else if size == 1 then 0x20_0000 else 0x4000_0000
  }

  datatype Option<T> = None | Some(value: T)

  predicate Distinct(s: seq<nat>) {
    forall i, j :: 0 <= i < j < |s| ==> s[i] != s[j]
  }

  /** The lowest mark of a bit map from `i` on; the length of the map where there is none. */
  function NextMarked(marks: seq<bool>, i: nat): (j: nat)
    requires i <= |marks|
    ensures i <= j <= |marks| && (forall l :: i <= l < j ==> !marks[l]) && (j < |marks| ==> marks[j])
    decreases |marks| - i
  {
    if i == |marks| || marks[i] then i else NextMarked(marks, i + 1)
  }
}
