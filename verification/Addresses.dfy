/**
 Virtual addresses: `addr_to_index`, and the table pointers it computes inside the
 window that the self-reference in entry 510 of the root opens.
 */
module Addresses {

  import opened Common

  const B12: nat := 0x1000
  const B21: nat := 0x20_0000
  const B30: nat := 0x4000_0000
  const B39: nat := 0x80_0000_0000
  const B47: nat := 0x8000_0000_0000
  const B48: nat := 0x1_0000_0000_0000
  const VM_HIGHER_HALF: nat := 0xFFFF_8000_0000_0000

  const PML4_OFFSET: nat := 0xFFFF_FF7F_BFDF_E000
  const PML3_OFFSET: nat := 0xFFFF_FF7F_BFC0_0000
  const PML2_OFFSET: nat := 0xFFFF_FF7F_8000_0000
  const PML1_OFFSET: nat := 0xFFFF_FF00_0000_0000

  /** Bits 48 to 63 repeat bit 47. */
  predicate Canonical(addr: nat) {
    addr < B47 || VM_HIGHER_HALF <= addr < WORD
  }

  datatype PageIndex = PageIndex(pml4: nat, pml3: nat, pml2: nat, pml1: nat, i4: nat, i3: nat, i2: nat, i1: nat)

  /** `addr_to_index`. */
  function AddrToIndex(addr: nat): PageIndex
    requires Canonical(addr)
  {
    var i4 := if addr >= VM_HIGHER_HALF then 256 + (addr - VM_HIGHER_HALF) / B39 else addr / B39;
    var a3 := (if addr >= VM_HIGHER_HALF then addr - VM_HIGHER_HALF else addr) % B39;
    var i3 := a3 / B30;
    var a2 := a3 % B30;
    var i2 := a2 / B21;
    var a1 := a2 % B21;
    PageIndex(PML4_OFFSET, PML3_OFFSET + i4 * B12, PML2_OFFSET + i4 * B21 + i3 * B12, PML1_OFFSET + i4 * B30 + i3 * B21 + i2 * B12,
              i4, i3, i2, a1 / B12)
  }

  /** The 48 significant bits of an address. */
  function Fold(addr: nat): nat
    requires Canonical(addr)
  {
    if addr >= VM_HIGHER_HALF then addr - VM_HIGHER_HALF + B47 else addr
  }

  /** The four indices of a folded address, from the root down. */
  function Ix(n: nat): (ix: seq<nat>)
    ensures |ix| == 4
  {
    [n / B39, n % B39 / B30, n % B30 / B21, n % B21 / B12]
  }

  function Compose(i4: nat, i3: nat, i2: nat, i1: nat, off: nat): nat {
    i4 * B39 + i3 * B30 + i2 * B21 + i1 * B12 + off
  }

  /** Indices and offset determine the folded address, and the other way round. */
  lemma IxOfCompose(i4: nat, i3: nat, i2: nat, i1: nat, off: nat)
    requires i4 < 512 && i3 < 512 && i2 < 512 && i1 < 512 && off < B12
    ensures Compose(i4, i3, i2, i1, off) < B48 && Ix(Compose(i4, i3, i2, i1, off)) == [i4, i3, i2, i1]
    ensures Compose(i4, i3, i2, i1, off) % B12 == off
  {
    var n := Compose(i4, i3, i2, i1, off);
    var r3 := i3 * B30 + i2 * B21 + i1 * B12 + off;
    var r2 := i2 * B21 + i1 * B12 + off;
    var r1 := i1 * B12 + off;
    Div39(i4, r3);
    Div30(i4 * 512, i3, r2);
    Div21(i4 * 262144 + i3 * 512, i2, r1);
    Div12(i4 * 134217728 + i3 * 262144 + i2 * 512 + i1, off);
    assert n == i4 * B39 + r3;
  }

  lemma Div39(q: nat, r: nat)
    requires r < B39
    ensures (q * B39 + r) / B39 == q && (q * B39 + r) % B39 == r
  {
  }

  lemma Div30(h: nat, q: nat, r: nat)
    requires q < 512 && r < B30
    ensures (q * B30 + r) / B30 == q && (h * B30 + q * B30 + r) % B30 == r
  {
  }

  lemma Div21(h: nat, q: nat, r: nat)
    requires q < 512 && r < B21
    ensures (q * B21 + r) / B21 == q && (h * B21 + q * B21 + r) % B21 == r
  {
  }

  lemma Div12(q: nat, r: nat)
    requires r < B12
    ensures (q * B12 + r) % B12 == r
  {
  }

  /** Every folded address is composed of its indices and offset. */
  lemma ComposeOfIx(n: nat)
    requires n < B48
    ensures var ix := Ix(n); ix[0] < 512 && ix[1] < 512 && ix[2] < 512 && ix[3] < 512 && n == Compose(ix[0], ix[1], ix[2], ix[3], n % B12)
  {
    Mod30(n);
    Mod21(n);
    Mod12(n);
    assert n == n / B39 * B39 + n % B39;
    assert n % B39 == n % B39 / B30 * B30 + n % B39 % B30;
    assert n % B30 == n % B30 / B21 * B21 + n % B30 % B21;
    assert n % B21 == n % B21 / B12 * B12 + n % B21 % B12;
  }

  lemma Mod30(n: nat)
    ensures n % B39 % B30 == n % B30
  {
    var q, r := n / B39, n % B39;
    Div30(q * 512, 0, r % B30);
    assert n == (q * 512 + r / B30) * B30 + r % B30;
    Div30(q * 512 + r / B30, 0, r % B30);
  }

  lemma Mod21(n: nat)
    ensures n % B30 % B21 == n % B21
  {
    var q, r := n / B30, n % B30;
    assert n == (q * 512 + r / B21) * B21 + r % B21;
    Div21(q * 512 + r / B21, 0, r % B21);
  }

  lemma Mod12(n: nat)
    ensures n % B21 % B12 == n % B12
  {
    var q, r := n / B21, n % B21;
    assert n == (q * 512 + r / B12) * B12 + r % B12;
    Div12(q * 512 + r / B12, r % B12);
  }

  /** The source's indices are those of the folded address. */
  lemma IndexAgrees(addr: nat)
    requires Canonical(addr)
    ensures var p := AddrToIndex(addr);
            Fold(addr) < B48 && [p.i4, p.i3, p.i2, p.i1] == Ix(Fold(addr)) && p.i4 < 512 && p.i3 < 512 && p.i2 < 512 && p.i1 < 512
  {
    var n := Fold(addr);
    ComposeOfIx(n);
    Mod30(n);
    Mod21(n);
    if addr >= VM_HIGHER_HALF {
      var a := addr - VM_HIGHER_HALF;
      Div39(256 + a / B39, a % B39);
      assert n == (256 + a / B39) * B39 + a % B39;
    }
  }

  /** The pointer to the table `k` levels below the root. */
  function Pointer(p: PageIndex, k: nat): nat {
    if k == 0 then p.pml4 else if k == 1 then p.pml3 else if k == 2 then p.pml2 else p.pml1
  }

  /** The pointers lie in the window: entry 510 once more for every level they stop short of. */
  lemma PointersInWindow(addr: nat, k: nat, j: nat)
    requires Canonical(addr) && k <= 3 && j < 512
    ensures var p := AddrToIndex(addr);
            var v := Pointer(p, k) + 8 * j;
            && Canonical(v) && Fold(v) % B12 == 8 * j
            && Ix(Fold(v)) == if k == 0 then [510, 510, 510, 510] else if k == 1 then [510, 510, 510, p.i4] else if k == 2 then [510, 510, p.i4, p.i3] else [510, p.i4, p.i3, p.i2]
  {
    IndexAgrees(addr);
    var p := AddrToIndex(addr);
    if k == 0 {
      IxOfCompose(510, 510, 510, 510, 8 * j);
    } else if k == 1 {
      IxOfCompose(510, 510, 510, p.i4, 8 * j);
    } else if k == 2 {
      IxOfCompose(510, 510, p.i4, p.i3, 8 * j);
    } else {
      IxOfCompose(510, p.i4, p.i3, p.i2, 8 * j);
    }
  }

  // ---------------------------------------------------------------- pages

  /** The page number of an address is made of its leading indices. */
  lemma PageNumber(n: nat)
    requires n < B48
    ensures var ix := Ix(n);
            && n / B30 == ix[0] * 512 + ix[1]
            && n / B21 == ix[0] * 262144 + ix[1] * 512 + ix[2]
            && n / B12 == ix[0] * 134217728 + ix[1] * 262144 + ix[2] * 512 + ix[3]
  {
    ComposeOfIx(n);
    var ix, off := Ix(n), n % B12;
    Quotient30(ix[0] * 512 + ix[1], ix[2] * B21 + ix[3] * B12 + off);
    Quotient21(ix[0] * 262144 + ix[1] * 512 + ix[2], ix[3] * B12 + off);
    Quotient12(ix[0] * 134217728 + ix[1] * 262144 + ix[2] * 512 + ix[3], off);
  }

  lemma Quotient30(q: nat, r: nat)
    requires r < B30
    ensures (q * B30 + r) / B30 == q
  {
  }

  lemma Quotient21(q: nat, r: nat)
    requires r < B21
    ensures (q * B21 + r) / B21 == q
  {
  }

  lemma Quotient12(q: nat, r: nat)
    requires r < B12
    ensures (q * B12 + r) / B12 == q
  {
  }

  /** Two addresses share their leading indices exactly when they lie on the same page. */
  lemma SamePage(n: nat, k: nat, size: nat)
    requires n < B48 && k < B48 && size < 3
    ensures Ix(n)[..4 - size] <= Ix(k) <==> n / PageBytes(size) == k / PageBytes(size)
  {
    var a, b := Ix(n), Ix(k);
    SamePrefix(a, b, size);
    SameNumber(n, k);
  }

  lemma SameNumber(n: nat, k: nat)
    requires n < B48 && k < B48
    ensures var a, b := Ix(n), Ix(k);
            && (n / B30 == k / B30 <==> a[0] == b[0] && a[1] == b[1])
            && (n / B21 == k / B21 <==> a[0] == b[0] && a[1] == b[1] && a[2] == b[2])
            && (n / B12 == k / B12 <==> a[0] == b[0] && a[1] == b[1] && a[2] == b[2] && a[3] == b[3])
  {
    var a, b := Ix(n), Ix(k);
    IxSmall(n);
    IxSmall(k);
    PageNumber(n);
    PageNumber(k);
    Digits(a, b);
  }

  lemma IxSmall(n: nat)
    requires n < B48
    ensures forall i :: 0 <= i < 4 ==> Ix(n)[i] < 512
  {
    ComposeOfIx(n);
  }

  lemma Digits(a: seq<nat>, b: seq<nat>)
    requires |a| == |b| == 4 && forall i :: 0 <= i < 4 ==> a[i] < 512 && b[i] < 512
    ensures a[0] * 512 + a[1] == b[0] * 512 + b[1] <==> a[0] == b[0] && a[1] == b[1]
    ensures a[0] * 262144 + a[1] * 512 + a[2] == b[0] * 262144 + b[1] * 512 + b[2] <==> a[0] == b[0] && a[1] == b[1] && a[2] == b[2]
    ensures a[0] * 134217728 + a[1] * 262144 + a[2] * 512 + a[3] == b[0] * 134217728 + b[1] * 262144 + b[2] * 512 + b[3]
            <==> a[0] == b[0] && a[1] == b[1] && a[2] == b[2] && a[3] == b[3]
  {
  }

  lemma SamePrefix(a: seq<nat>, b: seq<nat>, size: nat)
    requires |a| == 4 && |b| == 4 && size < 3
    ensures a[..4 - size] <= b <==> a[0] == b[0] && a[1] == b[1] && (size < 2 ==> a[2] == b[2]) && (size == 0 ==> a[3] == b[3])
  {
    var p := a[..4 - size];
    assert p[0] == a[0] && p[1] == a[1] && (size < 2 ==> p[2] == a[2]) && (size == 0 ==> p[3] == a[3]);
    assert p <= b <==> p == b[..4 - size];
  }

  /** The page of an aligned address is the range behind it. */
  lemma PageRange(v: nat, k: nat, size: nat)
    requires size < 3 && v % PageBytes(size) == 0
    ensures v / PageBytes(size) == k / PageBytes(size) <==> v <= k < v + PageBytes(size)
    ensures v <= k < v + PageBytes(size) ==> k % PageBytes(size) == k - v
  {
    if size == 0 {
    } else if size == 1 {
    } else {
    }
  }
}
