/**
 Page-table entries and the shape of a three-level table (section 4.4 of the RISC-V Privileged
 Architecture 1.12, riscv.h). Pages are named by page number, address / 4096.
 */
module Sv39 {

  const MAXPAGE := 0x400_0000

  // ----- entries -----

  function ToPte(pa: nat): nat { pa / 4096 * 1024 }

  function ToPa(pte: nat): nat { pte / 1024 * 4096 }

  function Flags(pte: nat): nat { pte % 1024 }

  function Ppn(pte: nat): nat { pte / 1024 }

  predicate V(pte: nat) { pte % 2 == 1 }

  predicate Rwx(pte: nat) { pte / 2 % 8 != 0 }

  predicate W(pte: nat) { pte / 4 % 2 == 1 }

  predicate U(pte: nat) { pte / 16 % 2 == 1 }

  /** An entry for page p with flag bits perm | PTE_V. */
  function Entry(p: nat, perm: nat): nat { p * 1024 + (if perm % 2 == 1 then perm else perm + 1) }

  /** An entry that points to a lower table. */
  function Branch(p: nat): nat { p * 1024 + 1 }

  lemma PaRoundTrip(p: nat, perm: nat)
    requires perm < 1024
    ensures ToPa(ToPte(p * 4096)) == p * 4096
    ensures ToPa(ToPte(p * 4096) + perm) == p * 4096 && Flags(ToPte(p * 4096) + perm) == perm
    ensures ToPa(ToPte(p * 4096) + perm) == Ppn(ToPte(p * 4096) + perm) * 4096
  {
  }

  lemma HighBits(p: nat, f: nat)
    requires f < 1024
    ensures (p * 1024 + f) / 1024 == p && (p * 1024 + f) % 1024 == f && (p * 1024 + f) % 2 == f % 2
  {
  }

  lemma DivSum(a: nat, f: nat)
    ensures (a * 2 + f) / 2 == a + f / 2 && (a * 4 + f) / 4 == a + f / 4 && (a * 16 + f) / 16 == a + f / 16
  {
  }

  lemma ModSum(a: nat, f: nat)
    ensures (a * 2 + f) % 2 == f % 2 && (a * 8 + f) % 8 == f % 8
  {
  }

  /** Flag bits do not depend on the page number above them. */
  lemma HighFlags(p: nat, f: nat)
    ensures (p * 1024 + f) / 2 % 8 == f / 2 % 8 && (p * 1024 + f) / 4 % 2 == f / 4 % 2
    ensures (p * 1024 + f) / 16 % 2 == f / 16 % 2
  {
    DivSum(p * 512, f);
    DivSum(p * 256, f);
    DivSum(p * 64, f);
    ModSum(p * 64, f / 2);
    ModSum(p * 128, f / 4);
    ModSum(p * 32, f / 16);
  }

  lemma EntryFields(p: nat, perm: nat)
    requires perm < 1024
    ensures var e := Entry(p, perm);
            Ppn(e) == p && V(e) && (Rwx(e) <==> Rwx(perm)) && (W(e) <==> W(perm)) && (U(e) <==> U(perm))
            && (V(perm) ==> Flags(e) == perm)
  {
    var f := if perm % 2 == 1 then perm else perm + 1;
    HighBits(p, f);
    HighFlags(p, f);
    LowBit(perm, f);
  }

  /** PTE_V is the lowest flag. */
  lemma LowBit(perm: nat, f: nat)
    requires f == if perm % 2 == 1 then perm else perm + 1
    ensures f / 2 == perm / 2 && f / 4 == perm / 4 && f / 16 == perm / 16 && f % 2 == 1
  {
  }

  lemma BranchFields(p: nat)
    ensures Ppn(Branch(p)) == p && V(Branch(p)) && !Rwx(Branch(p))
  {
    HighBits(p, 1);
    HighFlags(p, 1);
  }

  lemma ZeroFields()
    ensures !V(0) && !U(0) && !W(0)
  {
  }

  // ----- positions in the tree -----

  /** The root, a level-1 table by its index in the root, a level-0 table by virtual page / 512. */
  datatype Node = Root | Mid(i: nat) | Leaf(k: nat)

  function Px(level: nat, v: nat): (i: nat)
    ensures i < 512
  {
    if level == 2 then v / 512 / 512 % 512 else if level == 1 then v / 512 % 512 else v % 512
  }

  /** Px is the shift and mask of the byte address. */
  lemma PxShift(va: nat)
    ensures Px(2, va / 4096) == va / 0x4000_0000 % 512
    ensures Px(1, va / 4096) == va / 0x20_0000 % 512
    ensures Px(0, va / 4096) == va / 4096 % 512
  {
    assert va / 4096 / 512 == va / 0x20_0000;
    assert va / 0x20_0000 / 512 == va / 0x4000_0000;
  }

  function Child(n: Node, i: nat): Node
    requires !n.Leaf?
  {
    if n.Root? then Mid(i) else Leaf(n.i * 512 + i)
  }

  function Parent(n: Node): Node
    requires !n.Root?
  {
    if n.Mid? then Root else Mid(n.k / 512)
  }

  /** The slot of a node in its parent. */
  function Slot(n: Node): (i: nat)
    requires !n.Root? && (n.Mid? ==> n.i < 512)
    ensures i < 512
  {
    if n.Mid? then n.i else n.k % 512
  }

  lemma ChildParent(n: Node)
    requires !n.Root? && (n.Mid? ==> n.i < 512)
    ensures Child(Parent(n), Slot(n)) == n
  {
  }

  lemma ChildUnique(n: Node, i: nat, m: Node, j: nat)
    requires !n.Leaf? && !m.Leaf? && i < 512 && j < 512 && Child(n, i) == Child(m, j)
    ensures n == m && i == j
  {
  }

  /** The nodes a walk for virtual page v passes. */
  function Path(level: nat, v: nat): Node {
    if level == 2 then Root else if level == 1 then Mid(v / 512 / 512) else Leaf(v / 512)
  }

  lemma PathStep(level: nat, v: nat)
    requires v < MAXPAGE && 1 <= level <= 2
    ensures !Path(level, v).Leaf? && Child(Path(level, v), Px(level, v)) == Path(level - 1, v)
  {
  }

  /** Distinct pages have distinct slots. */
  lemma SlotsDistinct(v: nat, w: nat)
    requires Path(0, v) == Path(0, w) && Px(0, v) == Px(0, w)
    ensures v == w
  {
  }
}
