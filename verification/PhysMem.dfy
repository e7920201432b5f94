/**
 Physical pages and what each is used for: on the free list, a node of a page table, a page of some
 process's memory, or held by other kernel code. Every page has exactly one use.
 */
module PhysMem {
  import opened Sv39

  type Byte = b: int | 0 <= b < 256

  datatype Page = Run(next: nat) | Table(ptes: seq<nat>) | Data(bytes: seq<Byte>)

  datatype Use = Free(i: nat) | TableOf(r: nat, n: Node) | DataOf(r: nat, v: nat) | Held

  type Tree = map<Node, nat>

  datatype World = World(mem: map<nat, Page>, freelist: nat, use: map<nat, Use>, free: seq<nat>, trees: map<nat, Tree>)

  predicate IsTable(mem: map<nat, Page>, p: nat) { p in mem && mem[p].Table? && |mem[p].ptes| == 512 }

  predicate IsData(mem: map<nat, Page>, p: nat) { p in mem && mem[p].Data? && |mem[p].bytes| == 4096 }

  function Pte(mem: map<nat, Page>, p: nat, i: nat): nat
    requires IsTable(mem, p) && i < 512
  {
    mem[p].ptes[i]
  }

  // ----- the free list -----

  function Below(free: seq<nat>, i: nat): nat
    requires i <= |free|
  {
    if i == 0 then 0 else free[i - 1]
  }

  ghost predicate Chained(mem: map<nat, Page>, free: seq<nat>, i: nat)
    requires i < |free|
  {
    free[i] in mem && mem[free[i]] == Run(Below(free, i))
  }

  /** free, read from its end, is the linked list; 0 ends it. */
  ghost predicate FreeOk(mem: map<nat, Page>, use: map<nat, Use>, free: seq<nat>, freelist: nat) {
    && freelist == Below(free, |free|)
    && (forall i :: 0 <= i < |free| ==> free[i] in use && use[free[i]] == Free(i))
    && (forall i :: 0 <= i < |free| ==> Chained(mem, free, i))
    && (forall p :: p in use && use[p].Free? ==> use[p].i < |free| && free[use[p].i] == p)
  }

  ghost predicate Extent(lo: nat, hi: nat, mem: map<nat, Page>, use: map<nat, Use>) {
    && 0 < lo
    && (forall p :: p in mem <==> lo <= p < hi)
    && (forall p :: p in use <==> lo <= p < hi)
  }

  // ----- page tables -----

  ghost predicate EntryOk(mem: map<nat, Page>, t: Tree, n: Node, i: nat)
    requires n in t && IsTable(mem, t[n]) && i < 512
  {
    var e := Pte(mem, t[n], i);
    if n.Leaf? then e == 0 || (V(e) && Rwx(e))
    else e == if Child(n, i) in t then Branch(t[Child(n, i)]) else 0
  }

  ghost predicate NodeOk(mem: map<nat, Page>, use: map<nat, Use>, r: nat, t: Tree, n: Node)
    requires n in t
  {
    && IsTable(mem, t[n]) && t[n] in use && use[t[n]] == TableOf(r, n)
    && (n.Mid? ==> n.i < 512) && (!n.Root? ==> Parent(n) in t)
    && (forall i :: 0 <= i < 512 ==> EntryOk(mem, t, n, i))
  }

  /** t says which page holds each node of the tree rooted at page r. */
  ghost predicate TreeOk(mem: map<nat, Page>, use: map<nat, Use>, r: nat, t: Tree) {
    Root in t && t[Root] == r && forall n :: n in t ==> NodeOk(mem, use, r, t, n)
  }

  predicate Placed(trees: map<nat, Tree>, r: nat, n: Node, p: nat) { r in trees && n in trees[r] && trees[r][n] == p }

  ghost predicate TreesOk(mem: map<nat, Page>, use: map<nat, Use>, trees: map<nat, Tree>) {
    && (forall r :: r in trees ==> TreeOk(mem, use, r, trees[r]))
    && (forall p :: p in use && use[p].TableOf? ==> Placed(trees, use[p].r, use[p].n, p))
  }

  /** The flat map: the entry for virtual page v, 0 if there is none. */
  function Lookup(mem: map<nat, Page>, t: Tree, v: nat): nat {
    var n := Leaf(v / 512);
    if n in t && IsTable(mem, t[n]) then Pte(mem, t[n], v % 512) else 0
  }

  // ----- process memory -----

  ghost predicate MapsTo(mem: map<nat, Page>, trees: map<nat, Tree>, r: nat, v: nat, p: nat) {
    r in trees && v < MAXPAGE && V(Lookup(mem, trees[r], v)) && Ppn(Lookup(mem, trees[r], v)) == p
  }

  /** A page of a process's memory is mapped at the one place it is used for. */
  ghost predicate DataOk(mem: map<nat, Page>, use: map<nat, Use>, trees: map<nat, Tree>) {
    forall p :: p in use && use[p].DataOf? ==> IsData(mem, p) && MapsTo(mem, trees, use[p].r, use[p].v, p)
  }

  ghost predicate UserAt(mem: map<nat, Page>, trees: map<nat, Tree>, r: nat, v: nat) {
    r in trees && v < MAXPAGE && V(Lookup(mem, trees[r], v)) && U(Lookup(mem, trees[r], v))
  }

  /** Whatever user code can reach is a page of that process's memory. */
  ghost predicate UserOk(mem: map<nat, Page>, use: map<nat, Use>, trees: map<nat, Tree>) {
    forall r, v :: UserAt(mem, trees, r, v) ==>
                     var p := Ppn(Lookup(mem, trees[r], v)); p in use && use[p] == DataOf(r, v)
  }

  ghost predicate Ok(lo: nat, hi: nat, w: World) {
    && Extent(lo, hi, w.mem, w.use) && FreeOk(w.mem, w.use, w.free, w.freelist)
    && TreesOk(w.mem, w.use, w.trees) && DataOk(w.mem, w.use, w.trees) && UserOk(w.mem, w.use, w.trees)
  }

  // ----- frames -----

  lemma FreeFrame(mem: map<nat, Page>, use: map<nat, Use>, mem': map<nat, Page>, use': map<nat, Use>,
                  free: seq<nat>, freelist: nat)
    requires FreeOk(mem, use, free, freelist)
    requires forall p :: p in use && p in mem && use[p].Free? ==>
              p in use' && p in mem' && use'[p] == use[p] && mem'[p] == mem[p]
    requires forall p :: p in use' && use'[p].Free? ==> p in use && use[p] == use'[p]
    ensures FreeOk(mem', use', free, freelist)
  {
    forall i | 0 <= i < |free| ensures Chained(mem', free, i) && free[i] in use' && use'[free[i]] == Free(i) {
      assert Chained(mem, free, i) && free[i] in use;
    }
  }

  /** The pages of tree r are as they were. */
  ghost predicate SameTree(mem: map<nat, Page>, use: map<nat, Use>, mem': map<nat, Page>, use': map<nat, Use>, r: nat) {
    forall p :: p in use && p in mem && use[p].TableOf? && use[p].r == r ==>
                  p in use' && p in mem' && use'[p] == use[p] && mem'[p] == mem[p]
  }

  lemma TreeFrame(mem: map<nat, Page>, use: map<nat, Use>, mem': map<nat, Page>, use': map<nat, Use>, r: nat, t: Tree)
    requires TreeOk(mem, use, r, t) && SameTree(mem, use, mem', use', r)
    ensures TreeOk(mem', use', r, t)
    ensures forall v: nat :: Lookup(mem', t, v) == Lookup(mem, t, v)
  {
    forall n | n in t ensures NodeOk(mem', use', r, t, n) {
      assert NodeOk(mem, use, r, t, n);
      forall i | 0 <= i < 512 ensures EntryOk(mem', t, n, i) {
        assert EntryOk(mem, t, n, i);
      }
    }
    forall v: nat ensures Lookup(mem', t, v) == Lookup(mem, t, v) {
      var n := Leaf(v / 512);
      if n in t {
        assert NodeOk(mem, use, r, t, n);
      }
    }
  }

  lemma NodeTable(w: World, r: nat, n: Node)
    requires TreesOk(w.mem, w.use, w.trees) && r in w.trees && n in w.trees[r]
    ensures var q := w.trees[r][n]; IsTable(w.mem, q) && q in w.use && w.use[q] == TableOf(r, n)
  {
    assert NodeOk(w.mem, w.use, r, w.trees[r], n);
  }

  /** Every page that is used for something is there. */
  lemma UsedPages(lo: nat, hi: nat, w: World)
    requires Ok(lo, hi, w)
    ensures forall q :: q in w.use ==> q in w.mem
  {
  }

  /** Table pages are never confused: two nodes, of one tree or of two, are on different pages. */
  lemma NodesDistinct(mem: map<nat, Page>, use: map<nat, Use>, trees: map<nat, Tree>, r: nat, n: Node, s: nat, m: Node)
    requires TreesOk(mem, use, trees) && r in trees && s in trees && n in trees[r] && m in trees[s]
    ensures trees[r][n] == trees[s][m] <==> r == s && n == m
  {
    assert NodeOk(mem, use, r, trees[r], n) && NodeOk(mem, use, s, trees[s], m);
  }
}
