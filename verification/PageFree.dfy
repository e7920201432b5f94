/** Taking a page table apart: which nodes freewalk has freed at each point. */
module PageFree {
  import opened Sv39
  import opened PhysMem
  import opened PageSteps

  /** m is n or lies below n. */
  predicate Under(n: Node, m: Node) { n.Root? || n == m || (n.Mid? && m.Leaf? && m.k / 512 == n.i) }

  /** The entry of n that leads to m. */
  function Toward(n: Node, m: Node): nat
    requires Under(n, m) && n != m
  {
    if n.Mid? then m.k % 512 else if m.Mid? then m.i else m.k / 512
  }

  /** m lies below one of the first i entries of n. */
  predicate Done(n: Node, i: nat, m: Node) { Under(n, m) && n != m && Toward(n, m) < i }

  predicate WellFormed(n: Node) { (n.Mid? ==> n.i < 512) && (n.Leaf? ==> n.k / 512 < 512) }

  lemma UnderChild(n: Node, i: nat, m: Node)
    requires !n.Leaf? && i < 512 && WellFormed(n) && WellFormed(m)
    ensures Under(Child(n, i), m) <==> Under(n, m) && n != m && Toward(n, m) == i
  {
  }

  lemma DoneAll(n: Node, m: Node)
    requires WellFormed(n) && WellFormed(m) && !n.Leaf?
    ensures Done(n, 512, m) <==> Under(n, m) && n != m
  {
  }

  lemma DoneStep(n: Node, i: nat, m: Node)
    requires !n.Leaf? && i < 512 && WellFormed(n) && WellFormed(m)
    ensures Done(n, i + 1, m) <==> Done(n, i, m) || Under(Child(n, i), m)
  {
    UnderChild(n, i, m);
  }

  // ----- a tree no longer in use -----

  /** Node m as freewalk expects it: its page is held, its entries are branches or empty. */
  ghost predicate Stands(mem: map<nat, Page>, use: map<nat, Use>, t: Tree, m: Node)
    requires m in t
  {
    && IsTable(mem, t[m]) && t[m] in use && use[t[m]].Held? && WellFormed(m)
    && (forall i :: 0 <= i < 512 ==> if m.Leaf? then Pte(mem, t[m], i) == 0 else EntryOk(mem, t, m, i))
  }

  /** pos is the inverse of t. */
  ghost predicate Inverse(t: Tree, pos: map<nat, Node>) {
    && (forall m :: m in t ==> t[m] in pos && pos[t[m]] == m)
    && (forall p :: p in pos ==> pos[p] in t && t[pos[p]] == p && WellFormed(pos[p]))
  }

  ghost predicate StandsUnder(mem: map<nat, Page>, use: map<nat, Use>, t: Tree, n: Node) {
    forall m :: m in t && Under(n, m) ==> Stands(mem, use, t, m)
  }

  /** The pages of the nodes under n have gone to the free list, and no other page has changed. */
  ghost predicate Cleared(w: World, w': World, pos: map<nat, Node>, n: Node) {
    && w'.trees == w.trees && w'.use.Keys == w.use.Keys
    && (forall p :: p in w.use && p in w.mem && p in w'.use ==>
          if p in pos && Under(n, pos[p]) then w'.use[p].Free?
          else w'.use[p] == w.use[p] && p in w'.mem && w'.mem[p] == w.mem[p])
  }

  /** The same, after the first i entries of n; n's own page is being emptied. */
  ghost predicate Clearing(w: World, w': World, t: Tree, pos: map<nat, Node>, n: Node, i: nat)
    requires n in t
  {
    && w'.trees == w.trees && w'.use.Keys == w.use.Keys
    && (forall p :: p in w.use && p in w.mem && p in w'.use ==>
          if p in pos && Done(n, i, pos[p]) then w'.use[p].Free?
          else w'.use[p] == w.use[p] && p in w'.mem && (p == t[n] || w'.mem[p] == w.mem[p]))
    && IsTable(w.mem, t[n]) && IsTable(w'.mem, t[n])
    && (forall j :: i <= j < 512 ==> Pte(w'.mem, t[n], j) == Pte(w.mem, t[n], j))
  }

  lemma ClearingStart(w: World, t: Tree, pos: map<nat, Node>, n: Node)
    requires n in t && IsTable(w.mem, t[n]) && WellFormed(n)
    ensures Clearing(w, w, t, pos, n, 0)
  {
  }

  /** The child at entry i is still as it was. */
  lemma ChildStands(lo: nat, hi: nat, w: World, w': World, t: Tree, pos: map<nat, Node>, n: Node, i: nat)
    requires n in t && !n.Leaf? && i < 512 && Child(n, i) in t && Inverse(t, pos) && StandsUnder(w.mem, w.use, t, n)
    requires Clearing(w, w', t, pos, n, i) && Extent(lo, hi, w.mem, w.use)
    ensures StandsUnder(w'.mem, w'.use, t, Child(n, i))
  {
    var c := Child(n, i);
    forall m | m in t && Under(c, m) ensures Stands(w'.mem, w'.use, t, m) {
      assert Stands(w.mem, w.use, t, n) && pos[t[m]] == m && pos[t[c]] == c;
      UnderChild(n, i, m);
      assert Stands(w.mem, w.use, t, m);
      assert w'.mem[t[m]] == w.mem[t[m]] && t[m] in w'.use.Keys && w'.use[t[m]] == w.use[t[m]];
      forall j | 0 <= j < 512 ensures if m.Leaf? then Pte(w'.mem, t[m], j) == 0 else EntryOk(w'.mem, t, m, j) {
        assert if m.Leaf? then Pte(w.mem, t[m], j) == 0 else EntryOk(w.mem, t, m, j);
      }
    }
  }

  /** Freeing the child and clearing its entry advances to i + 1. */
  lemma ClearChild(w: World, w1: World, w2: World, w3: World, t: Tree, pos: map<nat, Node>, n: Node, i: nat)
    requires n in t && !n.Leaf? && i < 512 && Child(n, i) in t && Inverse(t, pos) && WellFormed(n)
    requires Clearing(w, w1, t, pos, n, i) && Cleared(w1, w2, pos, Child(n, i)) && t[n] in w1.use && t[n] in w1.mem
    requires w.mem.Keys == w.use.Keys && w1.mem.Keys == w1.use.Keys
    requires IsTable(w2.mem, t[n]) && w3 == w2.(mem := w2.mem[t[n] := Table(w2.mem[t[n]].ptes[i := 0])])
    ensures Clearing(w, w3, t, pos, n, i + 1)
  {
    assert w2.mem[t[n]] == w1.mem[t[n]];
    forall p | p in w.use && p in w.mem && p in w3.use
      ensures if p in pos && Done(n, i + 1, pos[p]) then w3.use[p].Free?
              else w3.use[p] == w.use[p] && p in w3.mem && (p == t[n] || w3.mem[p] == w.mem[p])
    {
      assert p in w1.use && p in w1.mem by {
        assert p in w1.use.Keys && p in w1.mem.Keys;
      }
      if p in pos {
        DoneStep(n, i, pos[p]);
      }
    }
  }

  /** An empty entry leads nowhere. */
  lemma ClearNothing(w: World, w1: World, t: Tree, pos: map<nat, Node>, n: Node, i: nat)
    requires n in t && i < 512 && Inverse(t, pos) && WellFormed(n) && Clearing(w, w1, t, pos, n, i)
    requires n.Leaf? || forall m :: m in t ==> !Under(Child(n, i), m)
    ensures Clearing(w, w1, t, pos, n, i + 1)
  {
    forall p | p in pos ensures Done(n, i + 1, pos[p]) <==> Done(n, i, pos[p]) {
      if !n.Leaf? {
        DoneStep(n, i, pos[p]);
      }
    }
  }

  /** With all entries done, freeing n's page clears everything under n. */
  lemma ClearSelf(w: World, w1: World, t: Tree, pos: map<nat, Node>, n: Node)
    requires n in t && Inverse(t, pos) && WellFormed(n) && Clearing(w, w1, t, pos, n, 512)
    requires w.mem.Keys == w.use.Keys && w1.mem.Keys == w1.use.Keys && t[n] in w.use
    ensures Cleared(w, Give(w1, t[n]), pos, n)
  {
    forall p | p in pos ensures Under(n, pos[p]) <==> p == t[n] || Done(n, 512, pos[p]) {
      if !n.Leaf? {
        DoneAll(n, pos[p]);
      }
    }
  }

  lemma NothingUnder(t: Tree, c: Node)
    requires c !in t && !c.Root? && forall m :: m in t && !m.Root? ==> Parent(m) in t
    ensures forall m :: m in t ==> !Under(c, m)
  {
    forall m | m in t ensures !Under(c, m) {
      assert !m.Root? ==> Parent(m) != c;
    }
  }

  // ----- from a table in use to one being freed, and back to the invariant -----

  function TablePages(w: World, r: nat): map<nat, Node> {
    map p | p in w.use && w.use[p].TableOf? && w.use[p].r == r :: w.use[p].n
  }

  /** Table r is no longer anyone's: its pages are merely held. */
  ghost function Uproot(w: World, r: nat): World {
    w.(use := map p | p in w.use :: if w.use[p].TableOf? && w.use[p].r == r then Held else w.use[p],
       trees := w.trees - {r})
  }

  lemma UprootStands(w: World, r: nat)
    requires TreesOk(w.mem, w.use, w.trees) && r in w.trees && forall v: nat :: Lookup(w.mem, w.trees[r], v) == 0
    ensures Inverse(w.trees[r], TablePages(w, r)) && StandsUnder(w.mem, Uproot(w, r).use, w.trees[r], Root)
    ensures forall m :: m in w.trees[r] && !m.Root? ==> Parent(m) in w.trees[r]
  {
    var t, use' := w.trees[r], Uproot(w, r).use;
    forall m | m in t ensures WellFormed(m) && (!m.Root? ==> Parent(m) in t) {
      assert NodeOk(w.mem, w.use, r, t, m);
      if m.Leaf? {
        assert NodeOk(w.mem, w.use, r, t, Parent(m));
      }
    }
    forall m | m in t ensures Stands(w.mem, use', t, m) {
      assert NodeOk(w.mem, w.use, r, t, m);
      forall i | 0 <= i < 512 ensures if m.Leaf? then Pte(w.mem, t[m], i) == 0 else EntryOk(w.mem, t, m, i) {
        assert EntryOk(w.mem, t, m, i);
        if m.Leaf? {
          assert Lookup(w.mem, t, m.k * 512 + i) == Pte(w.mem, t[m], i);
        }
      }
    }
    UprootInverse(w, r);
  }

  lemma UprootInverse(w: World, r: nat)
    requires TreesOk(w.mem, w.use, w.trees) && r in w.trees
    requires forall m :: m in w.trees[r] ==> WellFormed(m)
    ensures Inverse(w.trees[r], TablePages(w, r))
  {
    var t, pos := w.trees[r], TablePages(w, r);
    forall m | m in t ensures t[m] in pos && pos[t[m]] == m {
      assert NodeOk(w.mem, w.use, r, t, m);
    }
    forall p | p in pos ensures pos[p] in t && t[pos[p]] == p && WellFormed(pos[p]) {
      assert Placed(w.trees, r, w.use[p].n, p);
    }
  }

  lemma UprootOk(lo: nat, hi: nat, w: World, r: nat)
    requires Ok(lo, hi, w) && r in w.trees && forall p :: p in w.use && w.use[p].DataOf? ==> w.use[p].r != r
    ensures Ok(lo, hi, Uproot(w, r))
  {
    var w' := Uproot(w, r);
    assert Pool(lo, hi, w') by {
      FreeFrame(w.mem, w.use, w'.mem, w'.use, w.free, w.freelist);
    }
    assert TreesOk(w'.mem, w'.use, w'.trees) by {
      hide Extent, FreeOk, DataOk, UserOk;
      UprootTrees(w, r);
    }
    hide Extent, FreeOk, TreesOk, Lookup;
    UprootData(w, r);
  }

  lemma UprootTrees(w: World, r: nat)
    requires TreesOk(w.mem, w.use, w.trees) && r in w.trees
    ensures TreesOk(w.mem, Uproot(w, r).use, w.trees - {r})
  {
    var w' := Uproot(w, r);
    forall s | s in w'.trees ensures TreeOk(w.mem, w'.use, s, w'.trees[s]) {
      TreeFrame(w.mem, w.use, w.mem, w'.use, s, w.trees[s]);
    }
  }

  lemma UprootData(w: World, r: nat)
    requires DataOk(w.mem, w.use, w.trees) && UserOk(w.mem, w.use, w.trees) && r in w.trees
    requires forall p :: p in w.use && w.use[p].DataOf? ==> w.use[p].r != r
    ensures var w' := Uproot(w, r); DataOk(w'.mem, w'.use, w'.trees) && UserOk(w'.mem, w'.use, w'.trees)
  {
    var w' := Uproot(w, r);
    forall p | p in w'.use && w'.use[p].DataOf?
      ensures IsData(w'.mem, p) && MapsTo(w'.mem, w'.trees, w'.use[p].r, w'.use[p].v, p)
    {
      assert MapsTo(w.mem, w.trees, w.use[p].r, w.use[p].v, p);
    }
    forall s, v | UserAt(w'.mem, w'.trees, s, v)
      ensures var p := Ppn(Lookup(w'.mem, w'.trees[s], v)); p in w'.use && w'.use[p] == DataOf(s, v)
    {
      assert UserAt(w.mem, w.trees, s, v);
    }
  }

  lemma ClearedSame(w: World, w': World, pos: map<nat, Node>, n: Node)
    requires Cleared(w, w', pos, n) && (forall p :: p in w.use ==> p in w.mem)
    requires forall p :: p in pos ==> p in w.use && w.use[p].Held?
    ensures SameTables(w, w') && SameData(w, w')
  {
    hide Under;
    assert forall p :: p in w'.use <==> p in w'.use.Keys;
    assert forall p :: p in w.use <==> p in w.use.Keys;
  }

  lemma ClearedOk(lo: nat, hi: nat, w: World, w': World, pos: map<nat, Node>, n: Node)
    requires Ok(lo, hi, w) && Pool(lo, hi, w') && Cleared(w, w', pos, n)
    requires forall p :: p in pos ==> p in w.use && w.use[p].Held?
    ensures Ok(lo, hi, w') && SameLookups(w, w')
  {
    assert forall p :: p in w.use ==> p in w.mem;
    hide Extent, FreeOk, TreesOk, DataOk, UserOk, SameLookups, SameTables, SameData, Cleared;
    ClearedSame(w, w', pos, n);
    FrameOk(lo, hi, w, w');
  }

  /** freewalk reads entry i of n: a branch to a child, or nothing below. It never meets a leaf. */
  lemma EntryRead(w: World, w1: World, t: Tree, pos: map<nat, Node>, n: Node, i: nat)
    requires n in t && i < 512 && StandsUnder(w.mem, w.use, t, n) && Clearing(w, w1, t, pos, n, i)
    requires forall m :: m in t && !m.Root? ==> Parent(m) in t
    ensures var e := Pte(w1.mem, t[n], i);
            if n.Leaf? || Child(n, i) !in t then !V(e)
            else V(e) && !Rwx(e) && Ppn(e) == t[Child(n, i)]
    ensures n.Leaf? || Child(n, i) in t || forall m :: m in t ==> !Under(Child(n, i), m)
  {
    assert Stands(w.mem, w.use, t, n);
    assert if n.Leaf? then Pte(w.mem, t[n], i) == 0 else EntryOk(w.mem, t, n, i);
    ZeroFields();
    if !n.Leaf? {
      if Child(n, i) in t {
        BranchFields(t[Child(n, i)]);
      } else {
        NothingUnder(t, Child(n, i));
      }
    }
  }

  /** n's own page is still held, whatever lies below it. */
  lemma SelfHeld(w: World, w1: World, t: Tree, pos: map<nat, Node>, n: Node, i: nat)
    requires n in t && Inverse(t, pos) && StandsUnder(w.mem, w.use, t, n) && Clearing(w, w1, t, pos, n, i)
    ensures t[n] in w1.use && w1.use[t[n]].Held? && t[n] in w.use && WellFormed(n)
  {
    assert Stands(w.mem, w.use, t, n);
    assert t[n] in w.use.Keys && t[n] in w1.use.Keys;
  }

  lemma ChildKeepsParent(w1: World, w2: World, t: Tree, pos: map<nat, Node>, n: Node, i: nat)
    requires n in t && !n.Leaf? && i < 512 && Inverse(t, pos) && WellFormed(n) && Cleared(w1, w2, pos, Child(n, i))
    requires t[n] in w1.use && t[n] in w1.mem
    ensures t[n] in w2.mem && w2.mem[t[n]] == w1.mem[t[n]] && t[n] in w2.use && w2.use[t[n]] == w1.use[t[n]]
  {
    assert t[n] in w1.use.Keys && t[n] in w2.use.Keys;
    UnderChild(n, i, n);
  }

  lemma PoolKeys(lo: nat, hi: nat, w: World)
    requires Pool(lo, hi, w)
    ensures w.mem.Keys == w.use.Keys && Extent(lo, hi, w.mem, w.use)
  {
    assert forall p :: p in w.mem.Keys <==> p in w.use.Keys;
  }

  lemma StandsSelf(mem: map<nat, Page>, use: map<nat, Use>, t: Tree, n: Node)
    requires n in t && StandsUnder(mem, use, t, n)
    ensures Stands(mem, use, t, n)
  {
  }

  lemma ClearingTable(w: World, w1: World, t: Tree, pos: map<nat, Node>, n: Node, i: nat)
    requires n in t && Clearing(w, w1, t, pos, n, i)
    ensures IsTable(w1.mem, t[n])
  {
  }

  /** Storing into a page that is not free leaves the allocator alone. */
  lemma HeldPool(lo: nat, hi: nat, w: World, p: nat, page: Page)
    requires Pool(lo, hi, w) && p in w.use && !w.use[p].Free?
    ensures Pool(lo, hi, w.(mem := w.mem[p := page]))
  {
    FreeFrame(w.mem, w.use, w.mem[p := page], w.use, w.free, w.freelist);
  }
}
