/** walk's growth of a tree: a zeroed page becomes a node, and its parent's entry points to it. */
module PageGraft {
  import opened Sv39
  import opened PhysMem
  import opened PageSteps

  /** Page p, held so far, can become node n of tree r. */
  ghost predicate Graftable(w: World, r: nat, n: Node, p: nat) {
    && r in w.trees && n !in w.trees[r] && !n.Root? && (n.Mid? ==> n.i < 512) && Parent(n) in w.trees[r]
    && IsTable(w.mem, w.trees[r][Parent(n)]) && p in w.use && w.use[p].Held?
  }

  ghost function Graft(w: World, r: nat, n: Node, p: nat): World
    requires Graftable(w, r, n, p)
  {
    var t := w.trees[r];
    var q := t[Parent(n)];
    World(w.mem[p := Table(ZeroPtes())][q := Table(w.mem[q].ptes[Slot(n) := Branch(p)])],
          w.freelist, w.use[p := TableOf(r, n)], w.free, w.trees[r := t[n := p]])
  }

  lemma GraftNew(w: World, r: nat, n: Node, p: nat)
    requires Graftable(w, r, n, p) && TreeOk(w.mem, w.use, r, w.trees[r])
    ensures var w' := Graft(w, r, n, p); NodeOk(w'.mem, w'.use, r, w'.trees[r], n)
  {
    var w' := Graft(w, r, n, p);
    var t := w.trees[r];
    assert NodeOk(w.mem, w.use, r, t, Parent(n));
    assert w'.mem[p] == Table(ZeroPtes());
    forall i | 0 <= i < 512 ensures EntryOk(w'.mem, w'.trees[r], n, i) {
      if n.Mid? {
        assert Parent(Child(n, i)) == n;
        assert Child(n, i) in t ==> NodeOk(w.mem, w.use, r, t, Child(n, i));
      }
    }
  }

  lemma GraftParent(w: World, r: nat, n: Node, p: nat)
    requires Graftable(w, r, n, p) && TreeOk(w.mem, w.use, r, w.trees[r])
    ensures var w' := Graft(w, r, n, p); NodeOk(w'.mem, w'.use, r, w'.trees[r], Parent(n))
  {
    var w', m := Graft(w, r, n, p), Parent(n);
    assert NodeOk(w.mem, w.use, r, w.trees[r], m);
    forall i | 0 <= i < 512 ensures EntryOk(w'.mem, w'.trees[r], m, i) {
      assert EntryOk(w.mem, w.trees[r], m, i);
      ChildParent(n);
      if Child(m, i) == n {
        ChildUnique(m, i, m, Slot(n));
      }
    }
  }

  lemma GraftOther(w: World, r: nat, n: Node, p: nat, m: Node)
    requires Graftable(w, r, n, p) && TreeOk(w.mem, w.use, r, w.trees[r]) && m in w.trees[r] && m != Parent(n)
    ensures var w' := Graft(w, r, n, p); NodeOk(w'.mem, w'.use, r, w'.trees[r], m)
  {
    var w', t := Graft(w, r, n, p), w.trees[r];
    assert NodeOk(w.mem, w.use, r, t, m) && NodeOk(w.mem, w.use, r, t, Parent(n));
    assert w'.mem[t[m]] == w.mem[t[m]];
    forall i | 0 <= i < 512 ensures EntryOk(w'.mem, w'.trees[r], m, i) {
      assert EntryOk(w.mem, t, m, i);
      if !m.Leaf? && Child(m, i) == n {
        ChildParent(n);
        ChildUnique(m, i, Parent(n), Slot(n));
      }
    }
  }

  lemma GraftTree(w: World, r: nat, n: Node, p: nat)
    requires Graftable(w, r, n, p) && TreeOk(w.mem, w.use, r, w.trees[r])
    ensures var w' := Graft(w, r, n, p); TreeOk(w'.mem, w'.use, r, w'.trees[r])
  {
    var w' := Graft(w, r, n, p);
    forall m | m in w'.trees[r] ensures NodeOk(w'.mem, w'.use, r, w'.trees[r], m) {
      if m == n {
        GraftNew(w, r, n, p);
      } else if m == Parent(n) {
        GraftParent(w, r, n, p);
      } else {
        GraftOther(w, r, n, p, m);
      }
    }
  }

  lemma GraftLookup(w: World, r: nat, n: Node, p: nat, v: nat)
    requires Graftable(w, r, n, p) && TreeOk(w.mem, w.use, r, w.trees[r])
    ensures var w' := Graft(w, r, n, p); Lookup(w'.mem, w'.trees[r], v) == Lookup(w.mem, w.trees[r], v)
  {
    var w', t, m := Graft(w, r, n, p), w.trees[r], Leaf(v / 512);
    assert NodeOk(w.mem, w.use, r, t, Parent(n));
    if m == n {
      assert w'.mem[p] == Table(ZeroPtes());
    } else if m in t {
      assert NodeOk(w.mem, w.use, r, t, m);
      assert w'.mem[t[m]] == w.mem[t[m]];
    }
  }

  lemma GraftElsewhere(w: World, r: nat, n: Node, p: nat, s: nat)
    requires Graftable(w, r, n, p) && TreesOk(w.mem, w.use, w.trees) && s in w.trees && s != r
    ensures var w' := Graft(w, r, n, p);
            TreeOk(w'.mem, w'.use, s, w'.trees[s])
            && forall v: nat :: Lookup(w'.mem, w'.trees[s], v) == Lookup(w.mem, w.trees[s], v)
  {
    var w' := Graft(w, r, n, p);
    assert NodeOk(w.mem, w.use, r, w.trees[r], Parent(n));
    hide NodeOk;
    TreeFrame(w.mem, w.use, w'.mem, w'.use, s, w.trees[s]);
  }

  lemma GraftTrees(w: World, r: nat, n: Node, p: nat)
    requires Graftable(w, r, n, p) && TreesOk(w.mem, w.use, w.trees)
    ensures var w' := Graft(w, r, n, p); TreesOk(w'.mem, w'.use, w'.trees) && SameLookups(w, w')
  {
    hide TreeOk, Lookup;
    var w' := Graft(w, r, n, p);
    GraftTree(w, r, n, p);
    forall s | s in w.trees && s != r
      ensures TreeOk(w'.mem, w'.use, s, w'.trees[s])
      ensures forall v: nat :: Lookup(w'.mem, w'.trees[s], v) == Lookup(w.mem, w.trees[s], v)
    {
      GraftElsewhere(w, r, n, p, s);
    }
    forall v: nat ensures Lookup(w'.mem, w'.trees[r], v) == Lookup(w.mem, w.trees[r], v) {
      GraftLookup(w, r, n, p, v);
    }
  }

  lemma GraftOk(lo: nat, hi: nat, w: World, r: nat, n: Node, p: nat, w': World)
    requires Ok(lo, hi, w) && Graftable(w, r, n, p) && w' == Graft(w, r, n, p)
    ensures Ok(lo, hi, w') && SameLookups(w, w')
  {
    var q := w.trees[r][Parent(n)];
    assert q in w.use && w.use[q] == TableOf(r, Parent(n)) by {
      assert NodeOk(w.mem, w.use, r, w.trees[r], Parent(n));
    }
    GraftTrees(w, r, n, p);
    GraftPool(lo, hi, w, r, n, p);
    GraftData(w, r, n, p);
    hide Extent, FreeOk, TreesOk, DataOk, UserOk, SameLookups, SameData;
    DataFrame(w, w');
  }

  lemma GraftPool(lo: nat, hi: nat, w: World, r: nat, n: Node, p: nat)
    requires Pool(lo, hi, w) && Graftable(w, r, n, p)
    requires var q := w.trees[r][Parent(n)]; q in w.use && w.use[q].TableOf?
    ensures Pool(lo, hi, Graft(w, r, n, p))
  {
    var w' := Graft(w, r, n, p);
    FreeFrame(w.mem, w.use, w'.mem, w'.use, w.free, w.freelist);
  }

  lemma GraftData(w: World, r: nat, n: Node, p: nat)
    requires Graftable(w, r, n, p)
    requires var q := w.trees[r][Parent(n)]; q in w.use && w.use[q].TableOf?
    ensures var w' := Graft(w, r, n, p); SameData(w, w') && w'.trees.Keys == w.trees.Keys
  {
    var w', q := Graft(w, r, n, p), w.trees[r][Parent(n)];
    assert forall x :: x != p && x != q && x in w.mem ==> w'.mem[x] == w.mem[x];
  }

  // ----- uvmcreate -----

  /** Page p, held so far, becomes the root of an empty table. */
  ghost function Plant(w: World, p: nat): World {
    World(w.mem[p := Table(ZeroPtes())], w.freelist, w.use[p := TableOf(p, Root)], w.free, w.trees[p := map[Root := p]])
  }

  lemma PlantTrees(w: World, p: nat)
    requires TreesOk(w.mem, w.use, w.trees) && p in w.use && w.use[p].Held?
    ensures p !in w.trees
    ensures var w' := Plant(w, p); TreesOk(w'.mem, w'.use, w'.trees) && SameLookups(w, w')
    ensures forall v: nat :: Lookup(Plant(w, p).mem, map[Root := p], v) == 0
  {
    hide TreeOk, Lookup;
    var w' := Plant(w, p);
    RootUsed(w, p);
    PlantRoot(w, p);
    forall s | s in w.trees
      ensures TreeOk(w'.mem, w'.use, s, w'.trees[s])
      ensures forall v: nat :: Lookup(w'.mem, w'.trees[s], v) == Lookup(w.mem, w.trees[s], v)
    {
      TreeFrame(w.mem, w.use, w'.mem, w'.use, s, w.trees[s]);
    }
  }

  lemma RootUsed(w: World, p: nat)
    requires TreesOk(w.mem, w.use, w.trees) && p in w.use && w.use[p].Held?
    ensures p !in w.trees
  {
    assert p in w.trees ==> NodeOk(w.mem, w.use, p, w.trees[p], Root);
  }

  lemma PlantRoot(w: World, p: nat)
    ensures TreeOk(Plant(w, p).mem, Plant(w, p).use, p, map[Root := p])
    ensures forall v: nat :: Lookup(Plant(w, p).mem, map[Root := p], v) == 0
  {
    var (w', t: Tree) := (Plant(w, p), map[Root := p]);
    forall i | 0 <= i < 512 ensures EntryOk(w'.mem, t, Root, i) {
    }
    assert NodeOk(w'.mem, w'.use, p, t, Root);
  }

  lemma PlantOk(lo: nat, hi: nat, w: World, p: nat, w': World)
    requires Ok(lo, hi, w) && p in w.use && w.use[p].Held? && w' == Plant(w, p)
    ensures p !in w.trees && Ok(lo, hi, w') && SameLookups(w, w')
    ensures forall v: nat :: Lookup(w'.mem, w'.trees[p], v) == 0
  {
    hide Extent, FreeOk, TreesOk, DataOk, UserOk, SameLookups, Lookup;
    PlantTrees(w, p);
    PlantPool(lo, hi, w, p);
    PlantData(w, p);
  }

  lemma PlantPool(lo: nat, hi: nat, w: World, p: nat)
    requires Pool(lo, hi, w) && p in w.use && w.use[p].Held?
    ensures Pool(lo, hi, Plant(w, p))
  {
    var w' := Plant(w, p);
    FreeFrame(w.mem, w.use, w'.mem, w'.use, w.free, w.freelist);
  }

  lemma PlantData(w: World, p: nat)
    requires DataOk(w.mem, w.use, w.trees) && UserOk(w.mem, w.use, w.trees)
    requires p in w.use && w.use[p].Held? && p !in w.trees && SameLookups(w, Plant(w, p))
    requires forall v: nat :: Lookup(Plant(w, p).mem, map[Root := p], v) == 0
    ensures var w' := Plant(w, p); DataOk(w'.mem, w'.use, w'.trees) && UserOk(w'.mem, w'.use, w'.trees)
  {
    var w' := Plant(w, p);
    ZeroFields();
    forall q | q in w'.use && w'.use[q].DataOf?
      ensures IsData(w'.mem, q) && MapsTo(w'.mem, w'.trees, w'.use[q].r, w'.use[q].v, q)
    {
      assert MapsTo(w.mem, w.trees, w.use[q].r, w.use[q].v, q);
    }
    forall r, v | UserAt(w'.mem, w'.trees, r, v)
      ensures var q := Ppn(Lookup(w'.mem, w'.trees[r], v)); q in w'.use && w'.use[q] == DataOf(r, v)
    {
      assert r != p;
      assert UserAt(w.mem, w.trees, r, v);
    }
  }
}
