/** Each change kalloc.c and vm.c make to physical memory keeps the invariant of PhysMem. */
module PageSteps {
  import opened Sv39
  import opened PhysMem

  function Fill(b: Byte): (s: seq<Byte>)
    ensures |s| == 4096 && forall i :: 0 <= i < 4096 ==> s[i] == b
  {
    seq(4096, _ => b)
  }

  function ZeroPtes(): (s: seq<nat>)
    ensures |s| == 512 && forall i :: 0 <= i < 512 ==> s[i] == 0
  {
    seq(512, _ => 0)
  }

  // ----- changes that leave the page tables alone -----

  ghost predicate SameTables(w: World, w': World) {
    && w'.trees == w.trees
    && (forall p :: p in w.use && p in w.mem && w.use[p].TableOf? ==>
          p in w'.use && p in w'.mem && w'.use[p] == w.use[p] && w'.mem[p] == w.mem[p])
    && (forall p :: p in w'.use && w'.use[p].TableOf? ==> p in w.use && w.use[p] == w'.use[p])
  }

  ghost predicate SameLookups(w: World, w': World) {
    && (forall r :: r in w.trees ==> r in w'.trees)
    && (forall r, v: nat :: r in w.trees ==> Lookup(w'.mem, w'.trees[r], v) == Lookup(w.mem, w.trees[r], v))
  }

  lemma TablesFrame(w: World, w': World)
    requires TreesOk(w.mem, w.use, w.trees) && SameTables(w, w')
    ensures TreesOk(w'.mem, w'.use, w'.trees) && SameLookups(w, w')
  {
    forall r | r in w.trees
      ensures TreeOk(w'.mem, w'.use, r, w.trees[r])
      ensures forall v: nat :: Lookup(w'.mem, w.trees[r], v) == Lookup(w.mem, w.trees[r], v)
    {
      TreeFrame(w.mem, w.use, w'.mem, w'.use, r, w.trees[r]);
    }
  }

  /** Pages of process memory stay what they are; no entry changes. */
  ghost predicate SameData(w: World, w': World) {
    && (forall p :: p in w.use && w.use[p].DataOf? ==> p in w'.use && w'.use[p] == w.use[p])
    && (forall p :: p in w'.use && w'.use[p].DataOf? ==>
          p in w.use && w.use[p] == w'.use[p] && (IsData(w.mem, p) ==> IsData(w'.mem, p)))
  }

  lemma DataFrame(w: World, w': World)
    requires DataOk(w.mem, w.use, w.trees) && UserOk(w.mem, w.use, w.trees)
    requires w'.trees.Keys == w.trees.Keys && SameLookups(w, w') && SameData(w, w')
    ensures DataOk(w'.mem, w'.use, w'.trees) && UserOk(w'.mem, w'.use, w'.trees)
  {
    forall p | p in w'.use && w'.use[p].DataOf?
      ensures IsData(w'.mem, p) && MapsTo(w'.mem, w'.trees, w'.use[p].r, w'.use[p].v, p)
    {
      assert MapsTo(w.mem, w.trees, w.use[p].r, w.use[p].v, p);
    }
    forall r, v | UserAt(w'.mem, w'.trees, r, v)
      ensures var p := Ppn(Lookup(w'.mem, w'.trees[r], v)); p in w'.use && w'.use[p] == DataOf(r, v)
    {
      assert r in w'.trees.Keys;
      assert UserAt(w.mem, w.trees, r, v);
    }
  }

  /** The allocator's own part of the invariant. */
  ghost predicate Pool(lo: nat, hi: nat, w: World) {
    Extent(lo, hi, w.mem, w.use) && FreeOk(w.mem, w.use, w.free, w.freelist)
  }

  lemma FrameOk(lo: nat, hi: nat, w: World, w': World)
    requires Ok(lo, hi, w) && Pool(lo, hi, w') && SameTables(w, w') && SameData(w, w')
    ensures Ok(lo, hi, w') && SameLookups(w, w')
  {
    hide Extent, FreeOk, TreesOk, DataOk, UserOk, Lookup;
    TablesFrame(w, w');
    DataFrame(w, w');
  }

  /** Only page p changes, and it is no table before or after; if it is process memory it stays so. */
  lemma OnePage(w: World, w': World, p: nat, page: Page, u: Use)
    requires w'.trees == w.trees && w'.mem == w.mem[p := page] && w'.use == w.use[p := u] && p in w.use
    requires !w.use[p].TableOf? && !u.TableOf?
    requires (w.use[p].DataOf? || u.DataOf?) ==> u == w.use[p] && page.Data? && |page.bytes| == 4096
    ensures SameTables(w, w') && SameData(w, w')
  {
  }

  // ----- kalloc and kfree -----

  function Take(w: World): World
    requires |w.free| > 0
  {
    var k := |w.free| - 1;
    var p := w.free[k];
    World(w.mem[p := Data(Fill(5))], Below(w.free, k), w.use[p := Held], w.free[..k], w.trees)
  }

  lemma TakePool(lo: nat, hi: nat, w: World)
    requires Pool(lo, hi, w) && |w.free| > 0
    ensures Pool(lo, hi, Take(w))
  {
    var k := |w.free| - 1;
    var w', p := Take(w), w.free[k];
    forall i | 0 <= i < k ensures Chained(w'.mem, w'.free, i) {
      assert Chained(w.mem, w.free, i);
    }
    forall q | q in w'.use && w'.use[q].Free? ensures w'.use[q].i < k && w'.free[w'.use[q].i] == q {
      assert q in w.use && w.use[q] == w'.use[q] && q != p;
    }
  }

  /** freelist is null exactly when nothing is free; otherwise it is the last page freed and leads to the others. */
  lemma FreeHead(lo: nat, hi: nat, w: World)
    requires Ok(lo, hi, w)
    ensures w.freelist == 0 <==> |w.free| == 0
    ensures |w.free| > 0 ==> var k := |w.free| - 1; var p := w.free[k];
                             p == w.freelist && p in w.mem && w.mem[p] == Run(Below(w.free, k))
  {
    hide TreesOk, DataOk, UserOk;
    if |w.free| > 0 {
      assert w.free[|w.free| - 1] in w.use && Chained(w.mem, w.free, |w.free| - 1);
    }
  }

  lemma AllHeld(lo: nat, hi: nat, w: World)
    requires 0 < lo && (forall p :: p in w.mem <==> lo <= p < hi) && w.use == (map p | p in w.mem :: Held)
    requires w.free == [] && w.freelist == 0
    ensures Pool(lo, hi, w)
  {
  }

  lemma NoTrees(w: World)
    requires w.trees == map[] && forall q :: q in w.use ==> w.use[q].Free?
    ensures TreesOk(w.mem, w.use, w.trees) && DataOk(w.mem, w.use, w.trees) && UserOk(w.mem, w.use, w.trees)
  {
  }

  lemma TakeOk(lo: nat, hi: nat, w: World)
    requires Ok(lo, hi, w) && |w.free| > 0
    ensures Ok(lo, hi, Take(w)) && SameLookups(w, Take(w))
  {
    TakePool(lo, hi, w);
    var p := w.free[|w.free| - 1];
    assert p in w.use && w.use[p].Free?;
    hide Extent, FreeOk, TreesOk, DataOk, UserOk, SameTables, SameData, SameLookups;
    OnePage(w, Take(w), p, Data(Fill(5)), Held);
    FrameOk(lo, hi, w, Take(w));
  }

  function Give(w: World, p: nat): World {
    World(w.mem[p := Run(w.freelist)], p, w.use[p := Free(|w.free|)], w.free + [p], w.trees)
  }

  lemma GivePool(lo: nat, hi: nat, w: World, p: nat)
    requires Pool(lo, hi, w) && p in w.use && !w.use[p].Free?
    ensures Pool(lo, hi, Give(w, p))
  {
    var w' := Give(w, p);
    forall i | 0 <= i < |w'.free| ensures Chained(w'.mem, w'.free, i) {
      if i < |w.free| {
        assert Chained(w.mem, w.free, i);
      }
    }
  }

  lemma GiveOk(lo: nat, hi: nat, w: World, p: nat)
    requires Ok(lo, hi, w) && p in w.use && w.use[p].Held?
    ensures Ok(lo, hi, Give(w, p)) && SameLookups(w, Give(w, p))
  {
    GivePool(lo, hi, w, p);
    hide Extent, FreeOk, TreesOk, DataOk, UserOk, SameTables, SameData, SameLookups;
    OnePage(w, Give(w, p), p, Run(w.freelist), Free(|w.free|));
    FrameOk(lo, hi, w, Give(w, p));
  }

  /** Storing bytes into a page that is no table and not free. */
  function Store(w: World, p: nat, bytes: seq<Byte>): World { w.(mem := w.mem[p := Data(bytes)]) }

  lemma StoreOk(lo: nat, hi: nat, w: World, p: nat, bytes: seq<Byte>)
    requires Ok(lo, hi, w) && p in w.use && (w.use[p].Held? || w.use[p].DataOf?) && |bytes| == 4096
    ensures Ok(lo, hi, Store(w, p, bytes)) && SameLookups(w, Store(w, p, bytes))
  {
    var w' := Store(w, p, bytes);
    assert Pool(lo, hi, w') by {
      FreeFrame(w.mem, w.use, w'.mem, w'.use, w.free, w.freelist);
    }
    hide Extent, FreeOk, TreesOk, DataOk, UserOk, SameTables, SameData, SameLookups;
    OnePage(w, w', p, Data(bytes), w.use[p]);
    FrameOk(lo, hi, w, w');
  }

  lemma SameLookupsTrans(w: World, w1: World, w2: World)
    requires SameLookups(w, w1) && SameLookups(w1, w2)
    ensures SameLookups(w, w2)
  {
  }
}
