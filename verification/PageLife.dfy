/** A process's table from its creation to its end, relative to the state before it existed. */
module PageLife {
  import opened Sv39
  import opened PhysMem
  import opened PageSteps
  import opened PageMap
  import opened PageRange
  import opened PageSpace

  // ----- the two fixed pages -----

  lemma CanMapFixed(w: World, r: nat, n: nat, fixed: set<nat>, x: nat, p: nat, perm: nat)
    requires Space(w, r, n, fixed) && Fixed(x) && x !in fixed && perm < 1024 && Rwx(perm) && !U(perm)
    ensures CanMap(w, r, x, 1, p, perm, false)
  {
    ZeroFields();
    EntryAtIs(w, r, x);
    assert EntryAt(w, r, x) == 0;
    hide Lookup, V, Rwx, U;
  }

  lemma SpaceMapFixed(w: World, w': World, r: nat, n: nat, fixed: set<nat>, x: nat, p: nat, perm: nat)
    requires Space(w, r, n, fixed) && Fixed(x) && perm < 1024
    requires RangeMapped(w, w', r, x, 1, p, perm) && RangeOwned(w, w', r, x, 1, p, false)
    ensures Space(w', r, n, fixed + {x}) && EntryAt(w', r, x) == Entry(p, perm)
  {
    EntryFields(p, perm);
    hide Lookup, V, Ppn, Entry;
    forall y: nat ensures EntryAt(w', r, y) == if y == x then Entry(p, perm) else EntryAt(w, r, y) {
      EntryAtIs(w', r, y);
      EntryAtIs(w, r, y);
    }
    forall y | 0 <= y < n ensures OwnsPage(w', r, y) {
      assert OwnsPage(w, r, y);
    }
  }

  lemma NotOwned(w: World, w': World, r: nat, v: nat, m: nat, p: nat)
    requires RangeOwned(w, w', r, v, m, p, false)
    ensures Undisturbed(w, w', r)
  {
    forall q | q in w'.use && !Spare(w'.use[q], r) ensures q in w.use && w.use[q] == w'.use[q] {
      assert !Spare(w.use[q], r);
    }
  }

  lemma NotMapped(w: World, w': World, r: nat, v: nat, p: nat, perm: nat)
    requires RangeMapped(w, w', r, v, 0, p, perm)
    ensures SameLookups(w, w')
  {
    hide Lookup, Entry;
  }

  lemma CanUnmapFixed(w: World, r: nat, n: nat, fixed: set<nat>, x: nat)
    requires TreesOk(w.mem, w.use, w.trees) && Space(w, r, n, fixed) && Fixed(x) && x in fixed
    ensures CanUnmap(w, r, x, 1, false) && LeafAt(w, r, x)
  {
    EntryAtIs(w, r, x);
    assert V(EntryAt(w, r, x));
    ValidIsLeaf(w, r, x);
    hide Lookup, V;
  }

  lemma SpaceUnmapFixed(w: World, w': World, r: nat, n: nat, fixed: set<nat>, x: nat)
    requires Space(w, r, n, fixed) && Fixed(x) && RangeCleared(w, w', r, x, 1) && RangeFreed(w, w', r, x, 1)
    ensures Space(w', r, n, fixed - {x})
  {
    hide Lookup, V, Ppn;
    forall y: nat ensures EntryAt(w', r, y) == if y == x then 0 else EntryAt(w, r, y) {
      EntryAtIs(w', r, y);
      EntryAtIs(w, r, y);
    }
    forall y | 0 <= y < n ensures OwnsPage(w', r, y) {
      assert OwnsPage(w, r, y);
    }
  }

  // ----- what a process takes, measured against the state before -----

  /** Since w0, the only pages that changed were free then and are free or r's now. */
  ghost predicate Within(w0: World, w: World, r: nat) {
    && (forall q :: q in w0.use && !w0.use[q].Free? ==>
          q in w.use && w.use[q] == w0.use[q] && q in w0.mem && q in w.mem && w.mem[q] == w0.mem[q])
    && (forall q :: q in w0.use ==> !Gone(w0.use[q], r))
    && (forall q :: q in w.use ==> q in w0.use && (w.use[q].Free? || Gone(w.use[q], r) || w0.use[q] == w.use[q]))
    && (forall q :: q in w0.use ==> q in w.use)
  }

  /** Every page is used as in w0; free pages may lie on the list in another order. */
  ghost predicate Restored(w0: World, w: World) {
    && (forall q :: q in w0.use ==> q in w.use && (w.use[q].Free? <==> w0.use[q].Free?))
    && (forall q :: q in w0.use && !w0.use[q].Free? ==>
          q in w.use && w.use[q] == w0.use[q] && q in w0.mem && q in w.mem && w.mem[q] == w0.mem[q])
    && (forall q :: q in w.use ==> q in w0.use)
  }

  lemma NoPagesYet(w: World, r: nat)
    requires TreesOk(w.mem, w.use, w.trees) && DataOk(w.mem, w.use, w.trees) && r !in w.trees
    ensures forall q :: q in w.use ==> !Gone(w.use[q], r)
  {
    forall q | q in w.use ensures !Gone(w.use[q], r) {
      assert w.use[q].TableOf? ==> Placed(w.trees, w.use[q].r, w.use[q].n, q);
      assert w.use[q].DataOf? ==> MapsTo(w.mem, w.trees, w.use[q].r, w.use[q].v, q);
    }
  }

  lemma WithinCreated(w0: World, w: World, r: nat)
    requires Created(w0, w, r) && forall q :: q in w0.use ==> !Gone(w0.use[q], r)
    ensures Within(w0, w, r)
  {
    hide SameLookups;
  }

  lemma WithinUndisturbed(lo: nat, hi: nat, w0: World, w: World, w': World, r: nat)
    requires Within(w0, w, r) && Undisturbed(w, w', r)
    requires Extent(lo, hi, w.mem, w.use) && Extent(lo, hi, w'.mem, w'.use)
    ensures Within(w0, w', r)
  {
  }

  lemma WithinGrew(lo: nat, hi: nat, w0: World, w: World, w': World, r: nat, n: nat, n': nat)
    requires Within(w0, w, r) && Grew(w, w', r, n, n')
    requires Extent(lo, hi, w.mem, w.use) && Extent(lo, hi, w'.mem, w'.use)
    ensures Within(w0, w', r)
  {
    hide OwnsPage, EntryAt;
  }

  lemma WithinFreed(w0: World, w: World, w': World, r: nat, v: nat, n: nat)
    requires Within(w0, w, r) && RangeFreed(w, w', r, v, n)
    ensures Within(w0, w', r)
  {
  }

  lemma WithinReleased(w0: World, w: World, w': World, r: nat)
    requires Within(w0, w, r) && Released(w, w', r)
    ensures Restored(w0, w')
  {
  }

  lemma RestoredRefl(lo: nat, hi: nat, w: World)
    requires Extent(lo, hi, w.mem, w.use)
    ensures Restored(w, w)
  {
  }

  lemma CreatedNew(w0: World, w: World, r: nat)
    requires Created(w0, w, r)
    ensures r !in w0.trees
  {
  }

  lemma OtherEntries(w: World, w': World, r: nat, x: nat, m: nat, p: nat, perm: nat)
    requires r in w.trees && RangeMapped(w, w', r, x, m, p, perm) && m <= 1
    ensures r in w'.trees && forall y: nat :: y != x ==> EntryAt(w', r, y) == EntryAt(w, r, y)
  {
    hide Lookup, Entry;
    forall y: nat | y != x ensures EntryAt(w', r, y) == EntryAt(w, r, y) {
      EntryAtIs(w', r, y);
      EntryAtIs(w, r, y);
    }
  }
}
