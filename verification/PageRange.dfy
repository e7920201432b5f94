/** What operations on ranges of pages do to the flat maps and to the uses of physical pages. */
module PageRange {
  import opened Sv39
  import opened PhysMem
  import opened PageSteps
  import opened PageGraft
  import opened PageMap

  /** What an operation on table r may use: free pages and r's own table pages. */
  predicate Spare(u: Use, r: nat) { u.Free? || (u.TableOf? && u.r == r) }

  /** All other pages are the same before and after. */
  ghost predicate Undisturbed(w: World, w': World, r: nat) {
    && w'.trees.Keys == w.trees.Keys
    && (forall p :: p in w.use && !Spare(w.use[p], r) ==>
          p in w'.use && w'.use[p] == w.use[p] && p in w.mem && p in w'.mem && w'.mem[p] == w.mem[p])
    && (forall p :: p in w'.use && !Spare(w'.use[p], r) ==> p in w.use && w.use[p] == w'.use[p])
  }

  function WithNode(trees: map<nat, Tree>, r: nat, n: Node, p: nat): map<nat, Tree>
    requires r in trees
  {
    var t: Tree := trees[r];
    trees[r := t[n := p]]
  }

  lemma Chain(w: World, w1: World, w2: World, r: nat)
    requires Undisturbed(w, w1, r) && Undisturbed(w1, w2, r) && SameLookups(w, w1) && SameLookups(w1, w2)
    ensures Undisturbed(w, w2, r) && SameLookups(w, w2)
  {
  }

  lemma TakeQuiet(lo: nat, hi: nat, w: World)
    requires Pool(lo, hi, w) && |w.free| > 0
    ensures var p := w.free[|w.free| - 1]; p in w.use && w.use[p].Free?
    ensures forall x :: x in w.use ==> x in w.mem
  {
  }

  lemma GraftQuiet(w: World, w1: World, r: nat, n: Node, p: nat, q: nat, w2: World)
    requires |w.free| > 0 && p == w.free[|w.free| - 1] && w1 == Take(w) && p in w.use && w.use[p].Free?
    requires forall x :: x in w.use ==> x in w.mem
    requires Graftable(w1, r, n, p) && w2 == Graft(w1, r, n, p)
    requires q == w1.trees[r][Parent(n)] && q in w.use && w.use[q] == TableOf(r, Parent(n))
    ensures Undisturbed(w, w2, r)
  {
    assert forall x :: x != p && x != q && x in w.mem ==> w2.mem[x] == w.mem[x];
    assert forall x :: x != p && x in w.use ==> w2.use[x] == w.use[x];
  }

  lemma UndisturbedRefl(lo: nat, hi: nat, w: World, r: nat)
    requires Extent(lo, hi, w.mem, w.use)
    ensures Undisturbed(w, w, r) && SameLookups(w, w)
  {
  }

  lemma RootHere(w: World, r: nat)
    requires TreesOk(w.mem, w.use, w.trees) && r in w.trees
    ensures Root in w.trees[r] && w.trees[r][Root] == r
  {
  }

  lemma PageNotNull(lo: nat, hi: nat, w: World, p: nat)
    requires Extent(lo, hi, w.mem, w.use) && p in w.mem
    ensures p != 0
  {
  }

  /** One level of a walk: a branch to the next node, or an empty entry and nothing mapped below. */
  lemma StepDown(w: World, r: nat, level: nat, v: nat)
    requires TreesOk(w.mem, w.use, w.trees) && r in w.trees && 1 <= level <= 2 && v < MAXPAGE
    requires Path(level, v) in w.trees[r]
    ensures var t, n := w.trees[r], Path(level - 1, v);
            var pt := t[Path(level, v)];
            && IsTable(w.mem, pt) && !n.Root? && (n.Mid? ==> n.i < 512) && Parent(n) == Path(level, v)
            && Slot(n) == Px(level, v)
            && (V(Pte(w.mem, pt, Px(level, v))) <==> n in t)
            && (n in t ==> Ppn(Pte(w.mem, pt, Px(level, v))) == t[n])
            && (n !in t ==> Lookup(w.mem, t, v) == 0)
  {
    var t, m, n := w.trees[r], Path(level, v), Path(level - 1, v);
    assert NodeOk(w.mem, w.use, r, t, m);
    PathStep(level, v);
    assert EntryOk(w.mem, t, m, Px(level, v));
    if n in t {
      BranchFields(t[n]);
    }
    ZeroFields();
    var l := Leaf(v / 512);
    assert l in t ==> NodeOk(w.mem, w.use, r, t, l);
  }

  // ----- ranges of pages -----

  /** What mappages demands: an unmapped range, and pages p.. held when they are to be process memory. */
  ghost predicate CanMap(w: World, r: nat, v: nat, n: nat, p: nat, perm: nat, own: bool) {
    && r in w.trees && n > 0 && v + n <= MAXPAGE && perm < 1024 && Rwx(perm) && (U(perm) ==> own)
    && (forall x :: v <= x < v + n ==> !V(Lookup(w.mem, w.trees[r], x)))
    && (own ==> forall q :: p <= q < p + n ==> q in w.use && w.use[q].Held? && IsData(w.mem, q))
  }

  /** The flat maps agree except that pages v.. of r now map to p... */
  ghost predicate RangeMapped(w: World, w': World, r: nat, v: nat, m: nat, p: nat, perm: nat) {
    && (forall s :: s in w.trees ==> s in w'.trees)
    && (forall s, x: nat :: s in w.trees ==>
          Lookup(w'.mem, w'.trees[s], x)
          == if s == r && v <= x < v + m then Entry(p + (x - v), perm) else Lookup(w.mem, w.trees[s], x))
  }

  /** Pages p.. have become memory of r, if own; no other page in use or held has changed. */
  ghost predicate RangeOwned(w: World, w': World, r: nat, v: nat, m: nat, p: nat, own: bool) {
    && w'.trees.Keys == w.trees.Keys
    && (forall q :: q in w.use && !Spare(w.use[q], r) ==>
          && q in w'.use && q in w.mem && q in w'.mem && w'.mem[q] == w.mem[q]
          && w'.use[q] == if own && p <= q < p + m then DataOf(r, v + (q - p)) else w.use[q])
    && (forall q :: q in w'.use && !Spare(w'.use[q], r) ==> q in w.use && !Spare(w.use[q], r))
  }

  lemma RangeStart(lo: nat, hi: nat, w: World, r: nat, v: nat, p: nat, perm: nat, own: bool)
    requires Extent(lo, hi, w.mem, w.use)
    ensures RangeMapped(w, w, r, v, 0, p, perm) && RangeOwned(w, w, r, v, 0, p, own)
  {
  }

  lemma RangeSame(w: World, w1: World, w2: World, r: nat, v: nat, p: nat, perm: nat, own: bool, m: nat)
    requires RangeMapped(w, w1, r, v, m, p, perm) && RangeOwned(w, w1, r, v, m, p, own)
    requires Undisturbed(w1, w2, r) && SameLookups(w1, w2)
    ensures RangeMapped(w, w2, r, v, m, p, perm) && RangeOwned(w, w2, r, v, m, p, own)
  {
    hide Lookup, Entry;
  }

  /** The next page is still unmapped, and its frame still held. */
  lemma RangeNext(w: World, w1: World, r: nat, v: nat, n: nat, p: nat, perm: nat, own: bool, m: nat)
    requires CanMap(w, r, v, n, p, perm, own) && m < n
    requires RangeMapped(w, w1, r, v, m, p, perm) && RangeOwned(w, w1, r, v, m, p, own)
    ensures CanMap(w1, r, v + m, 1, p + m, perm, own)
  {
    hide Lookup, Entry;
  }

  lemma ReadyToMap(lo: nat, hi: nat, w1: World, w2: World, r: nat, a: nat, pa: nat, perm: nat, own: bool)
    requires CanMap(w1, r, a, 1, pa, perm, own) && Undisturbed(w1, w2, r) && SameLookups(w1, w2) && HasSlot(w2, r, a)
    ensures Mappable(w2, r, a, pa, perm, own)
  {
    hide Lookup;
    assert !V(Lookup(w1.mem, w1.trees[r], a));
  }

  lemma MappedIs(w: World, r: nat, a: nat, pa: nat, perm: nat, own: bool, pt: nat, w': World)
    requires HasSlot(w, r, a) && pt == w.trees[r][Leaf(a / 512)] && w' == Mapped(w, r, a, pa, perm, own)
    ensures IsTable(w.mem, pt) && w'.mem == w.mem[pt := Table(w.mem[pt].ptes[Px(0, a) := Entry(pa, perm)])]
    ensures w'.use == (if own then w.use[pa := DataOf(r, a)] else w.use)
    ensures w'.freelist == w.freelist && w'.free == w.free && w'.trees == w.trees
  {
  }

  lemma RangeStepMap(w: World, w2: World, w3: World, r: nat, v: nat, p: nat, perm: nat, m: nat)
    requires RangeMapped(w, w2, r, v, m, p, perm) && w3.trees == w2.trees
    requires ChangedAt(w2, w3, r, v + m, Entry(p + m, perm))
    ensures RangeMapped(w, w3, r, v, m + 1, p, perm)
  {
    hide Lookup, Entry;
  }

  lemma RangeStepUse(w: World, w2: World, w3: World, r: nat, v: nat, p: nat, own: bool, m: nat, pt: nat)
    requires RangeOwned(w, w2, r, v, m, p, own) && (own ==> p + m in w2.use && w2.use[p + m].Held?)
    requires pt in w2.use && Spare(w2.use[pt], r) && pt in w2.mem
    requires w3.trees == w2.trees && w3.mem.Keys == w2.mem.Keys
    requires forall q :: q in w2.mem && q != pt ==> w3.mem[q] == w2.mem[q]
    requires w3.use == (if own then w2.use[p + m := DataOf(r, v + m)] else w2.use)
    ensures RangeOwned(w, w3, r, v, m + 1, p, own)
  {
    assert forall q :: q in w2.mem <==> q in w2.mem.Keys;
    assert forall q :: q in w3.mem <==> q in w3.mem.Keys;
  }

  // ----- removing ranges -----

  /** The use of process r's page at one of the virtual pages v.. . */
  predicate Here(u: Use, r: nat, v: nat, n: nat) { u.DataOf? && u.r == r && v <= u.v < v + n }

  /** Page x of r is mapped by an entry that uvmunmap accepts: in range, valid, and no pointer to a table. */
  ghost predicate LeafAt(w: World, r: nat, x: nat)
    requires r in w.trees
  {
    x < MAXPAGE && V(Lookup(w.mem, w.trees[r], x)) && Flags(Lookup(w.mem, w.trees[r], x)) != 1
  }

  /** What uvmunmap relies on: it frees what is mapped in the range exactly if that is r's own memory. */
  ghost predicate CanUnmap(w: World, r: nat, v: nat, n: nat, doFree: bool) {
    && r in w.trees
    && (doFree ==> forall x :: v <= x < v + n && LeafAt(w, r, x) ==>
          var p := Ppn(Lookup(w.mem, w.trees[r], x)); p in w.use && w.use[p] == DataOf(r, x))
    && (!doFree ==> forall q :: q in w.use ==> !Here(w.use[q], r, v, n))
  }

  /** In a sound table every valid entry for a page is a leaf. */
  lemma ValidIsLeaf(w: World, r: nat, x: nat)
    requires TreesOk(w.mem, w.use, w.trees) && r in w.trees && x < MAXPAGE
    ensures LeafAt(w, r, x) <==> V(Lookup(w.mem, w.trees[r], x))
  {
    var n, t := Leaf(x / 512), w.trees[r];
    if n in t {
      assert NodeOk(w.mem, w.use, r, t, n) && EntryOk(w.mem, t, n, x % 512);
      RwxIsLeaf(Lookup(w.mem, t, x));
    }
  }

  lemma RwxIsLeaf(e: nat)
    ensures Rwx(e) ==> Flags(e) != 1
  {
    HighFlags(e / 1024, e % 1024);
  }

  ghost predicate RangeCleared(w: World, w': World, r: nat, v: nat, n: nat) {
    && w'.trees == w.trees
    && (forall s, x: nat :: s in w.trees ==>
          Lookup(w'.mem, w.trees[s], x) == if s == r && v <= x < v + n then 0 else Lookup(w.mem, w.trees[s], x))
  }

  /** The memory of r in the range is free again; no other page that r may not use has changed. */
  ghost predicate RangeFreed(w: World, w': World, r: nat, v: nat, n: nat) {
    && (forall q :: q in w.use && !Spare(w.use[q], r) ==>
          && q in w'.use && q in w.mem
          && if Here(w.use[q], r, v, n) then w'.use[q].Free?
             else w'.use[q] == w.use[q] && q in w'.mem && w'.mem[q] == w.mem[q])
    && (forall q :: q in w.use && Spare(w.use[q], r) ==> q in w'.use && w'.use[q] == w.use[q])
    && (forall q :: q in w'.use ==> q in w.use)
  }

  lemma ClearStart(lo: nat, hi: nat, w: World, r: nat, v: nat)
    requires Extent(lo, hi, w.mem, w.use)
    ensures RangeCleared(w, w, r, v, 0) && RangeFreed(w, w, r, v, 0)
  {
  }

  lemma ClearStep(w: World, w1: World, w2: World, r: nat, v: nat, m: nat)
    requires RangeCleared(w, w1, r, v, m) && ChangedAt(w1, w2, r, v + m, 0) && w2.trees == w1.trees
    ensures RangeCleared(w, w2, r, v, m + 1)
  {
    hide Lookup;
  }

  /** What one round of uvmunmap does to the uses of pages. */
  ghost predicate FreedAt(w: World, w': World, r: nat, a: nat) {
    && (forall q :: q in w.use && !Spare(w.use[q], r) ==>
          && q in w'.use && q in w.mem
          && if w.use[q] == DataOf(r, a) then w'.use[q].Free?
             else w'.use[q] == w.use[q] && q in w'.mem && w'.mem[q] == w.mem[q])
    && (forall q :: q in w.use && Spare(w.use[q], r) ==> q in w'.use && w'.use[q] == w.use[q])
    && (forall q :: q in w'.use ==> q in w.use)
  }

  lemma FreeStep(w: World, w1: World, w2: World, r: nat, v: nat, m: nat)
    requires RangeFreed(w, w1, r, v, m) && FreedAt(w1, w2, r, v + m)
    ensures RangeFreed(w, w2, r, v, m + 1)
  {
  }

  lemma OnlyPage(w: World, r: nat, a: nat, p: nat)
    requires DataOk(w.mem, w.use, w.trees) && p in w.use && w.use[p] == DataOf(r, a)
    ensures forall q :: q in w.use && w.use[q] == DataOf(r, a) ==> q == p
  {
    assert MapsTo(w.mem, w.trees, r, a, p);
    assert forall q :: q in w.use && w.use[q] == DataOf(r, a) ==> MapsTo(w.mem, w.trees, r, a, q);
  }

  lemma FreedAtOne(w: World, r: nat, a: nat, p: nat, pt: nat, w': World)
    requires (forall q :: q in w.use ==> q in w.mem) && (forall q :: q in w.use && w.use[q] == DataOf(r, a) ==> q == p)
    requires p in w.use && w.use[p] == DataOf(r, a) && pt in w.use && Spare(w.use[pt], r)
    requires w'.use == w.use[p := Free(|w.free|)]
    requires forall q :: q in w.mem && q != pt && q != p ==> q in w'.mem && w'.mem[q] == w.mem[q]
    ensures FreedAt(w, w', r, a)
  {
  }

  lemma DroppedAt(lo: nat, hi: nat, w: World, r: nat, a: nat, p: nat, pt: nat, w': World)
    requires Ok(lo, hi, w) && HasSlot(w, r, a) && p in w.use && w.use[p] == DataOf(r, a) && w' == Dropped(w, r, a, p)
    requires pt == w.trees[r][Leaf(a / 512)]
    ensures FreedAt(w, w', r, a)
  {
    NodeTable(w, r, Leaf(a / 512));
    assert forall q :: q in w.use ==> q in w.mem;
    OnlyPage(w, r, a, p);
    hide Ok, Lookup, TreesOk, DataOk, UserOk, FreeOk, Extent, FreedAt;
    FreedAtOne(w, r, a, p, pt, w');
  }

  lemma ClearedAt(lo: nat, hi: nat, w: World, r: nat, a: nat, pt: nat, w': World)
    requires Ok(lo, hi, w) && HasSlot(w, r, a) && w' == Put(w, r, a, 0) && pt == w.trees[r][Leaf(a / 512)]
    requires forall q :: q in w.use ==> w.use[q] != DataOf(r, a)
    ensures FreedAt(w, w', r, a)
  {
    hide Extent, FreeOk, TreesOk, DataOk, UserOk, Lookup;
    NodeTable(w, r, Leaf(a / 512));
    UsedPages(lo, hi, w);
    assert forall q :: q in w.mem && q != pt ==> w'.mem[q] == w.mem[q];
  }

  lemma UnmapFirst(w: World, r: nat, a: nat, k: nat, doFree: bool)
    requires CanUnmap(w, r, a, k, doFree) && k > 0 && LeafAt(w, r, a)
    ensures Lookup(w.mem, w.trees[r], a) != 0
    ensures doFree ==> var p := Ppn(Lookup(w.mem, w.trees[r], a)); p in w.use && w.use[p] == DataOf(r, a)
    ensures !doFree ==> forall q :: q in w.use ==> w.use[q] != DataOf(r, a)
  {
    hide Lookup;
    ZeroFields();
    assert forall q :: q in w.use && w.use[q] == DataOf(r, a) ==> Here(w.use[q], r, a, k);
  }

  lemma UnmapTree(w: World, r: nat, v: nat, n: nat, doFree: bool)
    requires CanUnmap(w, r, v, n, doFree)
    ensures r in w.trees
  {
  }

  /** Pages outside the range cleared so far are mapped as before. */
  lemma LeafKept(w: World, w': World, r: nat, v: nat, n: nat, x: nat)
    requires RangeCleared(w, w', r, v, n) && r in w.trees && !(v <= x < v + n)
    ensures r in w'.trees && (LeafAt(w', r, x) <==> LeafAt(w, r, x))
  {
    hide Lookup;
  }

  lemma UnmapNext(w: World, w': World, r: nat, a: nat, k: nat, doFree: bool)
    requires CanUnmap(w, r, a, k, doFree) && k > 0 && w'.trees == w.trees
    requires ChangedAt(w, w', r, a, 0) && FreedAt(w, w', r, a)
    ensures CanUnmap(w', r, a + 1, k - 1, doFree)
  {
    hide Lookup;
  }

  /** kfree before clearing the entry, as the code does, comes to the same. */
  lemma DropOrder(w: World, r: nat, a: nat, p: nat, pt: nat, w1: World)
    requires HasSlot(w, r, a) && pt == w.trees[r][Leaf(a / 512)] && pt != p && w1 == Give(w, p)
    ensures IsTable(w1.mem, pt)
    ensures Dropped(w, r, a, p) == w1.(mem := w1.mem[pt := Table(w1.mem[pt].ptes[Px(0, a) := 0])])
  {
  }

  /** A mapped page has a slot, and the slot holds its entry. */
  lemma SlotOf(w: World, r: nat, a: nat, pt: nat)
    requires HasSlot(w, r, a) && pt == w.trees[r][Leaf(a / 512)]
    ensures IsTable(w.mem, pt) && w.mem[pt].ptes[Px(0, a)] == Lookup(w.mem, w.trees[r], a)
  {
  }
}
