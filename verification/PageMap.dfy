/** Writing a leaf entry changes the flat map at one virtual page of one process and nowhere else. */
module PageMap {
  import opened Sv39
  import opened PhysMem
  import opened PageSteps

  /** The slot for page v of tree r exists. */
  ghost predicate HasSlot(w: World, r: nat, v: nat) {
    r in w.trees && v < MAXPAGE && Leaf(v / 512) in w.trees[r] && IsTable(w.mem, w.trees[r][Leaf(v / 512)])
  }

  function PutMem(mem: map<nat, Page>, q: nat, i: nat, e: nat): map<nat, Page>
    requires IsTable(mem, q) && i < 512
  {
    mem[q := Table(mem[q].ptes[i := e])]
  }

  ghost function Put(w: World, r: nat, v: nat, e: nat): World
    requires HasSlot(w, r, v)
  {
    w.(mem := PutMem(w.mem, w.trees[r][Leaf(v / 512)], v % 512, e))
  }

  /** w' has entry e at (r, v) and w's entries elsewhere. */
  ghost predicate ChangedAt(w: World, w': World, r: nat, v: nat, e: nat) {
    forall s, x: nat :: s in w.trees ==>
                          Lookup(w'.mem, w.trees[s], x) == if s == r && x == v then e else Lookup(w.mem, w.trees[s], x)
  }

  ghost predicate LeafEntry(e: nat) { e == 0 || (V(e) && Rwx(e)) }

  lemma PutNode(w: World, r: nat, v: nat, e: nat, n: Node)
    requires HasSlot(w, r, v) && LeafEntry(e) && TreeOk(w.mem, w.use, r, w.trees[r]) && n in w.trees[r]
    ensures NodeOk(Put(w, r, v, e).mem, w.use, r, w.trees[r], n)
  {
    var w', t, l := Put(w, r, v, e), w.trees[r], Leaf(v / 512);
    assert NodeOk(w.mem, w.use, r, t, n) && NodeOk(w.mem, w.use, r, t, l);
    forall i | 0 <= i < 512 ensures EntryOk(w'.mem, t, n, i) {
      assert EntryOk(w.mem, t, n, i);
      assert n != l ==> w'.mem[t[n]] == w.mem[t[n]];
    }
  }

  lemma PutLookup(w: World, r: nat, v: nat, e: nat, x: nat)
    requires HasSlot(w, r, v) && TreeOk(w.mem, w.use, r, w.trees[r])
    ensures Lookup(Put(w, r, v, e).mem, w.trees[r], x) == if x == v then e else Lookup(w.mem, w.trees[r], x)
  {
    var t, l, m := w.trees[r], Leaf(v / 512), Leaf(x / 512);
    assert NodeOk(w.mem, w.use, r, t, l);
    if m in t {
      assert NodeOk(w.mem, w.use, r, t, m);
    }
  }

  lemma PutElsewhere(w: World, r: nat, v: nat, e: nat, s: nat)
    requires HasSlot(w, r, v) && TreesOk(w.mem, w.use, w.trees) && s in w.trees && s != r
    ensures TreeOk(Put(w, r, v, e).mem, w.use, s, w.trees[s])
    ensures forall x: nat :: Lookup(Put(w, r, v, e).mem, w.trees[s], x) == Lookup(w.mem, w.trees[s], x)
  {
    var w' := Put(w, r, v, e);
    assert NodeOk(w.mem, w.use, r, w.trees[r], Leaf(v / 512));
    hide NodeOk;
    TreeFrame(w.mem, w.use, w'.mem, w.use, s, w.trees[s]);
  }

  lemma PutTrees(w: World, r: nat, v: nat, e: nat)
    requires HasSlot(w, r, v) && LeafEntry(e) && TreesOk(w.mem, w.use, w.trees)
    ensures TreesOk(Put(w, r, v, e).mem, w.use, w.trees) && ChangedAt(w, Put(w, r, v, e), r, v, e)
  {
    var w' := Put(w, r, v, e);
    forall n | n in w.trees[r] ensures NodeOk(w'.mem, w.use, r, w.trees[r], n) {
      PutNode(w, r, v, e, n);
    }
    assert TreeOk(w'.mem, w.use, r, w.trees[r]);
    hide TreeOk, Lookup, Put;
    forall s | s in w.trees && s != r
      ensures TreeOk(w'.mem, w.use, s, w.trees[s])
      ensures forall x: nat :: Lookup(w'.mem, w.trees[s], x) == Lookup(w.mem, w.trees[s], x)
    {
      PutElsewhere(w, r, v, e, s);
    }
    forall x: nat ensures Lookup(w'.mem, w.trees[r], x) == if x == v then e else Lookup(w.mem, w.trees[r], x) {
      PutLookup(w, r, v, e, x);
    }
  }

  /** Process memory after the entry at (r, v) has become e. */
  ghost predicate DataMoved(w: World, w': World, r: nat, v: nat, e: nat) {
    && (forall q :: q in w'.use && w'.use[q].DataOf? ==>
          IsData(w'.mem, q)
          && (if w'.use[q] == DataOf(r, v) then V(e) && Ppn(e) == q else q in w.use && w.use[q] == w'.use[q]))
    && (forall q :: q in w.use && w.use[q].DataOf? && w.use[q] != DataOf(r, v) ==> q in w'.use && w'.use[q] == w.use[q])
    && (V(e) && U(e) ==> Ppn(e) in w'.use && w'.use[Ppn(e)] == DataOf(r, v))
  }

  lemma MovedData(w: World, w': World, r: nat, v: nat, e: nat)
    requires DataOk(w.mem, w.use, w.trees) && UserOk(w.mem, w.use, w.trees) && HasSlot(w, r, v)
    requires w'.trees == w.trees && ChangedAt(w, w', r, v, e) && DataMoved(w, w', r, v, e)
    ensures DataOk(w'.mem, w'.use, w'.trees) && UserOk(w'.mem, w'.use, w'.trees)
  {
    hide Lookup;
    forall q | q in w'.use && w'.use[q].DataOf?
      ensures IsData(w'.mem, q) && MapsTo(w'.mem, w'.trees, w'.use[q].r, w'.use[q].v, q)
    {
      if w'.use[q] != DataOf(r, v) {
        assert MapsTo(w.mem, w.trees, w.use[q].r, w.use[q].v, q);
      }
    }
    forall s, x | UserAt(w'.mem, w'.trees, s, x)
      ensures var q := Ppn(Lookup(w'.mem, w'.trees[s], x)); q in w'.use && w'.use[q] == DataOf(s, x)
    {
      if s != r || x != v {
        assert UserAt(w.mem, w.trees, s, x);
      }
    }
  }

  // ----- mapping a page -----

  /** Page p appears at (r, v); own says that it becomes process memory. */
  ghost function Mapped(w: World, r: nat, v: nat, p: nat, perm: nat, own: bool): World
    requires HasSlot(w, r, v)
  {
    var w1 := Put(w, r, v, Entry(p, perm));
    if own then w1.(use := w.use[p := DataOf(r, v)]) else w1
  }

  ghost predicate Mappable(w: World, r: nat, v: nat, p: nat, perm: nat, own: bool) {
    && HasSlot(w, r, v) && perm < 1024 && Rwx(perm) && (U(perm) ==> own) && !V(Lookup(w.mem, w.trees[r], v))
    && (own ==> p in w.use && w.use[p].Held? && IsData(w.mem, p))
  }

  lemma MappedMoved(w: World, r: nat, v: nat, p: nat, perm: nat, own: bool)
    requires Mappable(w, r, v, p, perm, own) && TreesOk(w.mem, w.use, w.trees) && DataOk(w.mem, w.use, w.trees)
    ensures DataMoved(w, Mapped(w, r, v, p, perm, own), r, v, Entry(p, perm))
  {
    hide Lookup, TreesOk, V, U, Ppn, Entry, Rwx;
    var w' := Mapped(w, r, v, p, perm, own);
    EntryFields(p, perm);
    var l := w.trees[r][Leaf(v / 512)];
    NodeTable(w, r, Leaf(v / 512));
    assert forall q :: q in w.use && w.use[q] == DataOf(r, v) ==> MapsTo(w.mem, w.trees, r, v, q);
    assert forall q :: q in w.mem && q != l ==> w'.mem[q] == w.mem[q];
  }

  lemma MappedPool(lo: nat, hi: nat, w: World, r: nat, v: nat, p: nat, perm: nat, own: bool)
    requires Mappable(w, r, v, p, perm, own) && Pool(lo, hi, w) && TreesOk(w.mem, w.use, w.trees)
    ensures Pool(lo, hi, Mapped(w, r, v, p, perm, own))
  {
    hide TreesOk, Lookup, V, U, Entry, Rwx;
    var w' := Mapped(w, r, v, p, perm, own);
    NodeTable(w, r, Leaf(v / 512));
    FreeFrame(w.mem, w.use, w'.mem, w'.use, w.free, w.freelist);
  }

  lemma MappedTrees(w: World, r: nat, v: nat, p: nat, perm: nat, own: bool)
    requires Mappable(w, r, v, p, perm, own) && TreesOk(w.mem, w.use, w.trees)
    ensures var w' := Mapped(w, r, v, p, perm, own);
            TreesOk(w'.mem, w'.use, w'.trees) && ChangedAt(w, w', r, v, Entry(p, perm)) && w'.trees == w.trees
  {
    var w', w1 := Mapped(w, r, v, p, perm, own), Put(w, r, v, Entry(p, perm));
    EntryFields(p, perm);
    PutTrees(w, r, v, Entry(p, perm));
    hide TreesOk, Lookup, Put, ChangedAt;
    TablesFrame(w1, w');
  }

  lemma MappedOk(lo: nat, hi: nat, w: World, r: nat, v: nat, p: nat, perm: nat, own: bool, w': World)
    requires Ok(lo, hi, w) && Mappable(w, r, v, p, perm, own) && w' == Mapped(w, r, v, p, perm, own)
    ensures Ok(lo, hi, w') && ChangedAt(w, w', r, v, Entry(p, perm))
  {
    hide Extent, FreeOk, TreesOk, DataOk, UserOk, ChangedAt, DataMoved, Mapped, Lookup;
    MappedMoved(w, r, v, p, perm, own);
    MappedPool(lo, hi, w, r, v, p, perm, own);
    MappedTrees(w, r, v, p, perm, own);
    MovedData(w, w', r, v, Entry(p, perm));
  }

  // ----- removing a page -----

  /** The entry at (r, v) is cleared and page p, which was process memory there, goes to the free list. */
  ghost function Dropped(w: World, r: nat, v: nat, p: nat): World
    requires HasSlot(w, r, v)
  {
    Give(Put(w, r, v, 0), p)
  }

  lemma DroppedMoved(w: World, r: nat, v: nat, p: nat)
    requires HasSlot(w, r, v) && p in w.use && w.use[p] == DataOf(r, v)
    requires TreesOk(w.mem, w.use, w.trees) && DataOk(w.mem, w.use, w.trees)
    ensures DataMoved(w, Dropped(w, r, v, p), r, v, 0)
  {
    hide Lookup, TreesOk, V, U, Ppn;
    var w' := Dropped(w, r, v, p);
    ZeroFields();
    var l := w.trees[r][Leaf(v / 512)];
    NodeTable(w, r, Leaf(v / 512));
    assert forall q :: q in w.use && w.use[q] == DataOf(r, v) ==> MapsTo(w.mem, w.trees, r, v, q);
    assert forall q :: q in w.mem && q != l && q != p ==> w'.mem[q] == w.mem[q];
  }

  lemma PutPool(lo: nat, hi: nat, w: World, r: nat, v: nat, e: nat)
    requires HasSlot(w, r, v) && Pool(lo, hi, w) && TreesOk(w.mem, w.use, w.trees)
    ensures Pool(lo, hi, Put(w, r, v, e))
  {
    var w' := Put(w, r, v, e);
    assert NodeOk(w.mem, w.use, r, w.trees[r], Leaf(v / 512));
    hide NodeOk, TreesOk;
    FreeFrame(w.mem, w.use, w'.mem, w'.use, w.free, w.freelist);
  }

  lemma DroppedTrees(w: World, r: nat, v: nat, p: nat)
    requires HasSlot(w, r, v) && p in w.use && w.use[p] == DataOf(r, v) && TreesOk(w.mem, w.use, w.trees)
    ensures var w' := Dropped(w, r, v, p);
            TreesOk(w'.mem, w'.use, w'.trees) && ChangedAt(w, w', r, v, 0) && w'.trees == w.trees
  {
    hide TreesOk, Lookup;
    var w', w1 := Dropped(w, r, v, p), Put(w, r, v, 0);
    PutTrees(w, r, v, 0);
    TablesFrame(w1, w');
  }

  lemma DroppedOk(lo: nat, hi: nat, w: World, r: nat, v: nat, p: nat, w': World)
    requires Ok(lo, hi, w) && HasSlot(w, r, v) && p in w.use && w.use[p] == DataOf(r, v) && w' == Dropped(w, r, v, p)
    ensures Ok(lo, hi, w') && ChangedAt(w, w', r, v, 0) && w'.trees == w.trees
  {
    DroppedMoved(w, r, v, p);
    DroppedTrees(w, r, v, p);
    PutPool(lo, hi, w, r, v, 0);
    hide Extent, FreeOk, TreesOk, DataOk, UserOk, ChangedAt, DataMoved, Lookup, HasSlot;
    GivePool(lo, hi, Put(w, r, v, 0), p);
    MovedData(w, w', r, v, 0);
  }

  /** Clearing an entry whose page is not this process's memory. */
  lemma EmptiedOk(lo: nat, hi: nat, w: World, r: nat, v: nat, w': World)
    requires Ok(lo, hi, w) && HasSlot(w, r, v) && w' == Put(w, r, v, 0)
    requires forall q :: q in w.use ==> w.use[q] != DataOf(r, v)
    ensures Ok(lo, hi, w') && ChangedAt(w, w', r, v, 0) && w'.trees == w.trees
  {
    EmptiedMoved(w, r, v);
    PutTrees(w, r, v, 0);
    PutPool(lo, hi, w, r, v, 0);
    hide Extent, FreeOk, TreesOk, DataOk, UserOk, ChangedAt, DataMoved, Lookup, HasSlot;
    MovedData(w, w', r, v, 0);
  }

  lemma EmptiedMoved(w: World, r: nat, v: nat)
    requires HasSlot(w, r, v) && TreesOk(w.mem, w.use, w.trees) && DataOk(w.mem, w.use, w.trees)
    requires forall q :: q in w.use ==> w.use[q] != DataOf(r, v)
    ensures DataMoved(w, Put(w, r, v, 0), r, v, 0)
  {
    hide Lookup, TreesOk, V, U, Ppn;
    var w', l := Put(w, r, v, 0), w.trees[r][Leaf(v / 512)];
    ZeroFields();
    NodeTable(w, r, Leaf(v / 512));
    assert forall q :: q in w.mem && q != l ==> w'.mem[q] == w.mem[q];
  }

  /** The store that does it. */
  lemma PutIs(w: World, r: nat, a: nat, e: nat, pt: nat, w': World)
    requires HasSlot(w, r, a) && pt == w.trees[r][Leaf(a / 512)] && w' == Put(w, r, a, e)
    ensures IsTable(w.mem, pt) && w' == w.(mem := w.mem[pt := Table(w.mem[pt].ptes[Px(0, a) := e])])
  {
  }
}
