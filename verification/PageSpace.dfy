/** The memory of one process: what is mapped in its table, and what growing and shrinking do to it. */
module PageSpace {
  import Counting
  import opened Sv39
  import opened PhysMem
  import opened PageSteps
  import opened PageMap
  import opened PageFree
  import opened PageGraft
  import opened PageRange

  const TRAMPOLINE := MAXPAGE - 1
  const TRAPFRAME := MAXPAGE - 2

  function FixedPages(): set<nat> { {TRAMPOLINE, TRAPFRAME} }

  predicate Fixed(x: nat) { x == TRAMPOLINE || x == TRAPFRAME }

  function EntryAt(w: World, r: nat, x: nat): nat
    requires r in w.trees
  {
    Lookup(w.mem, w.trees[r], x)
  }

  /** Virtual page x of r is mapped to a page that is r's own memory. */
  ghost predicate OwnsPage(w: World, r: nat, x: nat)
    requires r in w.trees
  {
    V(EntryAt(w, r, x)) && Ppn(EntryAt(w, r, x)) in w.use && w.use[Ppn(EntryAt(w, r, x))] == DataOf(r, x)
  }

  /** Process r has exactly the pages below n, and the two fixed pages if they are mapped. */
  ghost predicate Space(w: World, r: nat, n: nat, fixed: set<nat>) {
    && r in w.trees && n <= TRAPFRAME
    && (forall x :: 0 <= x < n ==> OwnsPage(w, r, x))
    && (forall x :: n <= x && !Fixed(x) ==> EntryAt(w, r, x) == 0)
    && (forall x :: Fixed(x) ==> if x in fixed then V(EntryAt(w, r, x)) else EntryAt(w, r, x) == 0)
    && (forall q :: q in w.use && w.use[q].DataOf? && w.use[q].r == r ==> w.use[q].v < n)
  }

  // ----- a process cannot have more pages than there are -----

  function Frames(w: World, r: nat, n: nat): set<nat>
    requires r in w.trees
  {
    set x | 0 <= x < n :: Ppn(EntryAt(w, r, x))
  }

  lemma {:induction false} FramesDistinct(w: World, r: nat, n: nat)
    requires r in w.trees && forall x :: 0 <= x < n ==> OwnsPage(w, r, x)
    ensures |Frames(w, r, n)| == n
  {
    if n > 0 {
      var p := Ppn(EntryAt(w, r, n - 1));
      assert OwnsPage(w, r, n - 1);
      FramesDistinct(w, r, n - 1);
      assert Frames(w, r, n) == Frames(w, r, n - 1) + {p};
      forall x | 0 <= x < n - 1 ensures Ppn(EntryAt(w, r, x)) != p {
        assert OwnsPage(w, r, x);
      }
    } else {
      assert Frames(w, r, n) == {};
    }
  }

  function Between(lo: nat, hi: nat): (s: set<nat>)
    requires lo <= hi
    ensures (forall p :: p in s <==> lo <= p < hi) && |s| == hi - lo
    decreases hi
  {
    if lo == hi then {} else Between(lo, hi - 1) + {hi - 1}
  }

  /** A process with a page still free to take has fewer pages than there are. */
  lemma SpaceBound(lo: nat, hi: nat, w: World, r: nat, n: nat, fixed: set<nat>, p: nat)
    requires Space(w, r, n, fixed) && Extent(lo, hi, w.mem, w.use) && p in w.use && !w.use[p].DataOf?
    ensures n < hi - lo
  {
    FramesDistinct(w, r, n);
    assert lo <= p < hi;
    forall q | q in Frames(w, r, n) ensures q in Between(lo, hi) && q != p {
      var x :| 0 <= x < n && q == Ppn(EntryAt(w, r, x));
      assert OwnsPage(w, r, x);
    }
    assert p in Between(lo, hi);
    Counting.SubsetSize(Frames(w, r, n), Between(lo, hi) - {p});
  }

  // ----- growing -----

  /** From w to w' process r gained the pages [n, n'); nothing else changed for anyone. */
  ghost predicate Grew(w: World, w': World, r: nat, n: nat, n': nat) {
    && r in w.trees && n <= n' && w'.trees.Keys == w.trees.Keys
    && (forall s :: s in w.trees ==> s in w'.trees)
    && (forall s, x: nat :: s in w.trees && (s != r || x < n || n' <= x) ==> EntryAt(w', s, x) == EntryAt(w, s, x))
    && (forall x :: n <= x < n' ==> OwnsPage(w', r, x))
    && (forall q :: q in w.use && !Spare(w.use[q], r) ==>
          q in w'.use && w'.use[q] == w.use[q] && q in w.mem && q in w'.mem && w'.mem[q] == w.mem[q])
    && (forall q :: q in w'.use && !Spare(w'.use[q], r) ==>
          Here(w'.use[q], r, n, n' - n) || (q in w.use && w.use[q] == w'.use[q]))
  }

  /** Page x of r has these flags and these contents. */
  ghost predicate Holds(w: World, r: nat, x: nat, perm: nat, bytes: seq<Byte>)
    requires r in w.trees
  {
    var e := EntryAt(w, r, x);
    e == Entry(Ppn(e), perm) && Ppn(e) in w.mem && w.mem[Ppn(e)] == Data(bytes)
  }

  /** Growing further does not touch the pages there are. */
  lemma HoldsStill(w: World, w': World, r: nat, n: nat, n': nat, s: nat, x: nat, perm: nat, bytes: seq<Byte>)
    requires Grew(w, w', r, n, n') && s in w.trees && (s != r || x < n) && OwnsPage(w, s, x)
    requires Holds(w, s, x, perm, bytes)
    ensures s in w'.trees && EntryAt(w', s, x) == EntryAt(w, s, x) && OwnsPage(w', s, x) && Holds(w', s, x, perm, bytes)
  {
    hide EntryAt, V, Ppn, Entry;
    assert EntryAt(w', s, x) == EntryAt(w, s, x);
  }

  lemma GrewNothing(lo: nat, hi: nat, w: World, r: nat, n: nat)
    requires Extent(lo, hi, w.mem, w.use) && r in w.trees
    ensures Grew(w, w, r, n, n)
  {
  }

  lemma GrewTrans(w: World, w1: World, w2: World, r: nat, n: nat, a: nat)
    requires n <= a && Grew(w, w1, r, n, a) && Grew(w1, w2, r, a, a + 1)
    ensures Grew(w, w2, r, n, a + 1)
  {
    hide EntryAt, V, Ppn;
    forall x | n <= x < a + 1 ensures OwnsPage(w2, r, x) {
      if x < a {
        assert OwnsPage(w1, r, x);
        assert EntryAt(w2, r, x) == EntryAt(w1, r, x);
      }
    }
  }

  lemma GrewSpace(w: World, w': World, r: nat, n: nat, n': nat, fixed: set<nat>)
    requires Space(w, r, n, fixed) && Grew(w, w', r, n, n') && n <= n' <= TRAPFRAME
    ensures Space(w', r, n', fixed)
  {
    hide EntryAt, V, Ppn;
    forall x | 0 <= x < n' ensures OwnsPage(w', r, x) {
      if x < n {
        assert OwnsPage(w, r, x);
        assert EntryAt(w', r, x) == EntryAt(w, r, x);
      }
    }
  }

  /** Undoing a growth leaves everything as it was, spare pages apart. */
  lemma GrewUndone(w: World, w1: World, w2: World, r: nat, n: nat, a: nat, fixed: set<nat>)
    requires n <= a <= TRAPFRAME && Space(w, r, n, fixed) && Grew(w, w1, r, n, a)
    requires RangeCleared(w1, w2, r, n, a - n) && RangeFreed(w1, w2, r, n, a - n)
    ensures Undisturbed(w, w2, r) && SameLookups(w, w2)
  {
    hide V, Ppn, Entry, Lookup, OwnsPage;
    forall s, x: nat | s in w.trees ensures Lookup(w2.mem, w2.trees[s], x) == Lookup(w.mem, w.trees[s], x) {
      assert Lookup(w2.mem, w1.trees[s], x) == if s == r && n <= x < n + (a - n) then 0
                                               else Lookup(w1.mem, w1.trees[s], x);
      assert EntryAt(w, s, x) == Lookup(w.mem, w.trees[s], x);
      assert EntryAt(w1, s, x) == Lookup(w1.mem, w1.trees[s], x);
    }
  }

  /** Below the fixed pages, exactly the pages of r's memory can be unmapped, and they are its own. */
  lemma SpaceCanUnmap(w: World, r: nat, n: nat, m: nat, q: nat, fixed: set<nat>)
    requires TreesOk(w.mem, w.use, w.trees) && Space(w, r, n, fixed) && m <= q <= TRAPFRAME
    ensures CanUnmap(w, r, m, q - m, true)
    ensures forall x :: m <= x < q ==> (LeafAt(w, r, x) <==> x < n)
  {
    hide V, Ppn, Lookup;
    ZeroFields();
    forall x | m <= x < q
      ensures LeafAt(w, r, x) <==> x < n
      ensures x < n ==> var p := Ppn(Lookup(w.mem, w.trees[r], x)); p in w.use && w.use[p] == DataOf(r, x)
    {
      ValidIsLeaf(w, r, x);
      if x < n {
        assert OwnsPage(w, r, x);
      } else {
        assert EntryAt(w, r, x) == 0;
      }
    }
  }

  lemma ShrunkSpace(w: World, w': World, r: nat, n: nat, n': nat, fixed: set<nat>)
    requires Space(w, r, n', fixed) && n <= n' && RangeCleared(w, w', r, n, n' - n) && RangeFreed(w, w', r, n, n' - n)
    ensures Space(w', r, n, fixed)
  {
    hide V, Ppn, Lookup;
    forall x: nat
      ensures EntryAt(w', r, x) == if n <= x < n' then 0 else EntryAt(w, r, x)
    {
      assert Lookup(w'.mem, w.trees[r], x) == if n <= x < n + (n' - n) then 0 else Lookup(w.mem, w.trees[r], x);
    }
    forall x | 0 <= x < n ensures OwnsPage(w', r, x) {
      assert OwnsPage(w, r, x);
    }
  }

  // ----- one page more -----

  /** Page p has been taken and filled; tables and all other pages in use are as before. */
  ghost predicate Took(w: World, w2: World, p: nat, bytes: seq<Byte>) {
    && w2.trees == w.trees && SameLookups(w, w2)
    && p in w.use && w.use[p].Free? && w2.use == w.use[p := Held] && |bytes| == 4096
    && w2.mem == w.mem[p := Data(bytes)]
    && (forall q :: q in w.use ==> q in w.mem)
  }

  lemma TookTrees(w: World, w2: World, p: nat, bytes: seq<Byte>)
    requires Took(w, w2, p, bytes)
    ensures w2.trees == w.trees
  {
  }

  lemma TookReady(w: World, w2: World, r: nat, a: nat, p: nat, perm: nat, fixed: set<nat>, bytes: seq<Byte>)
    requires Took(w, w2, p, bytes) && Space(w, r, a, fixed) && a < TRAPFRAME && perm < 1024 && Rwx(perm)
    ensures CanMap(w2, r, a, 1, p, perm, true)
  {
    ZeroFields();
    assert EntryAt(w, r, a) == 0;
    hide Lookup, V, Rwx, U;
  }

  lemma TookGrew(w: World, w2: World, w3: World, r: nat, a: nat, p: nat, perm: nat, bytes: seq<Byte>)
    requires Took(w, w2, p, bytes) && r in w.trees && perm < 1024
    requires RangeMapped(w2, w3, r, a, 1, p, perm) && RangeOwned(w2, w3, r, a, 1, p, true)
    ensures Grew(w, w3, r, a, a + 1) && Holds(w3, r, a, perm, bytes)
  {
    EntryFields(p, perm);
    hide Lookup, V, Entry, Ppn;
    forall s, x: nat | s in w.trees ensures EntryAt(w3, s, x) == if s == r && x == a then Entry(p, perm)
                                                                 else EntryAt(w, s, x) {
      assert Lookup(w2.mem, w2.trees[s], x) == Lookup(w.mem, w.trees[s], x);
    }
    assert w2.use[p] == Held && w2.mem[p] == Data(bytes);
    assert w3.use[p] == DataOf(r, a) && w3.mem[p] == Data(bytes);
    TookGrewUses(w, w2, w3, r, a, p, bytes);
  }

  lemma TookGrewUses(w: World, w2: World, w3: World, r: nat, a: nat, p: nat, bytes: seq<Byte>)
    requires Took(w, w2, p, bytes) && RangeOwned(w2, w3, r, a, 1, p, true)
    ensures w3.trees.Keys == w.trees.Keys
    ensures forall q :: q in w.use && !Spare(w.use[q], r) ==>
              q in w3.use && w3.use[q] == w.use[q] && q in w.mem && q in w3.mem && w3.mem[q] == w.mem[q]
    ensures forall q :: q in w3.use && !Spare(w3.use[q], r) ==>
              Here(w3.use[q], r, a, 1) || (q in w.use && w.use[q] == w3.use[q])
  {
    hide SameLookups;
    forall q | q in w.use && !Spare(w.use[q], r)
      ensures q in w3.use && w3.use[q] == w.use[q] && q in w.mem && q in w3.mem && w3.mem[q] == w.mem[q]
    {
      assert q != p && q in w2.use && w2.use[q] == w.use[q];
    }
    forall q | q in w3.use && !Spare(w3.use[q], r)
      ensures Here(w3.use[q], r, a, 1) || (q in w.use && w.use[q] == w3.use[q])
    {
      assert q in w2.use && !Spare(w2.use[q], r);
    }
  }

  /** Giving the page back after mappages has failed. */
  lemma TookUndone(w: World, w2: World, w3: World, r: nat, a: nat, p: nat, perm: nat, bytes: seq<Byte>)
    requires Took(w, w2, p, bytes) && RangeMapped(w2, w3, r, a, 0, p, perm) && RangeOwned(w2, w3, r, a, 0, p, true)
    ensures p in w3.use && w3.use[p].Held? && Undisturbed(w, Give(w3, p), r)
    ensures SameLookups(w, w3)
  {
    hide Lookup, Entry;
    var w4 := Give(w3, p);
    assert w2.use[p] == Held;
    forall q | q in w.use && !Spare(w.use[q], r)
      ensures q in w4.use && w4.use[q] == w.use[q] && q in w.mem && q in w4.mem && w4.mem[q] == w.mem[q]
    {
      assert q != p && q in w2.use && w2.use[q] == w.use[q];
    }
    forall q | q in w4.use && !Spare(w4.use[q], r) ensures q in w.use && w.use[q] == w4.use[q] {
      assert q != p && q in w2.use && !Spare(w2.use[q], r);
    }
    forall s, x: nat | s in w.trees ensures Lookup(w3.mem, w3.trees[s], x) == Lookup(w.mem, w.trees[s], x) {
      assert Lookup(w2.mem, w2.trees[s], x) == Lookup(w.mem, w.trees[s], x);
    }
  }

  // ----- sizes in bytes -----

  function PgUp(sz: nat): nat { (sz + 4095) / 4096 }

  lemma PgUpBounds(sz: nat, a: nat)
    ensures a * 4096 < sz <==> a < PgUp(sz)
  {
  }

  lemma PgUpMonotone(a: nat, b: nat)
    requires a <= b
    ensures PgUp(a) <= PgUp(b) && PgUp(a * 4096) == a
  {
  }

  lemma GrewSame(w: World, w1: World, w2: World, r: nat, n: nat, a: nat)
    requires Grew(w, w1, r, n, a) && Undisturbed(w1, w2, r) && SameLookups(w1, w2)
    ensures Grew(w, w2, r, n, a)
  {
    hide Lookup, V, Ppn;
    forall s, x: nat | s in w.trees ensures s in w2.trees && EntryAt(w2, s, x) == EntryAt(w1, s, x) {
      assert s in w1.trees;
      assert Lookup(w2.mem, w2.trees[s], x) == Lookup(w1.mem, w1.trees[s], x);
    }
    forall x | n <= x < a ensures OwnsPage(w2, r, x) {
      assert OwnsPage(w1, r, x);
    }
  }

  /** Pages [n, a) of r are zero-filled and have flags perm. */
  ghost predicate Zeroed(w: World, r: nat, n: nat, a: nat, perm: nat) {
    r in w.trees && forall x :: n <= x < a ==> OwnsPage(w, r, x) && Holds(w, r, x, perm, Fill(0))
  }

  lemma ZeroedStep(w: World, w': World, r: nat, n: nat, a: nat, perm: nat)
    requires Zeroed(w, r, n, a, perm) && Grew(w, w', r, a, a + 1) && Holds(w', r, a, perm, Fill(0))
    ensures Zeroed(w', r, n, a + 1, perm)
  {
    hide Fill;
    forall x | n <= x < a + 1 ensures OwnsPage(w', r, x) && Holds(w', r, x, perm, Fill(0)) {
      if x < a {
        HoldsStill(w, w', r, a, a + 1, r, x, perm, Fill(0));
      }
    }
  }

  lemma SpaceTree(w: World, r: nat, n: nat, fixed: set<nat>)
    requires Space(w, r, n, fixed)
    ensures r in w.trees && n <= TRAPFRAME
  {
  }

  lemma SpaceSame(w: World, w': World, r: nat, n: nat, fixed: set<nat>)
    requires Space(w, r, n, fixed) && Undisturbed(w, w', r) && SameLookups(w, w')
    ensures Space(w', r, n, fixed)
  {
    hide Lookup, V, Ppn;
    forall x: nat ensures EntryAt(w', r, x) == EntryAt(w, r, x) {
      assert Lookup(w'.mem, w'.trees[r], x) == Lookup(w.mem, w.trees[r], x);
    }
    forall x | 0 <= x < n ensures OwnsPage(w', r, x) {
      assert OwnsPage(w, r, x);
    }
  }

  // ----- the end of a table -----

  predicate Gone(u: Use, r: nat) { (u.TableOf? || u.DataOf?) && u.r == r }

  /** Everything r had is free, and nothing else has changed. */
  ghost predicate Released(w: World, w': World, r: nat) {
    && w'.trees == w.trees - {r}
    && (forall q :: q in w.use ==>
          && q in w'.use
          && if Gone(w.use[q], r) || w.use[q].Free? then w'.use[q].Free?
             else w'.use[q] == w.use[q] && q in w.mem && q in w'.mem && w'.mem[q] == w.mem[q])
    && (forall q :: q in w'.use ==> q in w.use)
  }

  lemma SpaceEmpty(lo: nat, hi: nat, w: World, r: nat)
    requires Space(w, r, 0, {}) && Ok(lo, hi, w)
    ensures forall v: nat :: Lookup(w.mem, w.trees[r], v) == 0
    ensures forall q :: q in w.use && w.use[q].DataOf? ==> w.use[q].r != r
  {
    hide Ok, Lookup;
    forall v: nat ensures Lookup(w.mem, w.trees[r], v) == 0 {
      assert EntryAt(w, r, v) == 0;
    }
  }

  lemma ReleasedAll(lo: nat, hi: nat, w: World, w1: World, w3: World, r: nat, n: nat)
    requires Space(w, r, n, {}) && RangeFreed(w, w1, r, 0, n) && w1.trees == w.trees
    requires (forall q :: q in w.use ==> q in w.mem) && (forall q :: q in w1.use ==> q in w1.mem)
    requires Cleared(Uproot(w1, r), w3, TablePages(w1, r), Root)
    ensures Released(w, w3, r)
  {
    var w2, pos := Uproot(w1, r), TablePages(w1, r);
    assert forall q :: q in w3.use <==> q in w3.use.Keys;
    assert forall q :: q in w2.use <==> q in w2.use.Keys;
    forall q | q in w.use
      ensures q in w3.use
      ensures if Gone(w.use[q], r) || w.use[q].Free? then w3.use[q].Free?
              else w3.use[q] == w.use[q] && q in w.mem && q in w3.mem && w3.mem[q] == w.mem[q]
    {
      ReleasedOne(w, w1, w3, r, n, q);
    }
  }

  lemma ReleasedOne(w: World, w1: World, w3: World, r: nat, n: nat, q: nat)
    requires Space(w, r, n, {}) && RangeFreed(w, w1, r, 0, n) && q in w.use && q in w.mem
    requires forall q :: q in w1.use ==> q in w1.mem
    requires Cleared(Uproot(w1, r), w3, TablePages(w1, r), Root)
    ensures q in w3.use
    ensures if Gone(w.use[q], r) || w.use[q].Free? then w3.use[q].Free?
            else w3.use[q] == w.use[q] && q in w3.mem && w3.mem[q] == w.mem[q]
  {
    var w2, pos := Uproot(w1, r), TablePages(w1, r);
    assert q in w1.use && q in w2.use.Keys && q in w3.use.Keys;
    assert w.use[q].DataOf? && w.use[q].r == r ==> Here(w.use[q], r, 0, n);
    assert q in pos <==> w1.use[q].TableOf? && w1.use[q].r == r;
  }

  // ----- copying a process -----

  /** Pages below a of new have the flags and contents of old's. */
  ghost predicate CopyOf(w: World, old_: nat, new_: nat, a: nat) {
    && old_ in w.trees && new_ in w.trees
    && (forall x :: 0 <= x < a ==> OwnsPage(w, old_, x) && OwnsPage(w, new_, x) && SamePage(w, old_, new_, x))
  }

  ghost predicate SamePage(w: World, r: nat, s: nat, x: nat)
    requires r in w.trees && s in w.trees
  {
    var (e, f) := (EntryAt(w, r, x), EntryAt(w, s, x));
    && Flags(e) == Flags(f) && Ppn(e) != Ppn(f) && IsData(w.mem, Ppn(e)) && IsData(w.mem, Ppn(f))
    && w.mem[Ppn(e)].bytes == w.mem[Ppn(f)].bytes
  }

  lemma StillOwned(w: World, w': World, r: nat, n: nat, n': nat, s: nat, x: nat)
    requires Grew(w, w', r, n, n') && s in w.trees && (s != r || x < n) && OwnsPage(w, s, x)
    ensures s in w'.trees && EntryAt(w', s, x) == EntryAt(w, s, x) && OwnsPage(w', s, x)
    ensures Ppn(EntryAt(w, s, x)) in w.mem && Ppn(EntryAt(w, s, x)) in w'.mem
    ensures w'.mem[Ppn(EntryAt(w, s, x))] == w.mem[Ppn(EntryAt(w, s, x))]
  {
    hide EntryAt, V, Ppn;
    assert EntryAt(w', s, x) == EntryAt(w, s, x);
  }

  lemma SamePageStill(w: World, w': World, r: nat, s: nat, a: nat, x: nat)
    requires Grew(w, w', s, a, a + 1) && r != s && x < a && r in w.trees && s in w.trees
    requires OwnsPage(w, r, x) && OwnsPage(w, s, x) && SamePage(w, r, s, x)
    ensures r in w'.trees && s in w'.trees && OwnsPage(w', r, x) && OwnsPage(w', s, x) && SamePage(w', r, s, x)
  {
    StillOwned(w, w', s, a, a + 1, r, x);
    StillOwned(w, w', s, a, a + 1, s, x);
  }

  lemma CopyStep(w: World, w': World, r: nat, s: nat, a: nat, bytes: seq<Byte>)
    requires CopyOf(w, r, s, a) && r != s && Grew(w, w', s, a, a + 1)
    requires OwnsPage(w, r, a) && IsData(w.mem, Ppn(EntryAt(w, r, a))) && bytes == w.mem[Ppn(EntryAt(w, r, a))].bytes
    requires Holds(w', s, a, Flags(EntryAt(w, r, a)), bytes)
    ensures CopyOf(w', r, s, a + 1)
  {
    var e := EntryAt(w, r, a);
    StillOwned(w, w', s, a, a + 1, r, a);
    CopiedFlags(e, EntryAt(w', s, a));
    hide EntryAt, V, Ppn, Flags, Entry;
    forall x | 0 <= x < a + 1 ensures OwnsPage(w', r, x) && OwnsPage(w', s, x) && SamePage(w', r, s, x) {
      if x < a {
        SamePageStill(w, w', r, s, a, x);
      } else {
        assert OwnsPage(w', s, a);
      }
    }
  }

  lemma CopiedFlags(e: nat, f: nat)
    requires V(e) && f == Entry(Ppn(f), Flags(e))
    ensures Flags(f) == Flags(e)
  {
    assert V(Flags(e));
    EntryFields(Ppn(f), Flags(e));
  }

  /** The entry of a page a process owns, and the page itself, as uvmcopy reads them. */
  lemma OwnedEntry(lo: nat, hi: nat, w: World, r: nat, x: nat)
    requires Ok(lo, hi, w) && r in w.trees && OwnsPage(w, r, x)
    ensures var e := EntryAt(w, r, x);
            e != 0 && V(e) && IsData(w.mem, Ppn(e)) && Flags(e) < 1024 && Rwx(Flags(e)) && x < MAXPAGE
  {
    var e := EntryAt(w, r, x);
    ZeroFields();
    assert Rwx(e) by {
      var n := Leaf(x / 512);
      assert NodeOk(w.mem, w.use, r, w.trees[r], n);
      assert EntryOk(w.mem, w.trees[r], n, x % 512);
    }
    HighFlags(e / 1024, e % 1024);
    assert MapsTo(w.mem, w.trees, r, x, Ppn(e));
  }

  lemma EntryAtIs(w: World, r: nat, x: nat)
    requires r in w.trees
    ensures EntryAt(w, r, x) == Lookup(w.mem, w.trees[r], x)
  {
  }

  /** The next page uvmcopy reads is as it was at the start. */
  lemma SourcePage(lo: nat, hi: nat, w: World, w1: World, r: nat, s: nat, n: nat, i: nat, fr: set<nat>)
    requires Ok(lo, hi, w1) && Space(w, r, n, fr) && i < n && r != s && Grew(w, w1, s, 0, i)
    ensures r in w1.trees && OwnsPage(w1, r, i) && i < MAXPAGE
    ensures var e := EntryAt(w1, r, i); e != 0 && V(e) && IsData(w1.mem, Ppn(e)) && Flags(e) < 1024 && Rwx(Flags(e))
    ensures Lookup(w1.mem, w1.trees[r], i) != 0
  {
    assert OwnsPage(w, r, i);
    StillOwned(w, w1, s, 0, i, r, i);
    OwnedEntry(lo, hi, w1, r, i);
  }

  /** A new empty table r; nothing else has changed. */
  ghost predicate Created(w: World, w': World, r: nat) {
    && r !in w.trees && w'.trees.Keys == w.trees.Keys + {r} && SameLookups(w, w')
    && r in w.use && w.use[r].Free? && w'.use == w.use[r := TableOf(r, Sv39.Root)]
    && (forall q :: q in w.mem && q != r ==> q in w'.mem && w'.mem[q] == w.mem[q])
    && (forall q :: q in w.use ==> q in w.mem)
  }

  lemma PlantIs(w: World, p: nat, w': World)
    requires w' == Plant(w, p)
    ensures w'.mem == w.mem[p := Table(ZeroPtes())] && w'.use == w.use[p := TableOf(p, Sv39.Root)]
    ensures w'.trees.Keys == w.trees.Keys + {p} && w'.freelist == w.freelist && w'.free == w.free
    ensures w'.trees[p].Keys == {Sv39.Root}
  {
  }

  lemma DataMapped(lo: nat, hi: nat, w: World)
    requires Ok(lo, hi, w)
    ensures forall q :: q in w.use && w.use[q].DataOf? ==> MapsTo(w.mem, w.trees, w.use[q].r, w.use[q].v, q)
  {
  }

  lemma CreatedSpace(lo: nat, hi: nat, w: World, w1: World, w2: World, r: nat)
    requires Ok(lo, hi, w2) && |w.free| > 0 && r == w.free[|w.free| - 1] && r in w.use && w.use[r].Free?
    requires w1 == Take(w)
    requires w2 == Plant(w1, r) && r !in w.trees && SameLookups(w, w1) && SameLookups(w1, w2)
    requires (forall v: nat :: Lookup(w2.mem, w2.trees[r], v) == 0) && (forall q :: q in w.use ==> q in w.mem)
    ensures Created(w, w2, r) && Space(w2, r, 0, {})
  {
    hide Extent, FreeOk, TreesOk, DataOk, UserOk, Lookup, SameLookups;
    SameLookupsTrans(w, w1, w2);
    PlantIs(w1, r, w2);
    DataMapped(lo, hi, w2);
    ZeroFields();
    forall x: nat ensures EntryAt(w2, r, x) == 0 {
      EntryAtIs(w2, r, x);
    }
    assert w2.use == w.use[r := TableOf(r, Sv39.Root)];
  }

  lemma UprootParts(w: World, r: nat)
    ensures Uproot(w, r).mem == w.mem && Uproot(w, r).freelist == w.freelist && Uproot(w, r).free == w.free
    ensures Uproot(w, r).trees == w.trees - {r}
    ensures forall p :: p in TablePages(w, r) ==> p in Uproot(w, r).use && Uproot(w, r).use[p].Held?
  {
  }

  lemma ClearedTrees(w: World, w1: World, r: nat)
    requires RangeCleared(w, w1, r, 0, 0) || exists n: nat :: RangeCleared(w, w1, r, 0, n)
    ensures w1.trees == w.trees
  {
  }
}
