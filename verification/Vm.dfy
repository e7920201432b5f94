/**
 kalloc.c and vm.c. Physical and virtual addresses that the code checks to be page-aligned are page
 numbers here; a pointer to an entry is the table page and the index in it.
 */
module Vm {
  import opened Sv39
  import opened PhysMem
  import opened PageSteps
  import opened PageGraft
  import opened PageMap
  import opened PageFree
  import opened PageNeed
  import opened PageRange
  import opened PageSpace
  import opened PageLife
  import opened PageBytes
  import opened PageView

  class Memory {
    const lo: nat
    const hi: nat
    var mem: map<nat, Page>
    var freelist: nat
    ghost var use: map<nat, Use>
    ghost var free: seq<nat>
    ghost var trees: map<nat, Tree>

    ghost function Now(): World
      reads this
    {
      World(mem, freelist, use, free, trees)
    }

    ghost predicate Valid()
      reads this
    {
      Ok(lo, hi, Now()) && hi - lo <= 0x8000
    }

    method Kfree(p: nat)
      requires Pool(lo, hi, Now()) && p in use && !use[p].Free?
      modifies this
      ensures Now() == Give(old(Now()), p) && Pool(lo, hi, Now())
    {
      GivePool(lo, hi, Now(), p);
      mem := mem[p := Run(freelist)];
      freelist := p;
      use, free := use[p := Free(|free|)], free + [p];
    }

    /** Null exactly when no page is free. */
    method Kalloc() returns (p: nat)
      requires Valid()
      modifies this
      ensures Valid() && (p == 0 <==> |old(free)| == 0)
      ensures p == 0 ==> Now() == old(Now())
      ensures p != 0 ==> p == old(free)[|old(free)| - 1] && Now() == Take(old(Now()))
    {
      hide Extent, FreeOk, TreesOk, DataOk, UserOk, SameLookups;
      p := freelist;
      FreeHead(lo, hi, Now());
      if p != 0 {
        TakeOk(lo, hi, Now());
        freelist := mem[p].next;
        mem := mem[p := Data(Fill(5))];
        use, free := use[p := Held], free[..|free| - 1];
      }
    }

    /** A new table page for node n: taken, zeroed, and entered in its parent. */
    method Extend(pt: nat, i: nat, ghost r: nat, ghost n: Node) returns (p: nat)
      requires Valid() && r in trees && n !in trees[r] && !n.Root? && (n.Mid? ==> n.i < 512)
      requires Parent(n) in trees[r] && pt == trees[r][Parent(n)] && i == Slot(n)
      modifies this
      ensures Valid() && (p == 0 <==> |old(free)| == 0) && (p == 0 ==> Now() == old(Now()))
      ensures p != 0 ==> Undisturbed(old(Now()), Now(), r) && SameLookups(old(Now()), Now())
                         && trees == WithNode(old(trees), r, n, p) && |free| == |old(free)| - 1
    {
      hide TreesOk, FreeOk, Extent, DataOk, UserOk, SameLookups, Undisturbed;
      ghost var w := Now();
      NodeTable(w, r, Parent(n));
      p := Kalloc();
      if p == 0 {
        return;
      }
      TakeQuiet(lo, hi, w);
      ghost var w1 := Now();
      NodeTable(w1, r, Parent(n));
      ghost var w2 := Graft(w1, r, n, p);
      GraftOk(lo, hi, w1, r, n, p, w2);
      GraftQuiet(w, w1, r, n, p, pt, w2);
      TakeOk(lo, hi, w);
      SameLookupsTrans(w, w1, w2);
      mem := mem[p := Table(ZeroPtes())];
      mem := mem[pt := Table(mem[pt].ptes[i := Branch(p)])];
      use, trees := w2.use, w2.trees;
    }

    /** The table that holds the entry for page v, or null. Never changes the flat map. */
    method Walk(r: nat, v: nat, alloc: bool) returns (pt: nat)
      requires Valid() && r in trees && v < MAXPAGE
      modifies this
      ensures Valid() && Undisturbed(old(Now()), Now(), r) && SameLookups(old(Now()), Now())
      ensures pt != 0 ==> HasSlot(Now(), r, v) && pt == trees[r][Leaf(v / 512)]
      ensures if alloc then (pt != 0 <==> Enough(old(Now()), r, v, v + 1, 0)) else Now() == old(Now())
      ensures alloc && pt != 0 ==> Spent(old(Now()), Now(), r, v, v + 1, 0)
      ensures pt == 0 ==> if alloc then |free| == 0 else Lookup(mem, trees[r], v) == 0
    {
      hide TreesOk, FreeOk, Extent, DataOk, UserOk, SameLookups, Lookup, V, Branch, Enough, Spent, Descended;
      pt := r;
      ghost var w := Now();
      RootHere(w, r);
      NodeTable(w, r, Root);
      UndisturbedRefl(lo, hi, w, r);
      WalkStart(w, r, v);
      var level := 2;
      while level > 0
        invariant 0 <= level <= 2 && Valid() && r in trees
        invariant Undisturbed(w, Now(), r) && SameLookups(w, Now()) && (!alloc ==> Now() == w)
        invariant Descended(w, Now(), r, level, v)
        invariant Path(level, v) in trees[r] && pt == trees[r][Path(level, v)]
      {
        ghost var n := Path(level - 1, v);
        StepDown(Now(), r, level, v);
        var pte := mem[pt].ptes[Px(level, v)];
        ghost var w1 := Now();
        if V(pte) {
          pt := Ppn(pte);
        } else {
          if !alloc {
            return 0;
          }
          pt := Extend(pt, Px(level, v), r, n);
          if pt == 0 {
            WalkStuck(w, w1, r, level, v);
            return 0;
          }
          Chain(w, w1, Now(), r);
        }
        WalkStep(w, w1, Now(), r, level, v);
        level := level - 1;
      }
      NodeTable(Now(), r, Leaf(v / 512));
      PageNotNull(lo, hi, Now(), pt);
      WalkEnd(w, Now(), r, v);
    }

    /** Writes the entry for page a, the next of a range, in its table pt. */
    method MapOne(r: nat, pt: nat, a: nat, pa: nat, perm: nat, ghost own: bool, ghost w: World, ghost v: nat,
                  ghost p: nat, ghost m: nat)
      requires Valid() && Mappable(Now(), r, a, pa, perm, own) && pt == trees[r][Leaf(a / 512)] && a == v + m
      requires pa == p + m && RangeMapped(w, Now(), r, v, m, p, perm) && RangeOwned(w, Now(), r, v, m, p, own)
      modifies this
      ensures Valid() && trees == old(trees) && free == old(free)
      ensures RangeMapped(w, Now(), r, v, m + 1, p, perm) && RangeOwned(w, Now(), r, v, m + 1, p, own)
    {
      hide TreesOk, FreeOk, Extent, DataOk, UserOk, Lookup, V, Entry, Rwx, U, RangeMapped, RangeOwned, ChangedAt,
           Mapped, Put;
      ghost var w2 := Now();
      ghost var w3 := Mapped(w2, r, a, pa, perm, own);
      MappedOk(lo, hi, w2, r, a, pa, perm, own, w3);
      MappedIs(w2, r, a, pa, perm, own, pt, w3);
      mem := mem[pt := Table(mem[pt].ptes[Px(0, a) := Entry(pa, perm)])];
      use := w3.use;
      assert Now() == w3;
      RangeStepMap(w, w2, w3, r, v, p, perm, m);
      NodeTable(w2, r, Leaf(a / 512));
      RangeStepUse(w, w2, w3, r, v, p, own, m, pt);
    }

    /** Enters n pages; on failure, which means no page is left, the first m of them stay entered. */
    method Mappages(r: nat, v: nat, n: nat, p: nat, perm: nat, ghost own: bool) returns (ok: bool, ghost m: nat)
      requires Valid() && CanMap(Now(), r, v, n, p, perm, own)
      modifies this
      ensures Valid() && (if ok then m == n else m < n && |free| == 0)
      ensures RangeMapped(old(Now()), Now(), r, v, m, p, perm) && RangeOwned(old(Now()), Now(), r, v, m, p, own)
      ensures ok <==> Enough(old(Now()), r, v, v + n, 0)
      ensures ok ==> Spent(old(Now()), Now(), r, v, v + n, 0)
    {
      hide TreesOk, FreeOk, Extent, DataOk, UserOk, SameLookups, Lookup, V, Entry, Rwx, U, Undisturbed, RangeMapped,
           RangeOwned, ChangedAt, Mapped, Put, Enough, Spent;
      ghost var w := Now();
      RangeStart(lo, hi, w, r, v, p, perm, own);
      SpentNothing(w, r, v);
      m := 0;
      var a, pa, last := v, p, v + n - 1;
      while true
        invariant Valid() && m < n && a == v + m && pa == p + m
        invariant RangeMapped(w, Now(), r, v, m, p, perm) && RangeOwned(w, Now(), r, v, m, p, own)
        invariant Spent(w, Now(), r, v, a, 0)
        decreases n - m
      {
        ghost var w1 := Now();
        RangeNext(w, w1, r, v, n, p, perm, own, m);
        var pt := Walk(r, a, true);
        if pt == 0 {
          RangeSame(w, w1, Now(), r, v, p, perm, own, m);
          ShortStep(w, w1, r, v, a, 0, 0, v + n, 0);
          return false, m;
        }
        ghost var w2 := Now();
        ReadyToMap(lo, hi, w1, w2, r, a, pa, perm, own);
        RangeSame(w, w1, w2, r, v, p, perm, own, m);
        MapOne(r, pt, a, pa, perm, own, w, v, p, m);
        SpentStep(w, w1, w2, r, v, a, 0, 0);
        SpentSame(w, w2, Now(), r, v, a + 1, 0);
        m := m + 1;
        if a == last {
          SpentEnough(w, Now(), r, v, v + n, 0);
          return true, m;
        }
        a, pa := a + 1, pa + 1;
      }
    }

    /** Clears n entries, and frees the pages behind them if asked to; panics at the first page that has no leaf. */
    method Uvmunmap(r: nat, v: nat, n: nat, doFree: bool) returns (panicked: bool, ghost k: nat)
      requires Valid() && CanUnmap(Now(), r, v, n, doFree)
      modifies this
      ensures Valid() && RangeCleared(old(Now()), Now(), r, v, k) && RangeFreed(old(Now()), Now(), r, v, k)
      ensures forall x :: v <= x < v + k ==> LeafAt(old(Now()), r, x)
      ensures if panicked then k < n && !LeafAt(old(Now()), r, v + k) else k == n
      ensures panicked <==> exists x :: v <= x < v + n && !LeafAt(old(Now()), r, x)
    {
      hide TreesOk, FreeOk, Extent, DataOk, UserOk, RangeCleared, RangeFreed, CanUnmap, LeafAt;
      ghost var w := Now();
      ClearStart(lo, hi, w, r, v);
      UnmapTree(w, r, v, n, doFree);
      var a := v;
      while a < v + n
        invariant v <= a <= v + n && Valid() && CanUnmap(Now(), r, a, v + n - a, doFree)
        invariant RangeCleared(w, Now(), r, v, a - v) && RangeFreed(w, Now(), r, v, a - v)
        invariant forall x :: v <= x < a ==> LeafAt(w, r, x)
      {
        ghost var w1 := Now();
        LeafKept(w, w1, r, v, a - v, a);
        panicked := UnmapPage(r, a, v + n - a, doFree);
        if panicked {
          return true, a - v;
        }
        ClearStep(w, w1, Now(), r, v, a - v);
        FreeStep(w, w1, Now(), r, v, a - v);
        a := a + 1;
      }
      return false, n;
    }

    /** One round of uvmunmap. */
    method UnmapPage(r: nat, a: nat, ghost k: nat, doFree: bool) returns (panicked: bool)
      requires Valid() && k > 0 && CanUnmap(Now(), r, a, k, doFree) && r in trees
      modifies this
      ensures panicked <==> !LeafAt(old(Now()), r, a)
      ensures panicked ==> Now() == old(Now())
      ensures !panicked ==> Valid() && CanUnmap(Now(), r, a + 1, k - 1, doFree) && trees == old(trees)
      ensures !panicked ==> ChangedAt(old(Now()), Now(), r, a, 0) && FreedAt(old(Now()), Now(), r, a)
    {
      hide TreesOk, FreeOk, Extent, DataOk, UserOk, Lookup, ChangedAt, FreedAt, CanUnmap, V, Ppn, Give, Put;
      ghost var w := Now();
      ZeroFields();
      if a >= MAXPAGE {
        return true;
      }
      var pt := Walk(r, a, false);
      if pt == 0 {
        return true;
      }
      SlotOf(w, r, a, pt);
      var pte := mem[pt].ptes[Px(0, a)];
      if !V(pte) || Flags(pte) == 1 {
        return true;
      }
      panicked := false;
      UnmapFirst(w, r, a, k, doFree);
      NodeTable(w, r, Leaf(a / 512));
      if doFree {
        var p := Ppn(pte);
        ghost var w2 := Dropped(w, r, a, p);
        DroppedOk(lo, hi, w, r, a, p, w2);
        DroppedAt(lo, hi, w, r, a, p, pt, w2);
        Kfree(p);
        DropOrder(w, r, a, p, pt, Now());
        mem := mem[pt := Table(mem[pt].ptes[Px(0, a) := 0])];
        assert Now() == w2;
        UnmapNext(w, w2, r, a, k, doFree);
      } else {
        ghost var w2 := Put(w, r, a, 0);
        EmptiedOk(lo, hi, w, r, a, w2);
        ClearedAt(lo, hi, w, r, a, pt, w2);
        PutIs(w, r, a, 0, pt, w2);
        mem := mem[pt := Table(mem[pt].ptes[Px(0, a) := 0])];
        assert Now() == w2;
        UnmapNext(w, w2, r, a, k, doFree);
      }
    }

    /** A page holding these bytes, held by the caller. */
    method FilledPage(bytes: seq<Byte>) returns (p: nat)
      requires Valid() && |bytes| == 4096
      modifies this
      ensures Valid() && (p == 0 <==> |old(free)| == 0) && (p == 0 ==> Now() == old(Now()))
      ensures p != 0 ==> Took(old(Now()), Now(), p, bytes) && |free| == |old(free)| - 1
    {
      hide TreesOk, DataOk, UserOk, SameLookups, Lookup;
      ghost var w := Now();
      p := Kalloc();
      if p != 0 {
        TakeOk(lo, hi, w);
        TakeQuiet(lo, hi, w);
        ghost var w1 := Now();
        StoreOk(lo, hi, w1, p, bytes);
        mem := mem[p := Data(bytes)];
        SameLookupsTrans(w, w1, Now());
      }
    }

    /** One round of uvmalloc or uvmcopy: a new page a, all or nothing. */
    method AddPage(r: nat, a: nat, perm: nat, bytes: seq<Byte>, ghost fixed: set<nat>) returns (ok: bool)
      requires Valid() && Space(Now(), r, a, fixed) && perm < 1024 && Rwx(perm) && |bytes| == 4096
      modifies this
      ensures Valid() && a < hi - lo
      ensures ok ==> Grew(old(Now()), Now(), r, a, a + 1) && Holds(Now(), r, a, perm, bytes)
      ensures !ok ==> Undisturbed(old(Now()), Now(), r) && SameLookups(old(Now()), Now())
      ensures ok <==> Enough(old(Now()), r, a, a + 1, 1)
      ensures ok ==> Spent(old(Now()), Now(), r, a, a + 1, 1)
    {
      hide TreesOk, FreeOk, DataOk, UserOk, Extent, SameLookups, Lookup, Undisturbed, Grew, Took, Holds, RangeMapped,
           RangeOwned, CanMap, Give, Spent, Tables;
      ghost var w := Now();
      RootHere(w, r);
      NodeTable(w, r, Root);
      SpaceBound(lo, hi, w, r, a, fixed, r);
      var p := FilledPage(bytes);
      if p == 0 {
        UndisturbedRefl(lo, hi, w, r);
        return false;
      }
      ghost var w2 := Now();
      TookReady(w, w2, r, a, p, perm, fixed, bytes);
      ghost var m;
      ok, m := Mappages(r, a, 1, p, perm, true);
      ghost var w3 := Now();
      TookTrees(w, w2, p, bytes);
      SetAside(w, w2, w3, r, a);
      if ok {
        TookGrew(w, w2, w3, r, a, p, perm, bytes);
      } else {
        TookUndone(w, w2, w3, r, a, p, perm, bytes);
        GiveOk(lo, hi, w3, p);
        Kfree(p);
        SameLookupsTrans(w, w3, Now());
      }
    }

    /**
     Shrinks from oldsz to newsz bytes a process that has n pages, and returns the new size. It panics
     exactly when there is a page to free and oldsz lies above the pages there are; by then it has freed
     those of them that lie above newsz.
     */
    method Uvmdealloc(r: nat, oldsz: nat, newsz: nat, ghost n: nat, ghost fixed: set<nat>)
      returns (sz: nat, panicked: bool, ghost k: nat)
      requires Valid() && Space(Now(), r, n, fixed) && PgUp(oldsz) <= TRAPFRAME
      modifies this
      ensures Valid() && sz == (if newsz < oldsz then newsz else oldsz) && PgUp(sz) <= PgUp(oldsz)
      ensures panicked <==> PgUp(sz) < PgUp(oldsz) && n < PgUp(oldsz)
      ensures k == if n < PgUp(oldsz) then (if PgUp(sz) < n then n - PgUp(sz) else 0) else PgUp(oldsz) - PgUp(sz)
      ensures RangeCleared(old(Now()), Now(), r, PgUp(sz), k) && RangeFreed(old(Now()), Now(), r, PgUp(sz), k)
      ensures PgUp(sz) == PgUp(oldsz) ==> Now() == old(Now())
      ensures n == PgUp(oldsz) ==> Space(Now(), r, PgUp(sz), fixed)
    {
      hide Space, TreesOk, FreeOk, DataOk, UserOk, Extent, RangeCleared, RangeFreed, CanUnmap, PgUp, LeafAt;
      ghost var w := Now();
      panicked, k := false, 0;
      SpaceTree(w, r, n, fixed);
      ClearStart(lo, hi, w, r, PgUp(newsz));
      ClearStart(lo, hi, w, r, PgUp(oldsz));
      if newsz >= oldsz {
        sz := oldsz;
        return;
      }
      sz := newsz;
      PgUpMonotone(newsz, oldsz);
      if PgUp(newsz) < PgUp(oldsz) {
        var npages := PgUp(oldsz) - PgUp(newsz);
        SpaceCanUnmap(w, r, n, PgUp(newsz), PgUp(oldsz), fixed);
        panicked, k := Uvmunmap(r, PgUp(newsz), npages, true);
        assert k > 0 ==> LeafAt(w, r, PgUp(newsz) + k - 1);
        if n == PgUp(oldsz) {
          ShrunkSpace(w, Now(), r, PgUp(newsz), PgUp(oldsz), fixed);
        }
      }
    }

    /**
     Grows to newsz bytes, or, exactly when the new pages and the missing tables outnumber the free pages,
     gives back every page it took.
     */
    method Uvmalloc(r: nat, oldsz: nat, newsz: nat, xperm: nat, ghost fixed: set<nat>) returns (sz: nat, ghost ok: bool)
      requires Valid() && Space(Now(), r, PgUp(oldsz), fixed) && xperm in {0, 4, 8, 12}
      modifies this
      ensures Valid() && sz == (if !ok then 0 else if newsz < oldsz then oldsz else newsz)
      ensures ok && newsz < oldsz ==> Now() == old(Now())
      ensures ok && newsz >= oldsz ==> PgUp(oldsz) <= PgUp(newsz) && Space(Now(), r, PgUp(newsz), fixed)
                                       && Grew(old(Now()), Now(), r, PgUp(oldsz), PgUp(newsz))
                                       && Zeroed(Now(), r, PgUp(oldsz), PgUp(newsz), 18 + xperm)
      ensures !ok ==> Undisturbed(old(Now()), Now(), r) && SameLookups(old(Now()), Now())
                      && Space(Now(), r, PgUp(oldsz), fixed)
      ensures ok <==> newsz < oldsz || Enough(old(Now()), r, PgUp(oldsz), PgUp(newsz), PgUp(newsz) - PgUp(oldsz))
    {
      hide Space, TreesOk, FreeOk, DataOk, UserOk, Extent, RangeCleared, RangeFreed, Grew, Undisturbed, SameLookups,
           Lookup, PgUp, Fill, Enough, Spent;
      if newsz < oldsz {
        return oldsz, true;
      }
      var perm := 18 + xperm;
      assert Rwx(perm);
      ghost var w := Now();
      var first := PgUp(oldsz);
      SpaceTree(w, r, first, fixed);
      GrewNothing(lo, hi, w, r, first);
      SpentNothing(w, r, first);
      PgUpMonotone(oldsz, newsz);
      var a := first;
      PgUpBounds(newsz, a);
      while a * 4096 < newsz
        invariant first <= a <= PgUp(newsz) && a <= TRAPFRAME && Valid()
        invariant Space(Now(), r, a, fixed) && Grew(w, Now(), r, first, a) && Zeroed(Now(), r, first, a, perm)
        invariant Spent(w, Now(), r, first, a, a - first)
        invariant a * 4096 < newsz <==> a < PgUp(newsz)
        decreases PgUp(newsz) - a
      {
        ghost var w1 := Now();
        var got := AddPage(r, a, perm, Fill(0), fixed);
        if !got {
          ShortStep(w, w1, r, first, a, a - first, 1, PgUp(newsz), PgUp(newsz) - first);
          Rollback(r, first, a, fixed, w, w1);
          return 0, false;
        }
        SpentStep(w, w1, Now(), r, first, a, a - first, 1);
        GrewTrans(w, w1, Now(), r, first, a);
        GrewSpace(w1, Now(), r, a, a + 1, fixed);
        ZeroedStep(w1, Now(), r, first, a, perm);
        a := a + 1;
        PgUpBounds(newsz, a);
      }
      SpentEnough(w, Now(), r, first, a, a - first);
      return newsz, true;
    }

    /** uvmalloc's way out: back to first pages. */
    method Rollback(r: nat, first: nat, a: nat, ghost fixed: set<nat>, ghost w: World, ghost w1: World)
      requires Valid() && first <= a && Space(w, r, first, fixed) && Space(w1, r, a, fixed)
      requires Grew(w, w1, r, first, a) && Undisturbed(w1, Now(), r) && SameLookups(w1, Now())
      modifies this
      ensures Valid() && Undisturbed(w, Now(), r) && SameLookups(w, Now()) && Space(Now(), r, first, fixed)
    {
      hide Space, TreesOk, FreeOk, DataOk, UserOk, Extent, RangeCleared, RangeFreed, Grew, Undisturbed, SameLookups,
           Lookup, PgUp;
      ghost var w2 := Now();
      GrewSame(w, w1, w2, r, first, a);
      SpaceSame(w1, w2, r, a, fixed);
      PgUpMonotone(a, a);
      PgUpMonotone(first, first);
      SpaceTree(w2, r, a, fixed);
      var sz, panicked;
      ghost var k;
      sz, panicked, k := Uvmdealloc(r, a * 4096, first * 4096, a, fixed);
      if first == a {
        ClearStart(lo, hi, w2, r, first);
      }
      GrewUndone(w, w2, Now(), r, first, a, fixed);
    }

    /** Frees the table page pt and, recursively, every table page below it. */
    method Freewalk(pt: nat, ghost t: Tree, ghost pos: map<nat, Node>, ghost n: Node)
      requires Pool(lo, hi, Now()) && n in t && pt == t[n] && Inverse(t, pos) && StandsUnder(mem, use, t, n)
      requires forall m :: m in t && !m.Root? ==> Parent(m) in t
      modifies this
      ensures Pool(lo, hi, Now()) && Cleared(old(Now()), Now(), pos, n)
      decreases if n.Root? then 2 else if n.Mid? then 1 else 0
    {
      hide FreeOk, Inverse, StandsUnder, Clearing, Cleared, V, Rwx, Ppn;
      ghost var w := Now();
      PoolKeys(lo, hi, w);
      assert Stands(mem, use, t, n) by {
        StandsSelf(mem, use, t, n);
      }
      ClearingStart(w, t, pos, n);
      var i := 0;
      while i < 512
        invariant 0 <= i <= 512 && Pool(lo, hi, Now()) && Clearing(w, Now(), t, pos, n, i)
      {
        ghost var w1 := Now();
        PoolKeys(lo, hi, w1);
        SelfHeld(w, w1, t, pos, n, i);
        ClearingTable(w, w1, t, pos, n, i);
        EntryRead(w, w1, t, pos, n, i);
        var pte := mem[pt].ptes[i];
        if V(pte) && !Rwx(pte) {
          var child := Ppn(pte);
          ChildStands(lo, hi, w, w1, t, pos, n, i);
          Freewalk(child, t, pos, Child(n, i));
          ghost var w2 := Now();
          ChildKeepsParent(w1, w2, t, pos, n, i);
          mem := mem[pt := Table(mem[pt].ptes[i := 0])];
          ClearChild(w, w1, w2, Now(), t, pos, n, i);
          HeldPool(lo, hi, w2, pt, mem[pt]);
        } else {
          assert !V(pte);
          ClearNothing(w, w1, t, pos, n, i);
        }
        i := i + 1;
      }
      SelfHeld(w, Now(), t, pos, n, 512);
      PoolKeys(lo, hi, Now());
      ClearSelf(w, Now(), t, pos, n);
      Kfree(pt);
    }

    /** Frees the n pages of r's memory and then its table. */
    method Uvmfree(r: nat, sz: nat)
      requires Valid() && Space(Now(), r, PgUp(sz), {})
      modifies this
      ensures Valid() && Released(old(Now()), Now(), r)
    {
      hide Space, TreesOk, FreeOk, DataOk, UserOk, RangeCleared, RangeFreed, CanUnmap, LeafAt, Released, Cleared,
           Uproot, TablePages, PgUp, Inverse, StandsUnder, SameLookups, Lookup;
      ghost var w := Now();
      var n := PgUp(sz);
      PgUpMonotone(0, sz);
      SpaceTree(w, r, n, {});
      SpaceCanUnmap(w, r, n, 0, n, {});
      ClearStart(lo, hi, w, r, 0);
      if sz > 0 {
        var panicked;
        ghost var k;
        panicked, k := Uvmunmap(r, 0, n, true);
        assert !panicked;
      }
      ghost var w1 := Now();
      ShrunkSpace(w, w1, r, 0, n, {});
      SpaceTree(w1, r, 0, {});
      SpaceEmpty(lo, hi, w1, r);
      UprootOk(lo, hi, w1, r);
      UprootStands(w1, r);
      UprootParts(w1, r);
      ghost var t, pos := trees[r], TablePages(w1, r);
      RootHere(w1, r);
      ghost var w2 := Uproot(w1, r);
      use, trees := w2.use, w2.trees;
      Freewalk(r, t, pos, Root);
      ClearedOk(lo, hi, w2, Now(), pos, Root);
      ClearedTrees(w, w1, r);
      ReleasedAll(lo, hi, w, w1, Now(), r, n);
    }

    /** An empty table, or null when no page is free. */
    method Uvmcreate() returns (r: nat)
      requires Valid()
      modifies this
      ensures Valid() && (r == 0 <==> |old(free)| == 0) && (r == 0 ==> Now() == old(Now()))
      ensures r != 0 ==> Created(old(Now()), Now(), r) && Space(Now(), r, 0, {})
                         && r in trees && trees[r].Keys == {Root} && |free| == |old(free)| - 1
    {
      hide TreesOk, FreeOk, DataOk, UserOk, SameLookups, Lookup, Space, Created, Plant;
      ghost var w := Now();
      r := Kalloc();
      if r != 0 {
        TakeOk(lo, hi, w);
        TakeQuiet(lo, hi, w);
        ghost var w1 := Now();
        ghost var w2 := Plant(w1, r);
        PlantOk(lo, hi, w1, r, w2);
        PlantIs(w1, r, w2);
        mem := mem[r := Table(ZeroPtes())];
        use, trees := w2.use, w2.trees;
        CreatedSpace(lo, hi, w, w1, w2, r);
      }
    }

    /**
     Copies r's memory into the empty process s, or, exactly when there are too few free pages, gives back
     every page it took.
     */
    method Uvmcopy(r: nat, s: nat, sz: nat, ghost fr: set<nat>, ghost fs: set<nat>) returns (ok: bool)
      requires Valid() && r != s && Space(Now(), r, PgUp(sz), fr) && Space(Now(), s, 0, fs)
      modifies this
      ensures Valid()
      ensures ok ==> CopyOf(Now(), r, s, PgUp(sz)) && Grew(old(Now()), Now(), s, 0, PgUp(sz))
                     && Space(Now(), s, PgUp(sz), fs)
      ensures !ok ==> Undisturbed(old(Now()), Now(), s) && SameLookups(old(Now()), Now()) && Space(Now(), s, 0, fs)
      ensures ok <==> Enough(old(Now()), s, 0, PgUp(sz), PgUp(sz))
    {
      hide Space, TreesOk, FreeOk, DataOk, UserOk, Extent, RangeCleared, RangeFreed, Grew, Undisturbed, SameLookups,
           Lookup, PgUp, V, Rwx, Ppn, Flags, EntryAt, OwnsPage, Holds, Enough, Spent;
      ghost var w := Now();
      ghost var n := PgUp(sz);
      SpaceTree(w, r, n, fr);
      SpaceTree(w, s, 0, fs);
      GrewNothing(lo, hi, w, s, 0);
      SpentNothing(w, s, 0);
      PgUpBounds(sz, 0);
      var i := 0;
      while i * 4096 < sz
        invariant 0 <= i <= n && i <= TRAPFRAME && Valid() && r in trees && s in trees
        invariant Space(Now(), s, i, fs) && Grew(w, Now(), s, 0, i) && CopyOf(Now(), r, s, i)
        invariant Spent(w, Now(), s, 0, i, i)
        invariant i * 4096 < sz <==> i < n
        decreases n - i
      {
        ghost var w1 := Now();
        SourcePage(lo, hi, w, w1, r, s, n, i, fr);
        var pt := Walk(r, i, false);
        SlotOf(w1, r, i, pt);
        var pte := mem[pt].ptes[Px(0, i)];
        EntryAtIs(w1, r, i);
        var flags, bytes := Flags(pte), mem[Ppn(pte)].bytes;
        var got := AddPage(s, i, flags, bytes, fs);
        if !got {
          ShortStep(w, w1, s, 0, i, i, 1, n, n);
          Rollback(s, 0, i, fs, w, w1);
          return false;
        }
        SpentStep(w, w1, Now(), s, 0, i, i, 1);
        GrewTrans(w, w1, Now(), s, 0, i);
        GrewSpace(w1, Now(), s, i, i + 1, fs);
        CopyStep(w1, Now(), r, s, i, bytes);
        i := i + 1;
        PgUpBounds(sz, i);
      }
      SpentEnough(w, Now(), s, 0, n, n);
      return true;
    }

    /** Maps one of the fixed pages into r, or changes nothing but r's own tables. */
    method MapFixed(r: nat, x: nat, p: nat, perm: nat, ghost n: nat, ghost fixed: set<nat>) returns (ok: bool)
      requires Valid() && Space(Now(), r, n, fixed) && Fixed(x) && x !in fixed && perm < 1024 && Rwx(perm) && !U(perm)
      modifies this
      ensures Valid() && Undisturbed(old(Now()), Now(), r)
      ensures Space(Now(), r, n, if ok then fixed + {x} else fixed)
      ensures ok ==> EntryAt(Now(), r, x) == Entry(p, perm)
      ensures forall y: nat :: y != x ==> EntryAt(Now(), r, y) == old(EntryAt(Now(), r, y))
      ensures (ok <==> Enough(old(Now()), r, x, x + 1, 0)) && (ok ==> Spent(old(Now()), Now(), r, x, x + 1, 0))
    {
      hide Enough, Spent, Space, TreesOk, FreeOk, DataOk, UserOk, Extent, RangeMapped, RangeOwned, CanMap, Undisturbed,
           SameLookups, Lookup, Entry, Rwx, U, V, EntryAt;
      ghost var w := Now();
      SpaceTree(w, r, n, fixed);
      CanMapFixed(w, r, n, fixed, x, p, perm);
      ghost var m;
      ok, m := Mappages(r, x, 1, p, perm, false);
      NotOwned(w, Now(), r, x, m, p);
      OtherEntries(w, Now(), r, x, m, p, perm);
      if ok {
        SpaceMapFixed(w, Now(), r, n, fixed, x, p, perm);
      } else {
        NotMapped(w, Now(), r, x, p, perm);
        SpaceSame(w, Now(), r, n, fixed);
      }
    }

    method UnmapFixed(r: nat, x: nat, ghost n: nat, ghost fixed: set<nat>, ghost w0: World)
      requires Valid() && Space(Now(), r, n, fixed) && Fixed(x) && x in fixed && Within(w0, Now(), r)
      modifies this
      ensures Valid() && Space(Now(), r, n, fixed - {x}) && Within(w0, Now(), r)
    {
      hide Space, TreesOk, FreeOk, DataOk, UserOk, Extent, RangeCleared, RangeFreed, CanUnmap, LeafAt, Lookup, Within;
      ghost var w := Now();
      CanUnmapFixed(w, r, n, fixed, x);
      var panicked;
      ghost var k;
      panicked, k := Uvmunmap(r, x, 1, false);
      assert !panicked;
      SpaceUnmapFixed(w, Now(), r, n, fixed, x);
      WithinFreed(w0, w, Now(), r, x, 1);
    }

    /**
     A table with the two fixed pages, for which three free pages are enough and needed; or null and every
     page back.
     */
    method ProcPagetable(tramp: nat, tf: nat) returns (r: nat)
      requires Valid()
      modifies this
      ensures Valid()
      ensures r == 0 ==> Restored(old(Now()), Now())
      ensures r != 0 ==> r !in old(trees) && Space(Now(), r, 0, FixedPages()) && Within(old(Now()), Now(), r)
                         && EntryAt(Now(), r, TRAMPOLINE) == Entry(tramp, 10)
                         && EntryAt(Now(), r, TRAPFRAME) == Entry(tf, 6)
      ensures r != 0 <==> |old(free)| >= 3
    {
      hide Enough, Spent, Space, TreesOk, FreeOk, DataOk, UserOk, Undisturbed, SameLookups, Lookup, Entry, EntryAt,
           Within, Restored, Released, PgUp;
      ghost var w0 := Now();
      PgUpMonotone(0, 0);
      r := Uvmcreate();
      if r == 0 {
        RestoredRefl(lo, hi, w0);
        return;
      }
      CreatedNew(w0, Now(), r);
      NoPagesYet(w0, r);
      WithinCreated(w0, Now(), r);
      ghost var w1 := Now();
      assert Rwx(10) && !U(10);
      var ok := MapFixed(r, TRAMPOLINE, tramp, 10, 0, {});
      FreshRoot(w1, r, TRAMPOLINE);
      WithinUndisturbed(lo, hi, w0, w1, Now(), r);
      if !ok {
        Discard(r, w0);
        return 0;
      }
      assert {} + {TRAMPOLINE} == {TRAMPOLINE};
      SpaceTree(Now(), r, 0, {TRAMPOLINE});
      r := MapTrapframe(r, tf, w0, w1);
    }

    /** The rest of proc_pagetable. The two fixed pages share their tables, so its way out is never taken. */
    method MapTrapframe(r0: nat, tf: nat, ghost w0: World, ghost w1: World) returns (r: nat)
      requires r0 in trees && Valid() && Space(Now(), r0, 0, {TRAMPOLINE}) && Within(w0, Now(), r0)
      requires Spent(w1, Now(), r0, TRAMPOLINE, TRAMPOLINE + 1, 0)
      modifies this
      ensures r == r0 && r in trees && EntryAt(Now(), r, TRAPFRAME) == Entry(tf, 6)
      ensures EntryAt(Now(), r, TRAMPOLINE) == old(EntryAt(Now(), r0, TRAMPOLINE))
      ensures Valid() && Space(Now(), r, 0, FixedPages()) && Within(w0, Now(), r)
    {
      hide Enough, Spent, Space, TreesOk, FreeOk, DataOk, UserOk, Undisturbed, SameLookups, Lookup, Entry, EntryAt,
           Within, Restored, Released;
      r := r0;
      ghost var w2 := Now();
      SpaceTree(w2, r0, 0, {TRAMPOLINE});
      assert Rwx(6) && !U(6);
      var ok := MapFixed(r, TRAPFRAME, tf, 6, 0, {TRAMPOLINE});
      WithinUndisturbed(lo, hi, w0, w2, Now(), r);
      if !ok {
        UnmapFixed(r, TRAMPOLINE, 0, {TRAMPOLINE}, w0);
        assert {TRAMPOLINE} - {TRAMPOLINE} == {};
        Discard(r, w0);
        r := 0;
        SharedTables(w1, w2, r0, TRAMPOLINE, TRAPFRAME);
        assert false;
      }
      assert {TRAMPOLINE} + {TRAPFRAME} == FixedPages();
      SpaceTree(Now(), r, 0, FixedPages());
    }

    /** uvmfree of an empty process. */
    method Discard(r: nat, ghost w0: World)
      requires Valid() && Space(Now(), r, 0, {}) && Within(w0, Now(), r)
      modifies this
      ensures Valid() && Restored(w0, Now())
    {
      hide Space, TreesOk, FreeOk, DataOk, UserOk, Extent, Within, Restored, Released, PgUp;
      PgUpMonotone(0, 0);
      ghost var w := Now();
      Uvmfree(r, 0);
      WithinReleased(w0, w, Now(), r);
    }

    method ProcFreepagetable(r: nat, sz: nat, ghost w0: World)
      requires Valid() && Space(Now(), r, PgUp(sz), FixedPages()) && Within(w0, Now(), r)
      modifies this
      ensures Valid() && Restored(w0, Now())
    {
      hide Space, TreesOk, FreeOk, DataOk, UserOk, Extent, Within, Restored, Released, PgUp;
      UnmapFixed(r, TRAMPOLINE, PgUp(sz), FixedPages(), w0);
      assert FixedPages() - {TRAMPOLINE} == {TRAPFRAME};
      UnmapFixed(r, TRAPFRAME, PgUp(sz), {TRAPFRAME}, w0);
      assert {TRAPFRAME} - {TRAPFRAME} == {};
      ghost var w := Now();
      Uvmfree(r, sz);
      WithinReleased(w0, w, Now(), r);
    }

    /**
     growproc: n bytes more, or fewer when n is negative; the arithmetic is unsigned 64-bit.  The program finds
     zeros that it may overwrite in its new pages, and in the others what it had; no other process notices.
     */
    method Growproc(r: nat, sz: nat, n: int, ghost fixed: set<nat>, ghost w0: World) returns (sz': nat, ok: bool)
      requires Valid() && Space(Now(), r, PgUp(sz), fixed) && Within(w0, Now(), r) && -0x8000_0000 <= n < 0x8000_0000
      modifies this
      ensures Valid() && Space(Now(), r, PgUp(sz'), fixed) && Within(w0, Now(), r)
      ensures !ok ==> n > 0 && sz' == sz && SameLookups(old(Now()), Now())
      ensures ok <==> n <= 0 || Enough(old(Now()), r, PgUp(sz), PgUp(sz + n), PgUp(sz + n) - PgUp(sz))
      ensures ok ==> sz' == if sz + n >= 0 then sz + n else sz
      ensures sz' > sz ==> SameView(old(Now()), Now(), r, PgUp(sz), PgUp(sz'))
                           && BlankView(Now(), r, PgUp(sz), PgUp(sz')) && Zeroed(Now(), r, PgUp(sz), PgUp(sz'), 22)
      ensures sz' <= sz ==> SameView(old(Now()), Now(), r, PgUp(sz'), PgUp(sz))
                            && GoneView(Now(), r, PgUp(sz'), PgUp(sz))
    {
      hide SameView, BlankView, GoneView, Space, TreesOk, FreeOk, DataOk, UserOk, Undisturbed, SameLookups, Lookup,
           Within, Grew, Zeroed, PgUp, RangeFreed, RangeCleared, Enough;
      ghost var w := Now();
      if n > 0 {
        ghost var done;
        sz', done := Uvmalloc(r, sz, sz + n, 4, fixed);
        if sz' == 0 {
          WithinUndisturbed(lo, hi, w0, w, Now(), r);
          UndisturbedView(lo, hi, w, Now(), r);
          NarrowView(w, Now(), r, PgUp(sz));
          return sz, false;
        }
        WithinGrew(lo, hi, w0, w, Now(), r, PgUp(sz), PgUp(sz + n));
        GrewView(lo, hi, w, Now(), r, PgUp(sz), PgUp(sz + n));
        SpaceTree(Now(), r, PgUp(sz + n), fixed);
        ZeroedView(Now(), r, PgUp(sz), PgUp(sz + n));
      } else if n < 0 {
        var newsz := if sz + n >= 0 then sz + n else sz + n + 0x1_0000_0000_0000_0000;
        SpaceTree(w, r, PgUp(sz), fixed);
        var panicked;
        ghost var k;
        sz', panicked, k := Uvmdealloc(r, sz, newsz, PgUp(sz), fixed);
        ClearedView(lo, hi, w, Now(), r, PgUp(sz'), k);
        if PgUp(sz') < PgUp(sz) {
          WithinFreed(w0, w, Now(), r, PgUp(sz'), PgUp(sz) - PgUp(sz'));
        }
      } else {
        sz' := sz;
        SpaceTree(w, r, PgUp(sz), fixed);
        IdleView(w, r, PgUp(sz));
      }
      ok := true;
    }

    /**
     A process's memory over its whole life: after any sequence of growth requests, granted or
     refused, every page is back where it was.
     */
    method Lifetime(tramp: nat, tf: nat, requests: seq<int>)
      requires Valid() && forall i :: 0 <= i < |requests| ==> -0x8000_0000 <= requests[i] < 0x8000_0000
      modifies this
      ensures Valid() && Restored(old(Now()), Now())
    {
      hide Space, TreesOk, FreeOk, DataOk, UserOk, Extent, SameLookups, Within, Restored, PgUp, EntryAt, Entry;
      ghost var w0 := Now();
      var r := ProcPagetable(tramp, tf);
      if r == 0 {
        return;
      }
      PgUpMonotone(0, 0);
      ghost var fixed := FixedPages();
      var sz, i := 0, 0;
      while i < |requests|
        invariant 0 <= i <= |requests| && Valid() && Space(Now(), r, PgUp(sz), fixed) && Within(w0, Now(), r)
      {
        var ok;
        sz, ok := Growproc(r, sz, requests[i], fixed, w0);
        i := i + 1;
      }
      ProcFreepagetable(r, sz, w0);
    }

    /** The page that virtual page v of r maps to, or 0 if user code may not use it. */
    method Walkaddr(r: nat, v: nat) returns (p: nat)
      requires Valid() && r in trees
      modifies this
      ensures Now() == old(Now())
      ensures p == if Readable(Now(), r, v * 4096) then Frame(Now(), r, v) else 0
    {
      hide TreesOk, FreeOk, DataOk, UserOk, Extent, Lookup, V, U, Ppn, SameLookups, Undisturbed;
      assert v * 4096 / 4096 == v;
      if v >= MAXPAGE {
        return 0;
      }
      ZeroFields();
      EntryAtIs(Now(), r, v);
      var pt := Walk(r, v, false);
      if pt == 0 {
        return 0;
      }
      SlotOf(Now(), r, v, pt);
      var pte := mem[pt].ptes[Px(0, v)];
      if !V(pte) {
        return 0;
      }
      if !U(pte) {
        return 0;
      }
      return Ppn(pte);
    }

    /** Writes src at dstva, page by page; stops, with k bytes written, at the first byte not writable. */
    method Copyout(r: nat, dstva: nat, src: seq<Byte>) returns (ok: bool, ghost k: nat)
      requires Valid() && r in trees
      modifies this
      ensures Valid() && Written(old(Now()), Now(), r, dstva, src, k)
      ensures AllWritable(old(Now()), r, dstva, k)
      ensures if ok then k == |src| else k < |src| && !Writable(old(Now()), r, dstva + k)
    {
      hide TreesOk, FreeOk, DataOk, UserOk, Extent, Lookup, Written, Readable, Writable, SameLookups, Undisturbed,
           EntryAt;
      ghost var w := Now();
      WrittenNothing(w, r, dstva, src);
      var off, len, dst := 0, |src|, dstva;
      while len > 0
        invariant 0 <= len && off + len == |src| && (len > 0 ==> dst == dstva + off) && Valid() && r in trees
        invariant Written(w, Now(), r, dstva, src, off) && AllWritable(w, r, dstva, off)
        decreases len
      {
        ghost var w1 := Now();
        WrittenRights(w, w1, r, dstva, src, off, dst);
        var va0 := dst / 4096;
        var n := if 4096 - dst % 4096 > len then len else 4096 - dst % 4096;
        var done := CopyoutPage(r, dst, src[off..off + n]);
        if !done {
          return false, off;
        }
        WrittenStep(w, w1, Now(), r, dstva, src, off, n);
        RightsOfPart(w, r, dst, n);
        len, off, dst := len - n, off + n, (va0 + 1) * 4096;
      }
      return true, off;
    }

    /** One round of copyout, within one page. */
    method CopyoutPage(r: nat, dst: nat, part: seq<Byte>) returns (ok: bool)
      requires Valid() && r in trees && dst % 4096 + |part| <= 4096
      modifies this
      ensures Valid() && r in trees && (ok <==> Writable(old(Now()), r, dst))
      ensures if ok then Written(old(Now()), Now(), r, dst, part, |part|) else Now() == old(Now())
    {
      hide TreesOk, FreeOk, DataOk, UserOk, Extent, Lookup, Written, SameLookups, Undisturbed, V, U, Sv39.W, Ppn,
           EntryAt;
      ghost var w := Now();
      var va0 := dst / 4096;
      if va0 >= MAXPAGE {
        return false;
      }
      ZeroFields();
      EntryAtIs(w, r, va0);
      var pt := Walk(r, va0, false);
      if pt == 0 {
        return false;
      }
      SlotOf(w, r, va0, pt);
      var pte := mem[pt].ptes[Px(0, va0)];
      if !V(pte) || !U(pte) || !Sv39.W(pte) {
        return false;
      }
      var p := Ppn(pte);
      ReadableOwned(lo, hi, w, r, dst);
      ghost var w' := Store(w, p, Patch(mem[p].bytes, dst % 4096, part));
      PatchWrites(lo, hi, w, r, dst, part, p, w');
      mem := mem[p := Data(Patch(mem[p].bytes, dst % 4096, part))];
      WrittenTrees(w, w', r, dst, part);
      return true;
    }

    /** Reads len bytes at srcva; fails exactly when one of them is not readable. */
    method Copyin(r: nat, srcva: nat, len: nat) returns (ok: bool, dst: seq<Byte>)
      requires Valid() && r in trees
      modifies this
      ensures Now() == old(Now()) && |dst| <= len
      ensures AllReadable(Now(), r, srcva, |dst|) && ReadsAs(Now(), r, srcva, dst)
      ensures if ok then |dst| == len else |dst| < len && !Readable(Now(), r, srcva + |dst|)
    {
      hide TreesOk, FreeOk, DataOk, UserOk, Extent, Lookup, Readable, UByte, SameLookups, Undisturbed, EntryAt;
      ghost var w := Now();
      var left, src := len, srcva;
      dst := [];
      while left > 0
        invariant |dst| + left == len && (left > 0 ==> src == srcva + |dst|) && Now() == w
        invariant AllReadable(w, r, srcva, |dst|) && ReadsAs(w, r, srcva, dst)
        decreases left
      {
        var va0 := src / 4096;
        RightsOfPage(w, r, src, va0 * 4096);
        var p := Walkaddr(r, va0);
        if p == 0 {
          if Readable(w, r, src) {
            ReadableOwned(lo, hi, w, r, src);
          }
          return false, dst;
        }
        var n := if 4096 - src % 4096 > left then left else 4096 - src % 4096;
        PartBytes(lo, hi, w, r, src, n);
        RightsOfPart(w, r, src, n);
        var o := src % 4096;
        var part := mem[p].bytes[o..o + n];
        ReadsOn(w, r, srcva, dst, part);
        dst := dst + part;
        left, src := left - n, (va0 + 1) * 4096;
      }
      return true, dst;
    }

    /** What copyout has written, copyin reads back, across page boundaries. */
    method CopyRoundTrip(r: nat, va: nat, src: seq<Byte>) returns (ok: bool, dst: seq<Byte>)
      requires Valid() && r in trees && AllWritable(Now(), r, va, |src|)
      modifies this
      ensures Valid() && ok && dst == src
    {
      hide TreesOk, FreeOk, DataOk, UserOk, Extent, Lookup, Readable, UByte, SameLookups, EntryAt, Written;
      ghost var w := Now();
      ghost var k;
      ok, k := Copyout(r, va, src);
      WrittenReads(lo, hi, w, Now(), r, va, src);
      ok, dst := Copyin(r, va, |src|);
      SameBytes(Now(), r, va, dst, src);
    }

    /** kinit: all pages go to the free list, lowest first. */
    constructor (lo: nat, hi: nat, boot: map<nat, Page>)
      requires 0 < lo <= hi <= lo + 0x8000 && forall p :: p in boot <==> lo <= p < hi
      ensures Valid() && trees == map[] && this.lo == lo && this.hi == hi
      ensures forall p :: lo <= p < hi ==> p in use && use[p].Free?
      ensures |free| == hi - lo
    {
      hide Extent, FreeOk, TreesOk, DataOk, UserOk;
      this.lo, this.hi, mem, freelist := lo, hi, boot, 0;
      use, free, trees := map p | p in boot :: Held, [], map[];
      new;
      AllHeld(lo, hi, Now());
      var p := lo;
      while p + 1 <= hi
        invariant lo <= p <= hi && Pool(lo, hi, Now()) && trees == map[] && |free| == p - lo
        invariant forall q :: q in use <==> lo <= q < hi
        invariant forall q :: q in use ==> if q < p then use[q].Free? else use[q].Held?
      {
        Kfree(p);
        p := p + 1;
      }
      NoTrees(Now());
    }
  }

  /** uvmdealloc's panic is real: a process of one page, shrunk to nothing from a size given as two pages. */
  method DeallocBeyond(boot: map<nat, Page>) returns (m: Memory, r: nat, panicked: bool, ghost before: World)
    requires forall p :: p in boot <==> 1 <= p < 9
    ensures Space(before, r, 1, {}) && PgUp(8192) == 2 && PgUp(0) == 0 && panicked
    ensures m.Valid()
  {
    hide Space, Enough, PgUp, Ok, Created, RangeCleared, RangeFreed, Grew, Zeroed, Undisturbed, SameLookups;
    m := new Memory(1, 9, boot);
    r := m.Uvmcreate();
    FirstPage(m.Now(), r);
    SmallSizes();
    var sz;
    ghost var ok, k;
    sz, ok := m.Uvmalloc(r, 0, 4096, 4, {});
    before := m.Now();
    sz, panicked, k := m.Uvmdealloc(r, 8192, 0, 1, {});
  }

  lemma SmallSizes()
    ensures PgUp(0) == 0 && PgUp(4096) == 1 && PgUp(8192) == 2
  {
  }
}
