/**
 The user-level allocator of umalloc.c. Addresses count units of sizeof(Header), sixteen bytes, so
 a pointer plus one is the next unit; 0 is the null pointer.
 */
module Umalloc {
  import opened Counting
  import opened HeapTiling
  import opened FreeList
  import opened Heap

  datatype Sbrk = Refused | Granted(addr: int)

  // The sum is computed in 64 bits: sizeof is an unsigned long.
  function NUnits(nbytes: nat): nat { (nbytes + 15) / 16 + 1 }

  /** Header and data fit in nunits, and no smaller number would do. */
  lemma NUnitsExact(nbytes: nat, n: nat)
    ensures n * 16 >= 16 + nbytes <==> n >= NUnits(nbytes)
  {
  }

  /** What sbrk, which takes an int, makes of an unsigned 64-bit byte count. */
  function SbrkArg(bytes: nat): int {
    var low := bytes % 0x1_0000_0000;
    if low < 0x8000_0000 then low else low - 0x1_0000_0000
  }

  function CoreUnits(nu: nat): nat { if nu < 4096 then 4096 else nu }

  /** sbrk is asked for the units the new header will claim exactly when there are fewer than 2^27. */
  lemma SbrkExact(nu: nat)
    ensures SbrkArg(CoreUnits(nu) * 16) == CoreUnits(nu) * 16 <==> nu < 0x800_0000
    ensures SbrkArg(CoreUnits(nu) * 16) <= CoreUnits(nu) * 16
  {
  }

  /** Requests of four gigabytes ask sbrk for a single unit. */
  lemma SbrkWraps()
    ensures NUnits(0xFFFF_FFFF) == 0x1000_0001 && SbrkArg(CoreUnits(NUnits(0xFFFF_FFFF)) * 16) == 16
  {
  }

  /**
   The units a process has after sbrk(bytes), which answered with addr, the end of its memory before. A negative
   count takes units away at the end; if it exceeds the size of the process, growproc changes nothing.
   */
  function Given(got: set<int>, addr: int, bytes: int): set<int> {
    if bytes >= 0 then got + Range(addr, bytes / 16)
    else if 16 * addr + bytes >= 0 then set u | u in got && 16 * u < 16 * addr + bytes
    else got
  }

  /** What the headers claim is what sbrk has given. */
  ghost predicate Backs(got: set<int>, h: Heap) { forall u :: u in h.owner <==> u in got }

  /** One call of sbrk keeps this exactly for fewer than 2^27 units; beyond, the last unit claimed is not there. */
  lemma BacksExact(got: set<int>, h: Heap, h': Heap, addr: int, nu: nat, got': set<int>)
    requires Backs(got, h) && (forall u :: u in h.owner ==> u < addr)
    requires forall u :: u in h'.owner <==> u in h.owner || Span(addr, CoreUnits(nu), u)
    requires got' == Given(got, addr, SbrkArg(CoreUnits(nu) * 16))
    ensures Backs(got', h') <==> nu < 0x800_0000
    ensures nu >= 0x800_0000 ==> addr + CoreUnits(nu) - 1 !in got'
  {
    SbrkExact(nu);
    var last := addr + CoreUnits(nu) - 1;
    assert Span(addr, CoreUnits(nu), last) && last in h'.owner;
  }

  function Next(fl: seq<Blk>, i: nat): nat
    requires i < |fl|
  {
    if i + 1 < |fl| then i + 1 else 0
  }

  /** Steps along the circular list from position k to position t. */
  function Distance(fl: seq<Blk>, k: nat, t: nat): (d: nat)
    requires k < |fl| && t < |fl|
    ensures d == 0 <==> k == t
  {
    if k <= t then t - k else t - k + |fl|
  }

  lemma DistanceStep(fl: seq<Blk>, k: nat, t: nat)
    requires k < |fl| && t < |fl| && k != t
    ensures Distance(fl, Next(fl, k), t) == Distance(fl, k, t) - 1
  {
  }

  /** Position i lies strictly between at and k, going round from at. */
  predicate Passed(at: nat, k: nat, i: nat) {
    if at < k then at < i < k else at < i || i < k
  }

  lemma FindSlot(base: int, fl: seq<Blk>, a: int, n: nat) returns (t: nat)
    requires Ordered(base, fl) && base < a && 0 < n <= |fl| && fl[n - 1].addr < a
    requires forall i :: 0 <= i < |fl| ==> fl[i].addr != a
    ensures Between(fl, t, a)
    decreases |fl| - n
  {
    if n < |fl| && fl[n].addr < a {
      t := FindSlot(base, fl, a, n + 1);
    } else {
      t := n - 1;
    }
  }

  /** free's test for having found the place, at position k. */
  lemma SlotTest(base: int, mem: Memory, fl: seq<Blk>, k: nat, t: nat, a: int)
    requires Ordered(base, fl) && Linked(mem, fl) && k < |fl| && base < a && Between(fl, t, a)
    ensures LinkedAt(mem, fl, k)
    ensures var p := fl[k].addr; var q := mem[p].ptr;
            (p < a < q || (p >= q && (a > p || a < q))) <==> k == t
  {
    assert LinkedAt(mem, fl, k);
    if k < t {
      assert fl[k + 1].addr <= fl[t].addr;
    }
  }

  /** Everything free has to re-establish. */
  lemma FreedReady(base: int, h: Heap, k: nat, a: int, mem: Memory, h': Heap)
    requires Ok(base, h) && Coalesced(base, h.fl) && a in h.alloc && Between(h.fl, k, a) && MemOk(mem, h)
    requires h' == Freed(h, k, a)
    ensures Ok(base, h') && Coalesced(base, h'.fl) && k < |h'.fl| && h'.fl[k].addr == h.fl[k].addr >= base
    ensures LinkedAt(mem, h.fl, k) && mem[h.fl[k].addr].ptr in mem && MemOk(FreeMem(mem, a, h.fl[k].addr), h')
  {
    FreedMem(base, h, k, a, mem);
    FreedOrdered(base, h, k, a);
    FreedGaps(base, h, k, a);
    FreedSize(h, k, a);
  }

  /** h' is h with at least nu more units from hp on, all free, found at freep or just after it. */
  ghost predicate Supplies(h: Heap, h': Heap, at: nat, hp: int, nu: nat) {
    && h'.alloc == h.alloc
    && (forall u :: u in h'.owner <==> u in h.owner || Span(hp, CoreUnits(nu), u))
    && at < |h'.fl| && (h'.fl[at].size >= nu || h'.fl[Next(h'.fl, at)].size >= nu)
    && (AllSmaller(h.fl, nu) ==> AtTop(h'.fl, nu, hp + CoreUnits(nu)))
  }

  /** Every block of at least n units ends where the memory ends. */
  ghost predicate AtTop(fl: seq<Blk>, n: nat, end: int) {
    forall i :: 0 <= i < |fl| && fl[i].size >= n ==> fl[i].addr + fl[i].size == end
  }

  lemma LastPlace(base: int, h: Heap, at: nat, hp: int)
    requires Ok(base, h) && Beyond(base, h, hp) && Between(h.fl, at, hp)
    ensures at == |h.fl| - 1
  {
    if at + 1 < |h.fl| {
      assert InBlock(h.blocks, h.fl[at + 1].addr, h.fl[at + 1].addr);
    }
  }

  lemma FreedKeeps(h: Heap, k: nat, a: int)
    requires k < |h.fl| && a in h.alloc
    ensures Freed(h, k, a).alloc == h.alloc - {a} && Freed(h, k, a).owner.Keys == h.owner.Keys
  {
  }

  lemma SuppliesFreed(base: int, h: Heap, h': Heap, at: nat, hp: int, nu: nat)
    requires Ok(base, h) && Beyond(base, h, hp) && Between(h.fl, at, hp)
    requires hp !in h.alloc && at < |h.fl| && h' == Freed(Grow(h, hp, CoreUnits(nu)), at, hp)
    ensures Supplies(h, h', at, hp, nu)
  {
    hide Ok, Freed, Between, Beyond;
    var g := Grow(h, hp, CoreUnits(nu));
    FreedSize(g, at, hp);
    FreedKeeps(g, at, hp);
    LastPlace(base, h, at, hp);
    FreedIsList(g, at, hp);
    assert h'.fl == FreedList(h.fl, at, Blk(hp, CoreUnits(nu)));
    assert h'.alloc == h.alloc;
    assert forall u :: u in h'.owner <==> u in h'.owner.Keys;
    assert forall u :: u in g.owner <==> u in g.owner.Keys;
  }

  /** Everything carving has to re-establish. */
  lemma CarveReady(base: int, h: Heap, k: nat, n: nat, mem: Memory, h': Heap)
    requires Ok(base, h) && Coalesced(base, h.fl) && MemOk(mem, h) && 1 <= k < |h.fl| && 0 < n < h.fl[k].size
    requires h' == Carve(h, k, n)
    ensures Ok(base, h') && Coalesced(base, h'.fl) && |h'.fl| == |h.fl| && h'.fl[k - 1] == h.fl[k - 1]
    ensures h.fl[k - 1].addr >= base
    ensures LinkedAt(mem, h.fl, k) && MemOk(CarveMem(mem, h.fl[k].addr, n, 0), h')
    ensures h.fl[k].addr + h.fl[k].size - n !in h.blocks
  {
    CarveLinked(base, h, k, n, 0, mem);
    CarveOk(base, h, k, n);
  }

  /** Block a of n units, not handed out before, is handed out; nothing else changes hands. */
  ghost predicate Handed(h: Heap, h': Heap, a: int, n: nat) {
    a !in h.alloc && h'.alloc == h.alloc[a := n] && h'.owner.Keys == h.owner.Keys
  }

  /** Either way of taking n units from block k hands out one block of n units. */
  lemma TakeReady(base: int, h: Heap, k: nat, n: nat)
    requires Ok(base, h) && 1 <= k < |h.fl| && 0 < n <= h.fl[k].size && base > 0
    ensures var p := h.fl[k].addr;
            && p > 0
            && (n == h.fl[k].size ==> Handed(h, Unlink(h, k), p, n))
            && (n < h.fl[k].size ==> Handed(h, Carve(h, k, n), p + h.fl[k].size - n, n))
  {
    var p := h.fl[k].addr;
    BlockAboveBase(base, h, p);
    if n < h.fl[k].size {
      assert h.fl[k].addr + h.fl[k].size - n !in h.blocks by {
        CarveFresh(base, h, k, n);
      }
      CarveAlloc(h, k, n);
    }
  }

  lemma CarveFresh(base: int, h: Heap, k: nat, n: nat)
    requires Ok(base, h) && 1 <= k < |h.fl| && 0 < n < h.fl[k].size
    ensures h.fl[k].addr + h.fl[k].size - n !in h.blocks
  {
    CarveTiled(h, k, n);
  }

  lemma CarveAlloc(h: Heap, k: nat, n: nat)
    requires k < |h.fl| && 0 < n < h.fl[k].size && Matched(h) && h.fl[k].addr + h.fl[k].size - n !in h.blocks
    ensures Handed(h, Carve(h, k, n), h.fl[k].addr + h.fl[k].size - n, n)
  {
  }

  ghost predicate AllSmaller(fl: seq<Blk>, n: nat) {
    forall i :: 0 <= i < |fl| ==> fl[i].size < n
  }

  /** malloc's loop at position k, just after j: what it has seen, or what morecore has put in reach. */
  ghost predicate Scanning(fl: seq<Blk>, at: nat, j: nat, k: nat, asked: bool, n: nat) {
    && at < |fl| && j < |fl| && k == Next(fl, j)
    && (!asked ==> forall i :: 0 <= i < |fl| && Passed(at, k, i) ==> fl[i].size < n)
    && (asked ==> fl[at].size >= n || (k == Next(fl, at) && fl[k].size >= n))
  }

  /**
   What malloc does with a request for n units: it asks sbrk exactly when no free block is large
   enough, fails exactly when sbrk then refuses, and otherwise hands out one new block of n units, which
   are the last ones of what sbrk gave, if it was asked.
   */
  ghost predicate Outcome(h: Heap, h': Heap, asked: bool, answer: Sbrk, n: nat, r: int) {
    && (asked <==> AllSmaller(h.fl, n))
    && (r == 0 <==> asked && answer.Refused?)
    && (r == 0 ==> h'.alloc == h.alloc && h'.owner == h.owner)
    && (r != 0 ==> r - 1 !in h.alloc && h'.alloc == h.alloc[r - 1 := n])
    && (r != 0 && !asked ==> h'.owner.Keys == h.owner.Keys)
    && (r != 0 && asked ==> forall u :: u in h'.owner <==> u in h.owner || Span(answer.addr, CoreUnits(n), u))
    && (r != 0 && asked ==> r - 1 == answer.addr + CoreUnits(n) - n)
  }

  ghost predicate Supplied(h: Heap, h': Heap, at: nat, answer: Sbrk, n: nat) {
    answer.Granted? && AllSmaller(h.fl, n) && Supplies(h, h', at, answer.addr, n)
  }

  lemma Outcomes(h: Heap, h1: Heap, h': Heap, asked: bool, at: nat, answer: Sbrk, n: nat, r: int, k: nat)
    requires if asked then Supplied(h, h1, at, answer, n) else h1 == h
    requires k < |h1.fl| && h1.fl[k].size >= n && r != 0 && Handed(h1, h', r - 1, n)
    requires r - 1 == h1.fl[k].addr + h1.fl[k].size - n
    ensures Outcome(h, h', asked, answer, n, r)
  {
    assert forall u :: u in h'.owner <==> u in h'.owner.Keys;
    assert forall u :: u in h1.owner <==> u in h1.owner.Keys;
  }

  lemma ScanStart(fl: seq<Blk>, at: nat, n: nat)
    requires at < |fl|
    ensures Scanning(fl, at, at, Next(fl, at), false, n)
  {
  }

  lemma ScanStep(fl: seq<Blk>, at: nat, j: nat, k: nat, asked: bool, n: nat)
    requires Scanning(fl, at, j, k, asked, n) && fl[k].size < n && k != at
    ensures Scanning(fl, at, k, Next(fl, k), asked, n)
  {
  }

  /** Back at freep without success: morecore has not been called, and every block is too small. */
  lemma ScanAround(base: int, fl: seq<Blk>, at: nat, j: nat, k: nat, asked: bool, n: nat)
    requires Ordered(base, fl) && Scanning(fl, at, j, k, asked, n) && fl[k].size < n && fl[k].addr == fl[at].addr
    ensures !asked && AllSmaller(fl, n)
  {
    if k != at {
      OrderedDistinct(base, fl, k, at);
    }
  }

  lemma ScanAsked(fl: seq<Blk>, at: nat, n: nat)
    requires at < |fl| && (fl[at].size >= n || fl[Next(fl, at)].size >= n)
    ensures Scanning(fl, at, at, Next(fl, at), true, n)
  {
  }

  class Allocator {
    const base: int
    var mem: Memory
    var freep: int
    ghost var h: Heap
    ghost var at: nat
    ghost var got: set<int>   // the units sbrk has given

    ghost predicate Ready()
      reads this
    {
      && base != 0 && Ok(base, h) && Coalesced(base, h.fl) && MemOk(mem, h)
      && at < |h.fl| && freep == h.fl[at].addr && freep != 0
    }

    ghost predicate Valid()
      reads this
    {
      && base > 0
      && (freep == 0 ==> h == Heap([], map[], map[], map[]))
      && (freep != 0 ==> Ready())
    }

    constructor (base: int)
      requires base > 0
      ensures Valid() && freep == 0 && this.base == base && h.alloc == map[] && h.owner == map[] && got == {}
    {
      this.base, mem, freep, h, at, got := base, map[], 0, Heap([], map[], map[], map[]), 0, {};
    }

    /** Walks from freep to the one place the block belongs. */
    method FindPlace(bp: int) returns (p: int, ghost k: nat)
      requires Valid() && freep != 0 && bp in h.alloc
      ensures Between(h.fl, k, bp) && p == h.fl[k].addr
    {
      BlockAboveBase(base, h, bp);
      assert forall i :: 0 <= i < |h.fl| ==> h.fl[i].addr != bp;
      ghost var t := FindSlot(base, h.fl, bp, 1);
      p, k := freep, at;
      SlotTest(base, mem, h.fl, k, t, bp);
      while !(bp > p && bp < mem[p].ptr)
        invariant k < |h.fl| && p == h.fl[k].addr && LinkedAt(mem, h.fl, k)
        decreases Distance(h.fl, k, t)
      {
        SlotTest(base, mem, h.fl, k, t, bp);
        if p >= mem[p].ptr && (bp > p || bp < mem[p].ptr) {
          break;
        }
        p, k := mem[p].ptr, Next(h.fl, k);
        SlotTest(base, mem, h.fl, k, t, bp);
      }
      SlotTest(base, mem, h.fl, k, t, bp);
    }

    /** The four pointer updates, in the order of the code. */
    method LinkIn(bp: int, p: int)
      requires bp in mem && p in mem && bp != p && mem[p].ptr in mem
      modifies this`mem
      ensures mem == FreeMem(old(mem), bp, p)
    {
      var q := mem[p].ptr;
      if bp + mem[bp].size == q {
        mem := mem[bp := Header(mem[q].ptr, mem[bp].size + mem[q].size)];
      } else {
        mem := mem[bp := Header(q, mem[bp].size)];
      }
      if p + mem[p].size == bp {
        mem := mem[p := Header(mem[bp].ptr, mem[p].size + mem[bp].size)];
      } else {
        mem := mem[p := Header(bp, mem[p].size)];
      }
    }

    method Free(ap: int)
      requires Valid() && freep != 0 && ap - 1 in h.alloc
      modifies this
      ensures Valid() && freep != 0
      ensures Between(old(h.fl), at, ap - 1) && h == Freed(old(h), at, ap - 1)
      ensures h.alloc == old(h.alloc) - {ap - 1} && h.owner.Keys == old(h.owner.Keys) && got == old(got)
    {
      var bp := ap - 1;
      var p;
      ghost var k;
      p, k := FindPlace(bp);
      ghost var h' := Freed(h, k, bp);
      FreedReady(base, h, k, bp, mem, h');
      LinkIn(bp, p);
      FreedKeeps(h, k, bp);
      freep, h, at := p, h', k;
    }

    /** Asks sbrk for at least 4096 units and frees them; null when sbrk refuses. */
    method Morecore(nu: nat, answer: Sbrk) returns (p: int)
      requires Valid() && freep != 0 && nu > 0
      requires answer.Granted? ==> Beyond(base, h, answer.addr)
      modifies this
      ensures Valid() && freep != 0 && p == (if answer.Granted? then freep else 0)
      ensures answer.Refused? ==> h == old(h) && at == old(at) && freep == old(freep) && got == old(got)
      ensures answer.Granted? ==> Supplies(old(h), h, at, answer.addr, nu)
                                  && got == Given(old(got), answer.addr, SbrkArg(CoreUnits(nu) * 16))
    {
      if answer.Refused? {
        return 0;
      }
      var hp, n := answer.addr, CoreUnits(nu);
      GrowOk(base, h, hp, n);
      GrowMem(base, h, hp, n, 0, mem);
      mem := mem[hp := Header(0, n)];
      h, got := Grow(h, hp, n), Given(got, hp, SbrkArg(n * 16));
      Free(hp + 1);
      SuppliesFreed(base, old(h), h, at, hp, nu);
      return freep;
    }

    /** The block at p, found to fit exactly, leaves the list. */
    method TakeWhole(prevp: int, p: int, ghost k: nat)
      requires Valid() && freep != 0 && 1 <= k < |h.fl| && prevp == h.fl[k - 1].addr && p == h.fl[k].addr
      modifies this
      ensures Valid() && freep == prevp && h == Unlink(old(h), k) && got == old(got)
    {
      UnlinkLinked(base, h, k, mem);
      UnlinkOk(base, h, k);
      mem := mem[prevp := Header(mem[p].ptr, mem[prevp].size)];
      freep, h, at := prevp, Unlink(h, k), k - 1;
    }

    method ShrinkBlock(p: int, nunits: nat) returns (tail: int)
      requires p in mem && nunits <= mem[p].size
      modifies this`mem
      ensures mem == CarveMem(old(mem), p, nunits, 0) && tail == p + old(mem[p].size) - nunits
    {
      mem := mem[p := Header(mem[p].ptr, mem[p].size - nunits)];
      tail := p + mem[p].size;
      mem := mem[tail := Header(0, nunits)];
    }

    /** The block at p, found too large, gives its tail. */
    method TakeTail(prevp: int, p: int, nunits: nat, ghost k: nat) returns (r: int)
      requires Valid() && freep != 0 && 1 <= k < |h.fl| && prevp == h.fl[k - 1].addr && p == h.fl[k].addr
      requires 0 < nunits < h.fl[k].size
      modifies this
      ensures Valid() && freep == prevp && h == Carve(old(h), k, nunits) && r - 1 !in old(h.blocks)
      ensures r - 1 == p + old(h.fl[k].size) - nunits && got == old(got)
    {
      hide Ok, Coalesced, MemOk, Carve;
      ghost var h' := Carve(h, k, nunits);
      CarveReady(base, h, k, nunits, mem, h');
      var tail := ShrinkBlock(p, nunits);
      freep, h, at := prevp, h', k - 1;
      return tail + 1;
    }

    /** The block at p is large enough: it goes whole, or its tail goes. */
    method Take(prevp: int, p: int, nunits: nat, ghost k: nat) returns (r: int)
      requires Valid() && freep != 0 && 1 <= k < |h.fl| && prevp == h.fl[k - 1].addr && p == h.fl[k].addr
      requires 0 < nunits <= h.fl[k].size
      modifies this
      ensures Valid() && freep != 0 && r > 1 && Handed(old(h), h, r - 1, nunits) && got == old(got)
      ensures r - 1 == p + old(h.fl[k].size) - nunits
    {
      hide Ok, Coalesced, MemOk, Ordered, Carve, Unlink, Handed;
      Stands(k);
      TakeReady(base, h, k, nunits);
      if mem[p].size == nunits {
        TakeWhole(prevp, p, k);
        r := p + 1;
      } else {
        r := TakeTail(prevp, p, nunits, k);
      }
    }

    /** On the first call the list is the empty block base alone. */
    method Start()
      requires Valid()
      modifies this
      ensures Valid() && freep != 0 && h.alloc == old(h.alloc) && h.owner == old(h.owner) && got == old(got)
      ensures old(freep) != 0 ==> h == old(h) && at == old(at) && freep == old(freep) && mem == old(mem)
      ensures old(freep) == 0 ==> h.fl == [Blk(base, 0)]
    {
      if freep == 0 {
        mem := mem[base := Header(base, 0)];
        freep := base;
        h, at := Heap([Blk(base, 0)], map[], map[], map[]), 0;
      }
    }

    /** The block the loop stands on, and the header there. */
    lemma Stands(k: nat)
      requires Valid() && freep != 0 && k < |h.fl|
      ensures LinkedAt(mem, h.fl, k) && mem[h.fl[k].addr].ptr == h.fl[Next(h.fl, k)].addr
      ensures Ordered(base, h.fl) && (h.fl[k].size > 0 ==> k >= 1)
    {
      assert LinkedAt(mem, h.fl, k);
    }

    /** The list has been walked round in vain: morecore's block is then at freep or just after it. */
    method Refill(nunits: nat, answer: Sbrk, ghost j: nat, ghost k: nat) returns (p: int)
      requires Valid() && freep != 0 && nunits > 0
      requires answer.Granted? ==> Beyond(base, h, answer.addr)
      requires Scanning(h.fl, at, j, k, false, nunits) && h.fl[k].size < nunits && h.fl[k].addr == freep
      modifies this
      ensures Valid() && freep != 0 && AllSmaller(old(h.fl), nunits) && p == (if answer.Granted? then freep else 0)
      ensures answer.Refused? ==> h == old(h) && got == old(got)
      ensures answer.Granted? ==> got == Given(old(got), answer.addr, SbrkArg(CoreUnits(nunits) * 16))
      ensures answer.Granted? ==> Supplied(old(h), h, at, answer, nunits)
                                  && Scanning(h.fl, at, at, Next(h.fl, at), true, nunits)
    {
      ScanAround(base, h.fl, at, j, k, false, nunits);
      p := Morecore(nunits, answer);
      if p != 0 {
        ScanAsked(h.fl, at, nunits);
      }
    }

    /** malloc's loop, from the block after freep. */
    method Search(nunits: nat, answer: Sbrk) returns (r: int, ghost asked: bool)
      requires Valid() && freep != 0 && nunits > 0
      requires answer.Granted? ==> Beyond(base, h, answer.addr)
      modifies this
      ensures Valid() && freep != 0 && Outcome(old(h), h, asked, answer, nunits, r)
      ensures got == if asked && answer.Granted? then Given(old(got), answer.addr, SbrkArg(CoreUnits(nunits) * 16))
                     else old(got)
    {
      hide Ok, MemOk, Coalesced, Ordered, Supplied, Given, SbrkArg;
      asked := false;
      var prevp := freep;
      ghost var j := at;
      ScanStart(h.fl, at, nunits);
      Stands(j);
      var p := mem[prevp].ptr;
      ghost var k := Next(h.fl, j);
      while true
        invariant Valid() && freep != 0 && Scanning(h.fl, at, j, k, asked, nunits)
        invariant prevp == h.fl[j].addr && p == h.fl[k].addr
        invariant if asked then Supplied(old(h), h, at, answer, nunits) else h == old(h)
        invariant asked ==> answer.Granted?
        invariant got == if asked then Given(old(got), answer.addr, SbrkArg(CoreUnits(nunits) * 16)) else old(got)
        decreases if asked then 0 else 1, Distance(h.fl, k, at)
      {
        Stands(k);
        if mem[p].size >= nunits {
          ghost var h1, at1 := h, at;
          r := Take(prevp, p, nunits, k);
          Outcomes(old(h), h1, h, asked, at1, answer, nunits, r, k);
          return;
        }
        if p == freep {
          ScanAround(base, h.fl, at, j, k, asked, nunits);
          p := Refill(nunits, answer, j, k);
          asked := true;
          if p == 0 {
            return 0, true;
          }
          k := at;
        } else {
          ScanStep(h.fl, at, j, k, asked, nunits);
          DistanceStep(h.fl, k, at);
        }
        j := k;
        Stands(k);
        prevp, p, k := p, mem[p].ptr, Next(h.fl, k);
      }
    }

    /**
     malloc. Fails only when sbrk refuses and no free block is large enough; asks sbrk, once, exactly
     when no free block is large enough. Afterwards the headers claim just what sbrk has given, except,
     exactly, when sbrk was asked for 2^27 units or more and did not refuse: then the last unit of the
     block handed out is not the program's.
     */
    method Malloc(nbytes: nat, answer: Sbrk) returns (r: int, ghost asked: bool)
      requires Valid()
      requires answer.Granted? ==> Beyond(base, h, answer.addr)
      modifies this
      ensures Valid() && freep != 0 && Outcome(old(h), h, asked, answer, NUnits(nbytes), r)
      ensures old(Backs(got, h)) ==>
                (Backs(got, h) <==> !(asked && answer.Granted? && NUnits(nbytes) >= 0x800_0000))
      ensures old(Backs(got, h)) && !Backs(got, h) ==> r - 1 + (NUnits(nbytes) - 1) !in got
    {
      Start();
      ghost var h1 := h;
      r, asked := Search(NUnits(nbytes), answer);
      if asked && answer.Granted? {
        if Backs(old(got), old(h)) {
          BacksExact(old(got), h1, h, answer.addr, NUnits(nbytes), got);
        }
      } else {
        BacksSame(got, h1, h);
      }
    }
  }

  lemma BacksSame(got: set<int>, h: Heap, h': Heap)
    requires h'.owner.Keys == h.owner.Keys
    ensures Backs(got, h') <==> Backs(got, h)
  {
    assert forall u :: u in h.owner <==> u in h.owner.Keys;
    assert forall u :: u in h'.owner <==> u in h'.owner.Keys;
  }

  /** The smallest such request: half of the 2^32 bytes a request can ask for, less one unit. */
  lemma FirstTooLarge(nbytes: nat)
    ensures NUnits(nbytes) >= 0x800_0000 <==> nbytes > 0x7FFF_FFE0
  {
  }

  /** A first request for 2^32 - 1 bytes, granted, hands out memory that is not there. */
  method Overclaims() returns (a: Allocator, r: int)
    ensures a.Valid() && r != 0 && !Backs(a.got, a.h)
  {
    a := new Allocator(1);
    SbrkWraps();
    ghost var asked;
    r, asked := a.Malloc(0xFFFF_FFFF, Granted(2));
  }
}
