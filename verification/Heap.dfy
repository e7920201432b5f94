/** Free and allocated blocks together, and what free and malloc do to them. */
module Heap {
  import opened HeapTiling
  import opened FreeList

  /** alloc holds the blocks handed out; blocks and owner describe all of them (HeapTiling). */
  datatype Heap = Heap(fl: seq<Blk>, alloc: map<int, nat>, blocks: map<int, nat>, owner: map<int, int>)

  ghost predicate IsFree(fl: seq<Blk>, a: int) {
    exists i :: 1 <= i < |fl| && fl[i].addr == a
  }

  /** Every block is either free or handed out, never both. */
  ghost predicate Matched(h: Heap) {
    && (forall a :: a in h.alloc ==> a in h.blocks && h.blocks[a] == h.alloc[a])
    && (forall i :: 1 <= i < |h.fl| ==>
          h.fl[i].addr in h.blocks && h.blocks[h.fl[i].addr] == h.fl[i].size && h.fl[i].addr !in h.alloc)
    && (forall a :: a in h.blocks ==> a in h.alloc || IsFree(h.fl, a))
  }

  ghost predicate Ok(base: int, h: Heap) {
    && Ordered(base, h.fl) && Tiled(h.owner, h.blocks) && Matched(h)
    && (forall u :: u in h.owner ==> base < u)
  }

  /** The headers in memory agree: the circular list, and the size of every block handed out. */
  ghost predicate MemOk(mem: Memory, h: Heap) {
    Linked(mem, h.fl) && forall a :: a in h.alloc ==> a in mem && mem[a].size == h.alloc[a]
  }

  lemma BlockAboveBase(base: int, h: Heap, a: int)
    requires Ok(base, h) && a in h.blocks
    ensures base < a && h.blocks[a] > 0
  {
    assert InBlock(h.blocks, a, a);
  }

  // ----- free, step by step -----

  /** A block handed out joins the list after position k. */
  function Release(h: Heap, k: nat, a: int): Heap
    requires k < |h.fl| && a in h.alloc
  {
    h.(fl := PutIn(h.fl, k, Blk(a, h.alloc[a])), alloc := h.alloc - {a})
  }

  /** a lies between position k and the next one. */
  ghost predicate Between(fl: seq<Blk>, k: nat, a: int) {
    k < |fl| && fl[k].addr < a && (k + 1 < |fl| ==> a < fl[k + 1].addr)
  }

  lemma ReleaseFits(base: int, h: Heap, k: nat, a: int)
    requires Ok(base, h) && a in h.alloc && Between(h.fl, k, a)
    ensures Fits(h.fl, k, Blk(a, h.alloc[a])) && forall i :: 0 <= i < |h.fl| ==> h.fl[i].addr != a
  {
    BlockAboveBase(base, h, a);
    if k > 0 {
      TiledDisjoint(h.owner, h.blocks, h.fl[k].addr, a);
    }
    if k + 1 < |h.fl| {
      TiledDisjoint(h.owner, h.blocks, a, h.fl[k + 1].addr);
    }
  }

  lemma ReleaseMatched(h: Heap, k: nat, a: int)
    requires Matched(h) && a in h.alloc && k < |h.fl|
    ensures Matched(Release(h, k, a))
  {
    var h' := Release(h, k, a);
    forall x | x in h'.blocks ensures x in h'.alloc || IsFree(h'.fl, x) {
      if x == a {
        assert h'.fl[k + 1].addr == a;
      } else if x !in h.alloc {
        var i :| 1 <= i < |h.fl| && h.fl[i].addr == x;
        assert h'.fl[if i <= k then i else i + 1].addr == x;
      }
    }
  }

  lemma ReleaseOk(base: int, h: Heap, k: nat, a: int)
    requires Ok(base, h) && a in h.alloc && Between(h.fl, k, a)
    ensures Ok(base, Release(h, k, a))
  {
    ReleaseFits(base, h, k, a);
    PutInOrdered(base, h.fl, k, Blk(a, h.alloc[a]));
    ReleaseMatched(h, k, a);
  }

  lemma ReleaseMem(base: int, h: Heap, k: nat, a: int, mem: Memory)
    requires Ok(base, h) && a in h.alloc && Between(h.fl, k, a) && MemOk(mem, h)
    ensures LinkedAt(mem, h.fl, k) && MemOk(PutInMem(mem, h.fl[k].addr, Blk(a, h.alloc[a])), Release(h, k, a))
  {
    ReleaseFits(base, h, k, a);
    PutInLinked(base, mem, h.fl, k, Blk(a, h.alloc[a]));
    if k == 0 {
      forall x | x in h.alloc ensures x != h.fl[0].addr {
        BlockAboveBase(base, h, x);
      }
    }
  }

  /** Blocks k and k + 1 of the list become one. */
  function Join(h: Heap, k: nat): Heap
    requires k + 1 < |h.fl|
  {
    var (g, x) := (h.fl[k], h.fl[k + 1]);
    Heap(Joined(h.fl, k), h.alloc, (h.blocks - {x.addr})[g.addr := g.size + x.size],
         Retag(h.owner, x.addr, x.size, g.addr))
  }

  lemma JoinFree(base: int, h: Heap, k: nat, i: nat)
    requires Ordered(base, h.fl) && Matched(h) && 1 <= k < |h.fl| - 1 && 1 <= i < |h.fl| - 1
    ensures var h' := Join(h, k); var b := h'.fl[i];
            b.addr in h'.blocks && h'.blocks[b.addr] == b.size && b.addr !in h'.alloc
  {
    if i != k {
      var j := if i < k then i else i + 1;
      OrderedDistinct(base, h.fl, j, k);
      OrderedDistinct(base, h.fl, j, k + 1);
    }
  }

  lemma JoinKept(h: Heap, k: nat, a: int)
    requires Matched(h) && 1 <= k < |h.fl| - 1 && a in Join(h, k).blocks && a !in h.alloc
    ensures IsFree(Joined(h.fl, k), a)
  {
    var r := Joined(h.fl, k);
    if a == h.fl[k].addr {
      assert r[k].addr == a;
    } else {
      assert a in h.blocks && a != h.fl[k + 1].addr;
      var i :| 1 <= i < |h.fl| && h.fl[i].addr == a;
      assert r[if i < k then i else i - 1].addr == a;
    }
  }

  lemma JoinMatched(base: int, h: Heap, k: nat)
    requires Ordered(base, h.fl) && Matched(h) && 1 <= k < |h.fl| - 1
    ensures Matched(Join(h, k))
  {
    var h' := Join(h, k);
    forall i | 1 <= i < |h'.fl|
      ensures h'.fl[i].addr in h'.blocks && h'.blocks[h'.fl[i].addr] == h'.fl[i].size && h'.fl[i].addr !in h'.alloc
    {
      JoinFree(base, h, k, i);
    }
    forall a | a in h'.blocks && a !in h'.alloc ensures IsFree(h'.fl, a) {
      JoinKept(h, k, a);
    }
  }

  lemma JoinOk(base: int, h: Heap, k: nat)
    requires Ok(base, h) && 1 <= k < |h.fl| - 1 && h.fl[k].addr + h.fl[k].size == h.fl[k + 1].addr
    ensures Ok(base, Join(h, k))
  {
    JoinedOrdered(base, h.fl, k);
    TiledMerge(h.owner, h.blocks, h.fl[k].addr, h.fl[k + 1].addr);
    JoinMatched(base, h, k);
  }

  lemma OrderedDistinct(base: int, fl: seq<Blk>, i: nat, j: nat)
    requires Ordered(base, fl) && i < |fl| && j < |fl| && i != j
    ensures fl[i].addr != fl[j].addr
  {
  }

  lemma JoinMem(base: int, h: Heap, k: nat, mem: Memory)
    requires Ok(base, h) && 1 <= k < |h.fl| - 1 && MemOk(mem, h)
    ensures LinkedAt(mem, h.fl, k) && LinkedAt(mem, h.fl, k + 1)
    ensures MemOk(JoinedMem(mem, h.fl[k].addr), Join(h, k))
  {
    JoinedLinked(base, mem, h.fl, k);
  }

  // ----- the whole of free -----

  predicate TouchesUp(h: Heap, k: nat, a: int)
    requires k < |h.fl| && a in h.alloc
  {
    k + 1 < |h.fl| && a + h.alloc[a] == h.fl[k + 1].addr
  }

  predicate TouchesDown(h: Heap, k: nat, a: int)
    requires k < |h.fl|
  {
    h.fl[k].addr + h.fl[k].size == a
  }

  /** Block a, handed out before, is put after position k and joined with what it touches. */
  function Freed(h: Heap, k: nat, a: int): Heap
    requires k < |h.fl| && a in h.alloc
  {
    var h1 := Release(h, k, a);
    var h2 := if TouchesUp(h, k, a) then Join(h1, k + 1) else h1;
    if TouchesDown(h, k, a) then Join(h2, k) else h2
  }

  /** The list after free, from the list before. */
  function FreedList(fl: seq<Blk>, k: nat, b: Blk): seq<Blk>
    requires k < |fl|
  {
    var f1 := PutIn(fl, k, b);
    var f2 := if k + 1 < |fl| && b.addr + b.size == fl[k + 1].addr then Joined(f1, k + 1) else f1;
    if fl[k].addr + fl[k].size == b.addr then Joined(f2, k) else f2
  }

  lemma FreedOrdered(base: int, h: Heap, k: nat, a: int)
    requires Ok(base, h) && a in h.alloc && Between(h.fl, k, a)
    ensures Ok(base, Freed(h, k, a))
    ensures TouchesDown(h, k, a) ==> k >= 1
  {
    var h1 := Release(h, k, a);
    ReleaseOk(base, h, k, a);
    BlockAboveBase(base, h, a);
    var h2 := h1;
    if TouchesUp(h, k, a) {
      JoinOk(base, h1, k + 1);
      h2 := Join(h1, k + 1);
    }
    if TouchesDown(h, k, a) {
      JoinOk(base, h2, k);
    }
  }

  lemma FreedIsList(h: Heap, k: nat, a: int)
    requires k < |h.fl| && a in h.alloc
    ensures Freed(h, k, a).fl == FreedList(h.fl, k, Blk(a, h.alloc[a]))
  {
  }

  lemma FreedGaps(base: int, h: Heap, k: nat, a: int)
    requires Ok(base, h) && Coalesced(base, h.fl) && a in h.alloc && Between(h.fl, k, a)
    ensures Coalesced(base, Freed(h, k, a).fl)
  {
    var b := Blk(a, h.alloc[a]);
    FreedOrdered(base, h, k, a);
    ReleaseFits(base, h, k, a);
    FreedIsList(h, k, a);
    forall i ensures Gap(FreedList(h.fl, k, b), i) {
      FreedGap(h.fl, k, b, i);
    }
  }

  /** Joining what touches leaves a gap everywhere. */
  lemma FreedGap(fl: seq<Blk>, k: nat, b: Blk, i: int)
    requires Fits(fl, k, b) && forall i :: Gap(fl, i)
    ensures Gap(FreedList(fl, k, b), i)
  {
    var f1 := PutIn(fl, k, b);
    var up := k + 1 < |fl| && b.addr + b.size == fl[k + 1].addr;
    var down := fl[k].addr + fl[k].size == b.addr;
    var j := if !down || i < k then i else i + 1;
    var m := if !up || j < k + 1 then j else j + 1;
    if m != k && m != k + 1 {
      PutInGap(fl, k, b, m);
    }
    if up {
      JoinedGap(f1, k + 1, j);
    }
    var f2 := if up then Joined(f1, k + 1) else f1;
    if down {
      JoinedGap(f2, k, i);
    }
  }

  /** free's pointer surgery, as the code does it: first bp's header, then p's. */
  function FreeMem(mem: Memory, bp: int, p: int): Memory
    requires bp in mem && p in mem && mem[p].ptr in mem
  {
    var q := mem[p].ptr;
    var hb := if bp + mem[bp].size == q then Header(mem[q].ptr, mem[bp].size + mem[q].size)
              else Header(q, mem[bp].size);
    var hp := if p + mem[p].size == bp then Header(hb.ptr, mem[p].size + hb.size) else Header(bp, mem[p].size);
    mem[bp := hb][p := hp]
  }

  /** The surgery is linking in, then joining upwards, then joining downwards. */
  lemma FreeMemSteps(mem: Memory, p: int, b: Blk)
    requires p in mem && mem[p].ptr in mem && b.addr in mem && mem[b.addr].size == b.size
    requires p < b.addr && mem[p].ptr != b.addr
    ensures var mem1 := PutInMem(mem, p, b);
            var mem2 := if b.addr + b.size == mem[p].ptr then JoinedMem(mem1, b.addr) else mem1;
            var mem3 := if p + mem[p].size == b.addr then JoinedMem(mem2, p) else mem2;
            FreeMem(mem, b.addr, p) == mem3
  {
  }

  /** What free reads in the headers is what the list says. */
  lemma FreeReads(base: int, h: Heap, k: nat, a: int, mem: Memory)
    requires Ok(base, h) && a in h.alloc && Between(h.fl, k, a) && MemOk(mem, h)
    ensures LinkedAt(mem, h.fl, k) && a in mem && mem[a].size == h.alloc[a]
    ensures var p := h.fl[k].addr;
            && p < a && mem[p].ptr in mem && mem[p].ptr != a
            && (a + h.alloc[a] == mem[p].ptr <==> TouchesUp(h, k, a))
            && (p + mem[p].size == a <==> TouchesDown(h, k, a))
  {
    assert LinkedAt(mem, h.fl, k);
    assert LinkedAt(mem, h.fl, if k + 1 < |h.fl| then k + 1 else 0);
    BlockAboveBase(base, h, a);
  }

  lemma FreedMem(base: int, h: Heap, k: nat, a: int, mem: Memory)
    requires Ok(base, h) && a in h.alloc && Between(h.fl, k, a) && MemOk(mem, h)
    ensures LinkedAt(mem, h.fl, k) && mem[h.fl[k].addr].ptr in mem
    ensures MemOk(FreeMem(mem, a, h.fl[k].addr), Freed(h, k, a))
  {
    var p, b := h.fl[k].addr, Blk(a, h.alloc[a]);
    FreeReads(base, h, k, a, mem);
    ReleaseOk(base, h, k, a);
    ReleaseMem(base, h, k, a, mem);
    FreeMemSteps(mem, p, b);
    var h2, mem2 := Release(h, k, a), PutInMem(mem, p, b);
    if TouchesUp(h, k, a) {
      JoinOk(base, h2, k + 1);
      JoinMem(base, h2, k + 1, mem2);
      h2, mem2 := Join(h2, k + 1), JoinedMem(mem2, a);
    }
    if TouchesDown(h, k, a) {
      JoinMem(base, h2, k, mem2);
    }
  }

  // ----- malloc: taking a block, or the tail of one -----

  function Dropped(fl: seq<Blk>, i: nat): (r: seq<Blk>)
    requires i < |fl|
    ensures |r| == |fl| - 1 && forall j :: 0 <= j < |r| ==> r[j] == if j < i then fl[j] else fl[j + 1]
  {
    fl[..i] + fl[i + 1..]
  }

  /** Block i leaves the list whole. */
  function Unlink(h: Heap, i: nat): Heap
    requires i < |h.fl|
  {
    h.(fl := Dropped(h.fl, i), alloc := h.alloc[h.fl[i].addr := h.fl[i].size])
  }

  lemma DroppedGap(base: int, fl: seq<Blk>, i: nat, x: int)
    requires Coalesced(base, fl) && 1 <= i < |fl|
    ensures Gap(Dropped(fl, i), x)
  {
    assert Gap(fl, if x < i then x else x + 1);
    if x == i - 1 && i + 1 < |fl| {
      assert Gap(fl, i);
    }
  }

  lemma DroppedOrdered(base: int, fl: seq<Blk>, i: nat)
    requires Coalesced(base, fl) && 1 <= i < |fl|
    ensures Coalesced(base, Dropped(fl, i))
  {
    var r := Dropped(fl, i);
    forall x, y | 0 <= x < y < |r| ensures r[x].addr + r[x].size <= r[y].addr {
      var x', y' := if x < i then x else x + 1, if y < i then y else y + 1;
      assert fl[x'].addr + fl[x'].size <= fl[y'].addr;
    }
    forall x ensures Gap(r, x) {
      DroppedGap(base, fl, i, x);
    }
  }

  lemma UnlinkKept(h: Heap, i: nat, a: int)
    requires Matched(h) && 1 <= i < |h.fl| && a in h.blocks && a !in h.alloc && a != h.fl[i].addr
    ensures IsFree(Dropped(h.fl, i), a)
  {
    var j :| 1 <= j < |h.fl| && h.fl[j].addr == a;
    assert Dropped(h.fl, i)[if j < i then j else j - 1].addr == a;
  }

  lemma UnlinkFree(base: int, h: Heap, i: nat, j: nat)
    requires Ordered(base, h.fl) && Matched(h) && 1 <= i < |h.fl| && 1 <= j < |h.fl| - 1
    ensures var b := Dropped(h.fl, i)[j];
            b.addr in h.blocks && h.blocks[b.addr] == b.size && b.addr !in h.alloc && b.addr != h.fl[i].addr
  {
    OrderedDistinct(base, h.fl, if j < i then j else j + 1, i);
  }

  lemma UnlinkMatched(base: int, h: Heap, i: nat)
    requires Ordered(base, h.fl) && Matched(h) && 1 <= i < |h.fl|
    ensures Matched(Unlink(h, i))
  {
    var h' := Unlink(h, i);
    forall j | 1 <= j < |h'.fl|
      ensures h'.fl[j].addr in h'.blocks && h'.blocks[h'.fl[j].addr] == h'.fl[j].size && h'.fl[j].addr !in h'.alloc
    {
      UnlinkFree(base, h, i, j);
    }
    forall a | a in h'.blocks && a !in h'.alloc ensures IsFree(h'.fl, a) {
      UnlinkKept(h, i, a);
    }
  }

  lemma UnlinkOk(base: int, h: Heap, i: nat)
    requires Ok(base, h) && Coalesced(base, h.fl) && 1 <= i < |h.fl|
    ensures Ok(base, Unlink(h, i)) && Coalesced(base, Unlink(h, i).fl)
  {
    DroppedOrdered(base, h.fl, i);
    UnlinkMatched(base, h, i);
  }

  function UnlinkMem(mem: Memory, prev: int, p: int): Memory
    requires prev in mem && p in mem
  {
    mem[prev := Header(mem[p].ptr, mem[prev].size)]
  }

  lemma DroppedLinked(base: int, mem: Memory, fl: seq<Blk>, i: nat)
    requires Ordered(base, fl) && Linked(mem, fl) && 1 <= i < |fl|
    ensures LinkedAt(mem, fl, i - 1) && LinkedAt(mem, fl, i)
    ensures Linked(UnlinkMem(mem, fl[i - 1].addr, fl[i].addr), Dropped(fl, i))
  {
    assert LinkedAt(mem, fl, i - 1) && LinkedAt(mem, fl, i);
    var r, mem' := Dropped(fl, i), UnlinkMem(mem, fl[i - 1].addr, fl[i].addr);
    forall j | 0 <= j < |r| ensures LinkedAt(mem', r, j) {
      var j' := if j < i then j else j + 1;
      assert LinkedAt(mem, fl, j');
      if j' != i - 1 {
        OrderedDistinct(base, fl, j', i - 1);
      }
    }
  }

  lemma UnlinkLinked(base: int, h: Heap, i: nat, mem: Memory)
    requires Ok(base, h) && MemOk(mem, h) && 1 <= i < |h.fl|
    ensures LinkedAt(mem, h.fl, i - 1) && LinkedAt(mem, h.fl, i)
    ensures MemOk(UnlinkMem(mem, h.fl[i - 1].addr, h.fl[i].addr), Unlink(h, i))
  {
    DroppedLinked(base, mem, h.fl, i);
    OrderedDistinct(base, h.fl, i - 1, i);
    forall a | a in h.alloc ensures a != h.fl[i - 1].addr {
      BlockAboveBase(base, h, a);
    }
  }

  function Shrunk(fl: seq<Blk>, i: nat, s: nat): (r: seq<Blk>)
    requires i < |fl|
    ensures |r| == |fl| && forall j :: 0 <= j < |r| ==> r[j] == if j == i then Blk(fl[i].addr, s) else fl[j]
  {
    fl[i := Blk(fl[i].addr, s)]
  }

  /** Block i keeps its front; its last n units are handed out. */
  function Carve(h: Heap, i: nat, n: nat): Heap
    requires i < |h.fl| && 0 < n < h.fl[i].size
  {
    var b := h.fl[i];
    var g := b.addr + b.size - n;
    Heap(Shrunk(h.fl, i, b.size - n), h.alloc[g := n], h.blocks[b.addr := b.size - n][g := n], Retag(h.owner, g, n, g))
  }

  lemma CarveTiled(h: Heap, i: nat, n: nat)
    requires Tiled(h.owner, h.blocks) && Matched(h) && 1 <= i < |h.fl| && 0 < n < h.fl[i].size
    ensures Tiled(Carve(h, i, n).owner, Carve(h, i, n).blocks)
    ensures h.fl[i].addr + h.fl[i].size - n !in h.blocks
  {
    var b := h.fl[i];
    assert h.blocks[b.addr] == b.size;
    TiledSplit(h.owner, h.blocks, b.addr, n);
    var g := b.addr + b.size - n;
    assert Carve(h, i, n).blocks == h.blocks[b.addr := h.blocks[b.addr] - n][g := n];
  }

  lemma CarveCoalesced(base: int, h: Heap, i: nat, n: nat)
    requires Coalesced(base, h.fl) && 1 <= i < |h.fl| && 0 < n < h.fl[i].size
    ensures Coalesced(base, Carve(h, i, n).fl)
  {
    ShrunkOrdered(base, h.fl, i, h.fl[i].size - n);
  }

  lemma CarveOk(base: int, h: Heap, i: nat, n: nat)
    requires Ok(base, h) && Coalesced(base, h.fl) && 1 <= i < |h.fl| && 0 < n < h.fl[i].size
    ensures Ok(base, Carve(h, i, n)) && Coalesced(base, Carve(h, i, n).fl)
    ensures h.fl[i].addr + h.fl[i].size - n !in h.blocks
  {
    CarveTiled(h, i, n);
    CarveMatched(base, h, i, n);
    CarveCoalesced(base, h, i, n);
  }

  lemma ShrunkOrdered(base: int, fl: seq<Blk>, i: nat, s: nat)
    requires Coalesced(base, fl) && 1 <= i < |fl| && 0 < s <= fl[i].size
    ensures Coalesced(base, Shrunk(fl, i, s))
  {
    var r := Shrunk(fl, i, s);
    forall x ensures Gap(r, x) {
      assert Gap(fl, x);
    }
  }

  lemma CarveKept(h: Heap, i: nat, n: nat, a: int)
    requires Matched(h) && 1 <= i < |h.fl| && 0 < n < h.fl[i].size && a in h.blocks && a !in h.alloc
    ensures IsFree(Carve(h, i, n).fl, a)
  {
    var j :| 1 <= j < |h.fl| && h.fl[j].addr == a;
    assert Carve(h, i, n).fl[j].addr == a;
  }

  lemma CarveFree(base: int, h: Heap, i: nat, n: nat, j: nat)
    requires Ordered(base, h.fl) && Matched(h) && 1 <= i < |h.fl| && 0 < n < h.fl[i].size && 1 <= j < |h.fl|
    requires h.fl[i].addr + h.fl[i].size - n !in h.blocks
    ensures var h' := Carve(h, i, n); var b := h'.fl[j];
            b.addr in h'.blocks && h'.blocks[b.addr] == b.size && b.addr !in h'.alloc
  {
    if j != i {
      OrderedDistinct(base, h.fl, j, i);
    }
  }

  lemma CarveMatched(base: int, h: Heap, i: nat, n: nat)
    requires Ordered(base, h.fl) && Matched(h) && 1 <= i < |h.fl| && 0 < n < h.fl[i].size
    requires h.fl[i].addr + h.fl[i].size - n !in h.blocks
    ensures Matched(Carve(h, i, n))
  {
    var h' := Carve(h, i, n);
    forall j | 1 <= j < |h'.fl|
      ensures h'.fl[j].addr in h'.blocks && h'.blocks[h'.fl[j].addr] == h'.fl[j].size && h'.fl[j].addr !in h'.alloc
    {
      CarveFree(base, h, i, n, j);
    }
    forall a | a in h'.blocks && a !in h'.alloc ensures IsFree(h'.fl, a) {
      CarveKept(h, i, n, a);
    }
  }

  /** The tail's header gets its size; what its link field holds does not matter. */
  function CarveMem(mem: Memory, p: int, n: nat, stale: int): Memory
    requires p in mem && n <= mem[p].size
  {
    var rest := mem[p].size - n;
    mem[p := Header(mem[p].ptr, rest)][p + rest := Header(stale, n)]
  }

  lemma CarveLinked(base: int, h: Heap, i: nat, n: nat, stale: int, mem: Memory)
    requires Ok(base, h) && MemOk(mem, h) && 1 <= i < |h.fl| && 0 < n < h.fl[i].size
    ensures LinkedAt(mem, h.fl, i) && MemOk(CarveMem(mem, h.fl[i].addr, n, stale), Carve(h, i, n))
  {
    assert LinkedAt(mem, h.fl, i);
    var p := h.fl[i].addr;
    var g := p + h.fl[i].size - n;
    var r, mem' := Carve(h, i, n).fl, CarveMem(mem, p, n, stale);
    TiledSplit(h.owner, h.blocks, p, n);
    forall j | 0 <= j < |r| ensures LinkedAt(mem', r, j) {
      assert LinkedAt(mem, h.fl, j);
      assert j == 0 || h.fl[j].addr in h.blocks;
      if j != i {
        OrderedDistinct(base, h.fl, j, i);
      }
    }
  }

  // ----- morecore: a new block from sbrk -----

  /** n units from hp on, handed out at first; free puts them into the list. */
  function Grow(h: Heap, hp: int, n: nat): Heap {
    Heap(h.fl, h.alloc[hp := n], h.blocks[hp := n], Grown(h.owner, hp, n))
  }

  /** sbrk answered with memory beyond everything handed out before. */
  ghost predicate Beyond(base: int, h: Heap, hp: int) {
    base < hp && forall u :: u in h.owner ==> u < hp
  }

  lemma GrowOk(base: int, h: Heap, hp: int, n: nat)
    requires Ok(base, h) && Beyond(base, h, hp) && n > 0
    ensures hp !in h.blocks && Ok(base, Grow(h, hp, n))
  {
    TiledGrow(h.owner, h.blocks, hp, n);
    assert hp !in h.alloc;
  }

  lemma GrowMem(base: int, h: Heap, hp: int, n: nat, stale: int, mem: Memory)
    requires Ok(base, h) && Beyond(base, h, hp) && n > 0 && MemOk(mem, h)
    ensures MemOk(mem[hp := Header(stale, n)], Grow(h, hp, n))
  {
    GrowOk(base, h, hp, n);
    var mem' := mem[hp := Header(stale, n)];
    forall i | 0 <= i < |h.fl| ensures LinkedAt(mem', h.fl, i) {
      assert LinkedAt(mem, h.fl, i);
      assert i == 0 || h.fl[i].addr in h.blocks;
    }
  }

  /** What was just freed is in the block at k or in the next one. */
  lemma FreedSize(h: Heap, k: nat, a: int)
    requires k < |h.fl| && a in h.alloc
    ensures var r := Freed(h, k, a).fl;
            k < |r| && (r[k].size >= h.alloc[a] || (k + 1 < |r| && r[k + 1].size >= h.alloc[a]))
            && r[k].addr == h.fl[k].addr
  {
    hide Retag;
    var h1 := Release(h, k, a);
    assert h1.fl[k] == h.fl[k] && h1.fl[k + 1] == Blk(a, h.alloc[a]);
    var h2 := if TouchesUp(h, k, a) then Join(h1, k + 1) else h1;
    assert h2.fl[k] == h.fl[k] && h2.fl[k + 1].size >= h.alloc[a];
  }

  /** A unit of a block other than its header is no block's header. */
  lemma DataIsNotHeader(base: int, h: Heap, a: int, u: int, g: int)
    requires Ok(base, h) && a in h.blocks && a < u < a + h.blocks[a] && g in h.blocks
    ensures g != u
  {
    if g < a {
      TiledDisjoint(h.owner, h.blocks, g, a);
    } else if a < g {
      TiledDisjoint(h.owner, h.blocks, a, g);
    }
  }
}
