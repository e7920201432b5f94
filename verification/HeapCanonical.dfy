/** The free list is determined by which units are free: freeing undoes allocating, in any order. */
module HeapCanonical {
  import opened HeapTiling
  import opened FreeList
  import opened Heap

  ghost predicate Covers(fl: seq<Blk>, u: int) {
    exists i :: 1 <= i < |fl| && Span(fl[i].addr, fl[i].size, u)
  }

  /** Two coalesced lists that agree below n begin their block n at the same address. */
  lemma StartsNoLater(base: int, f: seq<Blk>, g: seq<Blk>, n: nat)
    requires Ordered(base, f) && Ordered(base, g) && 1 <= n <= |g| && n < |f| && f[..n] == g[..n]
    requires forall u :: Covers(f, u) ==> Covers(g, u)
    ensures n < |g| && g[n].addr <= f[n].addr
  {
    var u := f[n].addr;
    assert Span(f[n].addr, f[n].size, u);
    assert Covers(f, u);
    var j :| 1 <= j < |g| && Span(g[j].addr, g[j].size, u);
    assert forall i :: 0 <= i < n ==> f[..n][i] == f[i] && g[..n][i] == g[i];
    assert j >= n;
    assert j == n || g[n].addr + g[n].size <= g[j].addr;
  }

  lemma GapAfter(base: int, f: seq<Blk>, n: nat)
    requires Coalesced(base, f) && n < |f|
    ensures !Covers(f, f[n].addr + f[n].size)
  {
    assert Gap(f, n);
  }

  /** ... and end it at the same address: past its end there is a gap. */
  lemma EndsNoLater(base: int, f: seq<Blk>, g: seq<Blk>, n: nat)
    requires Coalesced(base, f) && Coalesced(base, g) && 1 <= n < |f| && n < |g| && f[n].addr == g[n].addr
    requires forall u :: Covers(g, u) ==> Covers(f, u)
    ensures g[n].size <= f[n].size
  {
    GapAfter(base, f, n);
    assert g[n].size > f[n].size ==> Span(g[n].addr, g[n].size, f[n].addr + f[n].size);
  }

  lemma {:induction false} SamePrefix(base: int, f: seq<Blk>, g: seq<Blk>, n: nat)
    requires Coalesced(base, f) && Coalesced(base, g) && 1 <= n <= |f|
    requires forall u :: Covers(f, u) <==> Covers(g, u)
    ensures n <= |g| && f[..n] == g[..n]
  {
    if n == 1 {
      assert f[..1] == [f[0]] && g[..1] == [g[0]];
    } else {
      var m := n - 1;
      SamePrefix(base, f, g, m);
      StartsNoLater(base, f, g, m);
      StartsNoLater(base, g, f, m);
      EndsNoLater(base, f, g, m);
      EndsNoLater(base, g, f, m);
      assert f[m] == g[m];
      assert f[..n] == f[..m] + [f[m]] && g[..n] == g[..m] + [g[m]];
    }
  }

  /** A coalesced list is determined by the units it covers. */
  lemma CoalescedUnique(base: int, f: seq<Blk>, g: seq<Blk>)
    requires Coalesced(base, f) && Coalesced(base, g) && forall u :: Covers(f, u) <==> Covers(g, u)
    ensures f == g
  {
    SamePrefix(base, f, g, |f|);
    SamePrefix(base, g, f, |g|);
    assert f[..|f|] == f && g[..|g|] == g;
  }

  ghost predicate HandedOut(alloc: map<int, nat>, u: int) {
    exists a :: InBlock(alloc, a, u)
  }

  /** The list covers exactly the units obtained from sbrk that are not handed out. */
  lemma CoversExactly(base: int, h: Heap, u: int)
    requires Ok(base, h)
    ensures Covers(h.fl, u) <==> u in h.owner && !HandedOut(h.alloc, u)
  {
    if Covers(h.fl, u) {
      var i :| 1 <= i < |h.fl| && Span(h.fl[i].addr, h.fl[i].size, u);
      assert InBlock(h.blocks, h.fl[i].addr, u);
      assert forall a :: InBlock(h.alloc, a, u) ==> InBlock(h.blocks, a, u);
    }
    if u in h.owner && !HandedOut(h.alloc, u) {
      var a := h.owner[u];
      assert InBlock(h.blocks, a, u);
      assert a in h.alloc ==> InBlock(h.alloc, a, u);
      assert IsFree(h.fl, a);
      var i :| 1 <= i < |h.fl| && h.fl[i].addr == a;
      assert Span(h.fl[i].addr, h.fl[i].size, u);
    }
  }

  /**
   Whatever malloc and free did before, the free list depends only on what is handed out now and on
   the memory obtained. In particular free undoes malloc, and the order of frees does not matter.
   */
  lemma NoFragmentation(base: int, h: Heap, g: Heap)
    requires Ok(base, h) && Ok(base, g) && Coalesced(base, h.fl) && Coalesced(base, g.fl)
    requires h.alloc == g.alloc && h.owner.Keys == g.owner.Keys
    ensures h.fl == g.fl
  {
    forall u ensures Covers(h.fl, u) <==> Covers(g.fl, u) {
      CoversExactly(base, h, u);
      CoversExactly(base, g, u);
      assert u in h.owner <==> u in h.owner.Keys;
      assert u in g.owner <==> u in g.owner.Keys;
    }
    CoalescedUnique(base, h.fl, g.fl);
  }
}
