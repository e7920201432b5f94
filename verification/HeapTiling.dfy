/**
 The heap of umalloc.c in units of sizeof(Header): blocks maps the head of every block, free or
 allocated, to its size, and owner maps every unit obtained from sbrk to the head of its block.
 */
module HeapTiling {

  predicate Span(h: int, n: nat, u: int) { h <= u < h + n }

  predicate InBlock(blocks: map<int, nat>, h: int, u: int) { h in blocks && Span(h, blocks[h], u) }

  /** Every unit belongs to exactly one block, and every block owns exactly its own units. */
  ghost predicate Tiled(owner: map<int, int>, blocks: map<int, nat>) {
    && (forall u :: u in owner ==> InBlock(blocks, owner[u], u))
    && (forall h :: h in blocks ==> blocks[h] > 0)
    && (forall h, u :: InBlock(blocks, h, u) ==> u in owner && owner[u] == h)
  }

  /** Blocks do not overlap. */
  lemma TiledDisjoint(owner: map<int, int>, blocks: map<int, nat>, g: int, h: int)
    requires Tiled(owner, blocks) && g in blocks && h in blocks && g < h
    ensures g + blocks[g] <= h
  {
    assert InBlock(blocks, h, h);
    if g + blocks[g] > h {
      assert InBlock(blocks, g, h);
    }
  }

  /** The units obtained from sbrk are exactly those of the blocks. */
  lemma TiledCovers(owner: map<int, int>, blocks: map<int, nat>, u: int)
    requires Tiled(owner, blocks)
    ensures u in owner <==> exists h :: InBlock(blocks, h, u)
  {
    if u in owner {
      assert InBlock(blocks, owner[u], u);
    }
  }

  function Retag(owner: map<int, int>, lo: int, n: nat, h: int): (r: map<int, int>)
    ensures r.Keys == owner.Keys
    ensures forall u :: u in owner ==> r[u] == if Span(lo, n, u) then h else owner[u]
  {
    map u | u in owner :: if Span(lo, n, u) then h else owner[u]
  }

  /** Two adjacent blocks become one. */
  lemma TiledMerge(owner: map<int, int>, blocks: map<int, nat>, g: int, h: int)
    requires Tiled(owner, blocks) && g in blocks && h in blocks && g + blocks[g] == h
    ensures Tiled(Retag(owner, h, blocks[h], g), (blocks - {h})[g := blocks[g] + blocks[h]])
  {
    var owner' := Retag(owner, h, blocks[h], g);
    var blocks' := (blocks - {h})[g := blocks[g] + blocks[h]];
    forall x, u | InBlock(blocks', x, u) ensures u in owner' && owner'[u] == x {
      assert Span(h, blocks[h], u) ==> InBlock(blocks, h, u);
      if x == g {
        assert InBlock(blocks, if u < h then g else h, u);
      } else {
        assert InBlock(blocks, x, u);
      }
    }
    forall u | u in owner' ensures InBlock(blocks', owner'[u], u) {
      assert InBlock(blocks, owner[u], u);
      if owner[u] == h {
        assert Span(h, blocks[h], u);
      }
    }
  }

  /** A block gives its last n units to a new block. */
  lemma TiledSplit(owner: map<int, int>, blocks: map<int, nat>, h: int, n: nat)
    requires Tiled(owner, blocks) && h in blocks && 0 < n < blocks[h]
    ensures var g := h + blocks[h] - n;
            g !in blocks && Tiled(Retag(owner, g, n, g), blocks[h := blocks[h] - n][g := n])
  {
    var g := h + blocks[h] - n;
    assert InBlock(blocks, h, g);
    assert g !in blocks by {
      if g in blocks {
        assert InBlock(blocks, g, g);
      }
    }
    var owner' := Retag(owner, g, n, g);
    var blocks' := blocks[h := blocks[h] - n][g := n];
    forall x, u | InBlock(blocks', x, u) ensures u in owner' && owner'[u] == x {
      assert InBlock(blocks, if x == g then h else x, u);
      if x != g && Span(g, n, u) {
        assert InBlock(blocks, h, u);
      }
    }
    forall u | u in owner' ensures InBlock(blocks', owner'[u], u) {
      assert InBlock(blocks, owner[u], u);
    }
  }

  function Grown(owner: map<int, int>, h: int, n: nat): (r: map<int, int>)
    ensures forall u :: u in r <==> u in owner || Span(h, n, u)
    ensures forall u :: u in r ==> r[u] == if Span(h, n, u) then h else owner[u]
  {
    owner + map u | h <= u < h + n && Span(h, n, u) :: h
  }

  /** A fresh block of n units beyond all the others. */
  lemma TiledGrow(owner: map<int, int>, blocks: map<int, nat>, h: int, n: nat)
    requires Tiled(owner, blocks) && n > 0 && forall u :: u in owner ==> u < h
    ensures h !in blocks && Tiled(Grown(owner, h, n), blocks[h := n])
  {
    assert h !in blocks by {
      if h in blocks {
        assert InBlock(blocks, h, h);
      }
    }
    var owner' := Grown(owner, h, n);
    var blocks' := blocks[h := n];
    forall x, u | InBlock(blocks', x, u) ensures u in owner' && owner'[u] == x {
      if x != h {
        assert InBlock(blocks, x, u);
      }
    }
    forall u | u in owner' ensures InBlock(blocks', owner'[u], u) {
      if u in owner && !Span(h, n, u) {
        assert InBlock(blocks, owner[u], u);
      }
    }
  }
}
