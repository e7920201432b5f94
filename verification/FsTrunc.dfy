/** Truncation: the blocks of an inode go back to the free map, each exactly once. */
module FsTrunc {
  import opened FsLayout
  import opened BlockOwnership
  import opened FsState
  import opened FsWrite

  /** Emptying direct slot k leaves its block held. */
  lemma DropDirect(sb: Super, disk: seq<Block>, inodes: seq<Dinode>, i: nat, k: nat)
    requires Consistent(sb, disk, inodes, {}) && i < |inodes| && k < NDIRECT && inodes[i].addrs[k] != 0
    ensures Consistent(sb, disk, inodes[i := SetAddr(inodes[i], k, 0)], {inodes[i].addrs[k]})
  {
    var t := Table(disk, inodes);
    var v := inodes[i].addrs[k];
    var inodes' := inodes[i := SetAddr(inodes[i], k, 0)];
    assert t[i][k] == v;
    UpdateConcat(inodes[i].addrs, t[i][NDIRECT + 1..], k, 0);
    assert Slots(disk, inodes[i].addrs) == inodes[i].addrs + t[i][NDIRECT + 1..];
    assert Slots(disk, inodes'[i].addrs) == inodes'[i].addrs + t[i][NDIRECT + 1..];
    assert Table(disk, inodes') == Place(t, i, k, 0);
    OwnsDetach(t, Bits(sb, disk), sb.nmeta, {}, i, Place(t, i, k, 0)[i], {v});
    assert {} + {v} == {v};
  }

  /** The indirect block p and the entries of a from position j on that are in use. */
  ghost function Rest(a: Block, p: nat, j: nat): set<nat>
    requires j <= NINDIRECT
  {
    {p} + set x | j <= x < NINDIRECT && Words(a)[x] != 0 :: Words(a)[x]
  }

  /** Dropping the indirect pointer leaves the indirect block and all its entries held. */
  lemma DropIndirect(sb: Super, disk: seq<Block>, inodes: seq<Dinode>, i: nat)
    requires Consistent(sb, disk, inodes, {}) && i < |inodes| && inodes[i].addrs[NDIRECT] != 0
    ensures var p := inodes[i].addrs[NDIRECT];
            && p < |disk|
            && Consistent(sb, disk, inodes[i := SetAddr(inodes[i], NDIRECT, 0)], Rest(disk[p], p, 0))
  {
    var t := Table(disk, inodes);
    var p := inodes[i].addrs[NDIRECT];
    assert t[i][NDIRECT] == p;
    SlotRange(sb, disk, inodes, {}, i, NDIRECT);
    var a := disk[p];
    var inodes' := inodes[i := SetAddr(inodes[i], NDIRECT, 0)];
    var row: seq<nat> := Slots(disk, inodes'[i].addrs);
    assert Table(disk, inodes') == t[i := row];
    assert t[i] == inodes[i].addrs + Words(a);
    forall b | b in Rest(a, p, 0) ensures exists k :: 0 <= k < |row| && row[k] == 0 && t[i][k] == b && b != 0 {
      if b == p {
        assert row[NDIRECT] == 0;
      } else {
        var x :| 0 <= x < NINDIRECT && Words(a)[x] == b && b != 0;
        assert row[NDIRECT + 1 + x] == 0 && t[i][NDIRECT + 1 + x] == b;
      }
    }
    forall k | 0 <= k < |row| && row[k] == 0 && t[i][k] != 0 ensures t[i][k] in Rest(a, p, 0) {
      if k > NDIRECT {
        assert t[i][k] == Words(a)[k - NDIRECT - 1];
      }
    }
    OwnsDetach(t, Bits(sb, disk), sb.nmeta, {}, i, row, Rest(a, p, 0));
    assert {} + Rest(a, p, 0) == Rest(a, p, 0);
  }

  /** The entries of an indirect block in use are distinct, and none is the block itself. */
  ghost predicate DistinctWords(a: Block, p: nat) {
    && (forall x, y :: 0 <= x < y < NINDIRECT && Words(a)[x] != 0 ==> Words(a)[x] != Words(a)[y])
    && (forall x :: 0 <= x < NINDIRECT && Words(a)[x] != 0 ==> Words(a)[x] != p)
  }

  lemma WordsDistinct(sb: Super, disk: seq<Block>, inodes: seq<Dinode>, i: nat)
    requires Consistent(sb, disk, inodes, {}) && i < |inodes|
    requires 0 < inodes[i].addrs[NDIRECT] < |disk|
    ensures DistinctWords(disk[inodes[i].addrs[NDIRECT]], inodes[i].addrs[NDIRECT])
  {
    var t := Table(disk, inodes);
    var p := inodes[i].addrs[NDIRECT];
    var a := disk[p];
    assert t[i] == inodes[i].addrs + Words(a);
    assert Unique(t);
    WordsUnique(t, i, inodes[i].addrs, a);
  }

  lemma WordsUnique(t: SlotTable, i: nat, addrs: Addrs, a: Block)
    requires Unique(t) && i < |t| && t[i] == addrs + Words(a)
    ensures DistinctWords(a, addrs[NDIRECT])
  {
    var p := addrs[NDIRECT];
    forall x, y | 0 <= x < y < NINDIRECT && Words(a)[x] != 0 ensures Words(a)[x] != Words(a)[y] {
      CellUnique(t, i, NDIRECT + 1 + x, i, NDIRECT + 1 + y);
    }
    forall x | 0 <= x < NINDIRECT && Words(a)[x] != 0 ensures Words(a)[x] != p {
      CellUnique(t, i, NDIRECT + 1 + x, i, NDIRECT);
    }
  }

  lemma RestStep(a: Block, p: nat, j: nat)
    requires j < NINDIRECT && DistinctWords(a, p)
    ensures Words(a)[j] == 0 ==> Rest(a, p, j) == Rest(a, p, j + 1)
    ensures Words(a)[j] != 0 ==> Words(a)[j] in Rest(a, p, j) && Rest(a, p, j) - {Words(a)[j]} == Rest(a, p, j + 1)
  {
    var w := Words(a)[j];
    if w != 0 {
      assert w in Rest(a, p, j);
    }
  }

  lemma RestEnd(a: Block, p: nat)
    ensures Rest(a, p, NINDIRECT) == {p}
  {
  }

  /** Changes confined to the free map leave every other inode alone. */
  lemma BitmapOnly(sb: Super, disk: seq<Block>, inodes: seq<Dinode>, i: nat, disk': seq<Block>, inodes': seq<Dinode>)
    requires Consistent(sb, disk, inodes, {}) && |disk'| == |disk| && |inodes'| == |inodes|
    requires forall b :: sb.nmeta <= b < |disk| ==> disk'[b] == disk[b]
    requires forall j :: 0 <= j < |inodes| && j != i ==> inodes'[j] == inodes[j]
    ensures OthersSame(disk, inodes, i, disk', inodes')
  {
    var t := Table(disk, inodes);
    forall j | 0 <= j < |inodes| && j != i ensures Row(disk', inodes', j) == Row(disk, inodes, j) {
      SlotRange(sb, disk, inodes, {}, j, NDIRECT);
      assert t[j][NDIRECT] == inodes[j].addrs[NDIRECT];
    }
    forall j, k | 0 <= j < |inodes| && j != i && 0 <= k < NSLOTS && 0 < Row(disk, inodes, j)[k] < |disk|
      ensures disk'[Row(disk, inodes, j)[k]] == disk[Row(disk, inodes, j)[k]]
    {
      SlotRange(sb, disk, inodes, {}, j, k);
    }
  }

  ghost predicate EmptyRow(row: seq<nat>) {
    forall k :: 0 <= k < |row| ==> row[k] == 0
  }

  /** Truncation frees exactly the blocks that the inode owned. */
  lemma TruncExact(sb: Super, disk: seq<Block>, inodes: seq<Dinode>, i: nat, disk': seq<Block>,
                   inodes': seq<Dinode>, b: nat)
    requires Consistent(sb, disk, inodes, {}) && Consistent(sb, disk', inodes', {})
    requires i < |inodes| && OthersSame(disk, inodes, i, disk', inodes') && EmptyRow(Row(disk', inodes', i))
    requires b < sb.size
    ensures Bits(sb, disk')[b] <==> Bits(sb, disk)[b] && (b < sb.nmeta || b !in Row(disk, inodes, i))
  {
    var t, t' := Table(disk, inodes), Table(disk', inodes');
    forall j | 0 <= j < |t| && j != i ensures t'[j] == t[j] {
      assert Row(disk', inodes', j) == Row(disk, inodes, j);
    }
    EmptiedExact(t, Bits(sb, disk), t', Bits(sb, disk'), sb.nmeta, i, b);
  }

  /** The free map after truncation: what was in use before, less the inode's own blocks. */
  ghost predicate Released(sb: Super, disk: seq<Block>, row: seq<nat>, disk': seq<Block>)
    requires ValidSuper(sb) && |disk| == |disk'| == sb.size
  {
    forall b :: 0 <= b < sb.size ==>
      (Bits(sb, disk')[b] <==> Bits(sb, disk)[b] && (b < sb.nmeta || b !in row))
  }

  lemma TruncReleases(sb: Super, disk: seq<Block>, inodes: seq<Dinode>, i: nat, disk': seq<Block>, inodes': seq<Dinode>)
    requires Consistent(sb, disk, inodes, {}) && Consistent(sb, disk', inodes', {})
    requires i < |inodes| && |inodes'| == |inodes| && EmptyRow(Row(disk', inodes', i))
    requires forall b :: sb.nmeta <= b < |disk| ==> disk'[b] == disk[b]
    requires forall j :: 0 <= j < |inodes| && j != i ==> inodes'[j] == inodes[j]
    ensures OthersSame(disk, inodes, i, disk', inodes')
    ensures Released(sb, disk, Row(disk, inodes, i), disk')
  {
    BitmapOnly(sb, disk, inodes, i, disk', inodes');
    forall b | 0 <= b < sb.size
      ensures Bits(sb, disk')[b] <==> Bits(sb, disk)[b] && (b < sb.nmeta || b !in Row(disk, inodes, i))
    {
      TruncExact(sb, disk, inodes, i, disk', inodes', b);
    }
  }

  lemma NoAddrsEmptyRow(disk: seq<Block>, inodes: seq<Dinode>, i: nat)
    requires i < |inodes| && forall k :: 0 <= k <= NDIRECT ==> inodes[i].addrs[k] == 0
    ensures EmptyRow(Row(disk, inodes, i))
  {
  }
}
