/** What reading fills in: which blocks bmap allocates, and what becomes of the inode and of the disk. */
module FsFill {
  import opened FsLayout
  import opened BlockOwnership
  import opened FsState
  import opened FsMap
  import opened FsWrite

  ghost predicate Full(sb: Super, disk: seq<Block>)
    requires ValidSuper(sb) && |disk| == sb.size
  {
    forall b :: 0 <= b < sb.size ==> Bits(sb, disk)[b]
  }

  /** The block that holds offset o of a file is missing, and none can be had. */
  ghost predicate Stuck(sb: Super, disk: seq<Block>, row: seq<nat>, o: nat)
    requires ValidSuper(sb) && |disk| == sb.size && |row| == NSLOTS
  {
    o < MAXBYTES && row[DataSlot(BlockNo(o))] == 0 && Full(sb, disk)
  }

  /** bmap fills slots exactly when the block is missing and the disk is not full; otherwise it changes nothing. */
  ghost predicate Fills(sb: Super, disk: seq<Block>, inodes: seq<Dinode>, i: nat, bn: nat, disk': seq<Block>,
                        inodes': seq<Dinode>) {
    && ValidSuper(sb) && |disk| == sb.size && i < |inodes| == |inodes'| && bn < MAXFILE
    && if Row(disk, inodes, i)[DataSlot(bn)] != 0 || Full(sb, disk) then disk' == disk && inodes' == inodes
       else Grew(Row(disk, inodes, i), Row(disk', inodes', i))
  }

  /** The address an inode itself holds for file block bn: the block's own, or that of the indirect block. */
  function AddrOf(bn: nat): nat { if bn < NDIRECT then bn else NDIRECT }

  /** What bmap does to the inode in memory: it fills that address exactly when it is empty and the disk is not full. */
  predicate NodeFills(node: Dinode, bn: nat, full: bool, node': Dinode) {
    if node.addrs[AddrOf(bn)] != 0 || full then node' == node else node'.addrs[AddrOf(bn)] != 0
  }

  lemma FillsOne(sb: Super, disk: seq<Block>, inodes: seq<Dinode>, i: nat, bn: nat, disk': seq<Block>,
                 inodes': seq<Dinode>, addr: nat)
    requires ValidSuper(sb) && |disk| == sb.size && i < |inodes| && bn < MAXFILE
    requires Mapped(sb, disk, inodes, i, bn, disk', inodes', addr)
    requires Row(disk, inodes, i)[DataSlot(bn)] == 0 ==>
               if addr == 0 then Full(sb, disk) && disk' == disk && inodes' == inodes else !Full(sb, disk)
    ensures Fills(sb, disk, inodes, i, bn, disk', inodes')
  {
    var row, row' := Row(disk, inodes, i), Row(disk', inodes', i);
    assert row[DataSlot(bn)] == 0 && addr != 0 ==> row'[DataSlot(bn)] != 0;
  }

  /** The indirect block is filled in first, if it is missing, and then the entry. */
  lemma FillsIndirect(sb: Super, disk: seq<Block>, inodes: seq<Dinode>, i: nat, bn: nat, disk1: seq<Block>,
                      inodes1: seq<Dinode>, disk2: seq<Block>, inodes2: seq<Dinode>, addr: nat)
    requires ValidSuper(sb) && |disk| == sb.size && i < |inodes| && NDIRECT <= bn < MAXFILE
    requires Extends(sb, disk, inodes, i, bn, disk1, inodes1) && Mapped(sb, disk1, inodes1, i, bn, disk2, inodes2, addr)
    requires Fills(sb, disk1, inodes1, i, bn, disk2, inodes2)
    requires if inodes[i].addrs[NDIRECT] != 0 then disk1 == disk && inodes1 == inodes
             else inodes1[i].addrs[NDIRECT] != 0 && !Full(sb, disk)
    ensures Mapped(sb, disk, inodes, i, bn, disk2, inodes2, addr) && Fills(sb, disk, inodes, i, bn, disk2, inodes2)
  {
    NoPointerNoEntry(disk, inodes, i, bn - NDIRECT);
    MapCompose(sb, disk, inodes, i, bn, disk1, inodes1, disk2, inodes2, addr);
    if inodes[i].addrs[NDIRECT] == 0 {
      ExtendsKeeps(sb, disk1, inodes1, i, bn, disk2, inodes2);
      assert Row(disk, inodes, i)[NDIRECT] == 0 && Row(disk1, inodes1, i)[NDIRECT] != 0;
      assert Row(disk2, inodes2, i)[NDIRECT] != 0;
    }
  }

  lemma NoIndirect(sb: Super, disk: seq<Block>, inodes: seq<Dinode>, i: nat, e: nat)
    requires ValidSuper(sb) && |disk| == sb.size && i < |inodes| && e < NINDIRECT && inodes[i].addrs[NDIRECT] == 0
    ensures Mapped(sb, disk, inodes, i, NDIRECT + e, disk, inodes, 0)
    ensures Row(disk, inodes, i)[DataSlot(NDIRECT + e)] == 0
    ensures Full(sb, disk) ==> Fills(sb, disk, inodes, i, NDIRECT + e, disk, inodes)
  {
    NoPointerNoEntry(disk, inodes, i, e);
    MapNothing(sb, disk, inodes, i, NDIRECT + e);
    if Full(sb, disk) {
      FillsOne(sb, disk, inodes, i, NDIRECT + e, disk, inodes, 0);
    }
  }

  // ----- a read of n bytes -----

  /** The inode itself lacks no address for any of n bytes from off on. */
  ghost predicate NoGap(node: Dinode, off: nat, n: nat)
    requires off + n <= MAXBYTES
  {
    forall o :: off <= o < off + n ==> node.addrs[AddrOf(BlockNo(o))] != 0
  }

  /** An address has been filled that was empty. */
  ghost predicate Gained(node: Dinode, node': Dinode) {
    exists k :: 0 <= k <= NDIRECT && node.addrs[k] == 0 && node'.addrs[k] != 0
  }

  /**
   The state after n bytes from off on have been mapped: nothing has changed exactly if no block was missing or
   the disk was full, and the inode in memory has not exactly if it lacked no address or the disk was full.
   */
  ghost predicate Visited(sb: Super, disk0: seq<Block>, inodes0: seq<Dinode>, i: nat, off: nat, n: nat,
                          disk: seq<Block>, inodes: seq<Dinode>)
    requires ValidSuper(sb) && |disk0| == sb.size && i < |inodes0| && off + n <= MAXBYTES
  {
    && Filled(disk0, inodes0, i, disk, inodes)
    && (if NoHole(Row(disk0, inodes0, i), off, n) || Full(sb, disk0) then disk == disk0 && inodes == inodes0
        else Grew(Row(disk0, inodes0, i), Row(disk, inodes, i)))
    && (if NoGap(inodes0[i], off, n) || Full(sb, disk0) then inodes[i] == inodes0[i]
        else Gained(inodes0[i], inodes[i]))
  }

  lemma VisitedNothing(sb: Super, disk: seq<Block>, inodes: seq<Dinode>, i: nat, off: nat)
    requires ValidSuper(sb) && |disk| == sb.size && i < |inodes| && off <= MAXBYTES
    ensures Visited(sb, disk, inodes, i, off, 0, disk, inodes) && NoHole(Row(disk, inodes, i), off, 0)
  {
    FilledNothing(disk, inodes, i);
  }

  /** The two conditions, read off the final state. */
  lemma VisitedExact(sb: Super, disk0: seq<Block>, inodes0: seq<Dinode>, i: nat, off: nat, n: nat,
                     disk: seq<Block>, inodes: seq<Dinode>)
    requires ValidSuper(sb) && |disk0| == sb.size && i < |inodes0| && off + n <= MAXBYTES
    requires Visited(sb, disk0, inodes0, i, off, n, disk, inodes)
    ensures Filled(disk0, inodes0, i, disk, inodes)
    ensures disk == disk0 && inodes == inodes0 <==> NoHole(Row(disk0, inodes0, i), off, n) || Full(sb, disk0)
    ensures inodes[i] == inodes0[i] <==> NoGap(inodes0[i], off, n) || Full(sb, disk0)
  {
  }

  lemma NoGapStep(node: Dinode, off: nat, tot: nat, m: nat)
    requires off + tot + m <= MAXBYTES && m > 0 && BlockOff(off + tot) + m <= BSIZE
    ensures NoGap(node, off, tot + m) <==> NoGap(node, off, tot) && node.addrs[AddrOf(BlockNo(off + tot))] != 0
  {
    assert forall o :: off + tot <= o < off + tot + m ==> BlockNo(o) == BlockNo(off + tot);
    if NoGap(node, off, tot + m) {
      assert node.addrs[AddrOf(BlockNo(off + tot))] != 0;
    }
  }

  /** The first address that is lacking comes before any other block that is missing. */
  lemma GapFirst(disk: seq<Block>, inodes: seq<Dinode>, i: nat, off: nat, tot: nat)
    requires i < |inodes| && off + tot < MAXBYTES && NoGap(inodes[i], off, tot)
    requires inodes[i].addrs[AddrOf(BlockNo(off + tot))] == 0
    ensures NoHole(Row(disk, inodes, i), off, tot)
  {
    var row := Row(disk, inodes, i);
    forall o | off <= o < off + tot ensures row[DataSlot(BlockNo(o))] != 0 {
      assert BlockNo(o) <= BlockNo(off + tot);
      assert inodes[i].addrs[AddrOf(BlockNo(o))] != 0;
    }
  }

  /** An address once filled stays. */
  lemma GainedKept(d1: seq<Block>, n1: seq<Dinode>, i: nat, d2: seq<Block>, n2: seq<Dinode>, node: Dinode)
    requires i < |n1| && Filled(d1, n1, i, d2, n2) && Gained(node, n1[i])
    ensures Gained(node, n2[i])
  {
    var k :| 0 <= k <= NDIRECT && node.addrs[k] == 0 && n1[i].addrs[k] != 0;
    assert Row(d1, n1, i)[k] == n1[i].addrs[k] && Row(d2, n2, i)[k] == n2[i].addrs[k];
  }

  /** The next m bytes, all in one block, are mapped. */
  lemma VisitedStep(sb: Super, d0: seq<Block>, n0: seq<Dinode>, i: nat, off: nat, tot: nat, m: nat, d1: seq<Block>,
                    n1: seq<Dinode>, d2: seq<Block>, n2: seq<Dinode>)
    requires ValidSuper(sb) && |d0| == |d1| == sb.size && i < |n0| == |n1| == |n2| && off + tot + m <= MAXBYTES
    requires m > 0 && BlockOff(off + tot) + m <= BSIZE && BlockNo(off + tot) < MAXFILE
    requires Visited(sb, d0, n0, i, off, tot, d1, n1) && Filled(d1, n1, i, d2, n2)
    requires Fills(sb, d1, n1, i, BlockNo(off + tot), d2, n2)
    requires NodeFills(n1[i], BlockNo(off + tot), Full(sb, d1), n2[i])
    ensures Visited(sb, d0, n0, i, off, tot + m, d2, n2)
  {
    hide Filled, Full, NoHole, NoGap, Row, Grew, Gained, BlockNo, BlockOff;
    NoHoleStep(Row(d0, n0, i), off, tot, m);
    NoGapStep(n0[i], off, tot, m);
    FilledTrans(d0, n0, i, d1, n1, d2, n2);
    if Gained(n0[i], n1[i]) {
      GainedKept(d1, n1, i, d2, n2, n0[i]);
    } else if NoGap(n0[i], off, tot) && n0[i].addrs[AddrOf(BlockNo(off + tot))] == 0 {
      GapFirst(d0, n0, i, off, tot);
      NewAddr(n0[i], AddrOf(BlockNo(off + tot)), n2[i]);
    }
  }

  lemma NewAddr(node: Dinode, k: nat, node': Dinode)
    requires k <= NDIRECT && node.addrs[k] == 0
    ensures node'.addrs[k] != 0 ==> Gained(node, node')
  {
  }

  /** A slot that is empty has been so from the start. */
  lemma SlotEmpty(d0: seq<Block>, n0: seq<Dinode>, i: nat, d1: seq<Block>, n1: seq<Dinode>, k: nat)
    requires i < |n0| == |n1| && Filled(d0, n0, i, d1, n1) && k < NSLOTS && Row(d1, n1, i)[k] == 0
    ensures Row(d0, n0, i)[k] == 0
  {
  }

  /** A read that stops at a missing block has done what it would have done to the end. */
  lemma VisitedBreak(sb: Super, disk0: seq<Block>, inodes0: seq<Dinode>, i: nat, off: nat, tot: nat, m: nat, n: nat,
                     disk: seq<Block>, inodes: seq<Dinode>)
    requires ValidSuper(sb) && |disk0| == sb.size && i < |inodes0| && tot + m <= n && off + n <= MAXBYTES && m > 0
    requires Visited(sb, disk0, inodes0, i, off, tot + m, disk, inodes)
    requires Row(disk0, inodes0, i)[DataSlot(BlockNo(off + tot))] == 0
    ensures Visited(sb, disk0, inodes0, i, off, n, disk, inodes) && !NoHole(Row(disk0, inodes0, i), off, n)
  {
    hide Filled, Full, Grew, Gained;
    var row, node := Row(disk0, inodes0, i), inodes0[i];
    assert !NoHole(row, off, tot + m) && !NoHole(row, off, n);
    if NoGap(node, off, tot + m) {
      assert node.addrs[AddrOf(BlockNo(off + tot))] != 0;
      forall o | off <= o < off + n ensures node.addrs[AddrOf(BlockNo(o))] != 0 {
        assert o >= off + tot + m ==> BlockNo(o) >= BlockNo(off + tot);
      }
    } else {
      assert !NoGap(node, off, n);
    }
  }

  // ----- the copy on disk -----

  /** inodes' is as inodes, but i lacks some of its addresses. */
  ghost predicate Behind(inodes: seq<Dinode>, i: nat, inodes': seq<Dinode>) {
    && i < |inodes| == |inodes'| && inodes' == inodes[i := inodes[i].(addrs := inodes'[i].addrs)]
    && forall k :: 0 <= k <= NDIRECT && inodes'[i].addrs[k] != 0 ==> inodes[i].addrs[k] == inodes'[i].addrs[k]
  }

  /** An inode on disk that lacks an address leaves a block marked that nothing on disk names. */
  lemma BehindExact(sb: Super, disk: seq<Block>, inodes: seq<Dinode>, i: nat, inodes': seq<Dinode>)
    requires Consistent(sb, disk, inodes, {}) && Behind(inodes, i, inodes')
    ensures Consistent(sb, disk, inodes', {}) <==> inodes' == inodes
  {
    if inodes' != inodes {
      var k := LackingAddr(inodes[i].addrs, inodes'[i].addrs);
      var t, t' := Table(disk, inodes), Table(disk, inodes');
      var b := inodes[i].addrs[k];
      assert Cell(t, i, k) == b;
      CellRange(t, Bits(sb, disk), sb.nmeta, {}, i, k);
      if Consistent(sb, disk, inodes', {}) {
        BitsExact(t', Bits(sb, disk), sb.nmeta, b);
        var i', k' :| InTable(t', i', k') && Cell(t', i', k') == b;
        BehindSlots(disk, inodes, i, inodes', i', k');
        OneSlot(t, i, k, i', k');
      }
    }
  }

  lemma OneSlot(t: SlotTable, i: int, k: int, i': int, k': int)
    requires Unique(t) && InTable(t, i, k) && InTable(t, i', k') && Cell(t, i, k) == Cell(t, i', k') != 0
    ensures i == i' && k == k'
  {
  }

  lemma FilledBehind(disk: seq<Block>, inodes: seq<Dinode>, i: nat, disk': seq<Block>, inodes': seq<Dinode>)
    requires i < |inodes| && Filled(disk, inodes, i, disk', inodes')
    ensures Behind(inodes', i, inodes) && (inodes == inodes' <==> inodes[i] == inodes'[i])
  {
    var row, row' := Row(disk, inodes, i), Row(disk', inodes', i);
    forall k | 0 <= k <= NDIRECT && inodes[i].addrs[k] != 0 ensures inodes'[i].addrs[k] == inodes[i].addrs[k] {
      assert row[k] == inodes[i].addrs[k] && row'[k] == inodes'[i].addrs[k];
    }
  }

  lemma LackingAddr(a: Addrs, a': Addrs) returns (k: nat)
    requires a != a' && forall j :: 0 <= j <= NDIRECT && a'[j] != 0 ==> a[j] == a'[j]
    ensures k <= NDIRECT && a'[k] == 0 && a[k] != 0
  {
    assert !(forall j :: 0 <= j <= NDIRECT ==> a[j] == a'[j]);
    k :| 0 <= k <= NDIRECT && a[k] != a'[k];
  }

  lemma BehindSlots(disk: seq<Block>, inodes: seq<Dinode>, i: nat, inodes': seq<Dinode>, j: nat, k: nat)
    requires Behind(inodes, i, inodes') && j < |inodes| && k < NSLOTS && Table(disk, inodes')[j][k] != 0
    ensures Table(disk, inodes)[j][k] == Table(disk, inodes')[j][k]
  {
  }
}
