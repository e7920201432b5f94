/** The effect of bmap on slots and blocks, one allocation at a time. */
module FsMap {
  import opened FsLayout
  import opened BlockOwnership
  import opened FsState

  /**
   Filling slots of inode i for its file block bn: slots in use keep their block, only that file block
   and the indirect pointer can be filled, other inodes keep theirs, no block in use changes
   except i's own indirect block, and a block filled in for the file block is all zeros.
   */
  ghost predicate Extends(sb: Super, disk: seq<Block>, inodes: seq<Dinode>, i: nat, bn: nat, disk': seq<Block>,
                          inodes': seq<Dinode>)
    requires i < |inodes| && bn < MAXFILE
  {
    var t, t' := Table(disk, inodes), Table(disk', inodes');
    && |inodes'| == |inodes| && InUseSame(disk, inodes, i, disk')
    && inodes' == inodes[i := inodes[i].(addrs := inodes'[i].addrs)]
    && (forall k :: 0 <= k < NSLOTS && t[i][k] != 0 ==> t'[i][k] == t[i][k])
    && (forall k :: 0 <= k < NSLOTS && k != DataSlot(bn) && k != NDIRECT ==> t'[i][k] == t[i][k])
    && (forall j :: 0 <= j < |inodes| && j != i ==> t'[j] == t[j])
    && (t[i][DataSlot(bn)] == 0 ==> ZeroAt(disk', t'[i][DataSlot(bn)]))
  }

  /** No block, or one full of zeros. */
  predicate ZeroAt(disk: seq<Block>, b: nat) { b == 0 || (b < |disk| && disk[b] == ZeroBlock()) }

  /** What bmap(ip, bn) == addr does. */
  ghost predicate Mapped(sb: Super, disk: seq<Block>, inodes: seq<Dinode>, i: nat, bn: nat, disk': seq<Block>,
                         inodes': seq<Dinode>, addr: nat)
    requires i < |inodes| && bn < MAXFILE
  {
    && Extends(sb, disk, inodes, i, bn, disk', inodes')
    && addr == Table(disk', inodes')[i][DataSlot(bn)]
    && (Table(disk, inodes)[i][DataSlot(bn)] != 0 ==> disk' == disk && inodes' == inodes)
  }

  ghost predicate InUseSame(disk: seq<Block>, inodes: seq<Dinode>, i: nat, disk': seq<Block>) {
    var t := Table(disk, inodes);
    && |disk'| == |disk|
    && (forall j, k :: InTable(t, j, k) && (j != i || k != NDIRECT) && 0 < Cell(t, j, k) < |disk| ==>
          disk'[Cell(t, j, k)] == disk[Cell(t, j, k)])
  }

  lemma ExtendsByPlace(sb: Super, disk: seq<Block>, inodes: seq<Dinode>, i: nat, bn: nat, a: Addrs,
                       disk': seq<Block>, k: nat, b: nat)
    requires i < |inodes| && bn < MAXFILE && (k == DataSlot(bn) || k == NDIRECT)
    requires Table(disk, inodes)[i][k] == 0 && InUseSame(disk, inodes, i, disk')
    requires Table(disk', inodes[i := inodes[i].(addrs := a)]) == Place(Table(disk, inodes), i, k, b)
    requires k == DataSlot(bn) ==> ZeroAt(disk', b)
    ensures Extends(sb, disk, inodes, i, bn, disk', inodes[i := inodes[i].(addrs := a)])
    ensures k == DataSlot(bn) ==> Mapped(sb, disk, inodes, i, bn, disk', inodes[i := inodes[i].(addrs := a)], b)
  {
  }

  lemma MapNothing(sb: Super, disk: seq<Block>, inodes: seq<Dinode>, i: nat, bn: nat)
    requires i < |inodes| && bn < MAXFILE
    ensures Mapped(sb, disk, inodes, i, bn, disk, inodes, Table(disk, inodes)[i][DataSlot(bn)])
  {
    assert inodes == inodes[i := inodes[i].(addrs := inodes[i].addrs)];
  }

  lemma MapDirect(sb: Super, disk: seq<Block>, inodes: seq<Dinode>, i: nat, bn: nat, b: nat)
    requires Consistent(sb, disk, inodes, {}) && i < |inodes| && bn < NDIRECT
    requires inodes[i].addrs[bn] == 0 && b < sb.size && !Bits(sb, disk)[b]
    ensures var disk', inodes' := AllocDisk(sb, disk, b), inodes[i := SetAddr(inodes[i], bn, b)];
            Consistent(sb, disk', inodes', {}) && Mapped(sb, disk, inodes, i, bn, disk', inodes', b)
  {
    var disk' := AllocDisk(sb, disk, b);
    AllocKeeps(sb, disk, inodes, {}, b);
    PlaceDirect(sb, disk', inodes, {} + {b}, i, bn, b);
    assert {} + {b} - {b} == {};
    assert Table(disk, inodes)[i][bn] == 0;
    InUseKept(sb, disk, inodes, i, b);
    ExtendsByPlace(sb, disk, inodes, i, bn, SetAddr(inodes[i], bn, b).addrs, disk', bn, b);
  }

  /** Allocating b changes no block that a slot names. */
  lemma InUseKept(sb: Super, disk: seq<Block>, inodes: seq<Dinode>, i: nat, b: nat)
    requires Consistent(sb, disk, inodes, {}) && b < sb.size && !Bits(sb, disk)[b]
    ensures InUseSame(disk, inodes, i, AllocDisk(sb, disk, b))
    ensures forall j :: 0 <= j < |inodes| && 0 < inodes[j].addrs[NDIRECT] < |disk| ==>
              AllocDisk(sb, disk, b)[inodes[j].addrs[NDIRECT]] == disk[inodes[j].addrs[NDIRECT]]
  {
    var t := Table(disk, inodes);
    AllocKeeps(sb, disk, inodes, {}, b);
    forall j, k | InTable(t, j, k) && 0 < Cell(t, j, k) < |disk|
      ensures AllocDisk(sb, disk, b)[Cell(t, j, k)] == disk[Cell(t, j, k)]
    {
      CellRange(t, Bits(sb, disk), sb.nmeta, {}, j, k);
    }
    forall j | 0 <= j < |inodes| && 0 < inodes[j].addrs[NDIRECT] < |disk|
      ensures AllocDisk(sb, disk, b)[inodes[j].addrs[NDIRECT]] == disk[inodes[j].addrs[NDIRECT]]
    {
      assert Cell(t, j, NDIRECT) == inodes[j].addrs[NDIRECT];
    }
  }

  lemma MapPointer(sb: Super, disk: seq<Block>, inodes: seq<Dinode>, i: nat, bn: nat, b: nat)
    requires Consistent(sb, disk, inodes, {}) && i < |inodes| && bn < MAXFILE
    requires inodes[i].addrs[NDIRECT] == 0 && b < sb.size && !Bits(sb, disk)[b]
    ensures var disk', inodes' := AllocDisk(sb, disk, b), inodes[i := SetAddr(inodes[i], NDIRECT, b)];
            && Consistent(sb, disk', inodes', {}) && Extends(sb, disk, inodes, i, bn, disk', inodes')
            && Table(disk', inodes') == Place(Table(disk, inodes), i, NDIRECT, b)
  {
    var disk' := AllocDisk(sb, disk, b);
    AllocKeeps(sb, disk, inodes, {}, b);
    PlaceIndirect(sb, disk', inodes, {} + {b}, i, b);
    assert {} + {b} - {b} == {};
    assert Table(disk, inodes)[i][NDIRECT] == 0;
    InUseKept(sb, disk, inodes, i, b);
    ExtendsByPlace(sb, disk, inodes, i, bn, SetAddr(inodes[i], NDIRECT, b).addrs, disk', NDIRECT, b);
  }

  lemma DirectSlot(disk: seq<Block>, inodes: seq<Dinode>, i: nat, bn: nat)
    requires i < |inodes| && bn < NDIRECT
    ensures Table(disk, inodes)[i][DataSlot(bn)] == inodes[i].addrs[bn]
  {
  }

  lemma NoPointerNoEntry(disk: seq<Block>, inodes: seq<Dinode>, i: nat, e: nat)
    requires i < |inodes| && e < NINDIRECT
    ensures inodes[i].addrs[NDIRECT] == 0 ==> Table(disk, inodes)[i][DataSlot(NDIRECT + e)] == 0
  {
  }

  lemma EntrySlot(sb: Super, disk: seq<Block>, inodes: seq<Dinode>, i: nat, e: nat)
    requires Consistent(sb, disk, inodes, {}) && i < |inodes| && e < NINDIRECT
    requires inodes[i].addrs[NDIRECT] != 0
    ensures 0 < inodes[i].addrs[NDIRECT] < |disk|
    ensures Table(disk, inodes)[i][DataSlot(NDIRECT + e)] == GetWord(disk[inodes[i].addrs[NDIRECT]], e)
  {
    SlotRange(sb, disk, inodes, {}, i, NDIRECT);
    assert Table(disk, inodes)[i][NDIRECT] == inodes[i].addrs[NDIRECT];
    WordsAt(disk[inodes[i].addrs[NDIRECT]], e);
  }

  lemma MapEntry(sb: Super, disk: seq<Block>, inodes: seq<Dinode>, i: nat, e: nat, b: nat)
    requires Consistent(sb, disk, inodes, {}) && i < |inodes| && e < NINDIRECT
    requires var p := inodes[i].addrs[NDIRECT]; 0 < p < |disk| && GetWord(disk[p], e) == 0
    requires b < sb.size && !Bits(sb, disk)[b]
    ensures b < WORD
    ensures var p := inodes[i].addrs[NDIRECT];
            var disk1 := AllocDisk(sb, disk, b);
            var disk' := disk1[p := PutWord(disk1[p], e, b)];
            && disk1[p] == disk[p]
            && Consistent(sb, disk', inodes, {}) && Mapped(sb, disk, inodes, i, NDIRECT + e, disk', inodes, b)
  {
    hide Extends, InUseSame, Owns, PutWord, Bits;
    var p := inodes[i].addrs[NDIRECT];
    var disk1 := AllocDisk(sb, disk, b);
    AllocKeeps(sb, disk, inodes, {}, b);
    InUseKept(sb, disk, inodes, i, b);
    EntrySlot(sb, disk, inodes, i, e);
    assert Cell(Table(disk, inodes), i, NDIRECT) == p;
    PlaceEntry(sb, disk1, inodes, {} + {b}, i, e, b);
    assert {} + {b} - {b} == {};
    PointerPrivate(sb, disk, inodes, i, disk1, PutWord(disk1[p], e, b));
    assert inodes == inodes[i := inodes[i].(addrs := inodes[i].addrs)];
    ExtendsByPlace(sb, disk, inodes, i, NDIRECT + e, inodes[i].addrs,
                   disk1[p := PutWord(disk1[p], e, b)], NDIRECT + 1 + e, b);
  }

  /** No other slot names i's indirect block, so rewriting it is private to i. */
  lemma PointerPrivate(sb: Super, disk: seq<Block>, inodes: seq<Dinode>, i: nat, disk1: seq<Block>, blk: Block)
    requires Consistent(sb, disk, inodes, {}) && i < |inodes| && 0 < inodes[i].addrs[NDIRECT] < |disk|
    requires InUseSame(disk, inodes, i, disk1)
    ensures InUseSame(disk, inodes, i, disk1[inodes[i].addrs[NDIRECT] := blk])
  {
    var t := Table(disk, inodes);
    var p := inodes[i].addrs[NDIRECT];
    assert t[i][NDIRECT] == p;
    forall j, k | InTable(t, j, k) && (j != i || k != NDIRECT) ensures Cell(t, j, k) != p {
      CellUnique(t, i, NDIRECT, j, k);
    }
  }

  lemma MapCompose(sb: Super, disk: seq<Block>, inodes: seq<Dinode>, i: nat, bn: nat, disk1: seq<Block>,
                   inodes1: seq<Dinode>, disk2: seq<Block>, inodes2: seq<Dinode>, addr: nat)
    requires i < |inodes| && bn < MAXFILE
    requires Extends(sb, disk, inodes, i, bn, disk1, inodes1)
    requires Mapped(sb, disk1, inodes1, i, bn, disk2, inodes2, addr)
    requires Table(disk, inodes)[i][DataSlot(bn)] != 0 ==> disk1 == disk && inodes1 == inodes
    ensures Mapped(sb, disk, inodes, i, bn, disk2, inodes2, addr)
  {
    var t, t1 := Table(disk, inodes), Table(disk1, inodes1);
    forall j, k | InTable(t, j, k) && (j != i || k != NDIRECT) && 0 < Cell(t, j, k) < |disk|
      ensures disk2[Cell(t, j, k)] == disk[Cell(t, j, k)]
    {
      assert Cell(t1, j, k) == Cell(t, j, k);
    }
  }
}
