/** What the block layer's updates do to block ownership and to file contents. */
module FsState {
  import opened FsLayout
  import opened BlockOwnership

  ghost predicate Consistent(sb: Super, disk: seq<Block>, inodes: seq<Dinode>, held: set<nat>) {
    && ValidSuper(sb) && |disk| == sb.size
    && Owns(Table(disk, inodes), Bits(sb, disk), sb.nmeta, held)
  }

  /** Everything named by a slot is a data block. */
  lemma SlotRange(sb: Super, disk: seq<Block>, inodes: seq<Dinode>, held: set<nat>, i: nat, k: nat)
    requires Consistent(sb, disk, inodes, held) && i < |inodes| && k < NSLOTS
    ensures var v := Table(disk, inodes)[i][k]; v != 0 ==> sb.nmeta <= v < sb.size && Bits(sb, disk)[v]
  {
    var t := Table(disk, inodes);
    if t[i][k] != 0 {
      CellRange(t, Bits(sb, disk), sb.nmeta, held, i, k);
    }
  }

  /** A block that is nobody's indirect block can change without moving any slot. */
  lemma TableFrame(disk: seq<Block>, inodes: seq<Dinode>, b: nat, blk: Block)
    requires b < |disk| && forall i :: 0 <= i < |inodes| ==> inodes[i].addrs[NDIRECT] != b
    ensures Table(disk[b := blk], inodes) == Table(disk, inodes)
  {
    forall i | 0 <= i < |inodes|
      ensures Slots(disk[b := blk], inodes[i].addrs) == Slots(disk, inodes[i].addrs) {}
  }

  /** balloc marks block b in the map and zeroes it. */
  function AllocDisk(sb: Super, disk: seq<Block>, b: nat): (r: seq<Block>)
    requires ValidSuper(sb) && |disk| == sb.size && b < sb.size
    ensures |r| == |disk|
  {
    var m := BBlock(sb, b);
    disk[m := MapSet(disk[m], MapOff(b))][b := ZeroBlock()]
  }

  lemma AllocKeeps(sb: Super, disk: seq<Block>, inodes: seq<Dinode>, held: set<nat>, b: nat)
    requires Consistent(sb, disk, inodes, held) && b < sb.size && !Bits(sb, disk)[b]
    ensures sb.nmeta <= b && b !in held
    ensures Consistent(sb, AllocDisk(sb, disk, b), inodes, held + {b})
    ensures Table(AllocDisk(sb, disk, b), inodes) == Table(disk, inodes)
    ensures forall i, k :: InTable(Table(disk, inodes), i, k) ==> Cell(Table(disk, inodes), i, k) != b
  {
    var t := Table(disk, inodes);
    var m := BBlock(sb, b);
    OwnsTake(t, Bits(sb, disk), sb.nmeta, held, b);
    SetBits(sb, disk, b);
    var d1 := disk[m := MapSet(disk[m], MapOff(b))];
    forall i | 0 <= i < |inodes| ensures inodes[i].addrs[NDIRECT] != m && inodes[i].addrs[NDIRECT] != b {
      assert Cell(t, i, NDIRECT) == inodes[i].addrs[NDIRECT];
    }
    TableFrame(disk, inodes, m, MapSet(disk[m], MapOff(b)));
    TableFrame(d1, inodes, b, ZeroBlock());
    DataKeepsBits(sb, d1, b, ZeroBlock());
  }

  function SetAddr(ip: Dinode, k: nat, b: nat): Dinode
    requires k <= NDIRECT
  {
    var a: Addrs := ip.addrs[k := b];
    ip.(addrs := a)
  }

  lemma UpdateConcat(a: seq<nat>, w: seq<nat>, k: nat, b: nat)
    requires k < |a|
    ensures a[k := b] + w == (a + w)[k := b]
  {
  }

  lemma ConcatUpdate(a: seq<nat>, w: seq<nat>, e: nat, b: nat)
    requires e < |w|
    ensures a + w[e := b] == (a + w)[|a| + e := b]
  {
  }

  /** ip->addrs[k] = b for a direct slot. */
  lemma PlaceDirect(sb: Super, disk: seq<Block>, inodes: seq<Dinode>, held: set<nat>, i: nat, k: nat, b: nat)
    requires Consistent(sb, disk, inodes, held) && i < |inodes| && k < NDIRECT
    requires inodes[i].addrs[k] == 0 && b in held
    ensures var inodes' := inodes[i := SetAddr(inodes[i], k, b)];
            && Table(disk, inodes') == Place(Table(disk, inodes), i, k, b)
            && Consistent(sb, disk, inodes', held - {b})
  {
    var t := Table(disk, inodes);
    var inodes' := inodes[i := SetAddr(inodes[i], k, b)];
    assert t[i][k] == 0;
    UpdateConcat(inodes[i].addrs, t[i][NDIRECT + 1..], k, b);
    assert Slots(disk, inodes[i].addrs) == inodes[i].addrs + t[i][NDIRECT + 1..];
    assert Slots(disk, inodes'[i].addrs) == inodes'[i].addrs + t[i][NDIRECT + 1..];
    assert Table(disk, inodes') == Place(t, i, k, b);
    OwnsPlace(t, Bits(sb, disk), sb.nmeta, held, i, k, b);
  }

  /** ip->addrs[NDIRECT] = b for a freshly zeroed block b. */
  lemma PlaceIndirect(sb: Super, disk: seq<Block>, inodes: seq<Dinode>, held: set<nat>, i: nat, b: nat)
    requires Consistent(sb, disk, inodes, held) && i < |inodes|
    requires inodes[i].addrs[NDIRECT] == 0 && b in held && disk[b] == ZeroBlock()
    ensures var inodes' := inodes[i := SetAddr(inodes[i], NDIRECT, b)];
            && Table(disk, inodes') == Place(Table(disk, inodes), i, NDIRECT, b)
            && Consistent(sb, disk, inodes', held - {b})
  {
    hide Owns, Bits;
    HeldRange(sb, disk, inodes, held, b);
    IndirectTable(disk, inodes, i, b);
    OwnsPlace(Table(disk, inodes), Bits(sb, disk), sb.nmeta, held, i, NDIRECT, b);
  }

  lemma HeldRange(sb: Super, disk: seq<Block>, inodes: seq<Dinode>, held: set<nat>, b: nat)
    requires Consistent(sb, disk, inodes, held) && b in held
    ensures 0 < b < |disk|
  {
  }

  lemma IndirectTable(disk: seq<Block>, inodes: seq<Dinode>, i: nat, b: nat)
    requires i < |inodes| && inodes[i].addrs[NDIRECT] == 0 && 0 < b < |disk| && disk[b] == ZeroBlock()
    ensures var inodes' := inodes[i := SetAddr(inodes[i], NDIRECT, b)];
            && Table(disk, inodes)[i][NDIRECT] == 0
            && Table(disk, inodes') == Place(Table(disk, inodes), i, NDIRECT, b)
  {
    var t := Table(disk, inodes);
    var inodes' := inodes[i := SetAddr(inodes[i], NDIRECT, b)];
    assert t[i][NDIRECT] == 0;
    ZeroWords();
    assert Slots(disk, inodes'[i].addrs) == Place(t, i, NDIRECT, b)[i];
    assert Table(disk, inodes') == Place(t, i, NDIRECT, b);
  }

  /** Only inode i points at its own indirect block. */
  lemma IndirectOwner(sb: Super, disk: seq<Block>, inodes: seq<Dinode>, held: set<nat>, i: nat, k: nat)
    requires Consistent(sb, disk, inodes, held) && i < |inodes| && k < NSLOTS
    requires Table(disk, inodes)[i][k] != 0
    ensures forall j :: 0 <= j < |inodes| && (j != i || k != NDIRECT) ==>
              inodes[j].addrs[NDIRECT] != Table(disk, inodes)[i][k]
  {
    var t := Table(disk, inodes);
    forall j | 0 <= j < |inodes| && (j != i || k != NDIRECT) ensures inodes[j].addrs[NDIRECT] != t[i][k] {
      CellUnique(t, i, k, j, NDIRECT);
      assert inodes[j].addrs[NDIRECT] == t[j][NDIRECT];
    }
  }

  /** a[e] = b in inode i's indirect block. */
  lemma PlaceEntry(sb: Super, disk: seq<Block>, inodes: seq<Dinode>, held: set<nat>, i: nat, e: nat, b: nat)
    requires Consistent(sb, disk, inodes, held) && i < |inodes| && e < NINDIRECT && b in held
    requires var p := inodes[i].addrs[NDIRECT]; 0 < p < |disk| && GetWord(disk[p], e) == 0
    ensures b < WORD
    ensures var p := inodes[i].addrs[NDIRECT];
            var disk' := disk[p := PutWord(disk[p], e, b)];
            && Table(disk', inodes) == Place(Table(disk, inodes), i, NDIRECT + 1 + e, b)
            && Consistent(sb, disk', inodes, held - {b})
  {
    hide Owns, Bits, PutWord, GetWord;
    var t := Table(disk, inodes);
    var p := inodes[i].addrs[NDIRECT];
    HeldWord(sb, disk, inodes, held, b);
    assert t[i][NDIRECT] == p;
    CellRange(t, Bits(sb, disk), sb.nmeta, held, i, NDIRECT);
    IndirectOwner(sb, disk, inodes, held, i, NDIRECT);
    EntryTable(disk, inodes, i, e, b);
    DataKeepsBits(sb, disk, p, PutWord(disk[p], e, b));
    OwnsPlace(t, Bits(sb, disk), sb.nmeta, held, i, NDIRECT + 1 + e, b);
  }

  lemma HeldWord(sb: Super, disk: seq<Block>, inodes: seq<Dinode>, held: set<nat>, b: nat)
    requires Consistent(sb, disk, inodes, held) && b in held
    ensures b < WORD
  {
  }

  lemma EntryTable(disk: seq<Block>, inodes: seq<Dinode>, i: nat, e: nat, b: nat)
    requires i < |inodes| && e < NINDIRECT && b < WORD
    requires var p := inodes[i].addrs[NDIRECT]; 0 < p < |disk| && GetWord(disk[p], e) == 0
    requires forall j :: 0 <= j < |inodes| && j != i ==> inodes[j].addrs[NDIRECT] != inodes[i].addrs[NDIRECT]
    ensures var p := inodes[i].addrs[NDIRECT];
            && Table(disk, inodes)[i][NDIRECT + 1 + e] == 0
            && Table(disk[p := PutWord(disk[p], e, b)], inodes) == Place(Table(disk, inodes), i, NDIRECT + 1 + e, b)
  {
    hide PutWord, GetWord;
    var t := Table(disk, inodes);
    var p := inodes[i].addrs[NDIRECT];
    WordsAt(disk[p], e);
    assert t[i] == inodes[i].addrs + Words(disk[p]);
    var disk' := disk[p := PutWord(disk[p], e, b)];
    WordsPut(disk[p], e, b);
    assert Slots(disk', inodes[i].addrs) == inodes[i].addrs + Words(disk[p])[e := b];
    ConcatUpdate(inodes[i].addrs, Words(disk[p]), e, b);
    forall j | 0 <= j < |inodes| && j != i ensures Slots(disk', inodes[j].addrs) == t[j] {}
    assert Table(disk', inodes) == Place(t, i, NDIRECT + 1 + e, b);
  }

  /** Writing a data block of a file moves no slot. */
  lemma DataWrite(sb: Super, disk: seq<Block>, inodes: seq<Dinode>, held: set<nat>, i: nat, k: nat, blk: Block)
    requires Consistent(sb, disk, inodes, held) && i < |inodes| && k < NSLOTS && k != NDIRECT
    requires Table(disk, inodes)[i][k] != 0
    ensures var b := Table(disk, inodes)[i][k];
            && b < |disk| && Table(disk[b := blk], inodes) == Table(disk, inodes)
            && Consistent(sb, disk[b := blk], inodes, held)
  {
    var b := Table(disk, inodes)[i][k];
    SlotRange(sb, disk, inodes, held, i, k);
    IndirectOwner(sb, disk, inodes, held, i, k);
    TableFrame(disk, inodes, b, blk);
    DataKeepsBits(sb, disk, b, blk);
  }

  /** Changing an inode's size, type or link count moves no slot. */
  lemma ResizeKeeps(sb: Super, disk: seq<Block>, inodes: seq<Dinode>, i: nat, size: nat)
    requires Consistent(sb, disk, inodes, {}) && i < |inodes|
    ensures Consistent(sb, disk, inodes[i := inodes[i].(size := size)], {})
  {
    assert Table(disk, inodes[i := inodes[i].(size := size)]) == Table(disk, inodes);
  }

  lemma Geometry(sb: Super, disk: seq<Block>, inodes: seq<Dinode>)
    requires Consistent(sb, disk, inodes, {})
    ensures ValidSuper(sb) && |disk| == sb.size
  {
  }

  /** Block 0 is metadata. */
  lemma FirstMarked(sb: Super, disk: seq<Block>, inodes: seq<Dinode>)
    requires Consistent(sb, disk, inodes, {})
    ensures Bits(sb, disk)[0]
  {
  }

  /** bfree of a held block. */
  lemma FreeHeld(sb: Super, disk: seq<Block>, inodes: seq<Dinode>, held: set<nat>, b: nat)
    requires Consistent(sb, disk, inodes, held) && b in held
    ensures b < sb.size && MapBit(disk[BBlock(sb, b)], MapOff(b)) && Bits(sb, disk)[b]
    ensures var m := BBlock(sb, b);
            var disk' := disk[m := MapClear(disk[m], MapOff(b))];
            && Table(disk', inodes) == Table(disk, inodes)
            && Bits(sb, disk') == Bits(sb, disk)[b := false]
            && Consistent(sb, disk', inodes, held - {b})
  {
    var t := Table(disk, inodes);
    var m := BBlock(sb, b);
    assert Bits(sb, disk)[b];
    BitsAt(sb, disk, b);
    ClearBits(sb, disk, b);
    forall i | 0 <= i < |inodes| ensures inodes[i].addrs[NDIRECT] != m {
      assert Cell(t, i, NDIRECT) == inodes[i].addrs[NDIRECT];
    }
    TableFrame(disk, inodes, m, MapClear(disk[m], MapOff(b)));
    OwnsFree(t, Bits(sb, disk), sb.nmeta, held, b);
  }

  // ----- file contents -----

  /** The byte at offset o of a file whose slots are row; 0 where no block is present. */
  function ByteAt(disk: seq<Block>, row: seq<nat>, o: nat): Byte
    requires |row| == NSLOTS && o < MAXBYTES
  {
    var b := row[DataSlot(BlockNo(o))];
    if 0 < b < |disk| then disk[b][BlockOff(o)] else 0
  }

  /** No holes: every block below the file's size is present. */
  ghost predicate Present(row: seq<nat>, size: nat)
    requires |row| == NSLOTS
  {
    size <= MAXBYTES && forall n :: 0 <= n < MAXFILE && BlockStart(n) < size ==> row[DataSlot(n)] != 0
  }

  ghost predicate AllPresent(disk: seq<Block>, inodes: seq<Dinode>) {
    forall i :: 0 <= i < |inodes| ==> Present(Slots(disk, inodes[i].addrs), inodes[i].size)
  }

  /** A file as one flat byte sequence. */
  function Content(disk: seq<Block>, ip: Dinode): (r: seq<Byte>)
    requires ip.size <= MAXBYTES
    ensures |r| == ip.size
    ensures forall o :: 0 <= o < ip.size ==> r[o] == ByteAt(disk, Slots(disk, ip.addrs), o)
  {
    seq(ip.size, o requires 0 <= o < ip.size => ByteAt(disk, Slots(disk, ip.addrs), o))
  }

  /** c with s written at off. */
  function Overwrite(c: seq<Byte>, off: nat, s: seq<Byte>): (r: seq<Byte>)
    requires off <= |c|
    ensures |r| == if off + |s| > |c| then off + |s| else |c|
  {
    c[..off] + s + if off + |s| <= |c| then c[off + |s|..] else []
  }

  /** A read of the written range returns what was written; reads elsewhere are not affected. */
  lemma ReadOverwrite(c: seq<Byte>, off: nat, s: seq<Byte>)
    requires off <= |c|
    ensures Overwrite(c, off, s)[off..off + |s|] == s
    ensures Overwrite(c, off, s)[..off] == c[..off]
    ensures off + |s| <= |c| ==> Overwrite(c, off, s)[off + |s|..] == c[off + |s|..]
  {
    var r := Overwrite(c, off, s);
    assert r[off..off + |s|] == s;
    assert off + |s| <= |c| ==> r[off + |s|..] == c[off + |s|..];
  }

  lemma WriteNothing(c: seq<Byte>, off: nat, s: seq<Byte>)
    ensures off <= |c| ==> Overwrite(c, off, s[..0]) == c
  {
  }

  /** Consecutive writes amount to one write of the joined bytes. */
  lemma OverwriteTwice(c: seq<Byte>, off: nat, a: seq<Byte>, b: seq<Byte>)
    requires off <= |c|
    ensures Overwrite(Overwrite(c, off, a), off + |a|, b) == Overwrite(c, off, a + b)
  {
    var l, r := Overwrite(Overwrite(c, off, a), off + |a|, b), Overwrite(c, off, a + b);
    assert |l| == |r|;
    forall x | 0 <= x < |l| ensures l[x] == r[x] {}
  }
}
