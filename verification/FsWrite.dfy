/** How a write proceeds through a file, and how truncation empties it. */
module FsWrite {
  import opened FsLayout
  import opened BlockOwnership
  import opened FsState
  import opened FsMap

  ghost function Row(disk: seq<Block>, inodes: seq<Dinode>, i: nat): (r: seq<nat>)
    requires i < |inodes|
    ensures |r| == NSLOTS && r == Table(disk, inodes)[i]
  {
    Slots(disk, inodes[i].addrs)
  }

  /** Every inode other than i has the same slots and the same blocks. */
  ghost predicate OthersSame(disk: seq<Block>, inodes: seq<Dinode>, i: nat, disk': seq<Block>, inodes': seq<Dinode>)
  {
    && |disk'| == |disk| && |inodes'| == |inodes|
    && (forall j :: 0 <= j < |inodes| && j != i ==> inodes'[j] == inodes[j])
    && (forall j :: 0 <= j < |inodes| && j != i ==> Row(disk', inodes', j) == Row(disk, inodes, j))
    && (forall j, k :: 0 <= j < |inodes| && j != i && 0 <= k < NSLOTS && 0 < Row(disk, inodes, j)[k] < |disk| ==>
          disk'[Row(disk, inodes, j)[k]] == disk[Row(disk, inodes, j)[k]])
  }

  /** A file none of whose slots or blocks changed reads the same. */
  lemma OthersContent(disk: seq<Block>, inodes: seq<Dinode>, i: nat, disk': seq<Block>, inodes': seq<Dinode>, j: nat)
    requires OthersSame(disk, inodes, i, disk', inodes') && j < |inodes| && j != i && inodes[j].size <= MAXBYTES
    ensures inodes'[j] == inodes[j] && Content(disk', inodes'[j]) == Content(disk, inodes[j])
  {
    var row := Row(disk, inodes, j);
    assert row == Row(disk', inodes', j);
    forall o | 0 <= o < inodes[j].size ensures ByteAt(disk', row, o) == ByteAt(disk, row, o) {
      assert 0 <= DataSlot(BlockNo(o)) < NSLOTS;
    }
  }

  /**
   The first `tot` bytes of src are in the file at off, on blocks that are present; every byte outside that
   range, also beyond the end of the file, is as it was.
   */
  ghost predicate BytesOk(disk0: seq<Block>, row0: seq<nat>, off: nat, src: seq<Byte>, tot: nat, disk: seq<Block>,
                          row: seq<nat>)
    requires |row0| == |row| == NSLOTS && tot <= |src| && off + |src| <= MAXBYTES
  {
    && (forall o :: off <= o < off + tot ==> row[DataSlot(BlockNo(o))] != 0 && ByteAt(disk, row, o) == src[o - off])
    && (forall o :: 0 <= o < MAXBYTES && !(off <= o < off + tot) ==> ByteAt(disk, row, o) == ByteAt(disk0, row0, o))
  }

  ghost predicate SlotsKept(row0: seq<nat>, row: seq<nat>)
    requires |row0| == |row| == NSLOTS
  {
    forall k :: 0 <= k < NSLOTS && row0[k] != 0 ==> row[k] == row0[k]
  }

  /** How far a write to file i has come; nothing is said of the other files, to which others may be writing. */
  ghost predicate Written(disk0: seq<Block>, inodes0: seq<Dinode>, i: nat, off: nat, src: seq<Byte>, tot: nat,
                          disk: seq<Block>, inodes: seq<Dinode>)
    requires i < |inodes0| && tot <= |src| && off + |src| <= MAXBYTES && inodes0[i].size <= MAXBYTES
  {
    && |inodes| == |inodes0| && inodes[i] == inodes0[i].(addrs := inodes[i].addrs)
    && SlotsKept(Row(disk0, inodes0, i), Row(disk, inodes, i))
    && BytesOk(disk0, Row(disk0, inodes0, i), off, src, tot, disk, Row(disk, inodes, i))
  }

  /** The same where no one else writes. */
  ghost predicate Progress(disk0: seq<Block>, inodes0: seq<Dinode>, i: nat, off: nat, src: seq<Byte>, tot: nat,
                           disk: seq<Block>, inodes: seq<Dinode>)
    requires i < |inodes0| && tot <= |src| && off + |src| <= MAXBYTES && inodes0[i].size <= MAXBYTES
  {
    OthersSame(disk0, inodes0, i, disk, inodes) && Written(disk0, inodes0, i, off, src, tot, disk, inodes)
  }

  lemma ProgressStart(disk: seq<Block>, inodes: seq<Dinode>, i: nat, off: nat, src: seq<Byte>)
    requires i < |inodes| && off + |src| <= MAXBYTES && inodes[i].size <= MAXBYTES
    ensures Written(disk, inodes, i, off, src, 0, disk, inodes) && Progress(disk, inodes, i, off, src, 0, disk, inodes)
  {
  }

  /** bmap keeps every byte of the file, those of missing blocks too, which read as zeros. */
  lemma MappedBytes(sb: Super, disk: seq<Block>, inodes: seq<Dinode>, i: nat, bn: nat, disk': seq<Block>,
                    inodes': seq<Dinode>, o: nat)
    requires Consistent(sb, disk, inodes, {}) && i < |inodes| && bn < MAXFILE
    requires Extends(sb, disk, inodes, i, bn, disk', inodes')
    requires o < MAXBYTES
    ensures ByteAt(disk', Row(disk', inodes', i), o) == ByteAt(disk, Row(disk, inodes, i), o)
  {
    var k := DataSlot(BlockNo(o));
    assert Cell(Table(disk, inodes), i, k) == Row(disk, inodes, i)[k];
    if Row(disk, inodes, i)[k] != 0 {
      SlotRange(sb, disk, inodes, {}, i, k);
    } else if BlockNo(o) == bn {
      assert ZeroAt(disk', Row(disk', inodes', i)[k]);
    } else {
      assert Table(disk', inodes')[i][k] == Table(disk, inodes)[i][k];
    }
  }

  lemma ExtendsOthers(sb: Super, disk: seq<Block>, inodes: seq<Dinode>, i: nat, bn: nat, disk': seq<Block>,
                      inodes': seq<Dinode>)
    requires i < |inodes| && bn < MAXFILE && Extends(sb, disk, inodes, i, bn, disk', inodes')
    ensures OthersSame(disk, inodes, i, disk', inodes')
  {
    var t := Table(disk, inodes);
    forall j, k | 0 <= j < |inodes| && j != i && 0 <= k < NSLOTS && 0 < Row(disk, inodes, j)[k] < |disk|
      ensures disk'[Row(disk, inodes, j)[k]] == disk[Row(disk, inodes, j)[k]]
    {
      assert Cell(t, j, k) == Row(disk, inodes, j)[k];
    }
    forall j | 0 <= j < |inodes| && j != i ensures Row(disk', inodes', j) == Row(disk, inodes, j) {
      assert Table(disk', inodes')[j] == t[j];
    }
  }

  lemma ExtendsKeeps(sb: Super, disk: seq<Block>, inodes: seq<Dinode>, i: nat, bn: nat, disk': seq<Block>,
                     inodes': seq<Dinode>)
    requires i < |inodes| && bn < MAXFILE && Extends(sb, disk, inodes, i, bn, disk', inodes')
    ensures SlotsKept(Row(disk, inodes, i), Row(disk', inodes', i))
  {
    var t, t' := Table(disk, inodes), Table(disk', inodes');
    forall k | 0 <= k < NSLOTS && Row(disk, inodes, i)[k] != 0
      ensures Row(disk', inodes', i)[k] == Row(disk, inodes, i)[k]
    {
      assert t[i][k] != 0;
    }
  }

  lemma OthersRefl(disk: seq<Block>, inodes: seq<Dinode>, i: nat)
    ensures OthersSame(disk, inodes, i, disk, inodes)
  {
  }

  lemma OthersTrans(d0: seq<Block>, n0: seq<Dinode>, i: nat, d1: seq<Block>, n1: seq<Dinode>, d2: seq<Block>,
                    n2: seq<Dinode>)
    requires OthersSame(d0, n0, i, d1, n1) && OthersSame(d1, n1, i, d2, n2)
    ensures OthersSame(d0, n0, i, d2, n2)
  {
    forall j, k | 0 <= j < |n0| && j != i && 0 <= k < NSLOTS && 0 < Row(d0, n0, j)[k] < |d0|
      ensures d2[Row(d0, n0, j)[k]] == d0[Row(d0, n0, j)[k]]
    {
      assert Row(d1, n1, j)[k] == Row(d0, n0, j)[k];
    }
  }

  lemma WrittenMap(sb: Super, disk0: seq<Block>, inodes0: seq<Dinode>, i: nat, off: nat, src: seq<Byte>, tot: nat,
                   disk: seq<Block>, inodes: seq<Dinode>, bn: nat, disk': seq<Block>, inodes': seq<Dinode>)
    requires i < |inodes0| && tot <= |src| && off + |src| <= MAXBYTES && inodes0[i].size <= MAXBYTES
    requires Written(disk0, inodes0, i, off, src, tot, disk, inodes)
    requires Consistent(sb, disk, inodes, {}) && bn < MAXFILE
    requires Extends(sb, disk, inodes, i, bn, disk', inodes')
    ensures Written(disk0, inodes0, i, off, src, tot, disk', inodes')
  {
    var row0, row, row' := Row(disk0, inodes0, i), Row(disk, inodes, i), Row(disk', inodes', i);
    ExtendsKeeps(sb, disk, inodes, i, bn, disk', inodes');
    forall o | off <= o < off + tot
      ensures row'[DataSlot(BlockNo(o))] != 0 && ByteAt(disk', row', o) == src[o - off]
    {
      MappedBytes(sb, disk, inodes, i, bn, disk', inodes', o);
      assert row[DataSlot(BlockNo(o))] != 0;
    }
    forall o | 0 <= o < MAXBYTES && !(off <= o < off + tot)
      ensures ByteAt(disk', row', o) == ByteAt(disk0, row0, o)
    {
      MappedBytes(sb, disk, inodes, i, bn, disk', inodes', o);
    }
  }

  lemma ProgressMap(sb: Super, disk0: seq<Block>, inodes0: seq<Dinode>, i: nat, off: nat, src: seq<Byte>, tot: nat,
                    disk: seq<Block>, inodes: seq<Dinode>, bn: nat, disk': seq<Block>, inodes': seq<Dinode>)
    requires i < |inodes0| && tot <= |src| && off + |src| <= MAXBYTES && inodes0[i].size <= MAXBYTES
    requires Progress(disk0, inodes0, i, off, src, tot, disk, inodes)
    requires Consistent(sb, disk, inodes, {}) && bn < MAXFILE
    requires Extends(sb, disk, inodes, i, bn, disk', inodes')
    ensures Progress(disk0, inodes0, i, off, src, tot, disk', inodes')
  {
    ExtendsOthers(sb, disk, inodes, i, bn, disk', inodes');
    OthersTrans(disk0, inodes0, i, disk, inodes, disk', inodes');
    WrittenMap(sb, disk0, inodes0, i, off, src, tot, disk, inodes, bn, disk', inodes');
  }

  /** blk with `part` copied in at position at. */
  function Patch(blk: Block, at: nat, part: seq<Byte>): Block
    requires at + |part| <= BSIZE
  {
    blk[..at] + part + blk[at + |part|..]
  }

  /** Copying m bytes into the block that holds offset o0 changes exactly bytes [o0, o0 + m) of file i. */
  lemma PatchBytes(sb: Super, disk: seq<Block>, inodes: seq<Dinode>, i: nat, o0: nat, part: seq<Byte>, o: nat)
    requires Consistent(sb, disk, inodes, {}) && i < |inodes| && o0 < MAXBYTES && o < MAXBYTES
    requires BlockOff(o0) + |part| <= BSIZE
    requires var b := Row(disk, inodes, i)[DataSlot(BlockNo(o0))]; 0 < b < |disk|
    ensures var row := Row(disk, inodes, i);
            var b := row[DataSlot(BlockNo(o0))];
            var disk' := disk[b := Patch(disk[b], BlockOff(o0), part)];
            ByteAt(disk', row, o) == if o0 <= o < o0 + |part| then part[o - o0] else ByteAt(disk, row, o)
  {
    var row := Row(disk, inodes, i);
    var k0, k := DataSlot(BlockNo(o0)), DataSlot(BlockNo(o));
    var t := Table(disk, inodes);
    assert t[i] == row;
    if BlockNo(o) != BlockNo(o0) {
      CellUnique(t, i, k0, i, k);
    } else {
      assert o - o0 == BlockOff(o) - BlockOff(o0);
    }
  }

  lemma PatchOthers(sb: Super, disk: seq<Block>, inodes: seq<Dinode>, i: nat, k: nat, blk: Block)
    requires Consistent(sb, disk, inodes, {}) && i < |inodes| && k < NSLOTS && k != NDIRECT
    requires Row(disk, inodes, i)[k] != 0
    ensures var b := Row(disk, inodes, i)[k];
            && b < |disk| && Row(disk[b := blk], inodes, i) == Row(disk, inodes, i)
            && Consistent(sb, disk[b := blk], inodes, {})
            && OthersSame(disk, inodes, i, disk[b := blk], inodes)
  {
    var b := Row(disk, inodes, i)[k];
    var t := Table(disk, inodes);
    assert t[i][k] == b;
    DataWrite(sb, disk, inodes, {}, i, k, blk);
    forall j | 0 <= j < |inodes| ensures Row(disk[b := blk], inodes, j) == Row(disk, inodes, j) {
      assert Table(disk[b := blk], inodes)[j] == t[j];
    }
    forall j, m | 0 <= j < |inodes| && j != i && 0 <= m < NSLOTS && 0 < Row(disk, inodes, j)[m] < |disk|
      ensures Row(disk, inodes, j)[m] != b
    {
      CellUnique(t, i, k, j, m);
    }
  }

  lemma PatchStep(sb: Super, disk0: seq<Block>, row0: seq<nat>, off: nat, src: seq<Byte>, tot: nat,
                  disk: seq<Block>, inodes: seq<Dinode>, i: nat, m: nat, disk': seq<Block>)
    requires i < |inodes| && |row0| == NSLOTS
    requires tot + m <= |src| && off + |src| <= MAXBYTES
    requires BytesOk(disk0, row0, off, src, tot, disk, Row(disk, inodes, i))
    requires Consistent(sb, disk, inodes, {}) && BlockOff(off + tot) + m <= BSIZE && off + tot < MAXBYTES
    requires var b := Row(disk, inodes, i)[DataSlot(BlockNo(off + tot))];
             0 < b < |disk| && disk' == disk[b := Patch(disk[b], BlockOff(off + tot), src[tot..tot + m])]
    ensures BytesOk(disk0, row0, off, src, tot + m, disk', Row(disk, inodes, i))
  {
    var row := Row(disk, inodes, i);
    forall o | off <= o < off + tot + m
      ensures row[DataSlot(BlockNo(o))] != 0 && ByteAt(disk', row, o) == src[o - off]
    {
      PatchBytes(sb, disk, inodes, i, off + tot, src[tot..tot + m], o);
      if o >= off + tot {
        assert BlockNo(o) == BlockNo(off + tot);
      }
    }
    forall o | 0 <= o < MAXBYTES && !(off <= o < off + tot + m)
      ensures ByteAt(disk', row, o) == ByteAt(disk0, row0, o)
    {
      PatchBytes(sb, disk, inodes, i, off + tot, src[tot..tot + m], o);
    }
  }

  lemma WrittenPatch(sb: Super, disk0: seq<Block>, inodes0: seq<Dinode>, i: nat, off: nat, src: seq<Byte>, tot: nat,
                     disk: seq<Block>, inodes: seq<Dinode>, m: nat, b: nat, disk': seq<Block>)
    requires i < |inodes0| && tot + m <= |src| && off + |src| <= MAXBYTES && inodes0[i].size <= MAXBYTES
    requires Written(disk0, inodes0, i, off, src, tot, disk, inodes)
    requires Consistent(sb, disk, inodes, {}) && BlockOff(off + tot) + m <= BSIZE && off + tot < MAXBYTES
    requires b == Row(disk, inodes, i)[DataSlot(BlockNo(off + tot))] && 0 < b < |disk|
    requires disk' == disk[b := Patch(disk[b], BlockOff(off + tot), src[tot..tot + m])]
    ensures Consistent(sb, disk', inodes, {})
    ensures Written(disk0, inodes0, i, off, src, tot + m, disk', inodes)
    ensures Row(disk', inodes, i) == Row(disk, inodes, i) && OthersSame(disk, inodes, i, disk', inodes)
  {
    var k := DataSlot(BlockNo(off + tot));
    PatchOthers(sb, disk, inodes, i, k, Patch(disk[b], BlockOff(off + tot), src[tot..tot + m]));
    PatchStep(sb, disk0, Row(disk0, inodes0, i), off, src, tot, disk, inodes, i, m, disk');
    assert Row(disk', inodes, i) == Row(disk, inodes, i);
  }

  lemma ProgressPatch(sb: Super, disk0: seq<Block>, inodes0: seq<Dinode>, i: nat, off: nat, src: seq<Byte>,
                      tot: nat, disk: seq<Block>, inodes: seq<Dinode>, m: nat, b: nat, disk': seq<Block>)
    requires i < |inodes0| && tot + m <= |src| && off + |src| <= MAXBYTES && inodes0[i].size <= MAXBYTES
    requires Progress(disk0, inodes0, i, off, src, tot, disk, inodes)
    requires Consistent(sb, disk, inodes, {}) && BlockOff(off + tot) + m <= BSIZE && off + tot < MAXBYTES
    requires b == Row(disk, inodes, i)[DataSlot(BlockNo(off + tot))] && 0 < b < |disk|
    requires disk' == disk[b := Patch(disk[b], BlockOff(off + tot), src[tot..tot + m])]
    ensures Consistent(sb, disk', inodes, {})
    ensures Progress(disk0, inodes0, i, off, src, tot + m, disk', inodes)
    ensures Row(disk', inodes, i) == Row(disk, inodes, i)
  {
    WrittenPatch(sb, disk0, inodes0, i, off, src, tot, disk, inodes, m, b, disk');
    OthersTrans(disk0, inodes0, i, disk, inodes, disk', inodes);
  }

  lemma WrittenPresent(disk0: seq<Block>, inodes0: seq<Dinode>, i: nat, off: nat, src: seq<Byte>, tot: nat,
                       disk: seq<Block>, inodes: seq<Dinode>, size: nat)
    requires i < |inodes0| && tot <= |src| && off + |src| <= MAXBYTES
    requires off <= inodes0[i].size <= MAXBYTES && Present(Row(disk0, inodes0, i), inodes0[i].size)
    requires Written(disk0, inodes0, i, off, src, tot, disk, inodes)
    requires size == if off + tot > inodes0[i].size then off + tot else inodes0[i].size
    ensures Present(Row(disk, inodes, i), size)
  {
    var row := Row(disk, inodes, i);
    forall n | 0 <= n < MAXFILE && BlockStart(n) < size ensures row[DataSlot(n)] != 0 {
      assert BlockNo(BlockStart(n)) == n;
      if BlockStart(n) >= inodes0[i].size {
        assert off <= BlockStart(n) < off + tot;
      }
    }
  }

  lemma WrittenDone(disk0: seq<Block>, inodes0: seq<Dinode>, i: nat, off: nat, src: seq<Byte>, tot: nat,
                    disk: seq<Block>, inodes: seq<Dinode>)
    requires i < |inodes0| && tot <= |src| && off + |src| <= MAXBYTES
    requires off <= inodes0[i].size <= MAXBYTES
    requires Written(disk0, inodes0, i, off, src, tot, disk, inodes)
    ensures var ip := inodes[i].(size := if off + tot > inodes0[i].size then off + tot else inodes0[i].size);
            && (Present(Row(disk0, inodes0, i), inodes0[i].size) ==> Present(Slots(disk, ip.addrs), ip.size))
            && Content(disk, ip) == Overwrite(Content(disk0, inodes0[i]), off, src[..tot])
  {
    hide Present, SlotsKept;
    var ip := inodes[i].(size := if off + tot > inodes0[i].size then off + tot else inodes0[i].size);
    var row := Row(disk, inodes, i);
    if Present(Row(disk0, inodes0, i), inodes0[i].size) {
      WrittenPresent(disk0, inodes0, i, off, src, tot, disk, inodes, ip.size);
    }
    var c := Overwrite(Content(disk0, inodes0[i]), off, src[..tot]);
    forall o | 0 <= o < ip.size ensures Content(disk, ip)[o] == c[o] {
      assert Content(disk, ip)[o] == ByteAt(disk, row, o);
    }
  }

  /** A write to another file does not disturb this one. */
  lemma WrittenKept(disk0: seq<Block>, inodes0: seq<Dinode>, i: nat, off: nat, src: seq<Byte>, tot: nat,
                    disk: seq<Block>, inodes: seq<Dinode>, j: nat, disk': seq<Block>, inodes': seq<Dinode>)
    requires i < |inodes0| && tot <= |src| && off + |src| <= MAXBYTES && inodes0[i].size <= MAXBYTES
    requires Written(disk0, inodes0, i, off, src, tot, disk, inodes) && i != j
    requires OthersSame(disk, inodes, j, disk', inodes')
    ensures Written(disk0, inodes0, i, off, src, tot, disk', inodes')
  {
    var row := Row(disk, inodes, i);
    assert Row(disk', inodes', i) == row;
    forall o | 0 <= o < MAXBYTES ensures ByteAt(disk', row, o) == ByteAt(disk, row, o) {
      assert 0 <= DataSlot(BlockNo(o)) < NSLOTS;
    }
  }

  /** No block of the bytes [off, off + n) is missing. */
  ghost predicate NoHole(row: seq<nat>, off: nat, n: nat)
    requires |row| == NSLOTS && off + n <= MAXBYTES
  {
    forall o :: off <= o < off + n ==> row[DataSlot(BlockNo(o))] != 0
  }

  /** A slot has been filled that was empty. */
  ghost predicate Grew(row: seq<nat>, row': seq<nat>)
    requires |row| == |row'| == NSLOTS
  {
    exists k :: 0 <= k < NSLOTS && row[k] == 0 && row'[k] != 0
  }

  /** Inode i may have gained blocks; nothing else about it changed, and nothing about the others. */
  ghost predicate Filled(disk: seq<Block>, inodes: seq<Dinode>, i: nat, disk': seq<Block>, inodes': seq<Dinode>)
    requires i < |inodes|
  {
    && OthersSame(disk, inodes, i, disk', inodes')
    && inodes' == inodes[i := inodes[i].(addrs := inodes'[i].addrs)]
    && SlotsKept(Row(disk, inodes, i), Row(disk', inodes', i))
  }

  lemma FilledNothing(disk: seq<Block>, inodes: seq<Dinode>, i: nat)
    requires i < |inodes|
    ensures Filled(disk, inodes, i, disk, inodes)
  {
    assert inodes == inodes[i := inodes[i].(addrs := inodes[i].addrs)];
  }

  lemma FilledTrans(d0: seq<Block>, n0: seq<Dinode>, i: nat, d1: seq<Block>, n1: seq<Dinode>, d2: seq<Block>,
                    n2: seq<Dinode>)
    requires i < |n0| && Filled(d0, n0, i, d1, n1) && Filled(d1, n1, i, d2, n2)
    ensures Filled(d0, n0, i, d2, n2)
    ensures Grew(Row(d0, n0, i), Row(d1, n1, i)) || Grew(Row(d1, n1, i), Row(d2, n2, i)) ==>
              Grew(Row(d0, n0, i), Row(d2, n2, i))
  {
    OthersTrans(d0, n0, i, d1, n1, d2, n2);
    var row0, row1, row2 := Row(d0, n0, i), Row(d1, n1, i), Row(d2, n2, i);
    if Grew(row0, row1) {
      var k :| 0 <= k < NSLOTS && row0[k] == 0 && row1[k] != 0;
      assert row2[k] != 0;
    } else if Grew(row1, row2) {
      var k :| 0 <= k < NSLOTS && row1[k] == 0 && row2[k] != 0;
      assert row0[k] == 0;
    }
  }

  /** The bytes of one round lie in one block. */
  lemma NoHoleStep(row: seq<nat>, off: nat, tot: nat, m: nat)
    requires |row| == NSLOTS && off + tot + m <= MAXBYTES && m > 0 && BlockOff(off + tot) + m <= BSIZE
    ensures NoHole(row, off, tot + m) <==> NoHole(row, off, tot) && row[DataSlot(BlockNo(off + tot))] != 0
  {
    assert forall o :: off + tot <= o < off + tot + m ==> BlockNo(o) == BlockNo(off + tot);
    if NoHole(row, off, tot + m) {
      assert row[DataSlot(BlockNo(off + tot))] != 0;
    }
  }

  lemma NoHoleLess(row: seq<nat>, off: nat, n: nat, n': nat)
    requires |row| == NSLOTS && n <= n' && off + n' <= MAXBYTES
    ensures NoHole(row, off, n') ==> NoHole(row, off, n)
  {
  }

  lemma PresentNoHole(row: seq<nat>, size: nat, off: nat, n: nat)
    requires |row| == NSLOTS && Present(row, size) && off + n <= size
    ensures NoHole(row, off, n)
  {
    forall o | off <= o < off + n ensures row[DataSlot(BlockNo(o))] != 0 {
      assert BlockStart(BlockNo(o)) <= o;
    }
  }

  /** m bytes from offset o on, all within one block that is there, are a slice of that block. */
  lemma ReadChunk(sb: Super, disk: seq<Block>, inodes: seq<Dinode>, i: nat, o: nat, m: nat)
    requires Consistent(sb, disk, inodes, {}) && i < |inodes| && inodes[i].size <= MAXBYTES
    requires o < inodes[i].size && o + m <= inodes[i].size && BlockOff(o) + m <= BSIZE
    requires Table(disk, inodes)[i][DataSlot(BlockNo(o))] != 0
    ensures var b := Table(disk, inodes)[i][DataSlot(BlockNo(o))];
            && 0 < b < |disk|
            && disk[b][BlockOff(o)..BlockOff(o) + m] == Content(disk, inodes[i])[o..o + m]
  {
    var k := DataSlot(BlockNo(o));
    SlotRange(sb, disk, inodes, {}, i, k);
    var b := Table(disk, inodes)[i][k];
    var c := Content(disk, inodes[i]);
    var part := disk[b][BlockOff(o)..BlockOff(o) + m];
    forall x | 0 <= x < m ensures part[x] == c[o..o + m][x] {
      ChunkByte(disk, inodes, i, o, x);
    }
  }

  /** bmap changes no file's contents. */
  lemma MappedContent(sb: Super, disk: seq<Block>, inodes: seq<Dinode>, i: nat, bn: nat, disk': seq<Block>,
                      inodes': seq<Dinode>)
    requires Consistent(sb, disk, inodes, {}) && i < |inodes| && bn < MAXFILE && inodes[i].size <= MAXBYTES
    requires Extends(sb, disk, inodes, i, bn, disk', inodes')
    ensures inodes'[i].size == inodes[i].size && Content(disk', inodes'[i]) == Content(disk, inodes[i])
  {
    forall o | 0 <= o < inodes[i].size ensures Content(disk', inodes'[i])[o] == Content(disk, inodes[i])[o] {
      MappedBytes(sb, disk, inodes, i, bn, disk', inodes', o);
    }
  }

  lemma ChunkByte(disk: seq<Block>, inodes: seq<Dinode>, i: nat, o: nat, x: nat)
    requires i < |inodes| && inodes[i].size <= MAXBYTES && o + x < inodes[i].size && BlockOff(o) + x < BSIZE
    requires 0 < Table(disk, inodes)[i][DataSlot(BlockNo(o))] < |disk|
    ensures disk[Table(disk, inodes)[i][DataSlot(BlockNo(o))]][BlockOff(o) + x] == Content(disk, inodes[i])[o + x]
  {
    assert BlockNo(o + x) == BlockNo(o) && BlockOff(o + x) == BlockOff(o) + x;
  }

  /** Setting i's size concerns no other inode. */
  lemma OthersResize(disk0: seq<Block>, inodes0: seq<Dinode>, i: nat, disk: seq<Block>, inodes: seq<Dinode>, size: nat)
    requires i < |inodes| && OthersSame(disk0, inodes0, i, disk, inodes)
    ensures OthersSame(disk0, inodes0, i, disk, inodes[i := inodes[i].(size := size)])
  {
  }

  /** The bytes one round copies: to the end of the block, or to the end of the data. */
  function Chunk(o: nat, left: nat): nat {
    if left < BSIZE - BlockOff(o) then left else BSIZE - BlockOff(o)
  }

  lemma ChunkFits(o: nat, left: nat)
    requires left > 0
    ensures 0 < Chunk(o, left) <= left && BlockOff(o) + Chunk(o, left) <= BSIZE
  {
  }
}
