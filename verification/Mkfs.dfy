/**
 mkfs: the image is filled with a block counter and the free map is written at the very end, so while
 the image is built the invariant is stated for the disk with the map that is still to come.
 */
module Mkfs {
  import opened FsLayout
  import opened BlockOwnership
  import opened FsState
  import opened FsMap
  import opened FsWrite

  const FSSIZE: nat := 2000
  const NINODES: nat := 200
  const NLOG: nat := 30          // LOGSIZE
  const NINODEBLOCKS: nat := 13  // NINODES / IPB + 1
  const INUMS: nat := 208        // NINODEBLOCKS * IPB, the inodes there is room for
  const ROOTINO: nat := 1
  const T_DIR: int := 1
  const T_FILE: int := 2
  const DIRSIZ: nat := 14

  /** boot block, superblock, log, inode blocks, then one bitmap block. */
  const SB: Super := Super(FSSIZE, NINODES, 2 + NLOG + NINODEBLOCKS, 2 + NLOG + NINODEBLOCKS + 1)

  /** The block that winode puts inode inum in. */
  function InodeSector(inum: nat): nat { 2 + NLOG + inum / 16 }

  /** mkfs does not count the inodes it hands out; from number 208 on, they lie in the bitmap block and beyond. */
  lemma InodesExact(inum: nat)
    ensures InodeSector(inum) < SB.bmapstart <==> inum < INUMS
    ensures inum == INUMS ==> InodeSector(inum) == SB.bmapstart
  {
  }

  // ----- the bitmap block that balloc(used) writes -----

  /** A bitmap block whose first n bits are set. */
  function MapPrefix(n: nat): Block
    requires n <= BPB
  {
    if n == 0 then ZeroBlock() else MapSet(MapPrefix(n - 1), n - 1)
  }

  lemma {:induction false} MapPrefixBit(n: nat, x: nat)
    requires n <= BPB && x < BPB
    ensures MapBit(MapPrefix(n), x) == (x < n)
  {
    if n == 0 {
      ZeroBits(x % 8);
    } else {
      MapPrefixBit(n - 1, x);
      MapSetBit(MapPrefix(n - 1), n - 1, x);
    }
  }

  lemma {:induction false} ZeroBits(k: nat)
    ensures !Bit(0, k)
  {
    if k > 0 {
      ZeroBits(k - 1);
    }
  }

  /** The image once the map of the first n blocks is written. */
  function Mapped0(disk: seq<Block>, n: nat): seq<Block>
    requires |disk| == FSSIZE && n <= FSSIZE
  {
    disk[SB.bmapstart := MapPrefix(n)]
  }

  lemma PrefixBits(disk: seq<Block>, n: nat, b: nat)
    requires |disk| == FSSIZE && n <= FSSIZE && b < FSSIZE
    ensures ValidSuper(SB) && Bits(SB, Mapped0(disk, n))[b] == (b < n)
  {
    BitsAt(SB, Mapped0(disk, n), b);
    MapPrefixBit(n, b);
  }

  lemma MarkedBelow(disk: seq<Block>, n: nat)
    requires |disk| == FSSIZE && n <= FSSIZE
    ensures ValidSuper(SB) && forall b :: 0 <= b < FSSIZE ==> (Bits(SB, Mapped0(disk, n))[b] <==> b < n)
  {
    PrefixBits(disk, n, 0);
    forall b | 0 <= b < FSSIZE ensures Bits(SB, Mapped0(disk, n))[b] <==> b < n {
      PrefixBits(disk, n, b);
    }
  }

  /** Taking the next block off the counter is an allocation in the image to come. */
  lemma GrabAllocates(disk: seq<Block>, n: nat)
    requires |disk| == FSSIZE && 46 <= n < FSSIZE && disk[n] == ZeroBlock()
    ensures ValidSuper(SB) && !Bits(SB, Mapped0(disk, n))[n]
    ensures Mapped0(disk, n + 1) == AllocDisk(SB, Mapped0(disk, n), n)
  {
    PrefixBits(disk, n, n);
    var v := Mapped0(disk, n);
    assert v[SB.bmapstart] == MapPrefix(n);
    assert BBlock(SB, n) == SB.bmapstart && MapOff(n) == n;
    var w: seq<Block> := v[SB.bmapstart := MapPrefix(n + 1)];
    assert AllocDisk(SB, v, n) == w[n := ZeroBlock()];
    assert w[n] == ZeroBlock();
  }

  // ----- directory entries -----

  /** struct dirent: a 16-bit inode number, low byte first, and a name padded with zeros. */
  function Dirent(inum: nat, name: seq<Byte>): (r: seq<Byte>)
    requires inum < 0x1_0000 && |name| <= DIRSIZ
    ensures |r| == 16
  {
    [LowByte(inum), LowByte(inum / 0x100)] + name + seq(DIRSIZ - |name|, _ => 0)
  }

  const EmptyNode: Dinode := Dinode(0, 0, 0, seq(NDIRECT + 1, _ => 0))

  class Mkfs {
    var disk: seq<Block>
    var inodes: seq<Dinode>
    var freeblock: nat
    var freeinode: nat

    ghost predicate Shape()
      reads this
    {
      && |disk| == FSSIZE && |inodes| == INUMS && 46 <= freeblock <= FSSIZE && 1 <= freeinode <= INUMS
      && (forall b :: freeblock <= b < FSSIZE ==> disk[b] == ZeroBlock())
    }

    /** The image with the map written for the blocks used so far. */
    ghost function Image(): (r: seq<Block>)
      requires Shape()
      reads this
    {
      Mapped0(disk, freeblock)
    }

    ghost predicate Valid()
      reads this
    {
      && Shape() && Sound(Image(), inodes)
      && (forall i :: freeinode <= i < INUMS ==> inodes[i] == EmptyNode)
    }

    constructor ()
      ensures Valid() && freeblock == 46 && freeinode == 1 && inodes == seq(INUMS, _ => EmptyNode)
    {
      hide Sound, Mapped0, ZeroBlock;
      disk := seq(FSSIZE, _ => ZeroBlock());
      inodes := seq(INUMS, _ => EmptyNode);
      freeblock, freeinode := 2 + NLOG + NINODEBLOCKS + 1, 1;
      new;
      EmptyImage(disk, inodes);
    }

    /** freeblock++ */
    method Grab() returns (b: nat)
      requires Shape() && freeblock < FSSIZE
      modifies this`freeblock
      ensures Shape() && b == old(freeblock) && freeblock == b + 1
      ensures !Bits(SB, old(Image()))[b] && Image() == AllocDisk(SB, old(Image()), b)
    {
      GrabAllocates(disk, freeblock);
      b := freeblock;
      freeblock := freeblock + 1;
    }

    /** wsect on a data block handed out earlier. */
    method WriteSector(b: nat, blk: Block)
      requires Shape() && 46 <= b < freeblock
      modifies this`disk
      ensures Shape() && Image() == old(Image())[b := blk]
    {
      disk := disk[b := blk];
    }

    /** The block for file block fbn < NDIRECT of din; 0 when the image is full. */
    method MapDirectBlock(inum: nat, din: Dinode, fbn: nat) returns (x: nat, din': Dinode)
      requires Shape() && inum < INUMS && fbn < NDIRECT && Consistent(SB, Image(), inodes[inum := din], {})
      modifies this`freeblock
      ensures Shape() && Consistent(SB, Image(), inodes[inum := din'], {})
      ensures Mapped(SB, old(Image()), inodes[inum := din], inum, fbn, Image(), inodes[inum := din'], x)
      ensures x == 0 ==> freeblock == FSSIZE
      ensures freeblock == old(freeblock) + (if din.addrs[fbn] == 0 && x != 0 then 1 else 0)
      ensures din'.addrs[NDIRECT] == din.addrs[NDIRECT]
    {
      ghost var img, nodes := Image(), inodes[inum := din];
      DirectSlot(img, nodes, inum, fbn);
      x, din' := din.addrs[fbn], din;
      if x == 0 && freeblock < FSSIZE {
        x := Grab();
        din' := SetAddr(din, fbn, x);
        MapDirect(SB, img, nodes, inum, fbn, x);
        assert inodes[inum := din'] == nodes[inum := SetAddr(nodes[inum], fbn, x)];
      } else {
        MapNothing(SB, img, nodes, inum, fbn);
      }
    }

    /** The indirect block of din, taken off the counter if there is none yet. */
    method MapPointerBlock(inum: nat, din: Dinode, ghost fbn: nat) returns (din': Dinode)
      requires Shape() && inum < INUMS && NDIRECT <= fbn < MAXFILE && Consistent(SB, Image(), inodes[inum := din], {})
      modifies this`freeblock
      ensures Shape() && Consistent(SB, Image(), inodes[inum := din'], {})
      ensures Extends(SB, old(Image()), inodes[inum := din], inum, fbn, Image(), inodes[inum := din'])
      ensures din.addrs[NDIRECT] != 0 || din'.addrs[NDIRECT] == 0 ==> Image() == old(Image()) && din' == din
      ensures din'.addrs[NDIRECT] == 0 ==> freeblock == FSSIZE
      ensures freeblock == old(freeblock) + (if din.addrs[NDIRECT] == 0 && din'.addrs[NDIRECT] != 0 then 1 else 0)
      ensures Row(Image(), inodes[inum := din'], inum)[DataSlot(fbn)] ==
              old(Row(Image(), inodes[inum := din], inum))[DataSlot(fbn)]
    {
      hide Owns, Extends, Mapped0, Bits;
      ghost var img, nodes := Image(), inodes[inum := din];
      din' := din;
      if din.addrs[NDIRECT] == 0 && freeblock < FSSIZE {
        var p := Grab();
        din' := SetAddr(din, NDIRECT, p);
        MapPointer(SB, img, nodes, inum, fbn, p);
        assert inodes[inum := din'] == nodes[inum := SetAddr(nodes[inum], NDIRECT, p)];
      } else {
        MapNothing(SB, img, nodes, inum, fbn);
      }
    }

    /** Entry e of the indirect block of din. */
    method MapEntryBlock(inum: nat, din: Dinode, e: nat) returns (x: nat)
      requires Shape() && inum < INUMS && e < NINDIRECT && din.addrs[NDIRECT] != 0
      requires Consistent(SB, Image(), inodes[inum := din], {})
      modifies this`freeblock, this`disk
      ensures Shape() && Consistent(SB, Image(), inodes[inum := din], {})
      ensures Mapped(SB, old(Image()), inodes[inum := din], inum, NDIRECT + e, Image(), inodes[inum := din], x)
      ensures x == 0 ==> freeblock == FSSIZE
      ensures freeblock == old(freeblock) +
                (if old(Row(Image(), inodes[inum := din], inum))[DataSlot(NDIRECT + e)] == 0 && x != 0 then 1 else 0)
    {
      hide Owns, Bits, Mapped, GetWord, PutWord;
      ghost var img, nodes := Image(), inodes[inum := din];
      var p := din.addrs[NDIRECT];
      EntrySlot(SB, img, nodes, inum, e);
      SlotInUse(img, disk, freeblock, nodes, inum, NDIRECT);
      x := GetWord(disk[p], e);
      if x == 0 && freeblock < FSSIZE {
        x := Grab();
        MapEntry(SB, img, nodes, inum, e, x);
        ghost var img1 := Image();
        assert img1[p] == disk[p];
        WriteSector(p, PutWord(disk[p], e, x));
        assert Image() == img1[p := PutWord(img1[p], e, x)];
      } else {
        MapNothing(SB, img, nodes, inum, NDIRECT + e);
      }
    }

    /** The sector for file block fbn of din, as iappend finds or takes it; 0 when the image is full. */
    method MapBlock(inum: nat, din: Dinode, fbn: nat) returns (x: nat, din': Dinode)
      requires Shape() && inum < INUMS && fbn < MAXFILE && Consistent(SB, Image(), inodes[inum := din], {})
      modifies this`freeblock, this`disk
      ensures Shape() && Consistent(SB, Image(), inodes[inum := din'], {})
      ensures Mapped(SB, old(Image()), inodes[inum := din], inum, fbn, Image(), inodes[inum := din'], x)
      ensures x != 0 <==> old(freeblock) + Missing(old(Row(Image(), inodes[inum := din], inum)), fbn) <= FSSIZE
      ensures x != 0 ==> freeblock == old(freeblock) + Missing(old(Row(Image(), inodes[inum := din], inum)), fbn)
      ensures fbn < NDIRECT ==> din'.addrs[NDIRECT] == din.addrs[NDIRECT]
    {
      if fbn < NDIRECT {
        hide Mapped, Owns, Row, Mapped0;
        RowAddrs(Image(), inodes[inum := din], inum, fbn);
        x, din' := MapDirectBlock(inum, din, fbn);
      } else {
        x, din' := MapIndirectBlock(inum, din, fbn);
      }
    }

    /** The same behind the indirect block, which may have to be taken first. */
    method MapIndirectBlock(inum: nat, din: Dinode, fbn: nat) returns (x: nat, din': Dinode)
      requires Shape() && inum < INUMS && NDIRECT <= fbn < MAXFILE && Consistent(SB, Image(), inodes[inum := din], {})
      modifies this`freeblock, this`disk
      ensures Shape() && Consistent(SB, Image(), inodes[inum := din'], {})
      ensures Mapped(SB, old(Image()), inodes[inum := din], inum, fbn, Image(), inodes[inum := din'], x)
      ensures x != 0 <==> old(freeblock) + Missing(old(Row(Image(), inodes[inum := din], inum)), fbn) <= FSSIZE
      ensures x != 0 ==> freeblock == old(freeblock) + Missing(old(Row(Image(), inodes[inum := din], inum)), fbn)
    {
      hide Mapped, Extends, Owns, Row, Mapped0, Table, Bits, Slots;
      ghost var img0, nodes0 := Image(), inodes[inum := din];
      RowAddrs(img0, nodes0, inum, fbn);
      din' := MapPointerBlock(inum, din, fbn);
      ghost var img1, nodes1 := Image(), inodes[inum := din'];
      if din'.addrs[NDIRECT] == 0 {
        MapNothing(SB, img0, nodes0, inum, fbn);
        return 0, din';
      }
      x := MapEntryBlock(inum, din', fbn - NDIRECT);
      MapCompose(SB, img0, nodes0, inum, fbn, img1, nodes1, Image(), nodes1, x);
    }

    /** One round of iappend's loop: m bytes of data go to offset off + tot; false when the image is full. */
    method AppendRound(inum: nat, din: Dinode, off: nat, data: seq<Byte>, tot: nat, m: nat, ghost img0: seq<Block>,
                       ghost nodes0: seq<Dinode>) returns (ok: bool, din': Dinode)
      requires Shape() && inum < INUMS && Consistent(SB, Image(), inodes[inum := din], {})
      requires |nodes0| == INUMS && nodes0[inum].size <= MAXBYTES
      requires tot + m <= |data| && off + |data| <= MAXBYTES && off + tot < MAXBYTES && BlockOff(off + tot) + m <= BSIZE
      requires Progress(img0, nodes0, inum, off, data, tot, Image(), inodes[inum := din])
      requires m > 0 && Tight(Row(Image(), inodes[inum := din], inum), off + tot)
      requires Present(Row(Image(), inodes[inum := din], inum), off + tot)
      modifies this`disk, this`freeblock
      ensures Shape() && Consistent(SB, Image(), inodes[inum := din'], {})
      ensures ok ==> Progress(img0, nodes0, inum, off, data, tot + m, Image(), inodes[inum := din'])
      ensures ok ==> Tight(Row(Image(), inodes[inum := din'], inum), off + tot + m)
      ensures ok ==> Present(Row(Image(), inodes[inum := din'], inum), off + tot + m)
      ensures ok <==> old(freeblock) + Blocks(off + tot + m) - Blocks(off + tot) <= FSSIZE
      ensures ok ==> freeblock == old(freeblock) + Blocks(off + tot + m) - Blocks(off + tot)
    {
      hide Progress, Mapped, Tight, Present, Blocks, Missing, Owns, Row;
      ghost var img, nodes := Image(), inodes[inum := din];
      var fbn := BlockNo(off + tot);
      MissingExact(img, nodes, inum, off + tot, m);
      var x;
      x, din' := MapBlock(inum, din, fbn);
      ok := x != 0;
      if ok {
        ghost var img1, nodes1 := Image(), inodes[inum := din'];
        RoundMapped(img0, nodes0, inum, off, data, tot, m, img, nodes, img1, nodes1, x);
        SlotInUse(img1, disk, freeblock, nodes1, inum, DataSlot(fbn));
        WriteSector(x, Patch(disk[x], BlockOff(off + tot), data[tot..tot + m]));
        ProgressPatch(SB, img0, nodes0, inum, off, data, tot, img1, nodes1, m, x, Image());
      }
    }

    /** iappend's loop. */
    method AppendLoop(inum: nat, data: seq<Byte>) returns (ok: bool, din: Dinode)
      requires Valid() && inum < INUMS && inodes[inum].size + |data| <= MAXBYTES
      modifies this`disk, this`freeblock
      ensures Shape() && Consistent(SB, Image(), inodes[inum := din], {})
      ensures ok ==> Progress(old(Image()), inodes, inum, inodes[inum].size, data, |data|, Image(), inodes[inum := din])
      ensures ok ==> Tight(Row(Image(), inodes[inum := din], inum), inodes[inum].size + |data|)
      ensures ok <==> old(freeblock) + Blocks(inodes[inum].size + |data|) - Blocks(inodes[inum].size) <= FSSIZE
      ensures ok ==> freeblock == old(freeblock) + Blocks(inodes[inum].size + |data|) - Blocks(inodes[inum].size)
    {
      hide Appending, Chunk, BlockOff, Blocks, Row, Consistent, Progress, Tight;
      ghost var img0, used := Image(), freeblock;
      ok, din := true, inodes[inum];
      var off, tot := din.size, 0;
      AppendingStart(inum, data);
      while tot < |data|
        invariant 0 <= tot <= |data| && ok && Appending(inum, din, off, data, tot, img0, used)
      {
        ChunkFits(off + tot, |data| - tot);
        var m := Chunk(off + tot, |data| - tot);
        ok, din := AppendNext(inum, din, off, data, tot, m, img0, used);
        if !ok {
          return;
        }
        tot := tot + m;
      }
      AppendingEnd(inum, din, off, data, img0, used);
    }

    /** tot bytes of data are in the image from offset off on, and their blocks have been taken since used. */
    ghost predicate Appending(inum: nat, din: Dinode, off: nat, data: seq<Byte>, tot: nat, img0: seq<Block>, used: int)
      reads this
    {
      && Shape() && inum < INUMS && Consistent(SB, Image(), inodes[inum := din], {}) && inodes[inum].size <= MAXBYTES
      && tot <= |data| && off + |data| <= MAXBYTES
      && Progress(img0, inodes, inum, off, data, tot, Image(), inodes[inum := din])
      && Tight(Row(Image(), inodes[inum := din], inum), off + tot)
      && Present(Row(Image(), inodes[inum := din], inum), off + tot)
      && freeblock == used + Blocks(off + tot) - Blocks(off)
    }

    lemma AppendingStart(inum: nat, data: seq<Byte>)
      requires Valid() && inum < INUMS && inodes[inum].size + |data| <= MAXBYTES
      ensures Appending(inum, inodes[inum], inodes[inum].size, data, 0, Image(), freeblock)
    {
      hide Written, OthersSame, Tight, Present, Owns;
      assert inodes[inum := inodes[inum]] == inodes;
      ProgressStart(Image(), inodes, inum, inodes[inum].size, data);
    }

    lemma AppendingEnd(inum: nat, din: Dinode, off: nat, data: seq<Byte>, img0: seq<Block>, used: int)
      requires Appending(inum, din, off, data, |data|, img0, used)
      ensures Shape() && inum < INUMS && inodes[inum].size <= MAXBYTES && off + |data| <= MAXBYTES
      ensures Consistent(SB, Image(), inodes[inum := din], {}) && freeblock == used + Blocks(off + |data|) - Blocks(off)
      ensures Progress(img0, inodes, inum, off, data, |data|, Image(), inodes[inum := din])
      ensures Tight(Row(Image(), inodes[inum := din], inum), off + |data|)
    {
    }

    method AppendNext(inum: nat, din: Dinode, off: nat, data: seq<Byte>, tot: nat, m: nat, ghost img0: seq<Block>,
                      ghost used: int) returns (ok: bool, din': Dinode)
      requires Appending(inum, din, off, data, tot, img0, used)
      requires m > 0 && tot + m <= |data| && BlockOff(off + tot) + m <= BSIZE
      modifies this`disk, this`freeblock
      ensures ok ==> Appending(inum, din', off, data, tot + m, img0, used)
      ensures !ok ==> Shape() && inum < INUMS && Consistent(SB, Image(), inodes[inum := din'], {})
      ensures !ok ==> used + Blocks(off + |data|) - Blocks(off) > FSSIZE
    {
      hide Written, OthersSame, Tight, Present, Blocks, BlockOff, Row, Owns, Mapped0;
      ok, din' := AppendRound(inum, din, off, data, tot, m, img0, inodes);
      BlocksMonotone(off + tot + m, off + |data|);
    }

    /** iappend; false when it runs out of blocks or the file would outgrow MAXFILE. */
    method Iappend(inum: nat, data: seq<Byte>) returns (ok: bool)
      requires Valid() && inum < freeinode
      modifies this`disk, this`inodes, this`freeblock
      ensures ok ==> Valid() && OthersSame(old(Image()), old(inodes), inum, Image(), inodes)
      ensures ok ==> inodes[inum].typ == old(inodes)[inum].typ && inodes[inum].nlink == old(inodes)[inum].nlink
      ensures ok ==> Content(Image(), inodes[inum]) == old(Content(Image(), inodes[inum])) + data
      ensures ok <==> var size := old(inodes[inum].size);
                      size + |data| <= MAXBYTES && old(freeblock) + Blocks(size + |data|) - Blocks(size) <= FSSIZE
      ensures ok ==>
                freeblock == old(freeblock) + Blocks(old(inodes[inum].size) + |data|) - Blocks(old(inodes[inum].size))
    {
      hide Written, OthersSame, Owns, Tight, Blocks, Row;
      var size := inodes[inum].size + |data|;
      if size > MAXBYTES {
        return false;
      }
      ghost var img0 := Image();
      var din;
      ok, din := AppendLoop(inum, data);
      if ok {
        ghost var nodes := inodes[inum := din];
        ProgressNode(img0, inodes, inum, inodes[inum].size, data, |data|, Image(), nodes);
        inodes := inodes[inum := din.(size := size)];
        AppendDone(img0, old(inodes), inum, data, Image(), nodes, inodes);
      }
    }

    /** ialloc: the next inode, with one link and no contents. */
    method Ialloc(typ: int) returns (inum: nat)
      requires Valid() && freeinode < INUMS
      modifies this`inodes, this`freeinode
      ensures Valid() && inum == old(freeinode) && freeinode == inum + 1
      ensures Image() == old(Image()) && inodes == old(inodes)[inum := EmptyNode.(typ := typ, nlink := 1)]
    {
      inum := freeinode;
      AllocInode(Image(), inodes, inum, typ);
      freeinode := freeinode + 1;
      inodes := inodes[inum := EmptyNode.(typ := typ, nlink := 1)];
    }

    /** Copies a file into the image, one buffer of at most BSIZE bytes at a time. */
    method CopyFile(inum: nat, data: seq<Byte>) returns (ok: bool)
      requires Valid() && inum < freeinode && inodes[inum].size == 0
      modifies this`disk, this`inodes, this`freeblock
      ensures ok ==> Valid() && OthersSame(old(Image()), old(inodes), inum, Image(), inodes)
      ensures ok ==> inodes[inum].typ == old(inodes)[inum].typ && inodes[inum].nlink == old(inodes)[inum].nlink
      ensures ok ==> Content(Image(), inodes[inum]) == data
      ensures ok <==> |data| <= MAXBYTES && old(freeblock) + Blocks(|data|) <= FSSIZE
      ensures ok ==> freeblock == old(freeblock) + Blocks(|data|)
    {
      hide Sound, OthersSame, Blocks, Mapped0;
      var done := 0;
      ok := true;
      assert data[..0] == [];
      OthersRefl(Image(), inodes, inum);
      assert Blocks(0) == 0 by {
        NoBlocks();
      }
      while done < |data|
        invariant 0 <= done <= |data| && Valid() && inodes[inum].size == done <= MAXBYTES
        invariant OthersSame(old(Image()), old(inodes), inum, Image(), inodes)
        invariant inodes[inum].typ == old(inodes)[inum].typ && inodes[inum].nlink == old(inodes)[inum].nlink
        invariant Content(Image(), inodes[inum]) == data[..done]
        invariant freeblock == old(freeblock) + Blocks(done)
      {
        var cc := if |data| - done < BSIZE then |data| - done else BSIZE;
        ghost var img, nodes := Image(), inodes;
        ok := Iappend(inum, data[done..done + cc]);
        BlocksMonotone(done + cc, |data|);
        if !ok {
          return;
        }
        SoundSize(Image(), inodes, inum);
        OthersTrans(old(Image()), old(inodes), inum, img, nodes, Image(), inodes);
        assert data[..done] + data[done..done + cc] == data[..done + cc];
        done := done + cc;
      }
      assert data[..done] == data;
    }

    /** One round of mkfs's loop over its arguments. */
    method AddFile(files: seq<File>, k: nat, ghost used: nat) returns (ok: bool)
      requires k < |files| && RoomFor(files, k, used) && freeblock == used + ImageBlocks(files, k)
      requires NamesOk(files) && Valid() && freeinode == 2 + k < INUMS && Holds(Image(), inodes, files, k)
      modifies this
      ensures ok ==> Valid() && freeinode == 3 + k && Holds(Image(), inodes, files, k + 1)
      ensures ok <==> RoomFor(files, k + 1, used)
      ensures ok ==> freeblock == used + ImageBlocks(files, k + 1)
    {
      hide Sound, OthersSame, Mapped0, Blocks, ImageBlocks, RootDir, Dirent;
      ghost var img0, nodes0 := Image(), inodes;
      RoomStep(files, k, used);
      var inum := Ialloc(T_FILE);
      ghost var img1, nodes1 := Image(), inodes;
      HoldsAlloc(img0, nodes0, files, k, nodes1);
      ok := Iappend(ROOTINO, Dirent(inum, files[k].name));
      if ok {
        ghost var img2, nodes2 := Image(), inodes;
        SoundSize(img2, nodes2, ROOTINO);
        HoldsEntry(img1, nodes1, files, k, img2, nodes2);
        ok := CopyFile(inum, files[k].data);
        if ok {
          SoundSize(Image(), inodes, inum);
          HoldsData(img2, nodes2, files, k, Image(), inodes);
        }
      }
    }

    /** balloc(used): the bitmap block marks the blocks below the counter. */
    method WriteMap()
      requires Shape()
      modifies this`disk
      ensures disk == old(Image())
    {
      var buf: Block := ZeroBlock();
      var i := 0;
      while i < freeblock
        invariant 0 <= i <= freeblock && buf == MapPrefix(i)
      {
        buf := MapSet(buf, i);
        i := i + 1;
      }
      disk := disk[SB.bmapstart := buf];
    }

    /** The root directory with its two entries for itself. */
    method MakeRoot(files: seq<File>) returns (ok: bool)
      requires Valid() && freeinode == 1 && NamesOk(files)
      modifies this
      ensures ok ==> Valid() && freeinode == 2 && Holds(Image(), inodes, files, 0)
      ensures ok <==> RoomFor(files, 0, old(freeblock))
      ensures ok ==> freeblock == old(freeblock) + ImageBlocks(files, 0)
    {
      hide Sound, OthersSame, Mapped0, Blocks, Dirent;
      var rootino := Ialloc(T_DIR);
      NoBlocks();
      BlocksMonotone(16, 32);
      assert Content(Image(), inodes[ROOTINO]) == [];
      ok := Iappend(ROOTINO, Dirent(ROOTINO, [46]));
      if ok {
        SoundSize(Image(), inodes, ROOTINO);
        assert Content(Image(), inodes[ROOTINO]) == Dirent(ROOTINO, [46]);
        ok := Iappend(ROOTINO, Dirent(ROOTINO, [46, 46]));
        if ok {
          SoundSize(Image(), inodes, ROOTINO);
        }
      }
    }

    /** Everything before the root's size is rounded up and the map is written. */
    method AddFiles(files: seq<File>) returns (ok: bool)
      requires Valid() && freeinode == 1 && NamesOk(files)
      modifies this
      ensures ok ==> Valid() && Holds(Image(), inodes, files, |files|)
      ensures ok <==> RoomFor(files, |files|, old(freeblock))
      ensures ok ==> freeblock == old(freeblock) + ImageBlocks(files, |files|)
    {
      hide Holds, Sound, Image, ImageBlocks;
      ghost var used := freeblock;
      ok := MakeRoot(files);
      RoomForLess(files, 0, |files|, used);
      if ok {
        var k := 0;
        while k < |files|
          invariant 0 <= k <= |files| && ok
          invariant Valid() && freeinode == 2 + k && Holds(Image(), inodes, files, k)
          invariant RoomFor(files, k, used) && freeblock == used + ImageBlocks(files, k)
        {
          ok := AddFile(files, k, used);
          if !ok {
            RoomForLess(files, k + 1, |files|, used);
            return;
          }
          k := k + 1;
        }
      }
    }

    /**
     mkfs gets through exactly when no file is too long and the files and the root directory, each with its
     indirect block, fit on the disk; then the image satisfies the kernel's invariant and holds the files, and
     exactly the blocks taken are marked. One block below a file's size is missing exactly when the root
     directory's entries fill whole blocks, because rounding a whole number of blocks up adds one that
     nothing allocates.
     */
    method Build(files: seq<File>) returns (ok: bool)
      requires Valid() && freeinode == 1 && NamesOk(files)
      modifies this
      ensures ok ==> |disk| == FSSIZE && |inodes| == INUMS && Consistent(SB, disk, inodes, {})
      ensures ok ==> forall i :: 0 <= i < |files| ==> HoldsFile(disk, inodes[2 + i], files[i])
      ensures ok ==> RootHolds(disk, inodes[ROOTINO], RootDir(files, |files|))
      ensures ok ==> (AllPresent(disk, inodes) <==> (2 + |files|) % 64 != 0)
      ensures ok ==> LastMissing(disk, inodes, 2 + |files|)
      ensures ok ==> freeblock == old(freeblock) + ImageBlocks(files, |files|) <= FSSIZE
      ensures ok ==> forall b :: 0 <= b < FSSIZE ==> (Bits(SB, disk)[b] <==> b < freeblock)
      ensures ok <==> RoomFor(files, |files|, old(freeblock))
    {
      hide Holds, Sound, Blank, AllPresent, HoldsFile, RootHolds, RootDir, LastMissing, ImageBlocks, BlockNo,
           BlockStart, Mapped0, Bits, Owns, Content, ValidSuper;
      ok := AddFiles(files);
      if ok {
        ghost var was, nodes := disk, inodes;
        HoldsRoot(Image(), inodes, files);
        var off := inodes[ROOTINO].size;
        inodes := inodes[ROOTINO := inodes[ROOTINO].(size := BlockStart(BlockNo(off) + 1))];
        WriteMap();
        RoundFiles(disk, nodes, files, inodes);
        SoundConsistent(disk, nodes);
        ResizeKeeps(SB, disk, nodes, ROOTINO, inodes[ROOTINO].size);
        SoundBlank(disk, nodes, ROOTINO);
        RoundContent(disk, nodes[ROOTINO], RootDir(files, |files|));
        RoundMissing(disk, nodes, inodes, 2 + |files|);
        RoundAllPresent(disk, nodes, inodes, 2 + |files|);
        MarkedBelow(was, freeblock);
      }
    }
  }

  /** The directory starts with these entries and is zero after them; its size is the next multiple of BSIZE. */
  ghost predicate RootHolds(img: seq<Block>, ip: Dinode, entries: seq<Byte>) {
    && ip.size <= MAXBYTES && |entries| <= ip.size == BlockStart(BlockNo(|entries|) + 1)
    && Content(img, ip)[..|entries|] == entries
    && forall o :: |entries| <= o < ip.size ==> Content(img, ip)[o] == 0
  }

  /** Of the blocks below the sizes of files just one is missing, the root's last, if n entries fill whole blocks. */
  ghost predicate LastMissing(img: seq<Block>, inodes: seq<Dinode>, n: nat) {
    forall i, m :: 0 <= i < |inodes| && 0 <= m < MAXFILE && BlockStart(m) < inodes[i].size ==>
      (Row(img, inodes, i)[DataSlot(m)] == 0 <==> i == ROOTINO && n % 64 == 0 && m == n / 64)
  }

  lemma HoldsRoot(img: seq<Block>, inodes: seq<Dinode>, files: seq<File>)
    requires Holds(img, inodes, files, |files|)
    ensures |inodes| == INUMS && NamesOk(files) && inodes[ROOTINO].size == 16 * (2 + |files|) <= MAXBYTES - BSIZE
    ensures Content(img, inodes[ROOTINO]) == RootDir(files, |files|)
  {
  }

  lemma SoundConsistent(img: seq<Block>, inodes: seq<Dinode>)
    requires Sound(img, inodes)
    ensures Consistent(SB, img, inodes, {})
  {
  }

  /** Rounding the root's size leaves the files as they are. */
  lemma RoundFiles(img: seq<Block>, inodes: seq<Dinode>, files: seq<File>, inodes': seq<Dinode>)
    requires Holds(img, inodes, files, |files|)
    requires |inodes'| == |inodes| && forall j :: 0 <= j < |inodes| && j != ROOTINO ==> inodes'[j] == inodes[j]
    ensures forall i :: 0 <= i < |files| ==> HoldsFile(img, inodes'[2 + i], files[i])
  {
    forall i | 0 <= i < |files| ensures HoldsFile(img, inodes'[2 + i], files[i]) {
      assert HoldsFile(img, inodes[2 + i], files[i]);
    }
  }

  lemma SoundBlank(img: seq<Block>, inodes: seq<Dinode>, i: nat)
    requires Sound(img, inodes) && i < |inodes|
    ensures Blank(img, Slots(img, inodes[i].addrs), inodes[i].size)
  {
    hide Blank, Consistent;
    assert Row(img, inodes, i) == Slots(img, inodes[i].addrs);
  }

  lemma RoundContent(img: seq<Block>, ip: Dinode, entries: seq<Byte>)
    requires ip.size <= MAXBYTES - BSIZE && Content(img, ip) == entries && Blank(img, Slots(img, ip.addrs), ip.size)
    ensures RootHolds(img, ip.(size := BlockStart(BlockNo(ip.size) + 1)), entries)
  {
    var ip' := ip.(size := BlockStart(BlockNo(ip.size) + 1));
    forall o | 0 <= o < |entries| ensures Content(img, ip')[o] == entries[o] {
      assert Content(img, ip)[o] == ByteAt(img, Slots(img, ip.addrs), o);
    }
  }

  lemma RoundAllPresent(img: seq<Block>, inodes: seq<Dinode>, inodes': seq<Dinode>, n: nat)
    requires Sound(img, inodes) && ROOTINO < |inodes| && inodes[ROOTINO].size == 16 * n && n <= INUMS
    requires inodes' == inodes[ROOTINO := inodes[ROOTINO].(size := BlockStart(BlockNo(inodes[ROOTINO].size) + 1))]
    ensures AllPresent(img, inodes') <==> n % 64 != 0
  {
    var row := Row(img, inodes, ROOTINO);
    RoundPresent(row, inodes[ROOTINO].size, n);
    assert Slots(img, inodes'[ROOTINO].addrs) == row;
    forall j | 0 <= j < |inodes'| && j != ROOTINO ensures Present(Slots(img, inodes'[j].addrs), inodes'[j].size) {
      assert inodes'[j] == inodes[j];
    }
  }

  lemma RoundMissing(img: seq<Block>, inodes: seq<Dinode>, inodes': seq<Dinode>, n: nat)
    requires Sound(img, inodes) && ROOTINO < |inodes| && inodes[ROOTINO].size == 16 * n && n <= INUMS
    requires inodes' == inodes[ROOTINO := inodes[ROOTINO].(size := BlockStart(BlockNo(inodes[ROOTINO].size) + 1))]
    ensures LastMissing(img, inodes', n) && inodes'[ROOTINO].size == BlockStart(n / 64 + 1)
  {
    forall i, m | 0 <= i < |inodes'| && 0 <= m < MAXFILE && BlockStart(m) < inodes'[i].size
      ensures Row(img, inodes', i)[DataSlot(m)] == 0 <==> i == ROOTINO && n % 64 == 0 && m == n / 64
    {
      var row := Row(img, inodes, i);
      assert Row(img, inodes', i) == row && Present(row, inodes[i].size) && Tight(row, inodes[i].size);
      if i == ROOTINO {
        assert BlockStart(m) < 16 * n <==> !(n % 64 == 0 && m == n / 64);
      }
    }
  }

  lemma RoundPresent(row: seq<nat>, size: nat, n: nat)
    requires |row| == NSLOTS && Present(row, size) && Tight(row, size) && size == 16 * n && n <= INUMS
    ensures Present(row, BlockStart(BlockNo(size) + 1)) <==> n % 64 != 0
  {
    var b := BlockNo(size);
    assert BlockStart(b) < BlockStart(b + 1);
    if n % 64 == 0 {
      assert BlockStart(b) == size;
    } else {
      assert BlockStart(b) < size;
      forall m | 0 <= m < MAXFILE && BlockStart(m) < BlockStart(b + 1) ensures row[DataSlot(m)] != 0 {
        assert m <= b;
      }
    }
  }

  /** An input of mkfs: the name without directory and underscore, and the contents. */
  datatype File = File(name: seq<Byte>, data: seq<Byte>)

  /** mkfs asserts that a name fits a directory entry. */
  ghost predicate NamesOk(files: seq<File>) {
    |files| + 2 <= INUMS && forall i :: 0 <= i < |files| ==> |files[i].name| <= DIRSIZ
  }

  /** The root directory: ".", "..", then file i under inode 2 + i. */
  function RootDir(files: seq<File>, k: nat): (r: seq<Byte>)
    requires k <= |files| < INUMS && forall i :: 0 <= i < k ==> |files[i].name| <= DIRSIZ
    ensures |r| == 16 * (2 + k)
  {
    if k == 0 then Dirent(ROOTINO, [46]) + Dirent(ROOTINO, [46, 46])
    else RootDir(files, k - 1) + Dirent(1 + k, files[k - 1].name)
  }

  ghost predicate HoldsFile(img: seq<Block>, ip: Dinode, f: File) {
    ip.size <= MAXBYTES && ip.typ == T_FILE && ip.nlink == 1 && Content(img, ip) == f.data
  }

  /** The first k files are in the image, and the root directory names them. */
  ghost predicate Holds(img: seq<Block>, inodes: seq<Dinode>, files: seq<File>, k: nat) {
    && k <= |files| && NamesOk(files) && |inodes| == INUMS
    && inodes[ROOTINO].size <= MAXBYTES && inodes[ROOTINO].typ == T_DIR && inodes[ROOTINO].nlink == 1
    && Content(img, inodes[ROOTINO]) == RootDir(files, k)
    && (forall i :: 0 <= i < k ==> HoldsFile(img, inodes[2 + i], files[i]))
  }

  lemma AllocInode(img: seq<Block>, inodes: seq<Dinode>, i: nat, typ: int)
    requires Sound(img, inodes) && i < |inodes| && inodes[i] == EmptyNode
    ensures Sound(img, inodes[i := EmptyNode.(typ := typ, nlink := 1)])
  {
    var inodes' := inodes[i := EmptyNode.(typ := typ, nlink := 1)];
    assert Table(img, inodes') == Table(img, inodes);
    hide Tight, Present, Blank;
    forall j | 0 <= j < |inodes'|
      ensures Present(Slots(img, inodes'[j].addrs), inodes'[j].size) && Tight(Row(img, inodes', j), inodes'[j].size)
      ensures Blank(img, Row(img, inodes', j), inodes'[j].size)
    {
      assert Row(img, inodes', j) == Row(img, inodes, j) && inodes'[j].size == inodes[j].size;
    }
  }

  lemma HoldsAlloc(img: seq<Block>, inodes: seq<Dinode>, files: seq<File>, k: nat, inodes': seq<Dinode>)
    requires Holds(img, inodes, files, k) && k < |files|
    requires inodes' == inodes[2 + k := EmptyNode.(typ := T_FILE, nlink := 1)]
    ensures Holds(img, inodes', files, k) && inodes'[2 + k].typ == T_FILE && inodes'[2 + k].nlink == 1
  {
    forall i | 0 <= i < k ensures HoldsFile(img, inodes'[2 + i], files[i]) {
      assert inodes'[2 + i] == inodes[2 + i];
    }
  }

  /** The root directory has its new entry; the files before k are untouched. */
  lemma HoldsEntry(img: seq<Block>, inodes: seq<Dinode>, files: seq<File>, k: nat, img': seq<Block>,
                   inodes': seq<Dinode>)
    requires Holds(img, inodes, files, k) && k < |files| && OthersSame(img, inodes, ROOTINO, img', inodes')
    requires inodes'[ROOTINO].size <= MAXBYTES && inodes'[ROOTINO].typ == T_DIR && inodes'[ROOTINO].nlink == 1
    requires Content(img', inodes'[ROOTINO]) == Content(img, inodes[ROOTINO]) + Dirent(2 + k, files[k].name)
    ensures Content(img', inodes'[ROOTINO]) == RootDir(files, k + 1) && inodes'[2 + k] == inodes[2 + k]
    ensures forall i :: 0 <= i < k ==> HoldsFile(img', inodes'[2 + i], files[i])
  {
    forall i | 0 <= i < k ensures HoldsFile(img', inodes'[2 + i], files[i]) {
      assert HoldsFile(img, inodes[2 + i], files[i]);
      OthersContent(img, inodes, ROOTINO, img', inodes', 2 + i);
    }
  }

  lemma HoldsData(img: seq<Block>, inodes: seq<Dinode>, files: seq<File>, k: nat, img': seq<Block>,
                  inodes': seq<Dinode>)
    requires k < |files| && NamesOk(files) && |inodes| == INUMS && OthersSame(img, inodes, 2 + k, img', inodes')
    requires inodes[ROOTINO].size <= MAXBYTES && inodes[ROOTINO].typ == T_DIR && inodes[ROOTINO].nlink == 1
    requires Content(img, inodes[ROOTINO]) == RootDir(files, k + 1)
    requires forall i :: 0 <= i < k ==> HoldsFile(img, inodes[2 + i], files[i])
    requires HoldsFile(img', inodes'[2 + k], files[k])
    ensures Holds(img', inodes', files, k + 1)
  {
    OthersContent(img, inodes, 2 + k, img', inodes', ROOTINO);
    forall i | 0 <= i < k + 1 ensures HoldsFile(img', inodes'[2 + i], files[i]) {
      if i < k {
        assert HoldsFile(img, inodes[2 + i], files[i]);
        OthersContent(img, inodes, 2 + k, img', inodes', 2 + i);
      }
    }
  }

  /** The file system invariant, and files that occupy exactly the blocks below their size. */
  ghost predicate Sound(img: seq<Block>, inodes: seq<Dinode>) {
    && Consistent(SB, img, inodes, {}) && AllPresent(img, inodes)
    && (forall i :: 0 <= i < |inodes| ==> Tight(Row(img, inodes, i), inodes[i].size))
    && (forall i :: 0 <= i < |inodes| ==> Blank(img, Row(img, inodes, i), inodes[i].size))
  }

  /** All beyond the end of the file is zero. */
  ghost predicate Blank(img: seq<Block>, row: seq<nat>, size: nat)
    requires |row| == NSLOTS
  {
    forall o :: size <= o < MAXBYTES ==> ByteAt(img, row, o) == 0
  }

  lemma EmptyBlank(img: seq<Block>, row: seq<nat>, size: nat)
    requires |row| == NSLOTS && forall k :: 0 <= k < NSLOTS ==> row[k] == 0
    ensures Blank(img, row, size)
  {
  }

  lemma OthersBlank(img0: seq<Block>, inodes0: seq<Dinode>, i: nat, img: seq<Block>, inodes: seq<Dinode>, j: nat)
    requires OthersSame(img0, inodes0, i, img, inodes) && j < |inodes| && j != i
    requires Blank(img0, Row(img0, inodes0, j), inodes0[j].size)
    ensures Blank(img, Row(img, inodes, j), inodes[j].size)
  {
    var row := Row(img, inodes, j);
    forall o | inodes[j].size <= o < MAXBYTES ensures ByteAt(img, row, o) == 0 {
      assert 0 <= DataSlot(BlockNo(o)) < NSLOTS;
      assert ByteAt(img0, row, o) == 0;
    }
  }

  lemma WrittenBlank(img0: seq<Block>, inodes0: seq<Dinode>, i: nat, off: nat, data: seq<Byte>, img: seq<Block>,
                     inodes: seq<Dinode>)
    requires i < |inodes0| && off + |data| <= MAXBYTES && inodes0[i].size <= MAXBYTES && off == inodes0[i].size
    requires Written(img0, inodes0, i, off, data, |data|, img, inodes)
    requires Blank(img0, Row(img0, inodes0, i), off)
    ensures Blank(img, Row(img, inodes, i), off + |data|)
  {
    hide SlotsKept;
  }

  /** Nothing beyond the end of the file is allocated, and no indirect block that is not needed. */
  ghost predicate Tight(row: seq<nat>, size: nat)
    requires |row| == NSLOTS
  {
    && (forall n :: 0 <= n < MAXFILE && BlockStart(n) >= size ==> row[DataSlot(n)] == 0)
    && (size <= BlockStart(NDIRECT) ==> row[NDIRECT] == 0)
  }

  // ----- how many blocks an image takes -----

  /** The blocks of a file of n bytes, its indirect block included. */
  function Blocks(n: nat): nat { BlockNo(n + BSIZE - 1) + if n > BlockStart(NDIRECT) then 1 else 0 }

  /** The blocks still to be taken before file block bn can be written. */
  function Missing(row: seq<nat>, bn: nat): nat
    requires |row| == NSLOTS && bn < MAXFILE
  {
    (if row[DataSlot(bn)] == 0 then 1 else 0) + if bn >= NDIRECT && row[NDIRECT] == 0 then 1 else 0
  }

  lemma RowAddrs(img: seq<Block>, inodes: seq<Dinode>, i: nat, bn: nat)
    requires i < |inodes| && bn < MAXFILE
    ensures Row(img, inodes, i)[NDIRECT] == inodes[i].addrs[NDIRECT]
    ensures bn < NDIRECT ==> Row(img, inodes, i)[DataSlot(bn)] == inodes[i].addrs[bn]
    ensures bn >= NDIRECT && inodes[i].addrs[NDIRECT] == 0 ==> Row(img, inodes, i)[DataSlot(bn)] == 0
  {
    if bn >= NDIRECT {
      NoPointerNoEntry(img, inodes, i, bn - NDIRECT);
    }
  }

  lemma PointerFirst(img: seq<Block>, inodes: seq<Dinode>, i: nat, bn: nat)
    requires i < |inodes| && NDIRECT <= bn < MAXFILE && Row(img, inodes, i)[DataSlot(bn)] != 0
    ensures Row(img, inodes, i)[NDIRECT] != 0
  {
    NoPointerNoEntry(img, inodes, i, bn - NDIRECT);
  }

  /** In a file that has exactly its blocks, the next m bytes take what the larger file has more. */
  lemma MissingExact(img: seq<Block>, inodes: seq<Dinode>, i: nat, o: nat, m: nat)
    requires i < |inodes| && o + m <= MAXBYTES && m > 0 && BlockOff(o) + m <= BSIZE
    requires Tight(Row(img, inodes, i), o) && Present(Row(img, inodes, i), o)
    ensures Missing(Row(img, inodes, i), BlockNo(o)) == Blocks(o + m) - Blocks(o)
  {
    var row, bn := Row(img, inodes, i), BlockNo(o);
    if BlockOff(o) > 0 {
      assert BlockStart(bn) < o && row[DataSlot(bn)] != 0;
      if bn >= NDIRECT {
        PointerFirst(img, inodes, i, bn);
      }
    } else {
      assert BlockStart(bn) == o && row[DataSlot(bn)] == 0;
      if bn > NDIRECT {
        assert BlockStart(NDIRECT) < o && row[DataSlot(NDIRECT)] != 0;
        PointerFirst(img, inodes, i, NDIRECT);
      }
    }
    BlocksStep(o, m);
  }

  lemma BlocksStep(o: nat, m: nat)
    requires m > 0 && BlockOff(o) + m <= BSIZE
    ensures Blocks(o + m) == Blocks(o) + if BlockOff(o) > 0 then 0 else if BlockNo(o) == NDIRECT then 2 else 1
  {
    assert o == 1024 * BlockNo(o) + BlockOff(o);
  }

  lemma BlocksMonotone(a: nat, b: nat)
    requires a <= b
    ensures Blocks(a) <= Blocks(b)
  {
  }

  lemma PresentStep(row: seq<nat>, row': seq<nat>, o: nat, m: nat)
    requires |row| == |row'| == NSLOTS && Present(row, o) && SlotsKept(row, row') && o + m <= MAXBYTES
    requires BlockOff(o) + m <= BSIZE && BlockNo(o) < MAXFILE && row'[DataSlot(BlockNo(o))] != 0
    ensures Present(row', o + m)
  {
    forall n | 0 <= n < MAXFILE && BlockStart(n) < o + m ensures row'[DataSlot(n)] != 0 {
      if BlockStart(n) >= o {
        assert n == BlockNo(o);
      }
    }
  }

  /** What the first k files take. */
  function FilesBlocks(files: seq<File>, k: nat): nat
    requires k <= |files|
  {
    if k == 0 then 0 else FilesBlocks(files, k - 1) + Blocks(|files[k - 1].data|)
  }

  lemma {:induction false} FilesMonotone(files: seq<File>, j: nat, k: nat)
    requires j <= k <= |files|
    ensures FilesBlocks(files, j) <= FilesBlocks(files, k)
  {
    if j < k {
      FilesMonotone(files, j, k - 1);
    }
  }

  lemma RoomStep(files: seq<File>, k: nat, used: nat)
    requires k < |files| < INUMS && RoomFor(files, k, used)
    ensures ImageBlocks(files, k + 1) ==
            ImageBlocks(files, k) + Blocks(16 * (3 + k)) - Blocks(16 * (2 + k)) + Blocks(|files[k].data|)
    ensures RoomFor(files, k + 1, used) <==> used + ImageBlocks(files, k + 1) <= FSSIZE && |files[k].data| <= MAXBYTES
    ensures Blocks(16 * (2 + k)) <= Blocks(16 * (3 + k))
  {
    BlocksMonotone(16 * (2 + k), 16 * (3 + k));
  }

  lemma RoomForLess(files: seq<File>, j: nat, k: nat, used: nat)
    requires j <= k <= |files|
    ensures RoomFor(files, k, used) ==> RoomFor(files, j, used)
  {
    FilesMonotone(files, j, k);
    BlocksMonotone(16 * (2 + j), 16 * (2 + k));
  }

  /** The files, and a root directory of two entries and one for each of them. */
  function ImageBlocks(files: seq<File>, k: nat): nat
    requires k <= |files|
  {
    FilesBlocks(files, k) + Blocks(16 * (2 + k))
  }

  ghost predicate RoomFor(files: seq<File>, k: nat, used: nat)
    requires k <= |files|
  {
    used + ImageBlocks(files, k) <= FSSIZE && forall i :: 0 <= i < k ==> |files[i].data| <= MAXBYTES
  }

  lemma MappedTight(img: seq<Block>, inodes: seq<Dinode>, i: nat, bn: nat, img': seq<Block>, inodes': seq<Dinode>,
                    addr: nat, size: nat, size': nat)
    requires i < |inodes| && bn < MAXFILE && Mapped(SB, img, inodes, i, bn, img', inodes', addr)
    requires Tight(Row(img, inodes, i), size) && size <= size' && BlockStart(bn) < size'
    requires bn < NDIRECT ==> inodes'[i].addrs[NDIRECT] == inodes[i].addrs[NDIRECT]
    ensures Tight(Row(img', inodes', i), size')
  {
    var t, t' := Table(img, inodes), Table(img', inodes');
    forall n | 0 <= n < MAXFILE && BlockStart(n) >= size' ensures Row(img', inodes', i)[DataSlot(n)] == 0 {
      assert t'[i][DataSlot(n)] == t[i][DataSlot(n)];
      assert Row(img, inodes, i)[DataSlot(n)] == 0;
    }
  }

  lemma NoBlocks()
    ensures Blocks(0) == 0
  {
  }

  lemma SoundSize(img: seq<Block>, inodes: seq<Dinode>, i: nat)
    requires Sound(img, inodes) && i < |inodes|
    ensures inodes[i].size <= MAXBYTES
  {
  }

  lemma ProgressNode(img0: seq<Block>, inodes0: seq<Dinode>, i: nat, off: nat, data: seq<Byte>, tot: nat,
                     img: seq<Block>, inodes: seq<Dinode>)
    requires i < |inodes0| && tot <= |data| && off + |data| <= MAXBYTES && inodes0[i].size <= MAXBYTES
    requires Progress(img0, inodes0, i, off, data, tot, img, inodes)
    ensures |inodes| == |inodes0| && inodes[i] == inodes0[i].(addrs := inodes[i].addrs)
  {
  }

  /** A round of iappend, once its block is there. */
  lemma RoundMapped(img0: seq<Block>, inodes0: seq<Dinode>, i: nat, off: nat, data: seq<Byte>, tot: nat, m: nat,
                    img: seq<Block>, inodes: seq<Dinode>, img': seq<Block>, inodes': seq<Dinode>, x: nat)
    requires i < |inodes0| == |inodes| && tot + m <= |data| && off + |data| <= MAXBYTES && inodes0[i].size <= MAXBYTES
    requires m > 0
    requires Progress(img0, inodes0, i, off, data, tot, img, inodes) && Consistent(SB, img, inodes, {})
    requires BlockOff(off + tot) + m <= BSIZE && x != 0
    requires Mapped(SB, img, inodes, i, BlockNo(off + tot), img', inodes', x)
    requires BlockNo(off + tot) < NDIRECT ==> inodes'[i].addrs[NDIRECT] == inodes[i].addrs[NDIRECT]
    requires Tight(Row(img, inodes, i), off + tot) && Present(Row(img, inodes, i), off + tot)
    ensures |inodes'| == |inodes| && x == Row(img', inodes', i)[DataSlot(BlockNo(off + tot))]
    ensures Progress(img0, inodes0, i, off, data, tot, img', inodes')
    ensures Tight(Row(img', inodes', i), off + tot + m) && Present(Row(img', inodes', i), off + tot + m)
  {
    hide Written, OthersSame, Tight, Present;
    var bn := BlockNo(off + tot);
    ProgressMap(SB, img0, inodes0, i, off, data, tot, img, inodes, bn, img', inodes');
    MappedTight(img, inodes, i, bn, img', inodes', x, off + tot, off + tot + m);
    ExtendsKeeps(SB, img, inodes, i, bn, img', inodes');
    PresentStep(Row(img, inodes, i), Row(img', inodes', i), off + tot, m);
  }

  /** The files left alone keep their blocks. */
  lemma OthersTight(img0: seq<Block>, inodes0: seq<Dinode>, i: nat, img: seq<Block>, inodes: seq<Dinode>)
    requires i < |inodes| && OthersSame(img0, inodes0, i, img, inodes) && Sound(img0, inodes0)
    requires Present(Row(img, inodes, i), inodes[i].size) && Tight(Row(img, inodes, i), inodes[i].size)
    requires Blank(img, Row(img, inodes, i), inodes[i].size)
    ensures AllPresent(img, inodes)
    ensures forall j :: 0 <= j < |inodes| ==> Tight(Row(img, inodes, j), inodes[j].size)
    ensures forall j :: 0 <= j < |inodes| ==> Blank(img, Row(img, inodes, j), inodes[j].size)
  {
    hide Consistent, Present, Tight, Blank;
    forall j | 0 <= j < |inodes|
      ensures Present(Slots(img, inodes[j].addrs), inodes[j].size) && Tight(Row(img, inodes, j), inodes[j].size)
      ensures Blank(img, Row(img, inodes, j), inodes[j].size)
    {
      if j != i {
        assert Row(img, inodes, j) == Row(img0, inodes0, j);
        OthersBlank(img0, inodes0, i, img, inodes, j);
      }
    }
  }

  /** Appending is overwriting at the end. */
  lemma AppendDone(img0: seq<Block>, inodes0: seq<Dinode>, i: nat, data: seq<Byte>, img: seq<Block>,
                   inodes: seq<Dinode>, inodes': seq<Dinode>)
    requires i < |inodes0| == |inodes| && inodes0[i].size + |data| <= MAXBYTES
    requires Progress(img0, inodes0, i, inodes0[i].size, data, |data|, img, inodes)
    requires Sound(img0, inodes0) && Consistent(SB, img, inodes, {})
    requires Tight(Row(img, inodes, i), inodes0[i].size + |data|)
    requires inodes' == inodes[i := inodes[i].(size := inodes0[i].size + |data|)]
    ensures Sound(img, inodes') && OthersSame(img0, inodes0, i, img, inodes')
    ensures Content(img, inodes'[i]) == Content(img0, inodes0[i]) + data
  {
    hide Written, OthersSame, Tight, Present, Consistent, Blank;
    var c := Content(img0, inodes0[i]);
    WrittenDone(img0, inodes0, i, inodes0[i].size, data, |data|, img, inodes);
    assert data[..|data|] == data;
    assert Overwrite(c, |c|, data) == c + data;
    ResizeKeeps(SB, img, inodes, i, inodes'[i].size);
    OthersResize(img0, inodes0, i, img, inodes, inodes'[i].size);
    WrittenBlank(img0, inodes0, i, inodes0[i].size, data, img, inodes);
    OthersTight(img0, inodes0, i, img, inodes');
  }

  /** A block in use lies among the blocks handed out, below the counter. */
  lemma SlotInUse(img: seq<Block>, disk: seq<Block>, n: nat, inodes: seq<Dinode>, i: nat, k: nat)
    requires |disk| == FSSIZE && 46 <= n <= FSSIZE && img == Mapped0(disk, n) && Consistent(SB, img, inodes, {})
    requires i < |inodes| && k < NSLOTS && Table(img, inodes)[i][k] != 0
    ensures var p := Table(img, inodes)[i][k]; 46 <= p < n && disk[p] == img[p]
  {
    SlotRange(SB, img, inodes, {}, i, k);
    PrefixBits(disk, n, Table(img, inodes)[i][k]);
  }

  lemma EmptyImage(disk: seq<Block>, inodes: seq<Dinode>)
    requires |disk| == FSSIZE && |inodes| == INUMS && (forall i :: 0 <= i < INUMS ==> inodes[i] == EmptyNode)
    ensures Sound(Mapped0(disk, 46), inodes)
  {
    var v := Mapped0(disk, 46);
    var t := Table(v, inodes);
    var bits := Bits(SB, v);
    forall i, k | InTable(t, i, k) ensures Cell(t, i, k) == 0 {
      assert t[i] == Slots(v, inodes[i].addrs);
    }
    forall b | 0 <= b < FSSIZE ensures bits[b] == (b < 46) {
      PrefixBits(disk, 46, b);
    }
    hide Mapped0, Bits, Slots, Words, MapPrefix;
    forall i | 0 <= i < INUMS
      ensures Tight(Row(v, inodes, i), inodes[i].size) && Blank(v, Row(v, inodes, i), inodes[i].size)
    {
      assert forall k :: 0 <= k < |t[i]| ==> InTable(t, i, k) && Cell(t, i, k) == t[i][k];
      EmptyBlank(v, Row(v, inodes, i), inodes[i].size);
    }
  }

  lemma {:induction false} EmptyFiles(files: seq<File>, k: nat)
    requires k <= |files| && forall i :: 0 <= i < |files| ==> files[i].data == []
    ensures FilesBlocks(files, k) == 0
  {
    if k > 0 {
      EmptyFiles(files, k - 1);
    }
  }

  /** With 62 files the root directory is a whole block, and its last block is missing. */
  method WholeRoot(files: seq<File>) returns (m: Mkfs, ok: bool)
    requires |files| == 62 && forall i :: 0 <= i < |files| ==> files[i].data == [] && |files[i].name| <= DIRSIZ
    ensures ok && |m.disk| == FSSIZE && |m.inodes| == INUMS && Consistent(SB, m.disk, m.inodes, {})
    ensures !AllPresent(m.disk, m.inodes) && m.inodes[ROOTINO].size == 2048
    ensures Row(m.disk, m.inodes, ROOTINO)[DataSlot(1)] == 0 && !Bits(SB, m.disk)[47]
  {
    hide Sound, Consistent, AllPresent, Blocks, Mapped0, HoldsFile, RootDir;
    m := new Mkfs();
    EmptyFiles(files, 62);
    OneBlock();
    ok := m.Build(files);
  }

  lemma OneBlock()
    ensures Blocks(1024) == 1
  {
  }
}
