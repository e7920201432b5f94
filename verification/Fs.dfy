/**
 The block allocator and the inode content layer of fs.c, over the logical disk that the log and the
 buffer cache present.  Inodes in memory may run ahead of their copies on disk until iupdate; core has
 every inode as it is in memory, or as on disk if it is not in memory.
 */
module Fs {
  import Counting
  import opened FsLayout
  import opened BlockOwnership
  import opened FsState
  import opened FsMap
  import opened FsWrite
  import opened FsTrunc
  import opened FsFill

  const IPB: nat := 16   // BSIZE / sizeof(struct dinode)

  /** A block passed to log_write: a bitmap or data block, or the inode block with this index. */
  datatype Logged = DiskBlock(b: nat) | InodeBlock(index: nat)

  class Inode {
    const inum: nat
    var node: Dinode

    constructor (inum: nat, node: Dinode)
      ensures this.inum == inum && this.node == node
    {
      this.inum, this.node := inum, node;
    }
  }

  /** What the allocation of block b and writes to it log: its bitmap block and itself. */
  ghost function Touched(sb: Super, b: nat): set<Logged> {
    if b == 0 then {} else {DiskBlock(BBlock(sb, b)), DiskBlock(b)}
  }

  lemma TouchedMore(sb: Super, p: nat, addr: nat, l0: set<Logged>, l1: set<Logged>, l2: set<Logged>)
    requires p != 0 && l1 <= l0 + Touched(sb, p) && l2 <= l1 + Touched(sb, addr) + {DiskBlock(p)}
    ensures l2 <= l0 + Touched(sb, addr) + Touched(sb, p)
  {
  }

  ghost function RowTouched(sb: Super, row: seq<nat>, bn: nat): set<Logged>
    requires |row| == NSLOTS && bn < MAXFILE
  {
    Touched(sb, row[DataSlot(bn)]) + Touched(sb, row[NDIRECT])
  }

  /** All that a write to file blocks [lo, hi) can log, when one bitmap block covers the disk. */
  ghost function WriteSet(sb: Super, row: seq<nat>, lo: nat, hi: nat): set<Logged>
    requires |row| == NSLOTS && hi <= MAXFILE
  {
    if hi <= lo then {DiskBlock(sb.bmapstart), DiskBlock(row[NDIRECT])}
    else WriteSet(sb, row, lo, hi - 1) + {DiskBlock(row[DataSlot(hi - 1)])}
  }

  lemma {:induction false} WriteSetSize(sb: Super, row: seq<nat>, lo: nat, hi: nat)
    requires |row| == NSLOTS && lo <= hi <= MAXFILE
    ensures |WriteSet(sb, row, lo, hi)| <= 2 + hi - lo
    decreases hi
  {
    if lo < hi {
      WriteSetSize(sb, row, lo, hi - 1);
    }
  }

  lemma {:induction false} WriteSetKept(sb: Super, row: seq<nat>, row': seq<nat>, lo: nat, hi: nat, x: Logged)
    requires |row| == |row'| == NSLOTS && SlotsKept(row, row') && hi <= MAXFILE
    requires x in WriteSet(sb, row, lo, hi) && x != DiskBlock(0)
    ensures x in WriteSet(sb, row', lo, hi)
  {
    if lo < hi {
      if x in WriteSet(sb, row, lo, hi - 1) {
        WriteSetKept(sb, row, row', lo, hi - 1, x);
      }
    }
  }

  lemma {:induction false} WriteSetBase(sb: Super, row: seq<nat>, lo: nat, hi: nat)
    requires |row| == NSLOTS && hi <= MAXFILE
    ensures DiskBlock(sb.bmapstart) in WriteSet(sb, row, lo, hi) && DiskBlock(row[NDIRECT]) in WriteSet(sb, row, lo, hi)
  {
    if lo < hi {
      WriteSetBase(sb, row, lo, hi - 1);
    }
  }

  /** The file block just past a write of n bytes at off. */
  function EndBlock(off: nat, n: nat): nat { BlockNo(off + n + BSIZE - 1) }

  /** Everything newly logged is accounted for by the slots of the file written. */
  ghost predicate Accounted(sb: Super, row: seq<nat>, lo: nat, hi: nat, logged0: set<Logged>, logged: set<Logged>)
    requires |row| == NSLOTS && hi <= MAXFILE
  {
    forall x :: x in logged && x !in logged0 ==> x in WriteSet(sb, row, lo, hi) && x != DiskBlock(0)
  }

  /** Slots only ever get filled while a file is written, so what was logged stays accounted for. */
  lemma AccountBlock(sb: Super, row: seq<nat>, row': seq<nat>, lo: nat, hi: nat, logged0: set<Logged>,
                     logged: set<Logged>, logged': set<Logged>)
    requires |row| == |row'| == NSLOTS && SlotsKept(row, row') && lo <= hi < MAXFILE && ValidSuper(sb) && sb.size <= BPB
    requires row'[DataSlot(hi)] < sb.size && row'[NDIRECT] < sb.size
    requires Accounted(sb, row, lo, hi, logged0, logged)
    requires logged' <= logged + RowTouched(sb, row', hi)
    ensures Accounted(sb, row', lo, hi + 1, logged0, logged')
  {
    WriteSetBase(sb, row', lo, hi + 1);
    forall x | x in logged' && x !in logged0 ensures x in WriteSet(sb, row', lo, hi + 1) && x != DiskBlock(0) {
      if x in logged {
        WriteSetKept(sb, row, row', lo, hi, x);
      } else {
        assert BBlock(sb, row'[DataSlot(hi)]) == sb.bmapstart && BBlock(sb, row'[NDIRECT]) == sb.bmapstart;
      }
    }
  }

  lemma AccountRound(sb: Super, disk: seq<Block>, inodes: seq<Dinode>, i: nat, row: seq<nat>, lo: nat, hi: nat,
                     logged0: set<Logged>, logged: set<Logged>, logged': set<Logged>)
    requires Consistent(sb, disk, inodes, {}) && i < |inodes| && lo <= hi < MAXFILE
    requires |row| == NSLOTS && SlotsKept(row, Row(disk, inodes, i))
    requires logged' <= logged + RowTouched(sb, Row(disk, inodes, i), hi)
    ensures sb.size <= BPB && Accounted(sb, row, lo, hi, logged0, logged) ==>
              Accounted(sb, Row(disk, inodes, i), lo, hi + 1, logged0, logged')
  {
    if sb.size <= BPB && Accounted(sb, row, lo, hi, logged0, logged) {
      SlotRange(sb, disk, inodes, {}, i, NDIRECT);
      SlotRange(sb, disk, inodes, {}, i, DataSlot(hi));
      AccountBlock(sb, row, Row(disk, inodes, i), lo, hi, logged0, logged, logged');
    }
  }

  /** A write of at most three blocks' worth of bytes, as filewrite issues, logs at most seven blocks. */
  lemma ChunkSize(sb: Super, row: seq<nat>, off: nat, n: nat, hi: nat, inum: nat, logged0: set<Logged>,
                  logged: set<Logged>)
    requires |row| == NSLOTS && n <= BlockStart(3) && off + n <= MAXBYTES
    requires BlockNo(off) <= hi <= EndBlock(off, n) && Accounted(sb, row, BlockNo(off), hi, logged0, logged)
    ensures |logged + {InodeBlock(inum / IPB)} - logged0| <= 7
  {
    var w := WriteSet(sb, row, BlockNo(off), hi);
    WriteSetSize(sb, row, BlockNo(off), hi);
    var all := w + {InodeBlock(inum / IPB)};
    assert |all| <= 7;
    assert logged + {InodeBlock(inum / IPB)} - logged0 <= all;
    Counting.SubsetSize(logged + {InodeBlock(inum / IPB)} - logged0, all);
  }

  lemma RoundArithmetic(off: nat, tot: nat, n: nat, m: nat)
    requires tot < n && m == Chunk(off + tot, n - tot)
    ensures 0 < m && tot + m <= n && BlockOff(off + tot) + m <= BSIZE
    ensures BlockNo(off) <= BlockNo(off + tot) && BlockNo(off + tot) + 1 <= EndBlock(off, n)
    ensures tot + m < n ==> BlockOff(off + tot + m) == 0 && BlockNo(off + tot + m) == BlockNo(off + tot) + 1
  {
  }

  /** Before the first round nothing is written and nothing is owed. */
  lemma RoundsStart(sb: Super, disk: seq<Block>, inodes: seq<Dinode>, i: nat, off: nat, src: seq<Byte>,
                    logged: set<Logged>)
    requires i < |inodes| && inodes[i].size <= MAXBYTES && off + |src| <= MAXBYTES
    ensures BlockNo(off) <= EndBlock(off, |src|) <= MAXFILE
    ensures Progress(disk, inodes, i, off, src, 0, disk, inodes)
    ensures Accounted(sb, Row(disk, inodes, i), BlockNo(off), BlockNo(off), logged, logged)
  {
    ProgressStart(disk, inodes, i, off, src);
  }

  lemma Slices<T>(s: seq<T>, a: nat, b: nat, c: nat)
    requires a <= b <= c <= |s|
    ensures s[a..b] + s[b..c] == s[a..c]
  {
  }

  /** install_trans: the logged blocks reach their homes. */
  ghost function InstallBlocks(logged: set<Logged>, home: seq<Block>, disk: seq<Block>): (r: seq<Block>)
    requires |home| == |disk|
    ensures (forall b :: 0 <= b < |disk| && DiskBlock(b) !in logged ==> disk[b] == home[b]) ==> r == disk
  {
    seq(|disk|, b requires 0 <= b < |disk| => if DiskBlock(b) in logged then disk[b] else home[b])
  }

  ghost function InstallNodes(logged: set<Logged>, home: seq<Dinode>, dinodes: seq<Dinode>): (r: seq<Dinode>)
    requires |home| == |dinodes|
    ensures (forall i :: 0 <= i < |dinodes| && InodeBlock(i / IPB) !in logged ==> dinodes[i] == home[i]) ==>
              r == dinodes
  {
    seq(|dinodes|, i requires 0 <= i < |dinodes| => if InodeBlock(i / IPB) in logged then dinodes[i] else home[i])
  }

  class FileSystem {
    const sb: Super
    var disk: seq<Block>
    var dinodes: seq<Dinode>
    var outstanding: nat            // log.outstanding: the operations between begin_op and end_op
    ghost var core: seq<Dinode>
    ghost var logged: set<Logged>   // every block log_write was called on since the last commit
    ghost var home: seq<Block>      // what the last commit installed: the blocks at home, the inodes at home
    ghost var homeNodes: seq<Dinode>

    /** A disk just mounted. */
    constructor (sb: Super, disk: seq<Block>, dinodes: seq<Dinode>)
      ensures this.sb == sb && this.disk == disk && this.dinodes == core == dinodes && outstanding == 0 && Noted()
    {
      this.sb, this.disk, this.dinodes, this.core, outstanding, logged := sb, disk, dinodes, dinodes, 0, {};
      home, homeNodes := disk, dinodes;
    }

    /**
     Whatever differs from its copy at home has been passed to log_write since the last commit; with no
     operation outstanding nothing does.
     */
    ghost predicate Noted()
      reads this`disk, this`dinodes, this`outstanding, this`logged, this`home, this`homeNodes
    {
      && |home| == |disk| && |homeNodes| == |dinodes|
      && (forall b :: 0 <= b < |disk| && DiskBlock(b) !in logged ==> disk[b] == home[b])
      && (forall i :: 0 <= i < |dinodes| && InodeBlock(i / IPB) !in logged ==> dinodes[i] == homeNodes[i])
      && (outstanding == 0 ==> disk == home && dinodes == homeNodes && logged == {})
    }

    /** Between operations a crash loses nothing. */
    lemma AtHome()
      requires Noted() && outstanding == 0
      ensures home == disk && homeNodes == dinodes
    {
    }

    /** begin_op, once the log has room. */
    method BeginOp()
      requires Noted()
      modifies this`outstanding
      ensures Noted() && outstanding == old(outstanding) + 1
    {
      outstanding := outstanding + 1;
    }

    /**
     end_op: the last operation commits, which installs the blocks that were logged, and only those.  They
     are all it takes for the disk at home to be what the operations made of it.
     */
    method EndOp()
      requires Noted() && outstanding > 0
      modifies this`outstanding, this`logged, this`home, this`homeNodes
      ensures Noted() && outstanding == old(outstanding) - 1
      ensures outstanding == 0 ==> home == disk && homeNodes == dinodes
      ensures outstanding > 0 ==> home == old(home) && homeNodes == old(homeNodes) && logged == old(logged)
    {
      outstanding := outstanding - 1;
      if outstanding == 0 {
        home, homeNodes := InstallBlocks(logged, home, disk), InstallNodes(logged, homeNodes, dinodes);
        logged := {};
      }
    }

    /**
     ip is in memory; whichever inodes are, and however far ahead of the disk, the free map fits them.  What
     is not at home yet is logged.
     */
    ghost predicate Good(ip: Inode)
      reads this, ip
    {
      && Noted() && ip.inum < |core| == |dinodes| && core[ip.inum] == ip.node && ip.node.size <= MAXBYTES
      && Consistent(sb, disk, core, {})
    }

    /** balloc's search: the lowest block whose bit is clear, or the size when there is none. */
    method FindFree() returns (r: nat)
      requires ValidSuper(sb) && |disk| == sb.size
      ensures r <= sb.size && (r < sb.size ==> !Bits(sb, disk)[r])
      ensures forall b :: 0 <= b < r ==> Bits(sb, disk)[b]
    {
      hide Bits;
      ghost var bits := Bits(sb, disk);
      var b := 0;
      while b < sb.size
        invariant MapOff(b) == 0
        invariant forall x :: 0 <= x < b && x < sb.size ==> bits[x]
      {
        var bp := disk[BBlock(sb, b)];
        var bi := 0;
        while bi < BPB && b + bi < sb.size
          invariant 0 <= bi <= BPB
          invariant forall x :: 0 <= x < b + bi && x < sb.size ==> bits[x]
        {
          BitsAt(sb, disk, b + bi);
          assert BBlock(sb, b + bi) == BBlock(sb, b) && MapOff(b + bi) == bi;
          if !MapBit(bp, bi) {
            return b + bi;
          }
          bi := bi + 1;
        }
        b := b + BPB;
      }
      r := sb.size;
    }

    /**
     balloc: the lowest free block, marked and zeroed; 0 when there is none. If there is one, log_write
     panics unless an operation is outstanding.
     */
    method Balloc() returns (r: nat, panicked: bool)
      requires ValidSuper(sb) && |disk| == sb.size && Bits(sb, disk)[0] && Noted()
      modifies this`disk, this`logged
      ensures Noted() && (panicked <==> outstanding == 0 && !Full(sb, old(disk)))
      ensures r == 0 <==> Full(sb, old(disk)) || panicked
      ensures r == 0 ==> disk == old(disk) && logged == old(logged)
      ensures r != 0 ==> r < sb.size && !Bits(sb, old(disk))[r] && disk == AllocDisk(sb, old(disk), r)
      ensures r != 0 ==> forall b :: 0 <= b < r ==> Bits(sb, old(disk))[b]
      ensures r != 0 ==> logged == old(logged) + {DiskBlock(BBlock(sb, r)), DiskBlock(r)}
    {
      r := FindFree();
      if r == sb.size {
        return 0, false;
      }
      if outstanding < 1 {
        return 0, true;
      }
      panicked := false;
      disk := disk[BBlock(sb, r) := MapSet(disk[BBlock(sb, r)], MapOff(r))];
      disk := disk[r := ZeroBlock()];
      logged := logged + {DiskBlock(BBlock(sb, r)), DiskBlock(r)};
    }

    /** bfree; false stands for the "freeing free block" panic. */
    method Bfree(b: nat) returns (ok: bool)
      requires ValidSuper(sb) && |disk| == sb.size && b < sb.size && outstanding > 0 && Noted()
      modifies this`disk, this`logged
      ensures Noted() && ok == Bits(sb, old(disk))[b]
      ensures ok ==> disk == old(disk)[BBlock(sb, b) := MapClear(old(disk)[BBlock(sb, b)], MapOff(b))]
      ensures !ok ==> disk == old(disk)
    {
      BitsAt(sb, disk, b);
      var bp := disk[BBlock(sb, b)];
      var bi := MapOff(b);
      if !MapBit(bp, bi) {
        return false;
      }
      disk := disk[BBlock(sb, b) := MapClear(bp, bi)];
      logged := logged + {DiskBlock(BBlock(sb, b))};
      ok := true;
    }

    /** iupdate. */
    method Iupdate(ip: Inode)
      requires ip.inum < |dinodes| && outstanding > 0 && Noted()
      modifies this`dinodes, this`logged
      ensures Noted() && dinodes == old(dinodes)[ip.inum := ip.node]
      ensures logged == old(logged) + {InodeBlock(ip.inum / IPB)}
    {
      dinodes := dinodes[ip.inum := ip.node];
      logged := logged + {InodeBlock(ip.inum / IPB)};
    }

    /**
     bmap: the block of file block bn, allocated if necessary; 0 when the disk is full. It panics exactly when
     it would have to allocate and no operation is outstanding.
     */
    method Bmap(ip: Inode, bn: nat) returns (addr: nat, panicked: bool)
      requires Good(ip) && bn < MAXFILE
      modifies this`disk, this`logged, this`core, ip`node
      ensures Good(ip) && Mapped(sb, old(disk), old(core), ip.inum, bn, disk, core, addr)
      ensures panicked <==> outstanding == 0 && old(Row(disk, core, ip.inum))[DataSlot(bn)] == 0 && !Full(sb, old(disk))
      ensures panicked ==> disk == old(disk) && core == old(core)
      ensures !panicked ==> (addr == 0 ==> Full(sb, disk)) && Fills(sb, old(disk), old(core), ip.inum, bn, disk, core)
      ensures !panicked ==> NodeFills(old(ip.node), bn, Full(sb, old(disk)), ip.node)
      ensures bn < NDIRECT ==> ip.node.addrs[NDIRECT] == old(ip.node.addrs[NDIRECT])
      ensures logged <= old(logged) + Touched(sb, addr) + Touched(sb, ip.node.addrs[NDIRECT])
    {
      hide Noted;
      if bn < NDIRECT {
        addr, panicked := BmapDirect(ip, bn);
      } else {
        addr, panicked := BmapIndirect(ip, bn - NDIRECT);
      }
    }

    method BmapDirect(ip: Inode, bn: nat) returns (addr: nat, panicked: bool)
      requires Good(ip) && bn < NDIRECT
      modifies this`disk, this`logged, this`core, ip`node
      ensures Good(ip) && Mapped(sb, old(disk), old(core), ip.inum, bn, disk, core, addr)
      ensures panicked <==> outstanding == 0 && old(Row(disk, core, ip.inum))[DataSlot(bn)] == 0 && !Full(sb, old(disk))
      ensures panicked ==> disk == old(disk) && core == old(core)
      ensures !panicked ==> (addr == 0 ==> Full(sb, disk)) && Fills(sb, old(disk), old(core), ip.inum, bn, disk, core)
      ensures !panicked ==> NodeFills(old(ip.node), bn, Full(sb, old(disk)), ip.node)
      ensures ip.node.addrs[NDIRECT] == old(ip.node.addrs[NDIRECT])
      ensures logged <= old(logged) + Touched(sb, addr)
    {
      hide Noted;
      addr, panicked := ip.node.addrs[bn], false;
      if addr == 0 {
        addr, panicked := FillDirect(ip, bn);
      } else {
        DirectSlot(disk, core, ip.inum, bn);
        MapNothing(sb, disk, core, ip.inum, bn);
        FillsOne(sb, disk, core, ip.inum, bn, disk, core, addr);
      }
    }

    /** Allocates a block for an empty direct slot. */
    method FillDirect(ip: Inode, bn: nat) returns (addr: nat, panicked: bool)
      requires Good(ip) && bn < NDIRECT && ip.node.addrs[bn] == 0
      modifies this`disk, this`logged, this`core, ip`node
      ensures Good(ip) && Mapped(sb, old(disk), old(core), ip.inum, bn, disk, core, addr)
      ensures old(Row(disk, core, ip.inum))[DataSlot(bn)] == 0
      ensures panicked <==> outstanding == 0 && !Full(sb, old(disk))
      ensures panicked ==> disk == old(disk) && core == old(core)
      ensures !panicked ==> (addr == 0 ==> Full(sb, disk)) && Fills(sb, old(disk), old(core), ip.inum, bn, disk, core)
      ensures !panicked ==> NodeFills(old(ip.node), bn, Full(sb, old(disk)), ip.node)
      ensures ip.node.addrs[NDIRECT] == old(ip.node.addrs[NDIRECT])
      ensures logged <= old(logged) + Touched(sb, addr)
    {
      hide Owns, Extends, Full, Noted;
      ghost var nodes := core;
      DirectSlot(disk, nodes, ip.inum, bn);
      FirstMarked(sb, disk, nodes);
      addr, panicked := Balloc();
      if addr == 0 {
        MapNothing(sb, disk, nodes, ip.inum, bn);
        if panicked {
          return;
        }
      } else {
        MapDirect(sb, old(disk), nodes, ip.inum, bn, addr);
        ip.node := SetAddr(ip.node, bn, addr);
        core := core[ip.inum := ip.node];
        assert core == nodes[ip.inum := SetAddr(nodes[ip.inum], bn, addr)];
      }
      FillsOne(sb, old(disk), nodes, ip.inum, bn, disk, core, addr);
    }

    /** Loads the indirect block, allocating it if necessary. */
    method IndirectBlock(ip: Inode, ghost bn: nat) returns (p: nat, panicked: bool)
      requires Good(ip) && NDIRECT <= bn < MAXFILE
      modifies this`disk, this`logged, this`core, ip`node
      ensures Good(ip) && Extends(sb, old(disk), old(core), ip.inum, bn, disk, core)
      ensures panicked <==> outstanding == 0 && old(ip.node.addrs[NDIRECT]) == 0 && !Full(sb, old(disk))
      ensures p == ip.node.addrs[NDIRECT] && (p == 0 && !panicked ==> Full(sb, disk)) && (panicked ==> p == 0)
      ensures old(ip.node.addrs[NDIRECT]) == 0 ==> (p == 0 <==> Full(sb, old(disk)) || panicked)
      ensures old(ip.node.addrs[NDIRECT]) != 0 ==> disk == old(disk) && core == old(core)
      ensures p == 0 ==> disk == old(disk) && core == old(core)
      ensures logged <= old(logged) + Touched(sb, p)
    {
      hide Owns, Extends, Full, Bits, ValidSuper, Noted;
      ghost var nodes := core;
      MapNothing(sb, disk, nodes, ip.inum, bn);
      p, panicked := ip.node.addrs[NDIRECT], false;
      if p == 0 {
        FirstMarked(sb, disk, nodes);
        p, panicked := Balloc();
        if p != 0 {
          MapPointer(sb, old(disk), nodes, ip.inum, bn, p);
          ip.node := SetAddr(ip.node, NDIRECT, p);
          core := core[ip.inum := ip.node];
          assert core == nodes[ip.inum := SetAddr(nodes[ip.inum], NDIRECT, p)];
        }
      }
    }

    method BmapIndirect(ip: Inode, e: nat) returns (addr: nat, panicked: bool)
      requires Good(ip) && e < NINDIRECT
      modifies this`disk, this`logged, this`core, ip`node
      ensures Good(ip) && Mapped(sb, old(disk), old(core), ip.inum, NDIRECT + e, disk, core, addr)
      ensures panicked <==>
                outstanding == 0 && old(Row(disk, core, ip.inum))[DataSlot(NDIRECT + e)] == 0 && !Full(sb, old(disk))
      ensures panicked ==> disk == old(disk) && core == old(core)
      ensures !panicked ==>
                (addr == 0 ==> Full(sb, disk)) && Fills(sb, old(disk), old(core), ip.inum, NDIRECT + e, disk, core)
      ensures !panicked ==> NodeFills(old(ip.node), NDIRECT + e, Full(sb, old(disk)), ip.node)
      ensures logged <= old(logged) + Touched(sb, addr) + Touched(sb, ip.node.addrs[NDIRECT])
    {
      hide Mapped, Extends, Fills, Consistent, Row, Full, Touched, Noted;
      ghost var nodes0 := core;
      Geometry(sb, disk, core);
      var p;
      p, panicked := IndirectBlock(ip, NDIRECT + e);
      if p == 0 {
        NoIndirect(sb, disk, nodes0, ip.inum, e);
        return 0, panicked;
      }
      ghost var disk1, nodes1, logged1 := disk, core, logged;
      Geometry(sb, disk, core);
      addr, panicked := Entry(ip, p, e);
      TouchedMore(sb, p, addr, old(logged), logged1, logged);
      if panicked {
        assert disk1 == old(disk) && nodes1 == nodes0;
        return;
      }
      FillsIndirect(sb, old(disk), nodes0, ip.inum, NDIRECT + e, disk1, nodes1, disk, core, addr);
    }

    /** Looks up entry e of the indirect block p, allocating a block for it if necessary. */
    method Entry(ip: Inode, p: nat, e: nat) returns (addr: nat, panicked: bool)
      requires Good(ip) && e < NINDIRECT && p == ip.node.addrs[NDIRECT] != 0
      modifies this`disk, this`logged
      ensures Good(ip) && Mapped(sb, old(disk), core, ip.inum, NDIRECT + e, disk, core, addr)
      ensures panicked <==>
                outstanding == 0 && old(Row(disk, core, ip.inum))[DataSlot(NDIRECT + e)] == 0 && !Full(sb, old(disk))
      ensures panicked ==> disk == old(disk)
      ensures !panicked ==>
                (addr == 0 ==> Full(sb, disk)) && Fills(sb, old(disk), core, ip.inum, NDIRECT + e, disk, core)
      ensures logged <= old(logged) + Touched(sb, addr) + {DiskBlock(p)}
    {
      hide Owns, Mapped, Fills, Full, Row, Bits, GetWord, PutWord, ValidSuper, Noted;
      ghost var nodes := core;
      EntrySlot(sb, disk, nodes, ip.inum, e);
      MapNothing(sb, disk, nodes, ip.inum, NDIRECT + e);
      addr, panicked := GetWord(disk[p], e), false;
      if addr == 0 {
        addr, panicked := FillEntry(ip, p, e);
      } else {
        FillsOne(sb, disk, nodes, ip.inum, NDIRECT + e, disk, core, addr);
      }
    }

    /** Allocates a block for an empty entry. */
    method FillEntry(ip: Inode, p: nat, e: nat) returns (addr: nat, panicked: bool)
      requires Good(ip) && e < NINDIRECT && 0 < p == ip.node.addrs[NDIRECT] < |disk| && GetWord(disk[p], e) == 0
      modifies this`disk, this`logged
      ensures Good(ip) && Mapped(sb, old(disk), core, ip.inum, NDIRECT + e, disk, core, addr)
      ensures panicked <==> outstanding == 0 && !Full(sb, old(disk))
      ensures panicked ==> disk == old(disk)
      ensures !panicked ==>
                (addr == 0 ==> Full(sb, disk)) && Fills(sb, old(disk), core, ip.inum, NDIRECT + e, disk, core)
      ensures logged <= old(logged) + Touched(sb, addr) + {DiskBlock(p)}
    {
      hide Owns, Mapped, Fills, Full, Row, Bits, GetWord, PutWord, ValidSuper;
      ghost var nodes := core;
      EntrySlot(sb, disk, nodes, ip.inum, e);
      MapNothing(sb, disk, nodes, ip.inum, NDIRECT + e);
      FirstMarked(sb, disk, nodes);
      addr, panicked := Balloc();
      if addr != 0 {
        MapEntry(sb, old(disk), nodes, ip.inum, e, addr);
        disk := disk[p := PutWord(disk[p], e, addr)];
        logged := logged + {DiskBlock(p)};
      }
      if !panicked {
        FillsOne(sb, old(disk), nodes, ip.inum, NDIRECT + e, disk, core, addr);
      }
    }

    /** One round of itrunc's first loop; bfree cannot panic. */
    method FreeDirect(ip: Inode, k: nat)
      requires Good(ip) && k < NDIRECT && outstanding > 0
      modifies this`disk, this`logged, this`core, ip`node
      ensures Good(ip) && ip.node == SetAddr(old(ip.node), k, 0) && |disk| == old(|disk|)
      ensures core == old(core)[ip.inum := ip.node]
      ensures forall b :: sb.nmeta <= b < |disk| ==> disk[b] == old(disk)[b]
    {
      hide Owns, Noted;
      ghost var nodes := core;
      var v := ip.node.addrs[k];
      if v != 0 {
        DropDirect(sb, disk, nodes, ip.inum, k);
        ghost var nodes' := nodes[ip.inum := SetAddr(nodes[ip.inum], k, 0)];
        FreeHeld(sb, disk, nodes', {v}, v);
        assert {v} - {v} == {};
        var ok := Bfree(v);
        assert ok;
        ip.node := SetAddr(ip.node, k, 0);
        core := core[ip.inum := ip.node];
        assert core == nodes';
      } else {
        assert SetAddr(ip.node, k, 0) == ip.node by {
          assert ip.node.addrs[k := 0] == ip.node.addrs;
        }
      }
    }

    /** The second part of itrunc: every entry of the indirect block, then the block itself. */
    method FreeIndirect(ip: Inode)
      requires Good(ip) && outstanding > 0
      modifies this`disk, this`logged, this`core, ip`node
      ensures Good(ip) && ip.node == SetAddr(old(ip.node), NDIRECT, 0) && |disk| == old(|disk|)
      ensures core == old(core)[ip.inum := ip.node]
      ensures forall b :: sb.nmeta <= b < |disk| ==> disk[b] == old(disk)[b]
    {
      hide Owns, Rest, DistinctWords, Bits, Table, MapClear, Words, Noted;
      ghost var nodes := core;
      var p := ip.node.addrs[NDIRECT];
      if p == 0 {
        assert SetAddr(ip.node, NDIRECT, 0) == ip.node by {
          assert ip.node.addrs[NDIRECT := 0] == ip.node.addrs;
        }
        return;
      }
      ghost var nodes' := nodes[ip.inum := SetAddr(nodes[ip.inum], NDIRECT, 0)];
      DropIndirect(sb, disk, nodes, ip.inum);
      WordsDistinct(sb, disk, nodes, ip.inum);
      var a := disk[p];
      FreeEntries(a, p, nodes');
      RestEnd(a, p);
      FreeHeld(sb, disk, nodes', {p}, p);
      assert {p} - {p} == {};
      var ok := Bfree(p);
      assert ok;
      ip.node := SetAddr(ip.node, NDIRECT, 0);
      core := core[ip.inum := ip.node];
      assert core == nodes';
    }

    /** itrunc's loop over the entries a of indirect block p; nodes no longer names any of them. */
    method FreeEntries(a: Block, p: nat, ghost nodes: seq<Dinode>)
      requires Consistent(sb, disk, nodes, Rest(a, p, 0)) && DistinctWords(a, p) && outstanding > 0 && Noted()
      modifies this`disk, this`logged
      ensures Consistent(sb, disk, nodes, Rest(a, p, NINDIRECT)) && |disk| == old(|disk|) && Noted()
      ensures forall b :: sb.nmeta <= b < |disk| ==> disk[b] == old(disk)[b]
    {
      hide Owns, Rest, DistinctWords, Noted;
      var j := 0;
      while j < NINDIRECT
        invariant 0 <= j <= NINDIRECT && |disk| == old(|disk|) && Noted()
        invariant Consistent(sb, disk, nodes, Rest(a, p, j))
        invariant forall b :: sb.nmeta <= b < |disk| ==> disk[b] == old(disk)[b]
      {
        RestStep(a, p, j);
        var w := GetWord(a, j);
        WordsAt(a, j);
        if w != 0 {
          FreeHeld(sb, disk, nodes, Rest(a, p, j), w);
          var ok := Bfree(w);
          assert ok;
        }
        j := j + 1;
      }
    }

    /** itrunc's first loop. */
    method FreeAllDirect(ip: Inode)
      requires Good(ip) && outstanding > 0
      modifies this`disk, this`logged, this`core, ip`node
      ensures Good(ip) && ip.node == old(ip.node).(addrs := ip.node.addrs) && |disk| == old(|disk|)
      ensures core == old(core)[ip.inum := ip.node]
      ensures forall k :: 0 <= k < NDIRECT ==> ip.node.addrs[k] == 0
      ensures forall b :: sb.nmeta <= b < |disk| ==> disk[b] == old(disk)[b]
    {
      hide Noted;
      var i := 0;
      while i < NDIRECT
        invariant 0 <= i <= NDIRECT && Good(ip) && |disk| == old(|disk|) && core == old(core)[ip.inum := ip.node]
        invariant ip.node == old(ip.node).(addrs := ip.node.addrs)
        invariant forall k :: 0 <= k < i ==> ip.node.addrs[k] == 0
        invariant forall b :: sb.nmeta <= b < |disk| ==> disk[b] == old(disk)[b]
      {
        FreeDirect(ip, i);
        i := i + 1;
      }
    }

    /**
     itrunc: frees exactly the blocks that ip owned, leaves every other inode and its blocks alone, and
     writes the empty inode back.
     */
    method Itrunc(ip: Inode)
      requires Good(ip) && outstanding > 0
      modifies this`disk, this`dinodes, this`logged, this`core, ip`node
      ensures Good(ip) && dinodes == old(dinodes)[ip.inum := ip.node] && core == old(core)[ip.inum := ip.node]
      ensures ip.node == old(ip.node).(size := 0, addrs := ip.node.addrs) && EmptyRow(Row(disk, core, ip.inum))
      ensures OthersSame(old(disk), old(core), ip.inum, disk, core)
      ensures Released(sb, old(disk), old(Row(disk, core, ip.inum)), disk)
    {
      hide Owns, OthersSame, Released, EmptyRow, Noted;
      ghost var disk0, nodes0 := disk, core;
      FreeAllDirect(ip);
      FreeIndirect(ip);
      ResizeKeeps(sb, disk, core, ip.inum, 0);
      ghost var nodes1 := core[ip.inum := ip.node.(size := 0)];
      ip.node := ip.node.(size := 0);
      core := core[ip.inum := ip.node];
      assert core == nodes1;
      Iupdate(ip);
      NoAddrsEmptyRow(disk, nodes1, ip.inum);
      TruncReleases(sb, disk0, nodes0, ip.inum, disk, nodes1);
    }

    /**
     readi: the bytes from off on, cut at the end of the file, and short only if a block is missing and the
     disk is full.  It keeps all contents, but not the disk: it allocates blocks, without iupdate, exactly
     when one is missing in the range and the disk is not full.  Outside an operation it panics then; inside
     one, the copy of the inode on disk is left behind exactly when an address of its own was lacking.
     */
    method Readi(ip: Inode, off0: nat, n0: nat) returns (dst: seq<Byte>, panicked: bool)
      requires Good(ip) && off0 < WORD && n0 < WORD
      modifies this`disk, this`logged, this`core, ip`node
      ensures Good(ip) && Filled(old(disk), old(core), ip.inum, disk, core)
      ensures Content(disk, ip.node) == old(Content(disk, ip.node))
      ensures off0 > ip.node.size || off0 + n0 >= WORD ==>
                dst == [] && disk == old(disk) && core == old(core) && !panicked
      ensures panicked ==> disk == old(disk) && core == old(core)
      ensures off0 <= ip.node.size && off0 + n0 < WORD ==>
                var n := if off0 + n0 > ip.node.size then ip.node.size - off0 else n0;
                var whole := NoHole(old(Row(disk, core, ip.inum)), off0, n);
                && (panicked <==> outstanding == 0 && !whole && !Full(sb, old(disk)))
                && |dst| <= n && dst == Content(disk, ip.node)[off0..off0 + |dst|]
                && (|dst| < n && !panicked ==> Stuck(sb, disk, Row(disk, core, ip.inum), off0 + |dst|))
                && (whole ==> |dst| == n)
                && (disk == old(disk) && core == old(core) <==> panicked || whole || Full(sb, old(disk)))
                && (old(core) == dinodes ==>
                      (Consistent(sb, disk, dinodes, {}) <==>
                         panicked || NoGap(old(ip.node), off0, n) || Full(sb, old(disk))))
    {
      hide Owns, Filled, Content, NoHole, NoGap, Full, Row, Visited, Behind, Table, Bits, Slots, Stuck, Noted;
      var n := n0;
      panicked := false;
      FilledNothing(disk, core, ip.inum);
      if off0 > ip.node.size || (off0 + n) % WORD < off0 {
        return [], false;
      }
      if off0 + n > ip.node.size {
        n := ip.node.size - off0;
      }
      dst, panicked := ReadLoop(ip, off0, n);
      if !panicked {
        VisitedExact(sb, old(disk), old(core), ip.inum, off0, n, disk, core);
      }
      FilledBehind(old(disk), old(core), ip.inum, disk, core);
      BehindExact(sb, disk, core, ip.inum, old(core));
    }

    /** readi has come tot bytes from off0 on; outside an operation that was possible only without allocating. */
    ghost predicate Reading(ip: Inode, off0: nat, tot: nat, disk0: seq<Block>, core0: seq<Dinode>)
      reads this, ip
    {
      && Good(ip) && |disk0| == sb.size && |core0| == |core| && off0 + tot <= MAXBYTES
      && Visited(sb, disk0, core0, ip.inum, off0, tot, disk, core)
      && (outstanding == 0 ==> NoHole(Row(disk0, core0, ip.inum), off0, tot) || Full(sb, disk0))
    }

    lemma ReadingStart(ip: Inode, off0: nat)
      requires Good(ip) && off0 <= ip.node.size
      ensures Reading(ip, off0, 0, disk, core) && ip.node.size <= MAXBYTES
    {
      VisitedNothing(sb, disk, core, ip.inum, off0);
    }

    lemma ReadingEnd(ip: Inode, off0: nat, n: nat, disk0: seq<Block>, core0: seq<Dinode>)
      requires Reading(ip, off0, n, disk0, core0)
      ensures Good(ip) && |disk0| == sb.size && ip.inum < |core0| == |core|
      ensures Visited(sb, disk0, core0, ip.inum, off0, n, disk, core)
      ensures outstanding == 0 ==> NoHole(Row(disk0, core0, ip.inum), off0, n) || Full(sb, disk0)
    {
    }

    /** readi's loop, once n is cut at the end of the file. */
    method ReadLoop(ip: Inode, off0: nat, n: nat) returns (dst: seq<Byte>, panicked: bool)
      requires Good(ip) && off0 + n <= ip.node.size
      modifies this`disk, this`logged, this`core, ip`node
      ensures Good(ip) && |core| == |old(core)| && off0 + n <= ip.node.size
      ensures Content(disk, ip.node) == old(Content(disk, ip.node))
      ensures |dst| <= n && dst == Content(disk, ip.node)[off0..off0 + |dst|]
      ensures |dst| < n && !panicked ==> Stuck(sb, disk, Row(disk, core, ip.inum), off0 + |dst|)
      ensures NoHole(old(Row(disk, core, ip.inum)), off0, n) ==> |dst| == n
      ensures panicked <==>
                outstanding == 0 && !NoHole(old(Row(disk, core, ip.inum)), off0, n) && !Full(sb, old(disk))
      ensures panicked ==> disk == old(disk) && core == old(core)
      ensures !panicked ==> Visited(sb, old(disk), old(core), ip.inum, off0, n, disk, core)
    {
      hide Reading, Good, Full, NoHole, Chunk, BlockOff, Row, Visited, Stuck, Noted, Content, ByteAt, Slots;
      ReadingStart(ip, off0);
      ghost var c, disk0, core0 := Content(disk, ip.node), disk, core;
      var tot, off := 0, off0;
      dst, panicked := [], false;
      while tot < n
        invariant 0 <= tot <= n && off == off0 + tot && Reading(ip, off0, tot, disk0, core0) && !panicked
        invariant off0 + n <= ip.node.size <= MAXBYTES && Content(disk, ip.node) == c
        invariant dst == c[off0..off]
      {
        var m := Chunk(off, n - tot);
        ChunkFits(off, n - tot);
        var ok, part;
        ok, part, panicked := ReadRound(ip, off0, tot, m, n, disk0, core0);
        if !ok {
          break;
        }
        Slices(c, off0, off, off + m);
        dst := dst + part;
        tot, off := tot + m, off + m;
      }
      if !panicked {
        ReadingEnd(ip, off0, n, disk0, core0);
      }
    }

    /** One round of readi's loop, which ends it if the block is missing and cannot be had. */
    method ReadRound(ip: Inode, off0: nat, tot: nat, m: nat, n: nat, ghost disk0: seq<Block>, ghost core0: seq<Dinode>)
      returns (ok: bool, part: seq<Byte>, panicked: bool)
      requires Reading(ip, off0, tot, disk0, core0) && 0 < m && tot + m <= n && off0 + n <= ip.node.size
      requires BlockOff(off0 + tot) + m <= BSIZE
      modifies this`disk, this`logged, this`core, ip`node
      ensures Good(ip) && ip.inum < |core0| == |core| && off0 + n <= ip.node.size <= MAXBYTES
      ensures Content(disk, ip.node) == old(Content(disk, ip.node))
      ensures ok ==> Reading(ip, off0, tot + m, disk0, core0) && !panicked
      ensures ok ==> part == Content(disk, ip.node)[off0 + tot..off0 + tot + m]
      ensures !ok ==> !NoHole(Row(disk0, core0, ip.inum), off0, n)
      ensures panicked ==> outstanding == 0 && disk == disk0 && core == core0 && !Full(sb, disk0)
      ensures !ok && !panicked ==> Reading(ip, off0, n, disk0, core0)
      ensures !ok && !panicked ==> Stuck(sb, disk, Row(disk, core, ip.inum), off0 + tot)
    {
      hide Filled, Owns, Full, NoHole, BlockNo, BlockOff, Row, Visited, Fills, NodeFills, Noted;
      ghost var disk1, core1, row0 := disk, core, Row(disk0, core0, ip.inum);
      VisitedExact(sb, disk0, core0, ip.inum, off0, tot, disk1, core1);
      ok, part, panicked := ReadBlock(ip, off0 + tot, m);
      NoHoleStep(row0, off0, tot, m);
      NoHoleLess(row0, off0, tot + m, n);
      if !ok {
        SlotEmpty(disk0, core0, ip.inum, disk1, core1, DataSlot(BlockNo(off0 + tot)));
      }
      if !panicked {
        VisitedStep(sb, disk0, core0, ip.inum, off0, tot, m, disk1, core1, disk, core);
        if !ok {
          VisitedBreak(sb, disk0, core0, ip.inum, off0, tot, m, n, disk, core);
        }
      }
    }

    /** One round of readi: m bytes within one block; false when it is missing and cannot be had. */
    method ReadBlock(ip: Inode, off: nat, m: nat) returns (ok: bool, part: seq<Byte>, panicked: bool)
      requires Good(ip) && m > 0
      requires off < ip.node.size && off + m <= ip.node.size && BlockOff(off) + m <= BSIZE
      modifies this`disk, this`logged, this`core, ip`node
      ensures Good(ip) && Filled(old(disk), old(core), ip.inum, disk, core)
      ensures Content(disk, ip.node) == old(Content(disk, ip.node))
      ensures BlockNo(off) < MAXFILE
      ensures panicked <==> outstanding == 0 && !Full(sb, old(disk))
                            && old(Row(disk, core, ip.inum))[DataSlot(BlockNo(off))] == 0
      ensures panicked ==> disk == old(disk) && core == old(core) && !ok
      ensures ok ==> part == Content(disk, ip.node)[off..off + m]
      ensures !ok ==> old(Row(disk, core, ip.inum))[DataSlot(BlockNo(off))] == 0
      ensures !ok && !panicked ==> Stuck(sb, disk, Row(disk, core, ip.inum), off)
      ensures !panicked ==>
                && Fills(sb, old(disk), old(core), ip.inum, BlockNo(off), disk, core)
                && NodeFills(old(ip.node), BlockNo(off), Full(sb, old(disk)), ip.node)
    {
      hide Fills, NodeFills, Full, Noted;
      ghost var bn := BlockNo(off);
      var addr;
      addr, panicked := Bmap(ip, BlockNo(off));
      MappedContent(sb, old(disk), old(core), ip.inum, bn, disk, core);
      ExtendsOthers(sb, old(disk), old(core), ip.inum, bn, disk, core);
      ExtendsKeeps(sb, old(disk), old(core), ip.inum, bn, disk, core);
      ok, part := addr != 0, [];
      if ok {
        ReadChunk(sb, disk, core, ip.inum, off, m);
        part := disk[addr][BlockOff(off)..BlockOff(off) + m];
      }
    }

    /**
     One round of writei: m bytes of src go into the block that holds offset off + tot; false when the
     disk is full.
     */
    method WriteBlock(ip: Inode, off: nat, src: seq<Byte>, tot: nat, m: nat, ghost disk0: seq<Block>,
                      ghost nodes0: seq<Dinode>)
      returns (ok: bool)
      requires Good(ip) && outstanding > 0 && |nodes0| == |core| && nodes0[ip.inum].size <= MAXBYTES
      requires tot + m <= |src| && off + |src| <= MAXBYTES && off + tot < MAXBYTES
      requires BlockOff(off + tot) + m <= BSIZE
      requires Written(disk0, nodes0, ip.inum, off, src, tot, disk, core)
      modifies this`disk, this`logged, this`core, ip`node
      ensures Good(ip) && Written(disk0, nodes0, ip.inum, off, src, if ok then tot + m else tot, disk, core)
      ensures OthersSame(old(disk), old(core), ip.inum, disk, core) && core == old(core)[ip.inum := ip.node]
      ensures !ok ==> Stuck(sb, disk, Row(disk, core, ip.inum), off + tot)
      ensures Full(sb, old(disk)) ==> Full(sb, disk)
      ensures SlotsKept(old(Row(disk, core, ip.inum)), Row(disk, core, ip.inum))
      ensures logged <= old(logged) + RowTouched(sb, Row(disk, core, ip.inum), BlockNo(off + tot))
    {
      hide Noted;
      var addr := MapForWrite(ip, off, src, tot, disk0, nodes0);
      ok := addr != 0;
      if ok {
        ghost var disk1 := disk;
        CopyIn(ip, off, src, tot, m, addr, disk0, nodes0);
        OthersTrans(old(disk), old(core), ip.inum, disk1, core, disk, core);
      }
    }

    /** Copies m bytes of src into block addr and logs it. */
    method CopyIn(ip: Inode, off: nat, src: seq<Byte>, tot: nat, m: nat, addr: nat, ghost disk0: seq<Block>,
                  ghost nodes0: seq<Dinode>)
      requires Good(ip) && outstanding > 0 && |nodes0| == |core| && nodes0[ip.inum].size <= MAXBYTES
      requires tot + m <= |src| && off + |src| <= MAXBYTES && off + tot < MAXBYTES
      requires BlockOff(off + tot) + m <= BSIZE
      requires Written(disk0, nodes0, ip.inum, off, src, tot, disk, core)
      requires addr == Row(disk, core, ip.inum)[DataSlot(BlockNo(off + tot))] != 0
      modifies this`disk, this`logged
      ensures Good(ip) && Written(disk0, nodes0, ip.inum, off, src, tot + m, disk, core)
      ensures OthersSame(old(disk), core, ip.inum, disk, core)
      ensures Row(disk, core, ip.inum) == old(Row(disk, core, ip.inum)) && (Full(sb, old(disk)) ==> Full(sb, disk))
      ensures logged == old(logged) + {DiskBlock(addr)}
    {
      SlotRange(sb, disk, core, {}, ip.inum, DataSlot(BlockNo(off + tot)));
      disk := disk[addr := Patch(disk[addr], BlockOff(off + tot), src[tot..tot + m])];
      WrittenPatch(sb, disk0, nodes0, ip.inum, off, src, tot, old(disk), core, m, addr, disk);
      DataKeepsBits(sb, old(disk), addr, disk[addr]);
      logged := logged + {DiskBlock(addr)};
    }

    /** bmap on behalf of writei. */
    method MapForWrite(ip: Inode, off: nat, ghost src: seq<Byte>, tot: nat, ghost disk0: seq<Block>,
                       ghost nodes0: seq<Dinode>)
      returns (addr: nat)
      requires Good(ip) && outstanding > 0 && |nodes0| == |core| && nodes0[ip.inum].size <= MAXBYTES
      requires tot <= |src| && off + |src| <= MAXBYTES && off + tot < MAXBYTES
      requires Written(disk0, nodes0, ip.inum, off, src, tot, disk, core)
      modifies this`disk, this`logged, this`core, ip`node
      ensures Good(ip) && Written(disk0, nodes0, ip.inum, off, src, tot, disk, core)
      ensures OthersSame(old(disk), old(core), ip.inum, disk, core) && core == old(core)[ip.inum := ip.node]
      ensures addr == Row(disk, core, ip.inum)[DataSlot(BlockNo(off + tot))] && (addr == 0 ==> Full(sb, disk))
      ensures Full(sb, old(disk)) ==> Full(sb, disk)
      ensures SlotsKept(old(Row(disk, core, ip.inum)), Row(disk, core, ip.inum))
      ensures logged <= old(logged) + RowTouched(sb, Row(disk, core, ip.inum), BlockNo(off + tot))
    {
      hide Noted;
      var bn := BlockNo(off + tot);
      var panicked;
      addr, panicked := Bmap(ip, bn);
      WrittenMap(sb, disk0, nodes0, ip.inum, off, src, tot, old(disk), old(core), bn, disk, core);
      ExtendsKeeps(sb, old(disk), old(core), ip.inum, bn, disk, core);
      ExtendsOthers(sb, old(disk), old(core), ip.inum, bn, disk, core);
      assert Row(disk, core, ip.inum)[NDIRECT] == ip.node.addrs[NDIRECT];
    }

    /** WriteBlock, with the account of what it logs. */
    method WriteRound(ip: Inode, off: nat, src: seq<Byte>, tot: nat, m: nat, ghost disk0: seq<Block>,
                      ghost nodes0: seq<Dinode>, ghost row0: seq<nat>, ghost hi: nat, ghost logged0: set<Logged>)
      returns (ok: bool, ghost row: seq<nat>)
      requires ip.inum < |core| && row0 == Row(disk, core, ip.inum) && BlockNo(off) <= hi == BlockNo(off + tot)
      requires Good(ip) && outstanding > 0 && |nodes0| == |core| && nodes0[ip.inum].size <= MAXBYTES
      requires tot + m <= |src| && off + |src| <= MAXBYTES && off + tot < MAXBYTES
      requires BlockOff(off + tot) + m <= BSIZE
      requires Written(disk0, nodes0, ip.inum, off, src, tot, disk, core)
      modifies this`disk, this`logged, this`core, ip`node
      ensures Good(ip) && Written(disk0, nodes0, ip.inum, off, src, if ok then tot + m else tot, disk, core)
      ensures OthersSame(old(disk), old(core), ip.inum, disk, core) && core == old(core)[ip.inum := ip.node]
      ensures !ok ==> Stuck(sb, disk, Row(disk, core, ip.inum), off + tot)
      ensures row == Row(disk, core, ip.inum)
      ensures hi < MAXFILE
      ensures sb.size <= BPB && Accounted(sb, row0, BlockNo(off), hi, logged0, old(logged)) ==>
                Accounted(sb, row, BlockNo(off), hi + 1, logged0, logged)
    {
      hide Noted;
      ghost var log := logged;
      ok := WriteBlock(ip, off, src, tot, m, disk0, nodes0);
      row := Row(disk, core, ip.inum);
      AccountRound(sb, disk, core, ip.inum, row0, BlockNo(off), hi, logged0, log, logged);
    }

    /** writei's loop: as many bytes of src as fit go into the file from off on. */
    method WriteLoop(ip: Inode, off: nat, src: seq<Byte>) returns (tot: nat, ghost row: seq<nat>, ghost hi: nat)
      requires Good(ip) && outstanding > 0 && off + |src| <= MAXBYTES
      modifies this`disk, this`logged, this`core, ip`node
      ensures Good(ip) && tot <= |src| && (tot < |src| ==> Stuck(sb, disk, Row(disk, core, ip.inum), off + tot))
      ensures Progress(old(disk), old(core), ip.inum, off, src, tot, disk, core)
      ensures |row| == NSLOTS && BlockNo(off) <= hi <= EndBlock(off, |src|)
      ensures sb.size <= BPB ==> Accounted(sb, row, BlockNo(off), hi, old(logged), logged)
    {
      hide OthersSame, Written, Accounted, Row, Full, Stuck, BlockNo, EndBlock, Chunk, BlockOff, Consistent, Noted;
      tot, row, hi := 0, Row(disk, core, ip.inum), BlockNo(off);
      ghost var disk0, nodes0, logged0 := disk, core, logged;
      RoundsStart(sb, disk, nodes0, ip.inum, off, src, logged);
      while tot < |src|
        invariant 0 <= tot <= |src| && Good(ip) && row == Row(disk, core, ip.inum)
        invariant tot < |src| ==> hi == BlockNo(off + tot)
        invariant BlockNo(off) <= hi <= EndBlock(off, |src|)
        invariant Progress(disk0, nodes0, ip.inum, off, src, tot, disk, core)
        invariant sb.size <= BPB ==> Accounted(sb, row, BlockNo(off), hi, logged0, logged)
      {
        var m := Chunk(off + tot, |src| - tot);
        RoundArithmetic(off, tot, |src|, m);
        var ok;
        ghost var disk1, core1 := disk, core;
        ok, row := WriteRound(ip, off, src, tot, m, disk0, nodes0, row, hi, logged0);
        OthersTrans(disk0, nodes0, ip.inum, disk1, core1, disk, core);
        hi := hi + 1;
        if !ok {
          break;
        }
        tot := tot + m;
      }
    }

    /**
     writei: a result t >= 0 means that exactly bytes [off, off + t) of the file were replaced, the size
     grew to cover them, and no other file changed; t < n only when the disk is full.
     */
    method Writei(ip: Inode, src: seq<Byte>, off: nat) returns (r: int)
      requires Good(ip) && outstanding > 0 && off < WORD && |src| < WORD
      modifies this`disk, this`dinodes, this`logged, this`core, ip`node
      ensures Good(ip) && core == old(core)[ip.inum := ip.node] && (r == -1 || 0 <= r <= |src|)
      ensures r == -1 <==> off > old(ip.node.size) || off + |src| >= WORD || off + |src| > MAXBYTES
      ensures r == -1 ==> disk == old(disk) && dinodes == old(dinodes) && ip.node == old(ip.node)
      ensures r != -1 ==> dinodes == old(dinodes)[ip.inum := ip.node]
      ensures r != -1 ==> Content(disk, ip.node) == Overwrite(old(Content(disk, ip.node)), off, src[..r])
      ensures OthersSame(old(disk), old(core), ip.inum, disk, core)
      ensures old(Present(Row(disk, core, ip.inum), ip.node.size)) ==> Present(Row(disk, core, ip.inum), ip.node.size)
      ensures r != -1 && r < |src| ==> Stuck(sb, disk, Row(disk, core, ip.inum), off + r)
      ensures sb.size <= BPB && |src| <= BlockStart(3) ==> |logged - old(logged)| <= 7
    {
      hide Consistent, OthersSame, Overwrite, Present, Full, Stuck, Accounted, Written, Row, Content, Table, Slots;
      hide Noted;
      var n := |src|;
      assert logged - logged == {};
      assert core == core[ip.inum := ip.node];
      OthersRefl(disk, core, ip.inum);
      if off > ip.node.size || (off + n) % WORD < off {
        return -1;
      }
      if off + n > MAXBYTES {
        return -1;
      }
      ghost var disk0, nodes0 := disk, core;
      var tot;
      ghost var row, hi;
      tot, row, hi := WriteLoop(ip, off, src);
      if sb.size <= BPB && n <= BlockStart(3) {
        ChunkSize(sb, row, off, n, hi, ip.inum, old(logged), logged);
      }
      ghost var core1 := core;
      FinishWrite(ip, off, src, tot, disk0, nodes0);
      OthersTrans(disk0, nodes0, ip.inum, disk, core1, disk, core);
      r := tot;
    }

    /** The end of writei: the size grows to cover what was written, and the inode goes to disk. */
    method FinishWrite(ip: Inode, off: nat, ghost src: seq<Byte>, tot: nat, ghost disk0: seq<Block>,
                       ghost nodes0: seq<Dinode>)
      requires Good(ip) && outstanding > 0 && |nodes0| == |core| && tot <= |src| && off + |src| <= MAXBYTES
      requires off <= nodes0[ip.inum].size <= MAXBYTES && Written(disk0, nodes0, ip.inum, off, src, tot, disk, core)
      modifies this`dinodes, this`logged, this`core, ip`node
      ensures Good(ip) && core == old(core)[ip.inum := ip.node] && OthersSame(disk, old(core), ip.inum, disk, core)
      ensures dinodes == old(dinodes)[ip.inum := ip.node] && logged == old(logged) + {InodeBlock(ip.inum / IPB)}
      ensures Row(disk, core, ip.inum) == old(Row(disk, core, ip.inum))
      ensures Content(disk, ip.node) == Overwrite(Content(disk0, nodes0[ip.inum]), off, src[..tot])
      ensures Present(Row(disk0, nodes0, ip.inum), nodes0[ip.inum].size) ==>
                Present(Row(disk, core, ip.inum), ip.node.size)
    {
      hide Noted;
      ghost var nodes1 := core;
      WrittenDone(disk0, nodes0, ip.inum, off, src, tot, disk, nodes1);
      ghost var size := if off + tot > ip.node.size then off + tot else ip.node.size;
      ResizeKeeps(sb, disk, nodes1, ip.inum, size);
      OthersRefl(disk, nodes1, ip.inum);
      OthersResize(disk, nodes1, ip.inum, disk, nodes1, size);
      if off + tot > ip.node.size {
        ip.node := ip.node.(size := off + tot);
        core := core[ip.inum := ip.node];
      }
      assert core == nodes1[ip.inum := nodes1[ip.inum].(size := size)];
      Iupdate(ip);
    }

    /** The chunk after the first t bytes would make the file too large. */
    static predicate LastChunk(off: nat, t: nat, n: nat) {
      t % 3072 == 0 && off + t <= MAXBYTES < off + (if n - t > 3072 then t + 3072 else n)
    }

    /** One transaction of filewrite, at offset off = off0 + i of the whole write. */
    method WriteChunk(ip: Inode, src: seq<Byte>, i: nat, n1: nat, off: nat, ghost off0: nat, ghost c: seq<Byte>)
      returns (r: int, ghost t: nat)
      requires Good(ip) && i + n1 <= |src| < WORD && off == off0 + i < WORD
      requires if off0 <= |c| then Content(disk, ip.node) == Overwrite(c, off0, src[..i])
               else i == 0 && ip.node.size == |c|
      modifies this`disk, this`dinodes, this`logged, this`core, this`outstanding, this`home, this`homeNodes, ip`node
      ensures Good(ip) && core == old(core)[ip.inum := ip.node] && OthersSame(old(disk), old(core), ip.inum, disk, core)
      ensures outstanding == old(outstanding) && (outstanding == 0 ==> home == disk && homeNodes == dinodes)
      ensures dinodes == if r == -1 then old(dinodes) else old(dinodes)[ip.inum := ip.node]
      ensures r == -1 ==> ip.node == old(ip.node) && disk == old(disk)
      ensures -1 <= r <= n1 && t == (if r == -1 then i else i + r)
      ensures r == -1 <==> off > old(ip.node.size) || off + n1 > MAXBYTES
      ensures 0 <= r < n1 ==> Stuck(sb, disk, Row(disk, core, ip.inum), off + r)
      ensures if off0 <= |c| then Content(disk, ip.node) == Overwrite(c, off0, src[..t]) else r == -1
    {
      hide Consistent, OthersSame, Overwrite, Present, Row, Full, Stuck, Noted;
      BeginOp();
      r := Writei(ip, src[i..i + n1], off);
      EndOp();
      t := i;
      if r != -1 {
        t := i + r;
        OverwriteTwice(c, off0, src[..i], src[i..i + n1][..r]);
        assert src[..i] + src[i..i + n1][..r] == src[..t];
      }
    }

    /**
     filewrite on an inode: chunks of at most three blocks, each its own transaction.  However many
     chunks succeed, the file is the old contents with one prefix src[..t] written at the old offset, no
     other file has changed, and an inode that was up to date on disk still is.  It falls short only if the offset is
     beyond the end, at the last whole chunk before the largest file, or at a missing block on a full disk.
     */
    method Filewrite(ip: Inode, src: seq<Byte>, off0: nat) returns (ret: int, off: nat, ghost t: nat)
      requires Good(ip) && off0 < WORD && |src| < WORD
      modifies this`disk, this`dinodes, this`logged, this`core, this`outstanding, this`home, this`homeNodes, ip`node
      ensures Good(ip) && core == old(core)[ip.inum := ip.node] && OthersSame(old(disk), old(core), ip.inum, disk, core)
      ensures outstanding == old(outstanding) && (outstanding == 0 ==> home == disk && homeNodes == dinodes)
      ensures (dinodes == old(dinodes) && ip.node == old(ip.node)) || dinodes == old(dinodes)[ip.inum := ip.node]
      ensures t <= |src| && off == off0 + t && ret == if t == |src| then |src| else -1
      ensures off0 > old(ip.node.size) ==> t == 0 && ip.node == old(ip.node) && disk == old(disk)
      ensures off0 <= old(ip.node.size) ==>
                Content(disk, ip.node) == Overwrite(old(Content(disk, ip.node)), off0, src[..t])
      ensures off0 + |src| > MAXBYTES ==> t < |src| || src == []
      ensures t < |src| ==> off0 > old(ip.node.size) || LastChunk(off0, t, |src|)
                            || Stuck(sb, disk, Row(disk, core, ip.inum), off0 + t)
    {
      hide Consistent, OthersSame, Overwrite, Full, Stuck, Row, Noted;
      var max := BlockStart((10 - 1 - 1 - 2) / 2);   // MAXOPBLOCKS == 10
      var i := 0;
      off, t := off0, 0;
      ghost var c := Content(disk, ip.node);
      WriteNothing(c, off0, src);
      OthersRefl(disk, core, ip.inum);
      assert core == core[ip.inum := ip.node];
      while i < |src|
        invariant 0 <= i <= |src| && t == i && off == off0 + t && (i == 0 || off <= MAXBYTES)
        invariant i < |src| ==> i % 3072 == 0
        invariant 0 < i ==> off <= ip.node.size
        invariant Good(ip) && core == old(core)[ip.inum := ip.node] && outstanding == old(outstanding)
        invariant OthersSame(old(disk), old(core), ip.inum, disk, core)
        invariant (dinodes == old(dinodes) && ip.node == old(ip.node)) || dinodes == old(dinodes)[ip.inum := ip.node]
        invariant if off0 <= |c| then Content(disk, ip.node) == Overwrite(c, off0, src[..t])
                  else t == 0 && disk == old(disk) && ip.node == old(ip.node)
      {
        var n1 := if |src| - i > max then max else |src| - i;
        var r;
        ghost var disk1, core1 := disk, core;
        r, t := WriteChunk(ip, src, i, n1, off, off0, c);
        OthersTrans(old(disk), old(core), ip.inum, disk1, core1, disk, core);
        if r > 0 {
          off := off + r;
        }
        if r != n1 {
          break;
        }
        i := i + r;
      }
      if outstanding == 0 {
        AtHome();
      }
      ret := if i == |src| then |src| else -1;
    }
  }
}
