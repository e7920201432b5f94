/** Two writers at work on one disk: each holds the lock of its own inode only, and they take turns block by block. */
module FsShared {
  import opened FsLayout
  import opened FsState
  import opened FsWrite
  import opened FsFill
  import opened Fs

  /** Every inode but i and j has the same slots and the same blocks. */
  ghost predicate RestSame(disk: seq<Block>, inodes: seq<Dinode>, i: nat, j: nat, disk': seq<Block>,
                           inodes': seq<Dinode>) {
    && |disk'| == |disk| && |inodes'| == |inodes|
    && (forall k :: 0 <= k < |inodes| && k != i && k != j ==> inodes'[k] == inodes[k])
    && (forall k :: 0 <= k < |inodes| && k != i && k != j ==> Row(disk', inodes', k) == Row(disk, inodes, k))
    && (forall k, x :: 0 <= k < |inodes| && k != i && k != j && 0 <= x < NSLOTS
                       && 0 < Row(disk, inodes, k)[x] < |disk| ==>
          disk'[Row(disk, inodes, k)[x]] == disk[Row(disk, inodes, k)[x]])
  }

  lemma RestStart(disk: seq<Block>, inodes: seq<Dinode>, i: nat, j: nat)
    ensures RestSame(disk, inodes, i, j, disk, inodes)
  {
  }

  lemma RestStep(d0: seq<Block>, n0: seq<Dinode>, i: nat, j: nat, d1: seq<Block>, n1: seq<Dinode>, d2: seq<Block>,
                 n2: seq<Dinode>)
    requires RestSame(d0, n0, i, j, d1, n1) && (OthersSame(d1, n1, i, d2, n2) || OthersSame(d1, n1, j, d2, n2))
    ensures RestSame(d0, n0, i, j, d2, n2)
  {
    forall k, x | 0 <= k < |n0| && k != i && k != j && 0 <= x < NSLOTS && 0 < Row(d0, n0, k)[x] < |d0|
      ensures d2[Row(d0, n0, k)[x]] == d0[Row(d0, n0, k)[x]]
    {
      assert Row(d1, n1, k)[x] == Row(d0, n0, k)[x];
    }
  }

  /** The next block of a write; without it the writer stops. */
  method Turn(fs: FileSystem, ip: Inode, off: nat, src: seq<Byte>, tot: nat, ghost disk0: seq<Block>,
              ghost nodes0: seq<Dinode>)
    returns (tot': nat)
    requires fs.Good(ip) && fs.outstanding > 0 && |nodes0| == |fs.core| && nodes0[ip.inum].size <= MAXBYTES
    requires tot < |src| && off + |src| <= MAXBYTES
    requires Written(disk0, nodes0, ip.inum, off, src, tot, fs.disk, fs.core)
    modifies fs`disk, fs`logged, fs`core, ip`node
    ensures fs.Good(ip) && tot <= tot' <= |src| && Written(disk0, nodes0, ip.inum, off, src, tot', fs.disk, fs.core)
    ensures OthersSame(old(fs.disk), old(fs.core), ip.inum, fs.disk, fs.core)
    ensures fs.core == old(fs.core)[ip.inum := ip.node]
    ensures tot' == tot ==> Stuck(fs.sb, fs.disk, Row(fs.disk, fs.core, ip.inum), off + tot)
    ensures Full(fs.sb, old(fs.disk)) ==> Full(fs.sb, fs.disk)
  {
    hide OthersSame, Written, Full, Stuck, Chunk, BlockOff, Consistent, FileSystem.Noted;
    ChunkFits(off + tot, |src| - tot);
    var m := Chunk(off + tot, |src| - tot);
    var ok := fs.WriteBlock(ip, off, src, tot, m, disk0, nodes0);
    tot' := if ok then tot + m else tot;
  }

  /** A writer that has stopped stays as it is while the other gets on. */
  lemma StuckKept(sb: Super, disk: seq<Block>, inodes: seq<Dinode>, i: nat, o: nat, j: nat, disk': seq<Block>,
                  inodes': seq<Dinode>)
    requires ValidSuper(sb) && |disk| == |disk'| == sb.size && i < |inodes| == |inodes'| && i != j
    requires OthersSame(disk, inodes, j, disk', inodes') && (Full(sb, disk) ==> Full(sb, disk'))
    requires Stuck(sb, disk, Row(disk, inodes, i), o)
    ensures Stuck(sb, disk', Row(disk', inodes', i), o)
  {
  }

  /** Both writers end, ip's first; a and b are the two inodes in either order. */
  method FinishBoth(fs: FileSystem, ip: Inode, offi: nat, ghost srci: seq<Byte>, ti: nat, jp: Inode, offj: nat,
                    ghost srcj: seq<Byte>, tj: nat, ghost a: nat, ghost b: nat, ghost disk0: seq<Block>,
                    ghost core0: seq<Dinode>)
    requires fs.Good(ip) && fs.Good(jp) && fs.outstanding > 0 && ip.inum != jp.inum && |core0| == |fs.core|
    requires ti <= |srci| && tj <= |srcj|
    requires (a == ip.inum && b == jp.inum) || (a == jp.inum && b == ip.inum)
    requires offi <= core0[ip.inum].size <= MAXBYTES && offi + |srci| <= MAXBYTES
    requires offj <= core0[jp.inum].size <= MAXBYTES && offj + |srcj| <= MAXBYTES
    requires Written(disk0, core0, ip.inum, offi, srci, ti, fs.disk, fs.core)
    requires Written(disk0, core0, jp.inum, offj, srcj, tj, fs.disk, fs.core)
    requires RestSame(disk0, core0, a, b, fs.disk, fs.core)
    modifies fs`logged, fs`core, fs`dinodes, ip`node, jp`node
    ensures fs.Good(ip) && fs.Good(jp) && RestSame(disk0, core0, a, b, fs.disk, fs.core)
    ensures Content(fs.disk, ip.node) == Overwrite(Content(disk0, core0[ip.inum]), offi, srci[..ti])
    ensures Content(fs.disk, jp.node) == Overwrite(Content(disk0, core0[jp.inum]), offj, srcj[..tj])
    ensures fs.dinodes == old(fs.dinodes)[ip.inum := ip.node][jp.inum := jp.node]
    ensures Row(fs.disk, fs.core, ip.inum) == old(Row(fs.disk, fs.core, ip.inum))
    ensures Row(fs.disk, fs.core, jp.inum) == old(Row(fs.disk, fs.core, jp.inum))
  {
    hide Written, RestSame, Consistent, Overwrite, Row, FileSystem.Noted;
    ghost var core1 := fs.core;
    fs.FinishWrite(ip, offi, srci, ti, disk0, core0);
    ghost var core2 := fs.core;
    WrittenKept(disk0, core0, jp.inum, offj, srcj, tj, fs.disk, core1, ip.inum, fs.disk, core2);
    RestStep(disk0, core0, a, b, fs.disk, core1, fs.disk, core2);
    fs.FinishWrite(jp, offj, srcj, tj, disk0, core0);
    RestStep(disk0, core0, a, b, fs.disk, core2, fs.disk, fs.core);
  }

  /** A writer has come t bytes; it has stopped only where it is stuck. */
  ghost predicate Writing(fs: FileSystem, ip: Inode, off: nat, src: seq<Byte>, t: nat, stop: bool, disk0: seq<Block>,
                          core0: seq<Dinode>)
    reads fs, ip
  {
    && fs.Good(ip) && |core0| == |fs.core| && t <= |src| && off <= core0[ip.inum].size <= MAXBYTES
    && off + |src| <= MAXBYTES && Written(disk0, core0, ip.inum, off, src, t, fs.disk, fs.core)
    && (stop ==> t < |src| && Stuck(fs.sb, fs.disk, Row(fs.disk, fs.core, ip.inum), off + t))
  }

  /** ip's writer gets one turn; jp's is not disturbed. */
  method TurnBeside(fs: FileSystem, ip: Inode, offi: nat, srci: seq<Byte>, ti: nat, ghost jp: Inode, ghost offj: nat,
                    ghost srcj: seq<Byte>, ghost tj: nat, ghost stopj: bool, ghost disk0: seq<Block>,
                    ghost core0: seq<Dinode>, ghost a: nat, ghost b: nat)
    returns (ti': nat, stopi: bool)
    requires Writing(fs, ip, offi, srci, ti, false, disk0, core0) && ti < |srci| && fs.outstanding > 0
    requires Writing(fs, jp, offj, srcj, tj, stopj, disk0, core0) && ip.inum != jp.inum
    requires RestSame(disk0, core0, a, b, fs.disk, fs.core) && (a == ip.inum || b == ip.inum)
    modifies fs`disk, fs`logged, fs`core, ip`node
    ensures Writing(fs, ip, offi, srci, ti', stopi, disk0, core0) && ti <= ti' <= |srci| && (stopi <==> ti' == ti)
    ensures Writing(fs, jp, offj, srcj, tj, stopj, disk0, core0)
    ensures RestSame(disk0, core0, a, b, fs.disk, fs.core)
  {
    hide OthersSame, Written, RestSame, Consistent, Stuck, Full, Row, FileSystem.Noted;
    ghost var disk1, core1 := fs.disk, fs.core;
    Geometry(fs.sb, fs.disk, fs.core);
    ti' := Turn(fs, ip, offi, srci, ti, disk0, core0);
    stopi := ti' == ti;
    Geometry(fs.sb, fs.disk, fs.core);
    WrittenKept(disk0, core0, jp.inum, offj, srcj, tj, disk1, core1, ip.inum, fs.disk, fs.core);
    if stopj {
      StuckKept(fs.sb, disk1, core1, jp.inum, offj + tj, ip.inum, fs.disk, fs.core);
    }
    RestStep(disk0, core0, a, b, disk1, core1, fs.disk, fs.core);
  }

  /** Both writers take turns until each has come to its end or is stuck. */
  method TakeTurns(fs: FileSystem, ip: Inode, offi: nat, srci: seq<Byte>, jp: Inode, offj: nat, srcj: seq<Byte>,
                   turns: seq<bool>, ghost disk0: seq<Block>, ghost core0: seq<Dinode>)
    returns (ti: nat, tj: nat)
    requires ip.inum != jp.inum && fs.outstanding > 0
    requires Writing(fs, ip, offi, srci, 0, false, disk0, core0) && Writing(fs, jp, offj, srcj, 0, false, disk0, core0)
    requires RestSame(disk0, core0, ip.inum, jp.inum, fs.disk, fs.core)
    modifies fs`disk, fs`logged, fs`core, ip`node, jp`node
    ensures Writing(fs, ip, offi, srci, ti, ti < |srci|, disk0, core0)
    ensures Writing(fs, jp, offj, srcj, tj, tj < |srcj|, disk0, core0)
    ensures RestSame(disk0, core0, ip.inum, jp.inum, fs.disk, fs.core)
  {
    hide RestSame, Writing;
    ti, tj := 0, 0;
    var k, stopi, stopj := 0, false, false;
    while (ti < |srci| && !stopi) || (tj < |srcj| && !stopj)
      invariant ti <= |srci| && (stopi ==> ti < |srci|) && Writing(fs, ip, offi, srci, ti, stopi, disk0, core0)
      invariant tj <= |srcj| && (stopj ==> tj < |srcj|) && Writing(fs, jp, offj, srcj, tj, stopj, disk0, core0)
      invariant RestSame(disk0, core0, ip.inum, jp.inum, fs.disk, fs.core)
      decreases |srci| - ti + |srcj| - tj, (if stopi then 0 else 1) + (if stopj then 0 else 1)
    {
      var i := ti < |srci| && !stopi && (tj == |srcj| || stopj || k >= |turns| || turns[k]);
      k := k + 1;
      if i {
        ti, stopi := TurnBeside(fs, ip, offi, srci, ti, jp, offj, srcj, tj, stopj, disk0, core0, ip.inum, jp.inum);
      } else {
        tj, stopj := TurnBeside(fs, jp, offj, srcj, tj, ip, offi, srci, ti, stopi, disk0, core0, ip.inum, jp.inum);
      }
    }
  }

  /**
   Whatever the order in which two writers get on, and whoever updates its inode first, each file ends
   up with its own write and nothing of the other's, and no third file changes.  Both get to their end, except
   that a writer stops at a block that is missing when the disk is full.
   */
  method WriteTwo(fs: FileSystem, ip: Inode, offi: nat, srci: seq<Byte>, jp: Inode, offj: nat, srcj: seq<Byte>,
                  turns: seq<bool>, iFirst: bool) returns (ti: nat, tj: nat)
    requires fs.Good(ip) && fs.Good(jp) && fs.outstanding > 0 && ip.inum != jp.inum
    requires offi <= ip.node.size && offi + |srci| <= MAXBYTES && offj <= jp.node.size && offj + |srcj| <= MAXBYTES
    modifies fs`disk, fs`logged, fs`core, fs`dinodes, ip`node, jp`node
    ensures fs.Good(ip) && fs.Good(jp) && ti <= |srci| && tj <= |srcj|
    ensures Content(fs.disk, ip.node) == Overwrite(old(Content(fs.disk, ip.node)), offi, srci[..ti])
    ensures Content(fs.disk, jp.node) == Overwrite(old(Content(fs.disk, jp.node)), offj, srcj[..tj])
    ensures ti < |srci| ==> Stuck(fs.sb, fs.disk, Row(fs.disk, fs.core, ip.inum), offi + ti)
    ensures tj < |srcj| ==> Stuck(fs.sb, fs.disk, Row(fs.disk, fs.core, jp.inum), offj + tj)
    ensures RestSame(old(fs.disk), old(fs.core), ip.inum, jp.inum, fs.disk, fs.core)
    ensures fs.dinodes == old(fs.dinodes)[ip.inum := ip.node][jp.inum := jp.node]
  {
    hide OthersSame, Written, RestSame, Consistent, Overwrite, Stuck, Row, Content, FileSystem.Noted;
    ghost var disk0, core0 := fs.disk, fs.core;
    ProgressStart(disk0, core0, ip.inum, offi, srci);
    ProgressStart(disk0, core0, jp.inum, offj, srcj);
    RestStart(disk0, core0, ip.inum, jp.inum);
    ti, tj := TakeTurns(fs, ip, offi, srci, jp, offj, srcj, turns, disk0, core0);
    if iFirst {
      FinishBoth(fs, ip, offi, srci, ti, jp, offj, srcj, tj, ip.inum, jp.inum, disk0, core0);
    } else {
      FinishBoth(fs, jp, offj, srcj, tj, ip, offi, srci, ti, ip.inum, jp.inum, disk0, core0);
      assert fs.dinodes == old(fs.dinodes)[ip.inum := ip.node][jp.inum := jp.node];
    }
  }
}
