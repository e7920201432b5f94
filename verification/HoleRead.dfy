/** The missing block of an image that mkfs makes, met by a program that reads the root directory. */
module HoleRead {
  import opened FsLayout
  import opened FsState
  import opened FsWrite
  import opened FsFill
  import opened Fs
  import opened Mkfs

  predicate Empties(files: seq<File>) {
    |files| == 62 && forall i :: 0 <= i < |files| ==> files[i].data == [] && |files[i].name| <= DIRSIZ
  }

  /** The image is mounted and the root directory in memory; its second block is missing and the disk is not full. */
  method Mount(files: seq<File>) returns (fs: FileSystem, root: Inode)
    requires Empties(files)
    ensures fresh(fs) && fresh(root) && fs.Good(root) && fs.outstanding == 0 && fs.core == fs.dinodes
    ensures root.node.size == 2048 && !Full(fs.sb, fs.disk)
    ensures !NoHole(Row(fs.disk, fs.core, root.inum), 1024, 1024) && !NoGap(root.node, 1024, 1024)
  {
    hide Consistent, AllPresent, Row;
    var m, ok := WholeRoot(files);
    fs := new FileSystem(SB, m.disk, m.inodes);
    root := new Inode(ROOTINO, m.inodes[ROOTINO]);
    Geometry(SB, fs.disk, fs.core);
    SecondBlock(fs.disk, fs.core, ROOTINO);
    assert !Bits(SB, fs.disk)[47];
  }

  lemma SecondBlock(disk: seq<Block>, inodes: seq<Dinode>, i: nat)
    requires i < |inodes| && Row(disk, inodes, i)[DataSlot(1)] == 0
    ensures !NoHole(Row(disk, inodes, i), 1024, 1024) && !NoGap(inodes[i], 1024, 1024)
  {
    assert BlockNo(1024) == 1;
  }

  /** Outside an operation, as fileread calls readi, the kernel panics. */
  method ReadOutside(files: seq<File>) returns (panicked: bool)
    requires Empties(files)
    ensures panicked
  {
    hide Full, NoHole, NoGap, Consistent;
    var fs, root := Mount(files);
    var dst;
    dst, panicked := fs.Readi(root, 1024, 1024);
  }

  /** While another operation is outstanding the read allocates a block that no inode on disk names. */
  method ReadInside(files: seq<File>) returns (fs: FileSystem, panicked: bool)
    requires Empties(files)
    ensures !panicked && Consistent(fs.sb, fs.disk, fs.core, {}) && !Consistent(fs.sb, fs.disk, fs.dinodes, {})
  {
    hide Full, NoHole, NoGap, Consistent;
    var root, dst;
    fs, root := Mount(files);
    fs.BeginOp();
    dst, panicked := fs.Readi(root, 1024, 1024);
  }
}
