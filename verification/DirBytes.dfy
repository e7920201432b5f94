/** Directories as bytes: how the kernel reads the entries of a directory file, and that it finds what mkfs entered. */
module DirBytes {
  import opened FsLayout
  import opened FsState
  import opened Mkfs

  /** At most n bytes of s, up to its first NUL. */
  function Cut(s: seq<Byte>, n: nat): seq<Byte> {
    if n == 0 || s == [] || s[0] == 0 then [] else [s[0]] + Cut(s[1..], n - 1)
  }

  /** The byte at i of a C string, which ends in a NUL. */
  function At(s: seq<Byte>, i: nat): Byte { if i < |s| then s[i] else 0 }

  /** strncmp: whether the first n bytes agree, or the strings end before. */
  method Strncmp(p: seq<Byte>, q: seq<Byte>, n: nat) returns (same: bool)
    ensures same <==> Cut(p, n) == Cut(q, n)
  {
    var i := 0;
    while i < n && At(p, i) != 0 && At(p, i) == At(q, i)
      invariant 0 <= i <= n && i <= |p| && i <= |q|
      invariant Cut(p, n) == Cut(q, n) <==> Cut(p[i..], n - i) == Cut(q[i..], n - i)
    {
      CutStep(p[i..], q[i..], n - i);
      i := i + 1;
    }
    CutEnd(p[i..], q[i..], n - i);
    same := i == n || At(p, i) == At(q, i);
  }

  lemma CutStep(p: seq<Byte>, q: seq<Byte>, n: nat)
    requires n > 0 && p != [] && q != [] && p[0] == q[0] != 0
    ensures Cut(p, n) == Cut(q, n) <==> Cut(p[1..], n - 1) == Cut(q[1..], n - 1)
  {
    assert Cut(p, n)[1..] == Cut(p[1..], n - 1) && Cut(q, n)[1..] == Cut(q[1..], n - 1);
  }

  lemma CutEnd(p: seq<Byte>, q: seq<Byte>, n: nat)
    requires n == 0 || At(p, 0) == 0 || At(p, 0) != At(q, 0)
    ensures Cut(p, n) == Cut(q, n) <==> n == 0 || At(p, 0) == At(q, 0)
  {
    if n > 0 && At(p, 0) != At(q, 0) {
      assert Cut(p, n) == [] || Cut(p, n)[0] == At(p, 0);
      assert Cut(q, n) == [] || Cut(q, n)[0] == At(q, 0);
    }
  }

  // ----- entries -----

  function Short(lo: Byte, hi: Byte): nat { (lo as int) + 256 * (hi as int) }

  /** struct dirent: the inode number, low byte first, and the name, filled up with NULs. */
  function Inum(dir: seq<Byte>, k: nat): nat
    requires 16 * k + 16 <= |dir|
  {
    Short(dir[16 * k], dir[16 * k + 1])
  }

  function Name(dir: seq<Byte>, k: nat): seq<Byte>
    requires 16 * k + 16 <= |dir|
  {
    Cut(dir[16 * k + 2..16 * k + 16], DIRSIZ)
  }

  predicate Matches(dir: seq<Byte>, k: nat, name: seq<Byte>)
    requires 16 * k + 16 <= |dir|
  {
    Inum(dir, k) != 0 && Name(dir, k) == Cut(name, DIRSIZ)
  }

  lemma MatchAt(dir: seq<Byte>, k: nat, name: seq<Byte>, de: seq<Byte>)
    requires 16 * k + 16 <= |dir| && de == dir[16 * k..16 * k + 16]
    ensures Matches(dir, k, name) <==> Short(de[0], de[1]) != 0 && Cut(name, DIRSIZ) == Cut(de[2..], DIRSIZ)
    ensures Inum(dir, k) == Short(de[0], de[1])
  {
    hide Cut, Short;
    assert de[2..] == dir[16 * k + 2..16 * k + 16];
  }

  /** dirlookup over the bytes of a directory: the number in the first entry of that name, 0 if there is none. */
  method Lookup(dir: seq<Byte>, name: seq<Byte>) returns (inum: nat, ghost k: nat)
    requires |dir| % 16 == 0
    ensures inum != 0 ==> 16 * k + 16 <= |dir| && Matches(dir, k, name) && inum == Inum(dir, k)
    ensures inum != 0 ==> forall j :: 0 <= j < k ==> !Matches(dir, j, name)
    ensures inum == 0 ==> forall j :: 0 <= j && 16 * j + 16 <= |dir| ==> !Matches(dir, j, name)
  {
    hide Matches, Inum, Name, Cut, Short;
    k := 0;
    var off := 0;
    while off < |dir|
      invariant off == 16 * k <= |dir| && forall j :: 0 <= j < k ==> !Matches(dir, j, name)
    {
      var de := dir[off..off + 16];
      MatchAt(dir, k, name, de);
      if Short(de[0], de[1]) != 0 {
        var same := Strncmp(name, de[2..], DIRSIZ);
        if same {
          return Short(de[0], de[1]), k;
        }
      }
      off, k := off + 16, k + 1;
    }
    inum := 0;
  }

  // ----- mkfs's root directory -----

  /** What an entry holds is read back. */
  lemma DirentRead(inum: nat, name: seq<Byte>)
    requires inum < 0x1_0000 && |name| <= DIRSIZ
    ensures Inum(Dirent(inum, name), 0) == inum && Name(Dirent(inum, name), 0) == Cut(name, DIRSIZ)
  {
    hide Cut, LowByte, Dirent, Short;
    var d := Dirent(inum, name);
    ShortRead(inum);
    var pad := DirentParts(inum, name);
    CutPadded(name, pad, DIRSIZ);
  }

  lemma DirentParts(inum: nat, name: seq<Byte>) returns (pad: seq<Byte>)
    requires inum < 0x1_0000 && |name| <= DIRSIZ
    ensures var d := Dirent(inum, name);
            d[0] == LowByte(inum) && d[1] == LowByte(inum / 0x100) && d[2..16] == name + pad
    ensures forall i :: 0 <= i < |pad| ==> pad[i] == 0
  {
    hide LowByte;
    pad := seq(DIRSIZ - |name|, _ => 0);
    var head: seq<Byte> := [LowByte(inum), LowByte(inum / 0x100)];
    assert Dirent(inum, name) == head + (name + pad);
  }

  lemma ShortRead(x: nat)
    requires x < 0x1_0000
    ensures Short(LowByte(x), LowByte(x / 0x100)) == x
  {
  }

  lemma {:induction false} CutPadded(name: seq<Byte>, pad: seq<Byte>, n: nat)
    requires |name| <= n && forall i :: 0 <= i < |pad| ==> pad[i] == 0
    ensures Cut(name + pad, n) == Cut(name, n)
    decreases n
  {
    if name == [] {
      assert name + pad == pad;
    } else {
      assert (name + pad)[1..] == name[1..] + pad;
      if name[0] != 0 {
        CutPadded(name[1..], pad, n - 1);
      }
    }
  }

  /** Entry k of a directory that starts with a given one. */
  lemma EntryInside(dir: seq<Byte>, k: nat, d: seq<Byte>)
    requires 16 * k + 16 <= |dir| && |d| == 16 && dir[16 * k..16 * k + 16] == d
    ensures Inum(dir, k) == Inum(d, 0) && Name(dir, k) == Name(d, 0)
  {
    assert dir[16 * k] == d[0] && dir[16 * k + 1] == d[1];
    assert dir[16 * k + 2..16 * k + 16] == d[2..16];
  }

  /** The name that entry k of the root has, and its inode: 1 for "." and "..", then 2, 3 and so on. */
  function RootName(files: seq<File>, k: nat): (name: seq<Byte>)
    requires k < 2 + |files|
  {
    if k == 0 then [46] else if k == 1 then [46, 46] else files[k - 2].name
  }

  lemma {:induction false} RootSlice(files: seq<File>, n: nat, k: nat)
    requires n <= |files| < INUMS && k < 2 + n && forall i :: 0 <= i < n ==> |files[i].name| <= DIRSIZ
    ensures RootDir(files, n)[16 * k..16 * k + 16] == Dirent(if k < 2 then ROOTINO else k, RootName(files, k))
    decreases n
  {
    hide Dirent;
    if n == 0 {
      Slices(Dirent(ROOTINO, [46]), Dirent(ROOTINO, [46, 46]), k);
      Slices([], Dirent(ROOTINO, [46]), 0);
      assert [] + Dirent(ROOTINO, [46]) == Dirent(ROOTINO, [46]);
    } else {
      Slices(RootDir(files, n - 1), Dirent(1 + n, files[n - 1].name), k);
      if k < 1 + n {
        RootSlice(files, n - 1, k);
      }
    }
  }

  lemma Slices(a: seq<Byte>, b: seq<Byte>, k: nat)
    requires |a| % 16 == 0 && |b| == 16 && 16 * k <= |a|
    ensures (a + b)[16 * k..16 * k + 16] == if 16 * k == |a| then b else a[16 * k..16 * k + 16]
  {
  }

  lemma EntryRead(dir: seq<Byte>, files: seq<File>, k: nat)
    requires NamesOk(files) && k < 2 + |files| && RootDir(files, |files|) <= dir
    ensures 16 * k + 16 <= |dir| && Inum(dir, k) == (if k < 2 then ROOTINO else k)
    ensures Name(dir, k) == Cut(RootName(files, k), DIRSIZ)
  {
    hide RootDir, Dirent, Cut, Name, Inum;
    var inum, name := if k < 2 then ROOTINO else k, RootName(files, k);
    assert |RootDir(files, |files|)| == 16 * (2 + |files|);
    RootSlice(files, |files|, k);
    assert dir[16 * k..16 * k + 16] == RootDir(files, |files|)[16 * k..16 * k + 16];
    EntryInside(dir, k, Dirent(inum, name));
    DirentRead(inum, name);
  }

  lemma NoEntry(dir: seq<Byte>, k: nat)
    requires 16 * k + 16 <= |dir| && dir[16 * k] == 0 && dir[16 * k + 1] == 0
    ensures Inum(dir, k) == 0
  {
  }

  /** The kernel reads the root of the image as mkfs meant it: so many entries, and none after them. */
  lemma RootReads(img: seq<Block>, ip: Dinode, files: seq<File>, k: nat)
    requires NamesOk(files) && RootHolds(img, ip, RootDir(files, |files|)) && 16 * k + 16 <= ip.size
    ensures var dir := Content(img, ip);
            if k < 2 + |files| then
              && Inum(dir, k) == (if k < 2 then ROOTINO else k) && Name(dir, k) == Cut(RootName(files, k), DIRSIZ)
            else Inum(dir, k) == 0
  {
    hide RootDir, Cut, Content, BlockNo, BlockStart, Name, Inum;
    var dir := Content(img, ip);
    if k < 2 + |files| {
      assert RootDir(files, |files|) <= dir;
      EntryRead(dir, files, k);
    } else {
      NoEntry(dir, k);
    }
  }

  /** dirlookup in that directory gives file i its inode, if no entry before it has the same name. */
  method RootFinds(img: seq<Block>, ip: Dinode, files: seq<File>, i: nat) returns (inum: nat)
    requires NamesOk(files) && RootHolds(img, ip, RootDir(files, |files|)) && i < |files|
    requires forall k :: 0 <= k < 2 + i ==> Cut(RootName(files, k), DIRSIZ) != Cut(files[i].name, DIRSIZ)
    ensures inum == 2 + i
  {
    hide RootDir, Content, Cut, Inum, Name, BlockNo, BlockStart;
    var dir := Content(img, ip);
    ghost var k;
    RootSizes(img, ip, files);
    RootReads(img, ip, files, 2 + i);
    assert RootName(files, 2 + i) == files[i].name;
    inum, k := Lookup(dir, files[i].name);
    assert Matches(dir, 2 + i, files[i].name);
    if k < 2 + i {
      RootReads(img, ip, files, k);
    }
  }

  lemma RootSizes(img: seq<Block>, ip: Dinode, files: seq<File>)
    requires NamesOk(files) && RootHolds(img, ip, RootDir(files, |files|))
    ensures |Content(img, ip)| == ip.size && ip.size % 16 == 0 && 16 * (2 + |files|) <= ip.size
  {
    hide RootDir, Content;
    assert ip.size == 16 * (64 * (BlockNo(|RootDir(files, |files|)|) + 1));
  }
}
