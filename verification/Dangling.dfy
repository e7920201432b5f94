/** The one way to create's panic: a directory that is removed while open, after its parent has gone too. */
module Dangling {
  import opened DirTree
  import opened LinkCount
  import opened SysFile

  predicate AllUsed(es: seq<Entry>) { forall k :: 0 <= k < |es| ==> es[k].inum != 0 }

  /** What mkdir does to the inodes when it enters the name at the end of dp. */
  lemma MkdirEffect(s: Fs, ref: map<nat, nat>, dp: nat, name: string, ip: nat, p: Place, s': Fs, ref': map<nat, nat>)
    requires Created(s, ref, dp, name, Dir, ip, p, s', ref') && dp in s.inodes && s.inodes[dp].nlink >= 0
    requires AllUsed(s.inodes[dp].entries)
    ensures s'.inodes == s.inodes[ip := NewNode(Dir, ip, dp)]
                         [dp := s.inodes[dp].(nlink := s.inodes[dp].nlink + 1,
                                              entries := s.inodes[dp].entries + [Entry(name, ip)])]
  {
  }

  /** a is a directory in the root, and b one in a. */
  ghost predicate Nested(t: FileTree, a: nat, b: nat)
    reads t
  {
    && t.Valid() && a != b && a > 1 && b > 1 && 1 in t.ref && a in t.ref && b in t.ref && t.ref[b] == 1 && t.ref[a] == 0
    && 1 in t.inodes && t.inodes[1] == Inode(Dir, 2, [Entry(".", 1), Entry("..", 1), Entry("a", a)])
    && a in t.inodes && t.inodes[a] == Inode(Dir, 2, [Entry(".", a), Entry("..", 1), Entry("b", b)])
    && b in t.inodes && t.inodes[b] == Inode(Dir, 1, [Entry(".", b), Entry("..", a)])
  }

  method Mkdir(t: FileTree, dp: nat, name: string) returns (ip: nat)
    requires t.Valid() && IsDir(t.Now(), dp) && AnyFree(t.Now()) && dp in t.inodes && t.inodes[dp].nlink >= 0
    requires dp in t.ref
    requires AllUsed(t.inodes[dp].entries) && NewName(t.inodes[dp].entries, name)
    modifies t
    ensures t.Valid() && ip in old(t.inodes) && old(t.inodes[ip].kind).Free? && t.ref == old(t.ref)[ip := 1]
    ensures ip != dp && ip != 0 && dp in old(t.inodes)
    ensures t.inodes == old(t.inodes)[ip := NewNode(Dir, ip, dp)]
              [dp := old(t.inodes[dp]).(nlink := old(t.inodes[dp].nlink) + 1,
                                        entries := old(t.inodes[dp].entries) + [Entry(name, ip)])]
  {
    hide FileTree.Valid, Created, Released;
    ghost var s := t.Now();
    t.Iget(dp);
    var panicked;
    ghost var p, ref := (0, 0), t.ref;
    ip, panicked, p := t.Create(dp, name, Dir, true, true, true);
    MkdirEffect(s, ref, dp, name, ip, p, t.Now(), t.ref);
    CreatedRefs(s, ref, dp, name, Dir, ip, p, t.Now(), t.ref);
  }

  lemma CreatedRefs(s: Fs, ref: map<nat, nat>, dp: nat, name: string, kind: Kind, ip: nat, p: Place, s': Fs,
                    ref': map<nat, nat>)
    requires Created(s, ref, dp, name, kind, ip, p, s', ref')
    ensures ip in s.inodes && s.inodes[ip].kind.Free? && ip != dp && dp in ref && ref[dp] > 0
    ensures ref' == ref[ip := 1][dp := ref[dp] - 1]
  {
  }

  /** The root, and two free inodes. */
  method ThreeInodes() returns (t: FileTree)
    ensures fresh(t) && t.Valid() && t.ref == map[1 := 0, 2 := 0, 3 := 0]
    ensures t.inodes == map[1 := RootNode(), 2 := Inode(Free, 0, []), 3 := Inode(Free, 0, [])]
  {
    hide FileTree.Valid;
    t := new FileTree(4);
    assert t.inodes.Keys == {1, 2, 3};
  }

  method OneDirectory() returns (t: FileTree, a: nat)
    ensures fresh(t) && t.Valid() && a > 1 && AnyFree(t.Now()) && 1 in t.inodes && a in t.inodes
    ensures t.inodes[1] == Inode(Dir, 2, [Entry(".", 1), Entry("..", 1), Entry("a", a)])
    ensures t.inodes[a] == Inode(Dir, 1, [Entry(".", a), Entry("..", 1)])
    ensures t.ref == map[1 := 0, 2 := 0, 3 := 0][a := 1]
  {
    hide FileTree.Valid;
    t := ThreeInodes();
    assert AnyFree(t.Now()) by {
      assert t.inodes[2].kind.Free?;
    }
    a := Mkdir(t, 1, "a");
    assert AnyFree(t.Now()) by {
      assert t.inodes[if a == 2 then 3 else 2].kind.Free?;
    }
  }

  method Setup() returns (t: FileTree, a: nat, b: nat)
    ensures fresh(t) && Nested(t, a, b)
  {
    hide FileTree.Valid, Released;
    t, a := OneDirectory();
    b := Mkdir(t, a, "b");
    ReleasedNot(t.Now(), t.ref[a], a);
    t.Iput(a);
  }

  /** b is removed while its reference is held: its links are gone, its entries are not. */
  method RemoveInner(t: FileTree, a: nat, b: nat)
    requires Nested(t, a, b)
    modifies t
    ensures t.Valid() && t.ref == old(t.ref) && 1 in old(t.inodes) && a in old(t.inodes) && b in old(t.inodes)
    ensures t.inodes == old(t.inodes)[a := Inode(Dir, 1, [Entry(".", a), Entry("..", 1), Entry("", 0)])]
                                     [b := Inode(Dir, 0, [Entry(".", b), Entry("..", a)])]
  {
    hide FileTree.Valid, Released, Removal, CanErase, NewName, SameSurplus, Strands;
    t.Iget(a);
    ghost var s, p := t.Now(), (0, 0);
    NameTaken(s, a, 2);
    var ok;
    ok, p := t.Unlink(a, "b");
    assert p == (a, 2);
    assert s.inodes[a].entries[2 := Entry("", 0)] == [Entry(".", a), Entry("..", 1), Entry("", 0)];
    assert t.inodes == s.inodes[a := t.inodes[a]][b := t.inodes[b]];
  }

  /** Then a is removed, and freed since nobody holds it; b still says that it is its parent. */
  method RemoveOuter(t: FileTree, a: nat, b: nat)
    requires t.Valid() && a != b && a > 1 && b > 1 && 1 in t.ref && a in t.ref && t.ref[a] == 0 && a in t.inodes
    requires b in t.inodes
    requires 1 in t.inodes && t.inodes[1] == Inode(Dir, 2, [Entry(".", 1), Entry("..", 1), Entry("a", a)])
    requires t.inodes[a] == Inode(Dir, 1, [Entry(".", a), Entry("..", 1), Entry("", 0)])
    modifies t
    ensures t.Valid() && t.ref == old(t.ref) && a in t.inodes && t.inodes[a].kind.Free?
    ensures b in old(t.inodes) && b in t.inodes && t.inodes[b] == old(t.inodes[b])
  {
    hide FileTree.Valid, Released, Removal, CanErase, NewName, SameSurplus, Strands;
    t.Iget(1);
    ghost var s, p := t.Now(), (0, 0);
    NameTaken(s, 1, 2);
    var ok;
    ok, p := t.Unlink(1, "a");
    assert p == (1, 2);
  }

  /** create of ".." in b then finds a free inode. */
  method CreatePanics() returns (t: FileTree, b: nat, panicked: bool, ghost before: Fs)
    ensures b in before.inodes && before.inodes[b].nlink == 0 && IsDir(before, b) && !Attached(before, b) && panicked
  {
    hide FileTree.Valid, NewName, Found, Created, Released;
    var a, ip;
    ghost var p;
    t, a, b := Setup();
    RemoveInner(t, a, b);
    RemoveOuter(t, a, b);
    before := t.Now();
    NameTaken(before, b, 1);
    ip, panicked, p := t.Create(b, "..", File, true, true, true);
    assert p == (b, 1);
  }

  lemma NameTaken(s: Fs, d: nat, i: nat)
    requires d in s.inodes && i < |s.inodes[d].entries| && s.inodes[d].entries[i].inum != 0
    ensures !NewName(s.inodes[d].entries, s.inodes[d].entries[i].name)
  {
  }
}
