/** Where links and entries come apart: a file made in a directory that is already removed. */
module Stranded {
  import opened DirTree
  import opened LinkCount
  import opened SysFile
  import opened Dangling

  /** mkdir a, which stays open, and rmdir a. */
  method RemovedDir() returns (t: FileTree, a: nat)
    ensures fresh(t) && t.Valid() && a > 1 && a in t.inodes
    ensures t.inodes[a] == Inode(Dir, 0, [Entry(".", a), Entry("..", 1)])
    ensures a in t.ref && t.ref[a] == 1 && AnyFree(t.Now())
  {
    hide FileTree.Valid, Released, Removal, CanErase, NewName, SameSurplus;
    t, a := OneDirectory();
    t.Known(a);
    t.Iget(1);
    ghost var s, p := t.Now(), (0, 0);
    NameTaken(s, 1, 2);
    var ok;
    ok, p := t.Unlink(1, "a");
    assert p == (1, 2);
    ghost var y :| y in s.inodes && s.inodes[y].kind.Free?;
    assert t.inodes[y].kind.Free?;
  }

  /** The file f is made in a, and both are closed: a goes, and f keeps a link that no entry stands for. */
  method LostFile() returns (t: FileTree, f: nat)
    ensures t.Valid() && f in t.inodes && t.inodes[f] == Inode(File, 1, []) && f in t.ref && t.ref[f] == 0
    ensures f in t.holders && t.holders[f] == {} && Surplus(t.Now(), f) == 1
  {
    hide FileTree.Valid, Inv, Released, CanEnter, NewName, SameSurplus, Found, Created;
    var a, panicked;
    t, a := RemovedDir();
    t.Iget(a);
    ghost var s, ref, p := t.Now(), t.ref, (0, 0);
    FreshName(s.inodes[a].entries);
    f, panicked, p := t.Create(a, "f", File, true, true, true);
    CreatedRefs(s, ref, a, "f", File, f, p, t.Now(), t.ref);
    t.Iput(f);
    t.Inside();
    t.Known(f);
    ghost var s1 := t.Now();
    assert t.inodes[a].entries[2] == Entry("f", f);
    t.Iput(a);
    t.Known(f);
    Orphaned(s1, a, f);
  }

  lemma FreshName(es: seq<Entry>)
    requires |es| == 2 && es[0].name == "." && es[1].name == ".."
    ensures NewName(es, "f")
  {
    assert |"f"| == 1 && "f"[0] != '.' && |".."| == 2;
  }

  /** With the directory goes the only entry that named the file. */
  lemma Orphaned(s: Fs, a: nat, f: nat)
    requires Inv(s) && a in s.inodes && s.inodes[a].nlink == 0 && f in s.inodes && f in s.holders && f != a
    requires s.inodes[f].nlink == 1 && HasEntry(s, (a, 2)) && Target(s, (a, 2)) == f
    ensures Unmaking(s, a).holders[f] == {} && Released(s, 1, a) == Unmaking(s, a)
  {
    Unnamed(s, a);
    WithinEntries(s, a, 2);
    HoldersKnown(s, f);
    hide Inv;
    OneLess(s.holders[f], (a, 2));
    assert s.holders[f] - {(a, 2)} == {};
  }
}
