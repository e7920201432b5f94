/**
 Directories and link counts. up records where each attached directory is entered; a directory that has
 been removed but is still open is no longer attached, and its ".." no longer counts.
 */
module DirTree {
  import Counting

  const ROOT := 1

  datatype Kind = Free | File | Device | Dir

  /** inum 0 marks an unused entry. */
  datatype Entry = Entry(name: string, inum: nat)

  datatype Inode = Inode(kind: Kind, nlink: int, entries: seq<Entry>)

  /** An entry's place: the directory and the index in it. */
  type Place = (nat, nat)

  datatype Fs = Fs(inodes: map<nat, Inode>, up: map<nat, Place>, holders: map<nat, set<Place>>)

  predicate IsDir(s: Fs, d: nat) { d in s.inodes && s.inodes[d].kind.Dir? }

  predicate Allocated(s: Fs, x: nat) { x in s.inodes && !s.inodes[x].kind.Free? }

  predicate HasEntry(s: Fs, p: Place) {
    IsDir(s, p.0) && p.1 < |s.inodes[p.0].entries| && s.inodes[p.0].entries[p.1].inum != 0
  }

  function Target(s: Fs, p: Place): nat
    requires HasEntry(s, p)
  {
    s.inodes[p.0].entries[p.1].inum
  }

  predicate Attached(s: Fs, d: nat) { d == ROOT || d in s.up }

  /** The entries that link counts account for: all but ".", and ".." only of attached directories. */
  predicate Counted(s: Fs, p: Place) { HasEntry(s, p) && (p.1 >= 2 || (p.1 == 1 && Attached(s, p.0))) }

  // ----- the invariant -----

  /** What a counted entry names; 0 for any other place. */
  function Counts(s: Fs, p: Place): nat { if Counted(s, p) then Target(s, p) else 0 }

  /** holders collects, for each inode, the counted entries that name it; there are at least as many links. */
  ghost predicate HoldersOk(s: Fs) {
    && (forall x :: x in s.holders <==> x in s.inodes)
    && (forall p: Place :: Counts(s, p) == 0 || Counts(s, p) in s.inodes)
    && (forall x, p: Place :: x in s.holders ==> (p in s.holders[x] <==> Counts(s, p) == x))
    && (forall x :: x in s.holders ==> s.inodes[x].nlink >= |s.holders[x]|)
    && (forall x :: x in s.holders && s.inodes[x].kind.Free? ==> s.holders[x] == {})
  }

  predicate NamesDiffer(es: seq<Entry>) {
    forall i, j :: 0 <= i < j < |es| && es[i].inum != 0 && es[j].inum != 0 ==> es[i].name != es[j].name
  }

  predicate NewName(es: seq<Entry>, name: string) {
    forall k :: 0 <= k < |es| && es[k].inum != 0 ==> es[k].name != name
  }

  /** Directories begin with "." and ".."; names do not repeat. */
  ghost predicate DirOk(s: Fs, d: nat)
    requires IsDir(s, d)
  {
    var es := s.inodes[d].entries;
    && |es| >= 2 && es[0] == Entry(".", d) && es[1].name == ".." && es[1].inum != 0
    && (forall i :: 2 <= i < |es| && es[i].inum != 0 ==> es[i].name != "." && es[i].name != "..")
    && NamesDiffer(es)
  }

  /** An attached directory is entered where up says, and its ".." leads back there. */
  predicate UpAt(s: Fs, c: nat)
    requires c in s.up
  {
    && c != ROOT && IsDir(s, c) && s.up[c].1 >= 2 && s.up[c].0 != c && HasEntry(s, s.up[c]) && Target(s, s.up[c]) == c
    && HasEntry(s, (c, 1)) && Target(s, (c, 1)) == s.up[c].0
  }

  /** It is entered nowhere else. */
  predicate UpPlace(s: Fs, p: Place) {
    p.1 >= 2 && HasEntry(s, p) && IsDir(s, Target(s, p)) ==> Target(s, p) in s.up && s.up[Target(s, p)] == p
  }

  ghost predicate UpOk(s: Fs) { (forall c :: c in s.up ==> UpAt(s, c)) && forall p: Place :: UpPlace(s, p) }

  ghost predicate RootOk(s: Fs) {
    IsDir(s, ROOT) && HasEntry(s, (ROOT, 1)) && Target(s, (ROOT, 1)) == ROOT
  }

  ghost predicate Inv(s: Fs) {
    && 0 !in s.inodes && HoldersOk(s) && (forall d :: IsDir(s, d) ==> DirOk(s, d)) && UpOk(s) && RootOk(s)
  }

  // ----- what the invariant means -----

  predicate Names(s: Fs, d: nat, i: nat, e: nat) { HasEntry(s, (d, i)) && Target(s, (d, i)) == e }

  ghost predicate Leads(s: Fs, d: nat, e: nat) { exists i :: Names(s, d, i, e) }

  /** A path of directories from the root, each named by an entry of the one before. */
  ghost predicate Path(s: Fs, path: seq<nat>)
    decreases |path|
  {
    && |path| > 0 && IsDir(s, path[|path| - 1])
    && if |path| == 1 then path[0] == ROOT
       else Path(s, path[..|path| - 1]) && Leads(s, path[|path| - 2], path[|path| - 1])
  }

  ghost predicate Reachable(s: Fs, d: nat) { exists path :: Path(s, path) && path[|path| - 1] == d }

  /** The way up from d through parents, all attached, ends at the root. */
  ghost predicate Climbs(s: Fs, climb: seq<nat>) {
    |climb| > 0 && climb[|climb| - 1] == ROOT
    && forall k :: 0 <= k < |climb| - 1 ==> climb[k] in s.up && s.up[climb[k]].0 == climb[k + 1]
  }

  ghost predicate Rooted(s: Fs, d: nat) { exists climb :: Climbs(s, climb) && climb[0] == d }

  lemma RootedRoot(s: Fs)
    ensures Rooted(s, ROOT)
  {
    var climb: seq<nat> := [ROOT];
    assert Climbs(s, climb);
  }

  lemma RootedAttached(s: Fs, d: nat)
    requires Rooted(s, d)
    ensures Attached(s, d)
  {
    var climb :| Climbs(s, climb) && climb[0] == d;
    assert |climb| > 1 ==> climb[0] in s.up;
  }

  /** Any entry of a rooted directory that names a directory names a rooted one. */
  lemma RootedStep(s: Fs, d: nat, i: nat)
    requires Inv(s) && Rooted(s, d) && HasEntry(s, (d, i)) && IsDir(s, Target(s, (d, i)))
    ensures Rooted(s, Target(s, (d, i)))
  {
    hide HoldersOk;
    var climb :| Climbs(s, climb) && climb[0] == d;
    var t := Target(s, (d, i));
    assert DirOk(s, d);
    if i == 1 && d != ROOT {
      ClimbUp(s, climb);
      assert UpAt(s, d);
    } else if i == 1 {
      RootedRoot(s);
    } else if i >= 2 {
      var p: Place := (d, i);
      assert UpPlace(s, p);
      ClimbDown(s, climb, t);
    }
  }

  lemma ClimbUp(s: Fs, climb: seq<nat>)
    requires Climbs(s, climb) && climb[0] != ROOT
    ensures climb[0] in s.up && Rooted(s, s.up[climb[0]].0)
  {
    assert |climb| > 1 && climb[0] in s.up && s.up[climb[0]].0 == climb[1];
    forall k | 0 <= k < |climb[1..]| - 1 ensures climb[1..][k] in s.up && s.up[climb[1..][k]].0 == climb[1..][k + 1] {
      assert climb[k + 1] in s.up;
    }
    assert Climbs(s, climb[1..]) && climb[1..][0] == climb[1];
  }

  lemma ClimbDown(s: Fs, climb: seq<nat>, t: nat)
    requires Climbs(s, climb) && t in s.up && s.up[t].0 == climb[0]
    ensures Rooted(s, t)
  {
    var more: seq<nat> := [t] + climb;
    assert Climbs(s, more) && more[0] == t;
  }

  lemma {:induction false} PathRooted(s: Fs, path: seq<nat>)
    requires Inv(s) && Path(s, path)
    ensures Rooted(s, path[|path| - 1])
    decreases |path|
  {
    var n := |path| - 1;
    if n == 0 {
      RootedRoot(s);
    } else {
      PathRooted(s, path[..n]);
      var i :| Names(s, path[n - 1], i, path[n]);
      hide Inv, Rooted;
      RootedStep(s, path[n - 1], i);
    }
  }

  /**
   Entries, other than ".", of directories reachable from the root name allocated inodes, and no inode
   has fewer links than such entries; so what has no links is not named by any of them.
   */
  lemma LinksSuffice(s: Fs, x: nat, places: set<Place>)
    requires Inv(s)
    requires forall p :: p in places ==> p.1 >= 1 && Reachable(s, p.0) && HasEntry(s, p) && Target(s, p) == x
    ensures places != {} ==> Allocated(s, x) && s.inodes[x].nlink >= |places|
  {
    forall p | p in places ensures x in s.holders && p in s.holders[x] {
      var path :| Path(s, path) && path[|path| - 1] == p.0;
      PathRooted(s, path);
      RootedAttached(s, p.0);
      assert Counts(s, p) == x;
    }
    if places != {} {
      var p :| p in places;
      Counting.SubsetSize(places, s.holders[x]);
      assert s.holders[x] != {};
    }
  }

  // ----- what the system calls do -----

  function SetLinks(s: Fs, x: nat, n: int): Fs
    requires x in s.inodes
  {
    s.(inodes := s.inodes[x := s.inodes[x].(nlink := n)])
  }

  /** Only link counts differ. */
  lemma SetLinksOk(s: Fs, x: nat, n: int)
    requires Inv(s) && x in s.inodes && x in s.holders && n >= |s.holders[x]|
    ensures Inv(SetLinks(s, x, n))
  {
    var s' := SetLinks(s, x, n);
    assert forall p: Place :: Counts(s', p) == Counts(s, p);
    LinksDirs(s, x, n);
    hide UpOk, DirOk, RootOk;
  }

  lemma LinksDirs(s: Fs, x: nat, n: int)
    requires (forall d :: IsDir(s, d) ==> DirOk(s, d)) && UpOk(s) && RootOk(s) && x in s.inodes
    ensures var s' := SetLinks(s, x, n); (forall d :: IsDir(s', d) ==> DirOk(s', d)) && UpOk(s') && RootOk(s')
  {
    var s' := SetLinks(s, x, n);
    forall d | IsDir(s', d) ensures DirOk(s', d) {
      assert IsDir(s, d) && DirOk(s, d);
    }
    forall c | c in s'.up ensures UpAt(s', c) {
      assert UpAt(s, c);
    }
    forall p: Place ensures UpPlace(s', p) {
      assert UpPlace(s, p);
    }
  }

  // ----- one entry more -----

  /** Entry i of a directory, the first unused one or one past the end, is set. */
  function Entered(es: seq<Entry>, i: nat, e: Entry): (r: seq<Entry>)
    requires i <= |es|
    ensures |r| == (if i < |es| then |es| else |es| + 1)
    ensures forall k :: 0 <= k < |r| ==> r[k] == if k == i then e else es[k]
  {
    if i < |es| then es[i := e] else es + [e]
  }

  predicate Unused(es: seq<Entry>, i: nat) { i <= |es| && (i < |es| ==> es[i].inum == 0) }

  /** Place p names x from now on; x is a file, or a directory just made, which becomes attached. */
  function Entering(s: Fs, p: Place, name: string, x: nat): Fs
    requires IsDir(s, p.0) && p.1 <= |s.inodes[p.0].entries| && x in s.inodes && x in s.holders && p.0 in s.holders
  {
    var d := s.inodes[p.0];
    var inodes := s.inodes[p.0 := d.(entries := Entered(d.entries, p.1, Entry(name, x)))];
    if IsDir(s, x) then
      Fs(inodes, s.up[x := p], s.holders[x := s.holders[x] + {p}][p.0 := s.holders[p.0] + {(x, 1)}])
    else
      Fs(inodes, s.up, s.holders[x := s.holders[x] + {p}])
  }

  ghost predicate CanEnter(s: Fs, p: Place, name: string, x: nat) {
    && IsDir(s, p.0) && Unused(s.inodes[p.0].entries, p.1) && p.1 >= 2 && name != "." && name != ".."
    && NewName(s.inodes[p.0].entries, name)
    && Allocated(s, x) && x != 0 && x in s.holders && p.0 in s.holders && s.inodes[x].nlink > |s.holders[x]|
    && (IsDir(s, x) ==> x !in s.up && x != ROOT && x != p.0 && HasEntry(s, (x, 1)) && Target(s, (x, 1)) == p.0
                        && s.inodes[p.0].nlink > |s.holders[p.0]|)
  }

  lemma EnterCounts(s: Fs, p: Place, name: string, x: nat, q: Place)
    requires CanEnter(s, p, name, x)
    ensures var s' := Entering(s, p, name, x);
            Counts(s', q) == if q == p then x else if IsDir(s, x) && q == (x, 1) then p.0 else Counts(s, q)
    ensures q == p || (IsDir(s, x) && q == (x, 1)) ==> Counts(s, q) == 0
  {
    var s' := Entering(s, p, name, x);
    assert q != p ==> (HasEntry(s', q) <==> HasEntry(s, q));
  }

  lemma EnterHolders(s: Fs, p: Place, name: string, x: nat)
    requires HoldersOk(s) && CanEnter(s, p, name, x) && 0 !in s.inodes
    ensures HoldersOk(Entering(s, p, name, x))
  {
    hide Counts, Counted, HasEntry, Target;
    var s' := Entering(s, p, name, x);
    forall q: Place
      ensures Counts(s', q) == 0 || Counts(s', q) in s'.inodes
      ensures forall y :: y in s'.holders ==> (q in s'.holders[y] <==> Counts(s', q) == y)
    {
      EnterCounts(s, p, name, x, q);
      assert forall y :: y in s.holders ==> (q in s.holders[y] <==> Counts(s, q) == y);
    }
    forall y | y in s'.holders
      ensures s'.inodes[y].nlink >= |s'.holders[y]|
      ensures s'.inodes[y].kind.Free? ==> s'.holders[y] == {}
    {
      EnterRoom(s, p, name, x, y);
    }
  }

  /** Only the target, and the parent of a directory, gain a holder; both had room for it. */
  lemma EnterRoom(s: Fs, p: Place, name: string, x: nat, y: nat)
    requires CanEnter(s, p, name, x) && y in s.holders && y in s.inodes && s.inodes[y].nlink >= |s.holders[y]|
    requires s.inodes[y].kind.Free? ==> s.holders[y] == {}
    ensures var s' := Entering(s, p, name, x);
            && y in s'.holders && y in s'.inodes && s'.inodes[y].nlink >= |s'.holders[y]|
            && (s'.inodes[y].kind.Free? ==> s'.holders[y] == {})
  {
  }

  lemma EnterNames(es: seq<Entry>, i: nat, e: Entry)
    requires NamesDiffer(es) && NewName(es, e.name) && i <= |es|
    ensures NamesDiffer(Entered(es, i, e))
  {
  }

  lemma EnterDirs(s: Fs, p: Place, name: string, x: nat)
    requires CanEnter(s, p, name, x) && UpOk(s) && RootOk(s) && forall d :: IsDir(s, d) ==> DirOk(s, d)
    ensures var s' := Entering(s, p, name, x); (forall d :: IsDir(s', d) ==> DirOk(s', d)) && RootOk(s')
  {
    var s' := Entering(s, p, name, x);
    assert DirOk(s, p.0);
    EnterNames(s.inodes[p.0].entries, p.1, Entry(name, x));
    hide NamesDiffer, NewName;
    forall d | IsDir(s', d) ensures DirOk(s', d) {
      assert IsDir(s, d) && DirOk(s, d);
    }
  }

  lemma EnterUpAt(s: Fs, p: Place, name: string, x: nat, c: nat)
    requires CanEnter(s, p, name, x) && c in Entering(s, p, name, x).up && (c in s.up ==> UpAt(s, c))
    ensures UpAt(Entering(s, p, name, x), c)
  {
  }

  lemma EnterUpPlace(s: Fs, p: Place, name: string, x: nat, q: Place)
    requires CanEnter(s, p, name, x) && UpPlace(s, q)
    ensures UpPlace(Entering(s, p, name, x), q)
  {
  }

  lemma EnterUp(s: Fs, p: Place, name: string, x: nat)
    requires CanEnter(s, p, name, x) && UpOk(s)
    ensures UpOk(Entering(s, p, name, x))
  {
    var s' := Entering(s, p, name, x);
    hide Entering, CanEnter, UpAt, UpPlace;
    forall c | c in s'.up ensures UpAt(s', c) {
      EnterUpAt(s, p, name, x, c);
    }
    forall q: Place ensures UpPlace(s', q) {
      EnterUpPlace(s, p, name, x, q);
    }
  }

  lemma EnterOk(s: Fs, p: Place, name: string, x: nat)
    requires Inv(s) && CanEnter(s, p, name, x)
    ensures Inv(Entering(s, p, name, x))
  {
    hide HoldersOk, UpOk, RootOk, DirOk, CanEnter;
    EnterHolders(s, p, name, x);
    EnterDirs(s, p, name, x);
    EnterUp(s, p, name, x);
    EnterKeys(s, p, name, x);
  }

  lemma EnterKeys(s: Fs, p: Place, name: string, x: nat)
    requires CanEnter(s, p, name, x) && 0 !in s.inodes
    ensures 0 !in Entering(s, p, name, x).inodes
  {
  }

  // ----- one entry less -----

  /** Place p is unused from now on; if it named a directory, that one is detached. */
  function Erasing(s: Fs, p: Place): Fs
    requires HasEntry(s, p) && Target(s, p) in s.holders && p.0 in s.holders
  {
    var d, x := s.inodes[p.0], Target(s, p);
    var inodes := s.inodes[p.0 := d.(entries := d.entries[p.1 := Entry("", 0)])];
    if IsDir(s, x) then
      Fs(inodes, s.up - {x}, s.holders[x := s.holders[x] - {p}][p.0 := s.holders[p.0] - {(x, 1)}])
    else
      Fs(inodes, s.up, s.holders[x := s.holders[x] - {p}])
  }

  ghost predicate CanErase(s: Fs, p: Place) {
    && HasEntry(s, p) && p.1 >= 2 && Target(s, p) in s.holders && p.0 in s.holders && Target(s, p) != p.0
    && (IsDir(s, Target(s, p)) ==> Target(s, p) in s.up && s.up[Target(s, p)] == p && UpAt(s, Target(s, p)))
  }

  lemma EraseCounts(s: Fs, p: Place, q: Place)
    requires CanErase(s, p)
    ensures var (s', x) := (Erasing(s, p), Target(s, p));
            Counts(s', q) == if q == p || (IsDir(s, x) && q == (x, 1)) then 0 else Counts(s, q)
  {
    assert q != p ==> (HasEntry(Erasing(s, p), q) <==> HasEntry(s, q));
  }

  lemma EraseHolders(s: Fs, p: Place)
    requires HoldersOk(s) && CanErase(s, p) && 0 !in s.inodes
    ensures HoldersOk(Erasing(s, p)) && p in s.holders[Target(s, p)]
    ensures IsDir(s, Target(s, p)) ==> (Target(s, p), 1) in s.holders[p.0]
  {
    var s', x := Erasing(s, p), Target(s, p);
    forall q: Place ensures Counts(s', q) == if q == p || (IsDir(s, x) && q == (x, 1)) then 0 else Counts(s, q) {
      EraseCounts(s, p, q);
    }
    assert Counts(s, p) == x;
    assert IsDir(s, x) ==> Counts(s, (x, 1)) == p.0;
    hide Counts, Counted;
    forall y, q: Place | y in s'.holders ensures q in s'.holders[y] <==> Counts(s', q) == y {
      assert q in s.holders[y] <==> Counts(s, q) == y;
    }
    forall y | y in s'.holders ensures s'.inodes[y].nlink >= |s'.holders[y]| {
      assert s.inodes[y].nlink >= |s.holders[y]|;
      Counting.SubsetSize(s'.holders[y], s.holders[y]);
    }
  }

  lemma EraseUpAt(s: Fs, p: Place, c: nat)
    requires CanErase(s, p) && c in Erasing(s, p).up && c in s.up && UpAt(s, c)
    ensures UpAt(Erasing(s, p), c)
  {
  }

  lemma EraseUpPlace(s: Fs, p: Place, q: Place)
    requires CanErase(s, p) && UpPlace(s, q)
    ensures UpPlace(Erasing(s, p), q)
  {
  }

  lemma EraseNames(es: seq<Entry>, i: nat)
    requires NamesDiffer(es) && i < |es|
    ensures NamesDiffer(es[i := Entry("", 0)])
  {
  }

  lemma EraseDirs(s: Fs, p: Place)
    requires CanErase(s, p) && UpOk(s) && RootOk(s) && forall d :: IsDir(s, d) ==> DirOk(s, d)
    ensures var s' := Erasing(s, p); (forall d :: IsDir(s', d) ==> DirOk(s', d)) && RootOk(s') && UpOk(s')
  {
    var s' := Erasing(s, p);
    assert DirOk(s, p.0);
    EraseNames(s.inodes[p.0].entries, p.1);
    forall d | IsDir(s', d) ensures DirOk(s', d) {
      assert IsDir(s, d) && DirOk(s, d);
    }
    assert RootOk(s') && forall c :: c in s'.up ==> c in s.up;
    hide Erasing, CanErase, UpAt, UpPlace, DirOk, RootOk;
    forall c | c in s'.up ensures UpAt(s', c) {
      EraseUpAt(s, p, c);
    }
    forall q: Place ensures UpPlace(s', q) {
      EraseUpPlace(s, p, q);
    }
  }

  lemma EraseOk(s: Fs, p: Place)
    requires Inv(s) && CanErase(s, p)
    ensures Inv(Erasing(s, p))
    ensures p in s.holders[Target(s, p)] && (IsDir(s, Target(s, p)) ==> (Target(s, p), 1) in s.holders[p.0])
  {
    EraseHolders(s, p);
    hide HoldersOk, UpOk, RootOk, DirOk;
    EraseDirs(s, p);
  }

  /** What unlink finds can be erased. */
  lemma CanEraseAt(s: Fs, p: Place)
    requires Inv(s) && HasEntry(s, p) && p.1 >= 2
    ensures CanErase(s, p) && Allocated(s, Target(s, p)) && s.inodes[Target(s, p)].nlink >= 1
  {
    assert UpPlace(s, p) && Counts(s, p) == Target(s, p);
    var x := Target(s, p);
    assert p in s.holders[x];
    Counting.SubsetSize({p}, s.holders[x]);
    if IsDir(s, x) {
      assert UpAt(s, x);
    }
  }

  // ----- inodes -----

  /** ialloc and what create writes into the new inode. */
  function Making(s: Fs, x: nat, node: Inode): Fs { s.(inodes := s.inodes[x := node]) }

  predicate Fresh(x: nat, node: Inode) {
    node.nlink >= 0
    && (node.kind.Dir? ==> |node.entries| == 2 && node.entries[0] == Entry(".", x)
                           && node.entries[1].name == ".." && node.entries[1].inum != 0)
  }

  lemma MakeCounts(s: Fs, x: nat, node: Inode, q: Place)
    requires Inv(s) && x in s.inodes && s.inodes[x].kind.Free? && Fresh(x, node)
    ensures Counts(Making(s, x, node), q) == Counts(s, q)
  {
    assert x in s.up ==> UpAt(s, x);
    assert q.0 == x ==> Counts(s, q) == 0;
  }

  lemma MakeOk(s: Fs, x: nat, node: Inode)
    requires Inv(s) && x in s.inodes && s.inodes[x].kind.Free? && Fresh(x, node)
    ensures Inv(Making(s, x, node)) && x in s.holders && s.holders[x] == {} && x !in s.up && x != ROOT
  {
    var s' := Making(s, x, node);
    forall q: Place ensures Counts(s', q) == Counts(s, q) {
      MakeCounts(s, x, node, q);
    }
    assert x in s.up ==> UpAt(s, x);
    assert HoldersOk(s') by {
      hide Counts;
    }
    hide HoldersOk, Counts;
    MakeDirs(s, x, node);
  }

  lemma MakeDirs(s: Fs, x: nat, node: Inode)
    requires Inv(s) && x in s.inodes && s.inodes[x].kind.Free? && Fresh(x, node)
    ensures var s' := Making(s, x, node); (forall d :: IsDir(s', d) ==> DirOk(s', d)) && RootOk(s') && UpOk(s')
  {
    var s' := Making(s, x, node);
    forall d | IsDir(s', d) ensures DirOk(s', d) {
      if d != x {
        assert IsDir(s, d) && DirOk(s, d);
      }
    }
    forall c | c in s'.up ensures UpAt(s', c) {
      assert UpAt(s, c);
    }
    forall q: Place ensures UpPlace(s', q) {
      assert UpPlace(s, q);
      if q.1 >= 2 && HasEntry(s, q) {
        MakePlace(s, x, q);
      }
    }
  }

  /** Nothing that counts names a free inode. */
  lemma MakePlace(s: Fs, x: nat, q: Place)
    requires Inv(s) && x in s.inodes && s.inodes[x].kind.Free? && q.1 >= 2 && HasEntry(s, q)
    ensures Target(s, q) != x
  {
    assert Counts(s, q) == Target(s, q);
    assert x in s.holders;
  }

  /** iput's freeing of an inode without links: its entries are gone. */
  function Unmaking(s: Fs, x: nat): Fs {
    Fs(s.inodes[x := Inode(Free, 0, [])], s.up, map y | y in s.holders :: set p: Place | p in s.holders[y] && p.0 != x)
  }

  /** An inode without links is named by no counted entry; it is not the root, not attached, and nobody's parent. */
  lemma Unnamed(s: Fs, x: nat)
    requires Inv(s) && x in s.inodes && s.inodes[x].nlink == 0
    ensures x in s.holders && s.holders[x] == {} && x != ROOT && x !in s.up && forall c :: c in s.up ==> s.up[c].0 != x
  {
    assert Counts(s, (ROOT, 1)) == ROOT;
    assert x in s.up ==> UpAt(s, x) && Counts(s, s.up[x]) == x;
    forall c | c in s.up ensures s.up[c].0 != x {
      assert UpAt(s, c) && Counts(s, (c, 1)) == s.up[c].0;
    }
  }

  lemma UnmakeCounts(s: Fs, x: nat, q: Place)
    requires x in s.inodes
    ensures Counts(Unmaking(s, x), q) == if q.0 == x then 0 else Counts(s, q)
  {
  }

  lemma UnmakeHolders(s: Fs, x: nat)
    requires HoldersOk(s) && 0 !in s.inodes && x in s.inodes && x in s.holders && s.holders[x] == {}
    ensures HoldersOk(Unmaking(s, x))
  {
    var s' := Unmaking(s, x);
    forall q: Place ensures Counts(s', q) == if q.0 == x then 0 else Counts(s, q) {
      UnmakeCounts(s, x, q);
    }
    hide Counts, Counted;
    forall y | y in s'.holders ensures s'.inodes[y].nlink >= |s'.holders[y]| {
      Counting.SubsetSize(s'.holders[y], s.holders[y]);
    }
  }

  lemma UnmakeOk(s: Fs, x: nat)
    requires Inv(s) && x in s.inodes && s.inodes[x].nlink == 0
    ensures Inv(Unmaking(s, x)) && s.holders[x] == {}
  {
    Unnamed(s, x);
    UnmakeHolders(s, x);
    hide HoldersOk, Counts;
    UnmakeDirs(s, x);
  }

  lemma UnmakeDirs(s: Fs, x: nat)
    requires UpOk(s) && RootOk(s) && (forall d :: IsDir(s, d) ==> DirOk(s, d)) && x in s.inodes && x != ROOT
    requires x !in s.up
    requires forall c :: c in s.up ==> s.up[c].0 != x
    ensures var s' := Unmaking(s, x); (forall d :: IsDir(s', d) ==> DirOk(s', d)) && RootOk(s') && UpOk(s')
  {
    var s' := Unmaking(s, x);
    forall d | IsDir(s', d) ensures DirOk(s', d) {
      assert IsDir(s, d) && DirOk(s, d);
    }
    forall c | c in s'.up ensures UpAt(s', c) {
      assert UpAt(s, c);
    }
    forall q: Place ensures UpPlace(s', q) {
      assert UpPlace(s, q);
    }
  }

  // ----- facts the system calls use -----

  /** The first unused entry lies behind "." and "..", and a new name is neither of them. */
  lemma EntryFree(s: Fs, d: nat, name: string, i: nat)
    requires Inv(s) && IsDir(s, d) && Unused(s.inodes[d].entries, i)
    requires NewName(s.inodes[d].entries, name)
    ensures i >= 2 && name != "." && name != ".."
  {
    assert DirOk(s, d);
    var es := s.inodes[d].entries;
    assert d != 0;
    assert es[0].inum != 0 && es[1].inum != 0;
  }

  /** Entering, erasing and counting links neither allocate nor free. */
  predicate SameKinds(s: Fs, s': Fs) {
    && s'.inodes.Keys == s.inodes.Keys
    && (forall x :: x in s.inodes && x in s'.inodes ==>
          s'.inodes[x].kind == s.inodes[x].kind && (s.inodes[x].kind.Free? ==> s'.inodes[x] == s.inodes[x]))
  }

  lemma EnterSame(s: Fs, p: Place, name: string, x: nat)
    requires CanEnter(s, p, name, x)
    ensures SameKinds(s, Entering(s, p, name, x))
  {
  }

  /** No directory, attached or not, has two entries of one name. */
  lemma OneEntry(s: Fs, d: nat, i: nat, j: nat)
    requires Inv(s) && HasEntry(s, (d, i)) && HasEntry(s, (d, j))
    requires s.inodes[d].entries[i].name == s.inodes[d].entries[j].name
    ensures i == j
  {
    assert DirOk(s, d);
  }

  lemma HoldersKnown(s: Fs, x: nat)
    requires Inv(s) && x in s.inodes
    ensures x in s.holders && s.inodes[x].nlink >= |s.holders[x]| && x != 0
  {
  }

  lemma DirShape(s: Fs, d: nat)
    requires Inv(s) && IsDir(s, d)
    ensures |s.inodes[d].entries| >= 2 && s.inodes[d].entries[0].name == "." && s.inodes[d].entries[1].name == ".."
    ensures HasEntry(s, (d, 1))
  {
    assert DirOk(s, d);
  }

  lemma SameAllocated(s: Fs, s': Fs, x: nat)
    requires SameKinds(s, s')
    ensures Allocated(s', x) <==> Allocated(s, x)
  {
    assert x in s.inodes.Keys <==> x in s'.inodes.Keys;
  }
}
