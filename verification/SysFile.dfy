/**
 create, link and unlink (sysfile.c) with the directory operations of fs.c they use. A call is given the
 directory and inode that path lookup has found, with the references it holds; other processes may hold
 references too, so a directory may have been removed already. wrote says whether a writei succeeds.
 */
module SysFile {
  import Counting
  import opened DirTree
  import opened LinkCount

  /** The entry at p erased; the parent of a directory loses a link. */
  function Detached(s: Fs, p: Place): Fs
    requires CanErase(s, p)
  {
    var s1 := Erasing(s, p);
    if IsDir(s, Target(s, p)) then SetLinks(s1, p.0, s.inodes[p.0].nlink - 1) else s1
  }

  /** What the entry named loses a link too. */
  function Removal(s: Fs, p: Place): Fs
    requires CanErase(s, p) && Target(s, p) in s.inodes
  {
    SetLinks(Detached(s, p), Target(s, p), s.inodes[Target(s, p)].nlink - 1)
  }

  /** The tree after one of refs references to x is dropped. */
  function Released(s: Fs, refs: nat, x: nat): Fs {
    if refs == 1 && x in s.inodes && s.inodes[x].nlink == 0 then Unmaking(s, x) else s
  }

  lemma ReleasedNot(s: Fs, refs: nat, x: nat)
    requires x in s.inodes && s.inodes[x].nlink != 0
    ensures Released(s, refs, x) == s
  {
  }

  /** Dropping a reference to d does not touch another inode, and takes it no holder it needs. */
  lemma ReleasedOther(s: Fs, refs: nat, d: nat, x: nat, k: int)
    requires x != d && x in s.inodes && x in s.holders
    ensures var s' := Released(s, refs, d);
            && x in s'.inodes && s'.inodes[x] == s.inodes[x] && x in s'.holders && |s'.holders[x]| <= |s.holders[x]|
            && SetLinks(s', x, k) == Released(SetLinks(s, x, k), refs, d)
  {
    var s' := Released(s, refs, d);
    Counting.SubsetSize(s'.holders[x], s.holders[x]);
    assert s.inodes[d := Inode(Free, 0, [])][x := s.inodes[x].(nlink := k)] ==
           s.inodes[x := s.inodes[x].(nlink := k)][d := Inode(Free, 0, [])];
  }

  lemma ErasedSizes(s: Fs, p: Place)
    requires Inv(s) && CanErase(s, p)
    ensures var (s1, x) := (Erasing(s, p), Target(s, p));
            && Inv(s1) && SameKinds(s, s1) && x in s.inodes && p.0 in s.inodes && x in s1.inodes && p.0 in s1.inodes
            && x in s1.holders && p.0 in s1.holders && s.inodes[x].nlink - 1 >= |s1.holders[x]|
            && (IsDir(s, x) ==> s.inodes[p.0].nlink - 1 >= |s1.holders[p.0]|)
  {
    hide Inv, UpAt;
    EraseOk(s, p);
    var x := Target(s, p);
    HoldersIn(s, x);
    HoldersKnown(s, x);
    HoldersKnown(s, p.0);
    OneLess(s.holders[x], p);
    if IsDir(s, x) {
      OneLess(s.holders[p.0], (x, 1));
    }
  }

  lemma HoldersIn(s: Fs, x: nat)
    requires Inv(s) && x in s.holders
    ensures x in s.inodes
  {
  }

  lemma LinksSame(s: Fs, x: nat, k: int)
    requires Allocated(s, x)
    ensures SameKinds(s, SetLinks(s, x, k)) && SetLinks(s, x, k).holders == s.holders
  {
  }

  lemma KindsTrans(s: Fs, s1: Fs, s2: Fs)
    requires SameKinds(s, s1) && SameKinds(s1, s2)
    ensures SameKinds(s, s2)
  {
    assert forall x :: x in s.inodes <==> x in s.inodes.Keys;
    assert forall x :: x in s1.inodes <==> x in s1.inodes.Keys;
  }

  lemma DetachedOk(s: Fs, p: Place, s': Fs)
    requires Inv(s) && CanErase(s, p) && s' == Detached(s, p)
    ensures Inv(s') && SameKinds(s, s') && Allocated(s, Target(s, p))
    ensures var x := Target(s, p);
            x in s'.inodes && s'.inodes[x] == s.inodes[x] && x in s'.holders && s.inodes[x].nlink - 1 >= |s'.holders[x]|
  {
    hide Inv, Erasing, SameKinds, UpAt;
    ErasedSizes(s, p);
    CanEraseAt(s, p);
    var s1, x := Erasing(s, p), Target(s, p);
    ErasedOther(s, p);
    if IsDir(s, x) {
      SetLinksOk(s1, p.0, s.inodes[p.0].nlink - 1);
      SameAllocated(s, s1, p.0);
      LinksSame(s1, p.0, s.inodes[p.0].nlink - 1);
      KindsTrans(s, s1, s');
    }
  }

  lemma ErasedOther(s: Fs, p: Place)
    requires CanErase(s, p)
    ensures forall x :: x in s.inodes && x != p.0 ==>
              x in Erasing(s, p).inodes && Erasing(s, p).inodes[x] == s.inodes[x]
  {
  }

  /** The tree, its size, and references to allocated inodes only. */
  ghost predicate Good(n: nat, s: Fs, ref: map<nat, nat>) {
    && Inv(s) && (forall x :: x in s.inodes <==> 1 <= x < n) && (forall x :: x in ref <==> 1 <= x < n)
    && (forall x :: x in ref && ref[x] > 0 ==> Allocated(s, x))
    && (forall x :: x in s.inodes && s.inodes[x].kind.Free? ==> s.inodes[x] == Inode(Free, 0, []))
  }

  lemma GoodSame(n: nat, s: Fs, s': Fs, ref: map<nat, nat>)
    requires Good(n, s, ref) && Inv(s') && SameKinds(s, s')
    ensures Good(n, s', ref)
  {
    hide Inv;
    assert forall x :: x in s.inodes <==> x in s.inodes.Keys;
    assert forall x :: x in s'.inodes <==> x in s'.inodes.Keys;
  }

  lemma GoodUnmake(n: nat, s: Fs, ref: map<nat, nat>, x: nat)
    requires Good(n, s, ref) && x in ref && ref[x] == 1 && x in s.inodes && s.inodes[x].nlink == 0
    ensures Good(n, Unmaking(s, x), ref[x := 0]) && x in s.holders && s.holders[x] == {}
  {
    UnmakeOk(s, x);
    HoldersKnown(s, x);
    hide Inv;
  }

  /** An inode without links is in memory, referenced and read in, so that iput will free it. */
  ghost predicate NoOrphans(s: Fs, ref: map<nat, nat>, valid: set<nat>) {
    forall x :: Allocated(s, x) && s.inodes[x].nlink == 0 ==> x in valid && x in ref && ref[x] > 0
  }

  /** Nothing has newly lost its last link but y, which is in memory. */
  lemma OrphansLess(s: Fs, s': Fs, ref: map<nat, nat>, valid: set<nat>, y: nat)
    requires NoOrphans(s, ref, valid)
    requires forall x :: Allocated(s', x) && s'.inodes[x].nlink == 0 && x != y ==>
               Allocated(s, x) && s.inodes[x].nlink == 0
    requires Allocated(s', y) && s'.inodes[y].nlink == 0 ==> y in valid && y in ref && ref[y] > 0
    ensures NoOrphans(s', ref, valid)
  {
  }

  lemma OrphansEnter(s: Fs, p: Place, name: string, x: nat, ref: map<nat, nat>, valid: set<nat>)
    requires NoOrphans(s, ref, valid) && CanEnter(s, p, name, x)
    ensures NoOrphans(Entering(s, p, name, x), ref, valid)
  {
  }

  lemma OrphansExpect(s: Fs, dp: nat, x: nat, ref: map<nat, nat>, valid: set<nat>)
    requires NoOrphans(s, ref, valid) && dp in s.inodes && s.inodes[dp].nlink >= 0
    ensures NoOrphans(Expecting(s, dp, x), ref, valid)
  {
  }

  lemma EnterReady(n: nat, s: Fs, ref: map<nat, nat>, p: Place, name: string, x: nat)
    requires Good(n, s, ref) && CanEnter(s, p, name, x)
    ensures Good(n, Entering(s, p, name, x), ref)
  {
    hide Inv, Entering;
    EnterOk(s, p, name, x);
    EnterSame(s, p, name, x);
    GoodSame(n, s, Entering(s, p, name, x), ref);
  }

  lemma OrphansDetach(s: Fs, p: Place, ref: map<nat, nat>, valid: set<nat>)
    requires NoOrphans(s, ref, valid) && CanErase(s, p) && p.0 in valid && p.0 in ref && ref[p.0] > 0
    ensures NoOrphans(Detached(s, p), ref, valid)
  {
    hide UpAt;
  }

  /** iget keeps both. */
  lemma IgetOk(n: nat, s: Fs, ref: map<nat, nat>, valid: set<nat>, x: nat)
    requires Good(n, s, ref) && NoOrphans(s, ref, valid) && Allocated(s, x) && x in ref
    ensures Good(n, s, ref[x := ref[x] + 1])
    ensures NoOrphans(s, ref[x := ref[x] + 1], if ref[x] == 0 then valid - {x} else valid)
  {
    hide Inv;
  }

  /** So does iput. */
  lemma IputOk(n: nat, s: Fs, ref: map<nat, nat>, valid: set<nat>, x: nat)
    requires Good(n, s, ref) && NoOrphans(s, ref, valid) && x in ref && ref[x] > 0
    ensures x in s.inodes && (s.inodes[x].nlink == 0 ==> x in valid)
    ensures ref[x] == 1 && s.inodes[x].nlink == 0 ==> x in s.holders && s.holders[x] == {}
    ensures Good(n, Released(s, ref[x], x), ref[x := ref[x] - 1])
    ensures NoOrphans(Released(s, ref[x], x), ref[x := ref[x] - 1],
                      if ref[x] == 1 && s.inodes[x].nlink == 0 then valid - {x} else valid)
  {
    hide Inv;
    if ref[x] == 1 && s.inodes[x].nlink == 0 {
      GoodUnmake(n, s, ref, x);
    }
  }

  ghost predicate AnyFree(s: Fs) { exists y :: y in s.inodes && s.inodes[y].kind.Free? }

  function NewNode(kind: Kind, x: nat, dp: nat): Inode {
    Inode(kind, 1, if kind.Dir? then [Entry(".", x), Entry("..", dp)] else [])
  }

  /** Making an inode and freeing it again changes nothing. */
  lemma MadeInVain(n: nat, s: Fs, ref: map<nat, nat>, x: nat, node: Inode)
    requires Good(n, s, ref) && x in s.inodes && s.inodes[x].kind.Free?
    ensures Unmaking(SetLinks(Making(s, x, node), x, 0), x) == s
  {
    var s' := Unmaking(SetLinks(Making(s, x, node), x, 0), x);
    forall y | y in s.holders ensures s'.holders[y] == s.holders[y] {
      forall p: Place | p in s.holders[y] ensures p.0 != x {
        assert y in s.inodes;
        assert Counts(s, p) == y;
      }
    }
    assert s'.inodes == s.inodes;
  }

  lemma GoodMake(n: nat, s: Fs, ref: map<nat, nat>, x: nat, node: Inode)
    requires Good(n, s, ref) && x in s.inodes && s.inodes[x].kind.Free? && Fresh(x, node)
    requires node.kind.Free? ==> node == Inode(Free, 0, [])
    ensures Good(n, Making(s, x, node), ref)
    ensures x in s.holders && s.holders[x] == {} && x !in s.up && x != ROOT && x in ref && ref[x] == 0
    ensures s.inodes[x] == Inode(Free, 0, [])
  {
    hide Inv;
    MakeOk(s, x, node);
  }

  lemma OrphansMake(s: Fs, x: nat, node: Inode, ref: map<nat, nat>, valid: set<nat>)
    requires NoOrphans(s, ref, valid) && (node.nlink > 0 || node.kind.Free?)
    ensures NoOrphans(Making(s, x, node), ref, valid)
  {
  }

  /** A directory about to get a subdirectory gets the link for its ".." first. */
  function Expecting(s: Fs, dp: nat, x: nat): Fs
    requires dp in s.inodes
  {
    if IsDir(s, x) then SetLinks(s, dp, s.inodes[dp].nlink + 1) else s
  }

  lemma ExpectingOk(n: nat, s: Fs, ref: map<nat, nat>, dp: nat, x: nat)
    requires Good(n, s, ref) && IsDir(s, dp)
    ensures var s1 := Expecting(s, dp, x);
            Good(n, s1, ref) && dp in s1.holders && s1.holders == s.holders && s1.up == s.up && SameKinds(s, s1)
            && (IsDir(s, x) ==> dp in s1.inodes && s1.inodes[dp].nlink > |s1.holders[dp]|)
  {
    hide Inv;
    HoldersKnown(s, dp);
    if IsDir(s, x) {
      SetLinksOk(s, dp, s.inodes[dp].nlink + 1);
      LinksSame(s, dp, s.inodes[dp].nlink + 1);
      GoodSame(n, s, SetLinks(s, dp, s.inodes[dp].nlink + 1), ref);
    }
  }

  /** create's last step: the link for "..", then the entry. */
  lemma EnterExpected(n: nat, s: Fs, ref: map<nat, nat>, valid: set<nat>, p: Place, name: string, x: nat)
    requires Good(n, s, ref) && NoOrphans(s, ref, valid) && IsDir(s, p.0) && Unused(s.inodes[p.0].entries, p.1)
    requires NewName(s.inodes[p.0].entries, name)
    requires Allocated(s, x) && x in s.holders && s.inodes[x].nlink > |s.holders[x]|
    requires IsDir(s, x) ==> x !in s.up && x != ROOT && x != p.0 && HasEntry(s, (x, 1)) && Target(s, (x, 1)) == p.0
    ensures CanEnter(Expecting(s, p.0, x), p, name, x)
    ensures var s' := Entering(Expecting(s, p.0, x), p, name, x);
            && Good(n, s', ref) && NoOrphans(s', ref, valid)
            && var d := s.inodes[p.0];
               s'.inodes == s.inodes[p.0 := d.(entries := Entered(d.entries, p.1, Entry(name, x)),
                                               nlink := d.nlink + if IsDir(s, x) then 1 else 0)]
  {
    hide Inv, NoOrphans, SameKinds;
    var s1 := Expecting(s, p.0, x);
    ExpectingOk(n, s, ref, p.0, x);
    EntryFree(s, p.0, name, p.1);
    HoldersKnown(s, x);
    HoldersKnown(s, p.0);
    OrphansExpect(s, p.0, x, ref, valid);
    assert CanEnter(s1, p, name, x);
    EnterReady(n, s1, ref, p, name, x);
    OrphansEnter(s1, p, name, x, ref, valid);
  }

  /**
   create finds its name taken, by x: that is the result, now referenced, if it may be opened as a file; if
   not, its reference is dropped again. The directory's reference is dropped either way.
   */
  ghost predicate Found(s: Fs, ref: map<nat, nat>, dp: nat, x: nat, kind: Kind, ip: nat, s': Fs, ref': map<nat, nat>) {
    && x in ref && dp in ref && ref[dp] > 0 && ip == (if kind.File? && Opens(s, x) then x else 0)
    && var r := ref[x := ref[x] + 1];
       var s1, r1 := Released(s, r[dp], dp), r[dp := r[dp] - 1];
       if ip != 0 then s' == s1 && ref' == r1
       else r1[x] > 0 && s' == Released(s1, r1[x], x) && ref' == r1[x := r1[x] - 1]
  }

  lemma EnteredLinks(s: Fs, p: Place, name: string, x: nat, y: nat)
    requires CanEnter(s, p, name, x) && y in s.inodes
    ensures y in Entering(s, p, name, x).inodes && Entering(s, p, name, x).inodes[y].nlink == s.inodes[y].nlink
    ensures Entering(s, p, name, x).inodes[y].kind == s.inodes[y].kind
  {
  }

  lemma LinksBack(s: Fs, x: nat, k: int)
    requires x in s.inodes
    ensures SetLinks(SetLinks(s, x, k), x, s.inodes[x].nlink) == s
  {
    assert SetLinks(SetLinks(s, x, k), x, s.inodes[x].nlink).inodes == s.inodes;
  }

  /** What open may be given to write to. */
  predicate Opens(s: Fs, x: nat) { x in s.inodes && (s.inodes[x].kind.File? || s.inodes[x].kind.Device?) }

  /** A new inode ip with one link is entered in dp under name, ip is referenced, and dp no longer is. */
  ghost predicate Created(s: Fs, ref: map<nat, nat>, dp: nat, name: string, kind: Kind, ip: nat, p: Place, s': Fs,
                          ref': map<nat, nat>) {
    && ip in s.inodes && s.inodes[ip].kind.Free? && dp in s.inodes && dp in ref && ref[dp] > 0 && dp != ip
    && var s1 := Making(s, ip, NewNode(kind, ip, dp));
       var s2 := Expecting(s1, dp, ip);
       && p.0 == dp && CanEnter(s2, p, name, ip) && s' == Released(Entering(s2, p, name, ip), ref[dp], dp)
       && ref' == ref[ip := 1][dp := ref[dp] - 1]
  }

  // ----- what the calls leave, inode by inode -----

  /** An inode after one of refs references to it is dropped. */
  function Dropped(node: Inode, refs: nat): Inode {
    if refs == 1 && node.nlink == 0 then Inode(Free, 0, []) else node
  }

  lemma ReleasedNode(s: Fs, refs: nat, x: nat)
    requires x in s.inodes
    ensures Released(s, refs, x).inodes == s.inodes[x := Dropped(s.inodes[x], refs)]
  {
    assert s.inodes[x := s.inodes[x]] == s.inodes;
  }

  /** A directory without its entry i, and without a link if a directory was entered there. */
  function Erased(d: Inode, i: nat, dir: bool): Inode
    requires i < |d.entries|
  {
    d.(entries := d.entries[i := Entry("", 0)], nlink := d.nlink - if dir then 1 else 0)
  }

  /** A directory with one entry more, and a link more if a directory is entered. */
  function Gained(d: Inode, i: nat, name: string, x: nat, dir: bool): Inode
    requires i <= |d.entries|
  {
    d.(entries := Entered(d.entries, i, Entry(name, x)), nlink := d.nlink + if dir then 1 else 0)
  }

  /** Nothing but the inodes x and y may differ. */
  ghost predicate OnlyTwo(nodes: map<nat, Inode>, x: nat, y: nat, nodes': map<nat, Inode>) {
    nodes'.Keys == nodes.Keys && forall z :: z in nodes && z in nodes' && z != x && z != y ==> nodes'[z] == nodes[z]
  }

  /**
   Entry i of dp is gone, and with it a link of x, which it named: x is free now if that was its only link and
   nobody has a reference to it. If x is a directory, dp has lost the link of its "..". dp's reference is dropped.
   */
  ghost predicate Unlinked(nodes: map<nat, Inode>, ref: map<nat, nat>, dp: nat, i: nat, x: nat,
                           nodes': map<nat, Inode>) {
    && dp in nodes && x in nodes && dp in nodes' && x in nodes' && dp in ref && x in ref && i < |nodes[dp].entries|
    && OnlyTwo(nodes, x, dp, nodes')
    && nodes'[x] == (if nodes[x].nlink == 1 && ref[x] == 0 then Inode(Free, 0, [])
                     else nodes[x].(nlink := nodes[x].nlink - 1))
    && nodes'[dp] == Dropped(Erased(nodes[dp], i, nodes[x].kind.Dir?), ref[dp])
  }

  /** The free inode x has become one of this kind with one link, entered in dp at i. dp's reference is dropped. */
  ghost predicate MadeIn(nodes: map<nat, Inode>, ref: map<nat, nat>, dp: nat, i: nat, name: string, kind: Kind, x: nat,
                         nodes': map<nat, Inode>) {
    && dp in nodes && x in nodes && dp in nodes' && x in nodes' && dp in ref && Unused(nodes[dp].entries, i)
    && OnlyTwo(nodes, x, dp, nodes') && nodes[x].kind.Free?
    && nodes'[x] == Inode(kind, 1, if kind.Dir? then [Entry(".", x), Entry("..", dp)] else [])
    && nodes'[dp] == Dropped(Gained(nodes[dp], i, name, x, kind.Dir?), ref[dp])
  }

  /** x is entered in dp at i, and has a link more. dp's reference is dropped. */
  ghost predicate LinkedIn(nodes: map<nat, Inode>, ref: map<nat, nat>, dp: nat, i: nat, name: string, x: nat,
                           nodes': map<nat, Inode>) {
    && dp in nodes && x in nodes && dp in nodes' && x in nodes' && dp in ref && Unused(nodes[dp].entries, i)
    && OnlyTwo(nodes, x, dp, nodes') && nodes'[x] == nodes[x].(nlink := nodes[x].nlink + 1)
    && nodes'[dp] == Dropped(Gained(nodes[dp], i, name, x, false), ref[dp])
  }

  lemma RemovalInodes(s: Fs, p: Place)
    requires CanErase(s, p) && Target(s, p) in s.inodes
    ensures var x := Target(s, p);
            && x != p.0 && HasEntry(s, p) && p.1 >= 2
            && Removal(s, p).inodes == s.inodes[p.0 := Erased(s.inodes[p.0], p.1, s.inodes[x].kind.Dir?)]
                                               [x := s.inodes[x].(nlink := s.inodes[x].nlink - 1)]
  {
    hide UpAt;
  }

  lemma RemovalNodes(s: Fs, p: Place, ref: map<nat, nat>)
    requires Inv(s) && CanErase(s, p) && Target(s, p) in s.inodes && p.0 in ref && Target(s, p) in ref
    ensures var x := Target(s, p);
            Unlinked(s.inodes, ref, p.0, p.1, x, Released(Released(Removal(s, p), ref[p.0], p.0), ref[x] + 1, x).inodes)
  {
    hide Inv, Released, Removal, CanErase;
    RemovalInodes(s, p);
    CanEraseAt(s, p);
    var x, s1 := Target(s, p), Removal(s, p);
    ReleasedNode(s1, ref[p.0], p.0);
    ReleasedNode(Released(s1, ref[p.0], p.0), ref[x] + 1, x);
  }

  /** Since names do not repeat, the name is not there any more. */
  lemma NameGone(s: Fs, p: Place, nodes: map<nat, Inode>, ref: map<nat, nat>)
    requires Inv(s) && HasEntry(s, p) && Unlinked(s.inodes, ref, p.0, p.1, Target(s, p), nodes) && Target(s, p) != p.0
    ensures p.0 in nodes && (!nodes[p.0].kind.Free? ==> NewName(nodes[p.0].entries, s.inodes[p.0].entries[p.1].name))
  {
    assert DirOk(s, p.0);
  }

  lemma CreatedNodes(s: Fs, ref: map<nat, nat>, dp: nat, name: string, kind: Kind, ip: nat, p: Place, s': Fs,
                     ref': map<nat, nat>)
    requires Created(s, ref, dp, name, kind, ip, p, s', ref')
    ensures MadeIn(s.inodes, ref, dp, p.1, name, kind, ip, s'.inodes)
  {
    hide Released;
    var s2 := Expecting(Making(s, ip, NewNode(kind, ip, dp)), dp, ip);
    ReleasedNode(Entering(s2, p, name, ip), ref[dp], dp);
  }

  /** Nothing has happened but that references to ip, and to dp if it is not 0, were dropped. */
  ghost predicate Unchanged(s: Fs, ref: map<nat, nat>, ip: nat, dp: nat, s': Fs) {
    && ip in s.inodes && ip in ref && (dp != 0 ==> dp in s.inodes && dp in ref && dp != ip)
    && s'.inodes == (if dp != 0 then s.inodes[dp := Dropped(s.inodes[dp], ref[dp])] else s.inodes)
                    [ip := Dropped(s.inodes[ip], ref[ip])]
    && (SameSurplus(s, s') <==>
          !Strands(s.inodes[ip], ref[ip]) && (dp != 0 ==> !Strands(s.inodes[dp], ref[dp])))
  }

  lemma UnchangedOne(s: Fs, ref: map<nat, nat>, ip: nat)
    requires Inv(s) && ip in s.inodes && ip in ref
    ensures Unchanged(s, ref, ip, 0, Released(s, ref[ip], ip))
  {
    hide Inv, Released, SameSurplus, Strands, Dropped;
    ReleasedNode(s, ref[ip], ip);
    ReleasedExact(s, ref[ip], ip);
  }

  lemma UnchangedTwo(s: Fs, ref: map<nat, nat>, ip: nat, dp: nat)
    requires Inv(s) && ip in s.inodes && ip in ref && dp in s.inodes && dp in ref && dp != 0
    requires IsDir(s, dp) && !IsDir(s, ip)
    ensures Unchanged(s, ref, ip, dp, Released(Released(s, ref[dp], dp), ref[ip], ip))
  {
    hide Inv, Released, SameSurplus, Strands, Dropped;
    var s1 := Released(s, ref[dp], dp);
    ReleasedNode(s, ref[dp], dp);
    ReleasedExact(s, ref[dp], dp);
    ReleasedNode(s1, ref[ip], ip);
    ReleasedExact(s1, ref[ip], ip);
    NotStranded(s.inodes[ip], ref[ip]);
    SurplusEnd(s, s1, Released(s1, ref[ip], ip));
  }

  /** A name that is there costs nothing but the reference to the directory. */
  lemma FoundExact(s: Fs, ref: map<nat, nat>, valid: set<nat>, dp: nat, x: nat, kind: Kind, ip: nat, s': Fs,
                   ref': map<nat, nat>)
    requires Inv(s) && NoOrphans(s, ref, valid) && Found(s, ref, dp, x, kind, ip, s', ref') && Allocated(s, x)
    requires IsDir(s, dp)
    ensures s'.inodes == s.inodes[dp := Dropped(s.inodes[dp], ref[dp])]
    ensures SameSurplus(s, s') <==> !Strands(s.inodes[dp], ref[dp])
  {
    hide Inv, SameSurplus, Strands, Unmaking;
    ReleasedNode(s, ref[dp], dp);
    ReleasedExact(s, ref[dp], dp);
  }

  lemma LinkedNodes(s: Fs, ref: map<nat, nat>, ip: nat, name: string, p: Place)
    requires ip in s.inodes && !IsDir(s, ip) && p.0 in ref
    requires CanEnter(SetLinks(s, ip, s.inodes[ip].nlink + 1), p, name, ip)
    ensures var s1 := SetLinks(s, ip, s.inodes[ip].nlink + 1);
            LinkedIn(s.inodes, ref, p.0, p.1, name, ip, Released(Entering(s1, p, name, ip), ref[p.0], p.0).inodes)
  {
    hide Released;
    ReleasedNode(Entering(SetLinks(s, ip, s.inodes[ip].nlink + 1), p, name, ip), ref[p.0], p.0);
  }

  // ----- links against entries -----

  lemma ReleasedExact(s: Fs, refs: nat, x: nat)
    requires Inv(s) && x in s.inodes
    ensures Inv(Released(s, refs, x))
    ensures SameSurplus(s, Released(s, refs, x)) <==> !Strands(s.inodes[x], refs)
  {
    hide Inv, Unmaking, SameSurplus;
    if refs == 1 && s.inodes[x].nlink == 0 {
      UnmakeOk(s, x);
      UnmakeExact(s, x);
    } else {
      SurplusRefl(s);
    }
  }

  lemma SurplusRefl(s: Fs)
    ensures SameSurplus(s, s)
  {
  }

  lemma RemovalSurplus(s: Fs, p: Place)
    requires Inv(s) && CanErase(s, p) && Target(s, p) in s.inodes
    ensures Inv(Removal(s, p)) && SameSurplus(s, Removal(s, p))
  {
    hide Inv, UpAt, Erasing, SameKinds, Surplus;
    var x, s1 := Target(s, p), Erasing(s, p);
    ErasedSizes(s, p);
    DetachedOk(s, p, Detached(s, p));
    SetLinksOk(Detached(s, p), x, s.inodes[x].nlink - 1);
    forall y: nat ensures Surplus(Removal(s, p), y) == Surplus(s, y) {
      EraseSurplus(s, p, y);
      RemovalAt(s, p, y);
    }
  }

  lemma RemovalAt(s: Fs, p: Place, y: nat)
    requires Inv(s) && CanErase(s, p) && Target(s, p) in s.inodes
    requires Target(s, p) in Erasing(s, p).holders && p.0 in Erasing(s, p).holders
    ensures var given := if y == Target(s, p) || (IsDir(s, Target(s, p)) && y == p.0) then 1 else 0;
            Surplus(Removal(s, p), y) == Surplus(Erasing(s, p), y) - given
  {
    hide Inv, UpAt;
  }

  /** What unlink leaves, but for a directory freed with entries in it. */
  lemma UnlinkSurplus(s: Fs, p: Place, refs: nat, refs': nat)
    requires Inv(s) && CanErase(s, p) && Target(s, p) in s.inodes
    requires IsDir(s, Target(s, p)) ==> EmptyDir(s.inodes[Target(s, p)].entries)
    ensures var x := Target(s, p);
            SameSurplus(s, Released(Released(Removal(s, p), refs, p.0), refs', x)) <==>
              !Strands(Erased(s.inodes[p.0], p.1, s.inodes[x].kind.Dir?), refs)
  {
    hide Inv, UpAt, Released, SameSurplus, Strands;
    var x, s1 := Target(s, p), Removal(s, p);
    var s2 := Released(s1, refs, p.0);
    RemovalSurplus(s, p);
    ReleasedExact(s1, refs, p.0);
    ReleasedNode(s1, refs, p.0);
    ReleasedExact(s2, refs', x);
    NotStranded(s2.inodes[x], refs');
    SurplusTrans(s, s1, s2);
    SurplusEnd(s, s2, Released(s2, refs', x));
  }

  lemma NotStranded(node: Inode, refs: nat)
    requires node.kind.Dir? ==> EmptyDir(node.entries)
    ensures !Strands(node, refs)
  {
  }

  lemma CreatedSurplus(s: Fs, ref: map<nat, nat>, dp: nat, name: string, kind: Kind, ip: nat, p: Place, s': Fs,
                       ref': map<nat, nat>)
    requires Inv(s) && Created(s, ref, dp, name, kind, ip, p, s', ref') && s.inodes[ip] == Inode(Free, 0, [])
    requires !kind.Free? && p.1 <= |s.inodes[dp].entries|
    ensures SameSurplus(s, s') <==> !Strands(Gained(s.inodes[dp], p.1, name, ip, kind.Dir?), ref[dp])
  {
    hide Inv, Released, SameSurplus, Strands, Entering, CanEnter;
    var s1 := Making(s, ip, NewNode(kind, ip, dp));
    var s2 := Expecting(s1, dp, ip);
    EnteredNode(s2, p, name, ip);
    var s3 := Entering(s2, p, name, ip);
    NewFresh(s, dp, kind, ip);
    MakeOk(s, ip, NewNode(kind, ip, dp));
    ExpectingInv(s1, dp, ip);
    EnterOk(s2, p, name, ip);
    CreatedAll(s, dp, name, kind, ip, p);
    ReleasedExact(s3, ref[dp], dp);
    SurplusTrans(s, s3, s');
  }

  lemma CreatedBlank(n: nat, s: Fs, ref: map<nat, nat>, dp: nat, name: string, kind: Kind, ip: nat, p: Place, s': Fs,
                     ref': map<nat, nat>)
    requires Good(n, s, ref) && Created(s, ref, dp, name, kind, ip, p, s', ref')
    ensures ip in s.inodes && s.inodes[ip] == Inode(Free, 0, []) && dp in s.inodes && p.1 <= |s.inodes[dp].entries|
  {
    hide Inv;
  }

  lemma NewFresh(s: Fs, dp: nat, kind: Kind, ip: nat)
    requires Inv(s) && dp in s.inodes
    ensures Fresh(ip, NewNode(kind, ip, dp))
  {
  }

  lemma ExpectingInv(s: Fs, dp: nat, x: nat)
    requires Inv(s) && dp in s.inodes
    ensures Inv(Expecting(s, dp, x)) && dp in s.holders
  {
    hide Inv;
    HoldersKnown(s, dp);
    if IsDir(s, x) {
      SetLinksOk(s, dp, s.inodes[dp].nlink + 1);
    }
  }

  lemma EnteredNode(s: Fs, p: Place, name: string, x: nat)
    requires CanEnter(s, p, name, x)
    ensures IsDir(s, p.0) && p.1 <= |s.inodes[p.0].entries| && x in s.inodes && x in s.holders && p.0 in s.holders
    ensures Entering(s, p, name, x).inodes ==
              s.inodes[p.0 := s.inodes[p.0].(entries := Entered(s.inodes[p.0].entries, p.1, Entry(name, x)))]
  {
  }

  /** The new inode's link and its directory's link are taken up by the entry and by "..". */
  lemma CreatedAll(s: Fs, dp: nat, name: string, kind: Kind, ip: nat, p: Place)
    requires Inv(s) && dp in s.inodes && dp != ip && ip in s.inodes && s.inodes[ip] == Inode(Free, 0, [])
    requires p.0 == dp && ip in s.holders && s.holders[ip] == {} && !kind.Free?
    requires var s2 := Expecting(Making(s, ip, NewNode(kind, ip, dp)), dp, ip);
             Inv(s2) && CanEnter(s2, p, name, ip)
    ensures var s2 := Expecting(Making(s, ip, NewNode(kind, ip, dp)), dp, ip);
            SameSurplus(s, Entering(s2, p, name, ip))
  {
    hide Inv, CanEnter, Entering;
    var s2 := Expecting(Making(s, ip, NewNode(kind, ip, dp)), dp, ip);
    HoldersKnown(s, dp);
    EnteredNode(s2, p, name, ip);
    forall y: nat ensures Surplus(Entering(s2, p, name, ip), y) == Surplus(s, y) {
      EnterSurplus(s2, p, name, ip, y);
    }
  }

  lemma LinkedSurplus(s: Fs, ip: nat, name: string, p: Place, refs: nat)
    requires Inv(s) && ip in s.inodes && !IsDir(s, ip) && Allocated(s, ip)
    requires CanEnter(SetLinks(s, ip, s.inodes[ip].nlink + 1), p, name, ip)
    ensures var s1 := SetLinks(s, ip, s.inodes[ip].nlink + 1);
            && p.0 in s.inodes && p.1 <= |s.inodes[p.0].entries|
            && (SameSurplus(s, Released(Entering(s1, p, name, ip), refs, p.0)) <==>
                  !Strands(Gained(s.inodes[p.0], p.1, name, ip, false), refs))
  {
    hide Inv, Released, SameSurplus, Strands, Entering, CanEnter;
    var s1 := SetLinks(s, ip, s.inodes[ip].nlink + 1);
    HoldersKnown(s, ip);
    SetLinksOk(s, ip, s.inodes[ip].nlink + 1);
    EnterOk(s1, p, name, ip);
    EnteredNode(s1, p, name, ip);
    LinkedAll(s, ip, name, p);
    ReleasedExact(Entering(s1, p, name, ip), refs, p.0);
    SurplusTrans(s, Entering(s1, p, name, ip), Released(Entering(s1, p, name, ip), refs, p.0));
  }

  lemma LinkedAll(s: Fs, ip: nat, name: string, p: Place)
    requires Inv(s) && ip in s.inodes && !IsDir(s, ip) && ip in s.holders
    requires var s1 := SetLinks(s, ip, s.inodes[ip].nlink + 1); Inv(s1) && CanEnter(s1, p, name, ip)
    ensures SameSurplus(s, Entering(SetLinks(s, ip, s.inodes[ip].nlink + 1), p, name, ip))
  {
    hide Inv, CanEnter, Entering;
    var s1 := SetLinks(s, ip, s.inodes[ip].nlink + 1);
    EnteredNode(s1, p, name, ip);
    forall y: nat ensures Surplus(Entering(s1, p, name, ip), y) == Surplus(s, y) {
      EnterSurplus(s1, p, name, ip, y);
    }
  }

  /** Only the ".." of a removed directory can name a free inode. */
  lemma NamesAllocated(s: Fs, d: nat, i: nat)
    requires Inv(s) && HasEntry(s, (d, i))
    ensures Allocated(s, Target(s, (d, i))) || (i == 1 && !Attached(s, d))
  {
    assert DirOk(s, d);
    if Counted(s, (d, i)) {
      var x := Target(s, (d, i));
      assert Counts(s, (d, i)) == x;
      assert x in s.holders && (d, i) in s.holders[x];
    }
  }

  function Numbers(n: nat): (s: set<nat>)
    ensures forall x :: x in s <==> 1 <= x < n
  {
    if n <= 1 then {} else Numbers(n - 1) + {n - 1}
  }

  function RootNode(): Inode { Inode(Dir, 1, [Entry(".", ROOT), Entry("..", ROOT)]) }

  /** A root directory and free inodes. */
  lemma RootAlone(s: Fs)
    requires 0 !in s.inodes && ROOT in s.inodes && s.inodes[ROOT] == RootNode()
    requires forall x :: x in s.inodes && x != ROOT ==> s.inodes[x] == Inode(Free, 0, [])
    requires s.up == map[] && (forall x :: x in s.holders <==> x in s.inodes) && s.holders[ROOT] == {(ROOT, 1)}
    requires forall x :: x in s.holders && x != ROOT ==> s.holders[x] == {}
    ensures Inv(s)
  {
    forall p: Place ensures Counts(s, p) == if p == (ROOT, 1) then ROOT else 0 {
    }
  }

  /** Its links are those that its entries take up. */
  lemma RootExact(s: Fs)
    requires ROOT in s.inodes && s.inodes[ROOT] == RootNode() && ROOT in s.holders && s.holders[ROOT] == {(ROOT, 1)}
    requires forall x :: x in s.inodes && x != ROOT ==> s.inodes[x] == Inode(Free, 0, [])
    requires forall x :: x in s.holders && x != ROOT ==> s.holders[x] == {}
    ensures forall y: nat :: Surplus(s, y) == 0
  {
    forall y: nat ensures Surplus(s, y) == 0 {
      if y == ROOT {
        assert |s.holders[ROOT]| == 1;
      }
    }
  }

  class FileTree {
    const n: nat
    var inodes: map<nat, Inode>
    var ref: map<nat, nat>
    var valid: set<nat>             // inodes in memory that have been read in
    ghost var up: map<nat, Place>
    ghost var holders: map<nat, set<Place>>

    ghost function Now(): Fs
      reads this
    {
      Fs(inodes, up, holders)
    }

    ghost predicate Valid()
      reads this
    {
      Good(n, Now(), ref) && NoOrphans(Now(), ref, valid)
    }

    lemma Known(x: nat)
      requires Valid() && Allocated(Now(), x)
      ensures x in ref && x in holders && inodes[x].nlink >= |holders[x]| && x != 0
    {
      hide Inv;
      HoldersKnown(Now(), x);
    }

    lemma Held(x: nat)
      requires Valid() && x in ref && ref[x] > 0
      ensures Allocated(Now(), x) && x in holders && inodes[x].nlink >= |holders[x]| && x != 0
    {
      hide Inv;
      HoldersKnown(Now(), x);
    }

    lemma Inside()
      requires Valid()
      ensures Inv(Now())
    {
    }

    lemma Parts()
      requires Valid()
      ensures Good(n, Now(), ref) && NoOrphans(Now(), ref, valid)
    {
    }

    /** A file system that holds nothing but its root. */
    constructor (n: nat)
      requires n >= 2
      ensures Valid() && this.n == n && inodes.Keys == ref.Keys == Numbers(n) && up == map[]
      ensures forall x :: x in inodes ==>
                ref[x] == 0 && inodes[x] == if x == ROOT then RootNode() else Inode(Free, 0, [])
      ensures forall y: nat :: Surplus(Now(), y) == 0
    {
      hide Inv, Surplus;
      this.n := n;
      inodes := (map x | x in Numbers(n) :: Inode(Free, 0, []))[1 := RootNode()];
      ref := map x | x in Numbers(n) :: 0;
      valid := {};
      up := map[];
      holders := (map x | x in Numbers(n) :: {})[1 := {(1, 1)}];
      new;
      RootAlone(Now());
      RootExact(Now());
    }

    /** iget of an allocated inode: one more reference; an entry new in memory has not been read in yet. */
    method Iget(x: nat)
      requires Valid() && Allocated(Now(), x)
      modifies this`ref, this`valid
      ensures Valid() && x in old(ref) && ref == old(ref)[x := old(ref[x]) + 1]
      ensures valid == if old(ref)[x] == 0 then old(valid) - {x} else old(valid)
    {
      hide Good, NoOrphans;
      Known(x);
      IgetOk(n, Now(), ref, valid, x);
      if ref[x] == 0 {
        valid := valid - {x};
      }
      ref := ref[x := ref[x] + 1];
    }

    /** ilock reads the inode in. */
    method Ilock(x: nat)
      requires Valid() && x in ref && ref[x] > 0
      modifies this`valid
      ensures Valid() && valid == old(valid) + {x} && Allocated(Now(), x)
    {
      hide Inv;
      valid := valid + {x};
    }

    /**
     Drops a reference; the last one to an inode without links frees it, and then nothing that counts names
     it. That the inode has been read in, which the code asks too, is so whenever it has no links.
     */
    method Iput(x: nat)
      requires Valid() && x in ref && ref[x] > 0
      modifies this
      ensures Valid() && ref == old(ref)[x := old(ref[x]) - 1] && Now() == Released(old(Now()), old(ref[x]), x)
      ensures forall y :: y != x ==> (y in valid <==> y in old(valid))
      ensures Allocated(Now(), x) ==> valid == old(valid)
      ensures x in old(inodes) && x in old(holders)
      ensures old(ref[x]) == 1 && old(inodes)[x].nlink == 0 ==> old(holders)[x] == {}
      ensures inodes == old(inodes)[x := Dropped(old(inodes[x]), old(ref[x]))]
      ensures SameSurplus(old(Now()), Now()) <==> !Strands(old(inodes[x]), old(ref[x]))
    {
      hide Inv, Good, NoOrphans, SameSurplus, Strands;
      Inside();
      Held(x);
      ReleasedExact(Now(), ref[x], x);
      ReleasedNode(Now(), ref[x], x);
      IputOk(n, Now(), ref, valid, x);
      ghost var s' := Released(Now(), ref[x], x);
      if ref[x] == 1 && x in valid && inodes[x].nlink == 0 {
        inodes := inodes[x := Inode(Free, 0, [])];
        up, holders := s'.up, s'.holders;
        valid := valid - {x};
      }
      ref := ref[x := ref[x] - 1];
      assert Now() == s';
    }

    /** Where name is entered in directory d, or -1. */
    method Dirlookup(d: nat, name: string) returns (i: int)
      requires Valid() && IsDir(Now(), d)
      ensures -1 <= i < |inodes[d].entries|
      ensures i >= 0 ==> HasEntry(Now(), (d, i)) && inodes[d].entries[i].name == name
      ensures i == -1 <==> NewName(inodes[d].entries, name)
    {
      i := 0;
      while i < |inodes[d].entries|
        invariant 0 <= i <= |inodes[d].entries|
        invariant forall k :: 0 <= k < i && inodes[d].entries[k].inum != 0 ==> inodes[d].entries[k].name != name
      {
        if inodes[d].entries[i].inum != 0 && inodes[d].entries[i].name == name {
          return;
        }
        i := i + 1;
      }
      return -1;
    }

    /** The first unused entry of directory d, or one past its end. */
    method FreeEntry(d: nat) returns (i: nat)
      requires d in inodes
      ensures Unused(inodes[d].entries, i) && forall k :: 0 <= k < i ==> inodes[d].entries[k].inum != 0
    {
      i := 0;
      while i < |inodes[d].entries|
        invariant 0 <= i <= |inodes[d].entries| && forall k :: 0 <= k < i ==> inodes[d].entries[k].inum != 0
      {
        if inodes[d].entries[i].inum == 0 {
          return;
        }
        i := i + 1;
      }
    }

    /** isdirempty: nothing but "." and "..". */
    method IsDirEmpty(d: nat) returns (yes: bool)
      requires d in inodes && |inodes[d].entries| >= 2
      ensures yes <==> EmptyDir(inodes[d].entries)
    {
      var i := 2;
      while i < |inodes[d].entries|
        invariant 2 <= i <= |inodes[d].entries| && forall k :: 2 <= k < i ==> inodes[d].entries[k].inum == 0
      {
        if inodes[d].entries[i].inum != 0 {
          return false;
        }
        i := i + 1;
      }
      return true;
    }

    /** dirlink of x, which has a link to spare, under a name that must be new; with its bookkeeping. */
    method Dirlink(d: nat, name: string, x: nat, wrote: bool) returns (ok: bool, ghost p: Place)
      requires Valid() && IsDir(Now(), d) && Allocated(Now(), x) && x in holders && d in holders
      requires inodes[x].nlink > |holders[x]|
      requires IsDir(Now(), x) ==>
                x !in up && x != ROOT && x != d && HasEntry(Now(), (x, 1)) && Target(Now(), (x, 1)) == d
                                   && inodes[d].nlink > |holders[d]|
      modifies this`inodes, this`up, this`holders
      ensures Valid() && p.0 == d
      ensures ok ==> CanEnter(old(Now()), p, name, x) && Now() == Entering(old(Now()), p, name, x)
      ensures !ok ==> Now() == old(Now())
      ensures ok <==> wrote && NewName(old(inodes[d].entries), name)
    {
      hide Inv, Good, NoOrphans;
      Inside();
      var found := Dirlookup(d, name);
      p := (d, 0);
      if found >= 0 {
        return false, p;
      }
      var i := FreeEntry(d);
      if !wrote {
        return false, p;
      }
      p := (d, i);
      EntryFree(Now(), d, name, i);
      HoldersKnown(Now(), x);
      ghost var s, s' := Now(), Entering(Now(), p, name, x);
      EnterOk(s, p, name, x);
      EnterSame(s, p, name, x);
      GoodSame(n, s, s', ref);
      OrphansEnter(s, p, name, x, ref, valid);
      inodes := inodes[d := inodes[d].(entries := Entered(inodes[d].entries, i, Entry(name, x)))];
      up, holders := s'.up, s'.holders;
      assert Now() == s';
      return true, p;
    }

    method SetNlink(x: nat, k: int)
      requires Valid() && Allocated(Now(), x) && x in holders && k >= |holders[x]|
      requires k == 0 ==> x in valid && x in ref && ref[x] > 0
      modifies this`inodes
      ensures Valid() && Now() == SetLinks(old(Now()), x, k)
    {
      hide Inv, Good, NoOrphans;
      Inside();
      SetLinksOk(Now(), x, k);
      LinksSame(Now(), x, k);
      GoodSame(n, Now(), SetLinks(Now(), x, k), ref);
      OrphansLess(Now(), SetLinks(Now(), x, k), ref, valid, x);
      inodes := inodes[x := inodes[x].(nlink := k)];
    }

    /** The part of link that holds dp: ip is entered there, and dp's reference dropped. */
    method EnterLink(ip: nat, dp: nat, name: string, wrote: bool) returns (ok: bool, ghost p: Place)
      requires Valid() && dp in ref && ref[dp] > 0 && IsDir(Now(), dp) && Allocated(Now(), ip) && !IsDir(Now(), ip)
      requires ip in holders && inodes[ip].nlink > |holders[ip]|
      modifies this
      ensures Valid() && dp in old(ref) && ref == old(ref)[dp := old(ref[dp]) - 1]
      ensures ok <==> wrote && NewName(old(inodes[dp].entries), name)
      ensures ok ==> CanEnter(old(Now()), p, name, ip) && p.0 == dp
                     && Now() == Released(Entering(old(Now()), p, name, ip), old(ref[dp]), dp)
      ensures !ok ==> Now() == Released(old(Now()), old(ref[dp]), dp)
      ensures ip in inodes && inodes[ip].nlink == old(inodes[ip].nlink) && Allocated(Now(), ip) && !IsDir(Now(), ip)
    {
      hide Valid, Entering, CanEnter, NewName, Released, UpAt, SameSurplus, Strands, Dropped;
      ghost var s1 := Now();
      Ilock(dp);
      Held(dp);
      ok, p := Dirlink(dp, name, ip, wrote);
      ghost var s2 := Now();
      if ok {
        EnteredLinks(s1, p, name, ip, ip);
      }
      Known(ip);
      Iput(dp);
      ReleasedOther(s2, old(ref[dp]), dp, ip, 0);
    }

    /** link's way out: the link is taken back and the reference dropped. */
    method TakeBack(ip: nat)
      requires Valid() && ip in ref && ref[ip] > 0 && ip in inodes && ip in holders
      requires inodes[ip].nlink > |holders[ip]|
      modifies this
      ensures Valid() && ip in old(ref) && ref == old(ref)[ip := old(ref[ip]) - 1] && ip in old(inodes)
      ensures Now() == Released(SetLinks(old(Now()), ip, old(inodes[ip].nlink) - 1), old(ref[ip]), ip)
    {
      hide Valid, Released, SameSurplus, Strands, Dropped;
      Ilock(ip);
      SetNlink(ip, inodes[ip].nlink - 1);
      Iput(ip);
    }

    /**
     sys_link, once ip is found; dp is the directory for the new name, 0 if there is none. It succeeds
     exactly when ip is no directory and name can be entered in dp; ip then has one entry and one link
     more. If not, no entry and no link count changes.
     */
    method Link(ip: nat, dp: nat, name: string, wrote: bool) returns (ok: bool, ghost p: Place)
      requires Valid() && ip in ref && ref[ip] > 0
      requires ip in inodes && !inodes[ip].kind.Dir? && dp != 0 ==> dp in ref && ref[dp] > 0 && IsDir(Now(), dp)
      modifies this
      ensures Valid() && ip in old(inodes)
      ensures ok <==> !old(inodes[ip].kind).Dir? && dp != 0 && wrote && NewName(old(inodes[dp].entries), name)
      ensures ok ==> var s1 := SetLinks(old(Now()), ip, old(inodes[ip].nlink) + 1);
                     && CanEnter(s1, p, name, ip) && p.0 == dp && dp in old(ref)
                     && Now() == Released(Entering(s1, p, name, ip), old(ref[dp]), dp)
                     && ref == old(ref)[dp := old(ref[dp]) - 1][ip := old(ref[ip]) - 1]
      ensures !ok ==> var searched := !old(inodes[ip].kind).Dir? && dp != 0;
                      && (searched ==> dp in old(ref))
                      && Now() == Released(if searched then Released(old(Now()), old(ref[dp]), dp) else old(Now()),
                                           old(ref[ip]), ip)
                      && ref == (if searched then old(ref)[dp := old(ref[dp]) - 1] else old(ref))
                                [ip := old(ref[ip]) - 1]
      ensures ok ==> LinkedIn(old(inodes), old(ref), dp, p.1, name, ip, inodes)
      ensures ok ==> (SameSurplus(old(Now()), Now()) <==>
                        !Strands(Gained(old(inodes[dp]), p.1, name, ip, false), old(ref[dp])))
      ensures !ok ==> Unchanged(old(Now()), old(ref), ip, if old(inodes[ip].kind).Dir? then 0 else dp, Now())
    {
      hide Valid, Inv, Entering, CanEnter, NewName, Released, UpAt, LinkedIn, SameSurplus, Strands, Gained,
           Unchanged, Dropped;
      Inside();
      ok, p := false, (dp, 0);
      Held(ip);
      Ilock(ip);
      if inodes[ip].kind.Dir? {
        Iput(ip);
        UnchangedOne(old(Now()), old(ref), ip);
        return;
      }
      ghost var s, k := Now(), inodes[ip].nlink;
      SetNlink(ip, inodes[ip].nlink + 1);
      ghost var s1 := Now();
      LinksBack(s, ip, k + 1);
      if dp != 0 {
        ok, p := EnterLink(ip, dp, name, wrote);
        if ok {
          ReleasedNot(Now(), ref[ip], ip);
          Iput(ip);
          LinkedNodes(s, old(ref), ip, name, p);
          LinkedSurplus(s, ip, name, p, old(ref[dp]));
          return;
        }
        ReleasedOther(s1, old(ref[dp]), dp, ip, k);
      }
      TakeBack(ip);
      if dp != 0 {
        UnchangedTwo(old(Now()), old(ref), ip, dp);
      } else {
        UnchangedOne(old(Now()), old(ref), ip);
      }
    }

    /** The entry at i of dp goes, and a link of dp's if it named a directory. */
    method Detach(dp: nat, i: nat, x: nat)
      requires Valid() && HasEntry(Now(), (dp, i)) && x == Target(Now(), (dp, i)) && CanErase(Now(), (dp, i))
      requires x in inodes && dp in valid && dp in ref && ref[dp] > 0
      modifies this`inodes, this`up, this`holders
      ensures Valid() && Now() == Detached(old(Now()), (dp, i)) && x in inodes && inodes[x] == old(inodes[x])
      ensures x in holders && inodes[x].nlink - 1 >= |holders[x]| && Allocated(Now(), x)
    {
      hide Inv, Good, NoOrphans, UpAt;
      Inside();
      ghost var s := Now();
      ghost var s' := Detached(s, (dp, i));
      DetachedOk(s, (dp, i), s');
      GoodSame(n, s, s', ref);
      OrphansDetach(s, (dp, i), ref, valid);
      inodes := inodes[dp := inodes[dp].(entries := inodes[dp].entries[i := Entry("", 0)])];
      if inodes[x].kind.Dir? {
        inodes := inodes[dp := inodes[dp].(nlink := inodes[dp].nlink - 1)];
      }
      up, holders := s'.up, s'.holders;
      assert Now() == s';
    }

    /**
     sys_unlink, once the directory is found. It succeeds exactly when the name is entered, is not "." or
     "..", and names no directory with entries of its own; then the entry is gone, and a link for it. Links and
     entries still match, unless dp itself goes now and still has entries.
     */
    method Unlink(dp: nat, name: string) returns (ok: bool, ghost p: Place)
      requires Valid() && dp in ref && ref[dp] > 0 && IsDir(Now(), dp)
      modifies this
      ensures Valid() && ref == old(ref)[dp := old(ref[dp]) - 1]
      ensures name != "." && name != ".." && !NewName(old(inodes[dp].entries), name) ==>
                && p.0 == dp && HasEntry(old(Now()), p) && old(inodes[dp].entries)[p.1].name == name
                && CanErase(old(Now()), p) && Target(old(Now()), p) in old(inodes) && Target(old(Now()), p) in old(ref)
      ensures ok <==> name != "." && name != ".." && !NewName(old(inodes[dp].entries), name)
                      && var x := Target(old(Now()), p); IsDir(old(Now()), x) ==> EmptyDir(old(inodes)[x].entries)
      ensures ok ==> var x := Target(old(Now()), p);
                     Now() == Released(Released(Removal(old(Now()), p), old(ref[dp]), dp), old(ref)[x] + 1, x)
      ensures !ok ==> Now() == Released(old(Now()), old(ref[dp]), dp)
      ensures ok ==> Unlinked(old(inodes), old(ref), dp, p.1, Target(old(Now()), p), inodes)
      ensures ok && Allocated(Now(), dp) ==> NewName(inodes[dp].entries, name)
      ensures SameSurplus(old(Now()), Now()) <==>
                !Strands(if ok then Erased(old(inodes[dp]), p.1, IsDir(old(Now()), Target(old(Now()), p)))
                         else old(inodes[dp]), old(ref[dp]))
    {
      hide Valid, Inv, Detached, Removal, UpAt, Released, NewName, Unlinked, SameSurplus, Strands, Erased, Dropped;
      ok, p := false, (dp, 0);
      Ilock(dp);
      Inside();
      if name == "." || name == ".." {
        Iput(dp);
        return;
      }
      var i := Dirlookup(dp, name);
      if i < 0 {
        Iput(dp);
        return;
      }
      p := (dp, i);
      DirShape(Now(), dp);
      CanEraseAt(Now(), p);
      ok := UnlinkAt(dp, i);
      if ok {
        UnlinkSurplus(old(Now()), p, old(ref[dp]), old(ref)[Target(old(Now()), p)] + 1);
        NameGone(old(Now()), p, inodes, old(ref));
      } else {
        ReleasedExact(old(Now()), old(ref[dp]), dp);
      }
    }

    /** The rest of unlink, once the entry is found. */
    method UnlinkAt(dp: nat, i: nat) returns (ok: bool)
      requires Valid() && dp in ref && ref[dp] > 0 && dp in valid && i >= 2
      requires HasEntry(Now(), (dp, i)) && CanErase(Now(), (dp, i))
      modifies this
      ensures Valid() && ref == old(ref)[dp := old(ref[dp]) - 1]
      ensures old(Target(Now(), (dp, i))) in old(inodes) && old(Target(Now(), (dp, i))) in old(ref)
      ensures var x := old(Target(Now(), (dp, i)));
              && (ok <==> (IsDir(old(Now()), x) ==> EmptyDir(old(inodes)[x].entries)))
              && (ok ==>
                    Now() == Released(Released(Removal(old(Now()), (dp, i)), old(ref[dp]), dp), old(ref)[x] + 1, x))
              && (ok ==> Unlinked(old(inodes), old(ref), dp, i, x, inodes))
      ensures !ok ==> Now() == Released(old(Now()), old(ref[dp]), dp)
    {
      hide Valid, Inv, Detached, Removal, UpAt, Released, Unlinked, SameSurplus, Strands, Dropped;
      ok := false;
      ghost var s := Now();
      Inside();
      CanEraseAt(s, (dp, i));
      var x := inodes[dp].entries[i].inum;
      Known(x);
      Iget(x);
      Ilock(x);
      assert inodes[x].nlink >= 1;
      if inodes[x].kind.Dir? {
        DirShape(s, x);
        var empty := IsDirEmpty(x);
        if !empty {
          ReleasedNot(s, ref[x], x);
          Iput(x);
          Iput(dp);
          return;
        }
      }
      assert ref[x := ref[x] - 1] == old(ref);
      RemoveEntry(dp, i, x);
      ok := true;
    }

    /** unlink past its checks; the caller holds a reference to x too. */
    method RemoveEntry(dp: nat, i: nat, x: nat)
      requires Valid() && dp in ref && ref[dp] > 0 && x in ref && ref[x] > 0 && x in inodes && dp in valid && x in valid
      requires HasEntry(Now(), (dp, i)) && x == Target(Now(), (dp, i)) && CanErase(Now(), (dp, i))
      modifies this
      ensures Valid() && x in old(inodes) && ref == old(ref)[dp := old(ref[dp]) - 1][x := old(ref[x]) - 1]
      ensures Now() == Released(Released(Removal(old(Now()), (dp, i)), old(ref[dp]), dp), old(ref[x]), x)
      ensures Unlinked(old(inodes), old(ref)[x := old(ref[x]) - 1], dp, i, x, inodes)
    {
      hide Valid, Detached, Released, UpAt, Inv, Unlinked, SameSurplus, Strands, Dropped;
      Inside();
      RemovalInodes(Now(), (dp, i));
      RemovalNodes(Now(), (dp, i), ref[x := ref[x] - 1]);
      Detach(dp, i, x);
      ghost var s1 := Now();
      Iput(dp);
      Held(x);
      ReleasedOther(s1, old(ref[dp]), dp, x, inodes[x].nlink - 1);
      SetNlink(x, inodes[x].nlink - 1);
      Iput(x);
    }

    /** A free inode's number, or 0. */
    method FindFree() returns (x: nat)
      requires Valid()
      ensures x == 0 <==> !AnyFree(Now())
      ensures x != 0 ==> x in inodes && inodes[x].kind.Free?
    {
      hide Inv;
      x := 1;
      while x < n
        invariant 1 <= x && forall y :: 1 <= y < x && y in inodes ==> !inodes[y].kind.Free?
      {
        if inodes[x].kind.Free? {
          return;
        }
        x := x + 1;
      }
      return 0;
    }

    /**
     ialloc and the set-up of the new inode: one link, and "." and ".." in a directory. If that fails it
     is free again.
     */
    method Make(kind: Kind, dp: nat, dot: bool, dotdot: bool) returns (x: nat, ok: bool)
      requires Valid() && !kind.Free? && IsDir(Now(), dp)
      modifies this`inodes
      ensures Valid() && x != dp
      ensures x == 0 ==> !ok
      ensures ok <==> AnyFree(old(Now())) && (kind.Dir? ==> dot && dotdot)
      ensures !ok ==> Now() == old(Now())
      ensures ok ==>
                x in old(inodes) && old(inodes[x].kind).Free? && Now() == Making(old(Now()), x, NewNode(kind, x, dp))
      ensures ok ==> x in inodes && inodes[x] == NewNode(kind, x, dp) && x in holders && holders[x] == {}
                     && x !in up && x != ROOT && x in ref && ref[x] == 0
      ensures IsDir(Now(), dp)
    {
      hide Inv, Good, NoOrphans;
      Known(dp);
      x := FindFree();
      if x == 0 {
        return 0, false;
      }
      ghost var s := Now();
      inodes := inodes[x := Inode(kind, 1, [])];
      ok := true;
      if kind.Dir? {
        if dot {
          inodes := inodes[x := inodes[x].(entries := [Entry(".", x)])];
        }
        if dot && dotdot {
          inodes := inodes[x := inodes[x].(entries := inodes[x].entries + [Entry("..", dp)])];
        } else {
          ok := false;
          inodes := inodes[x := Inode(Free, 0, [])];
        }
      }
      assert [Entry(".", x)] + [Entry("..", dp)] == [Entry(".", x), Entry("..", dp)];
      ghost var node := if ok then NewNode(kind, x, dp) else Inode(Free, 0, []);
      GoodMake(n, s, ref, x, node);
      OrphansMake(s, x, node, ref, valid);
      assert Now() == Making(s, x, node);
      assert !ok ==> inodes == s.inodes;
    }

    /** The last part of create: the entry in dp, and a link for the new directory's "..". */
    method EnterNew(dp: nat, name: string, x: nat, wrote: bool) returns (ok: bool, ghost p: Place)
      requires Valid() && IsDir(Now(), dp) && Allocated(Now(), x) && x in holders && inodes[x].nlink > |holders[x]|
      requires IsDir(Now(), x) ==>
                x !in up && x != ROOT && x != dp && HasEntry(Now(), (x, 1)) && Target(Now(), (x, 1)) == dp
      modifies this`inodes, this`up, this`holders
      ensures Valid() && p.0 == dp
      ensures !ok ==> Now() == old(Now())
      ensures ok <==> wrote && NewName(old(inodes[dp].entries), name)
      ensures ok ==> dp in old(inodes) && var s1 := Expecting(old(Now()), dp, x);
                     CanEnter(s1, p, name, x) && Now() == Entering(s1, p, name, x)
    {
      hide Inv, Good, NoOrphans, NewName, Unused, Entering, CanEnter;
      Inside();
      var found := Dirlookup(dp, name);
      p := (dp, 0);
      if found >= 0 {
        return false, p;
      }
      var i := FreeEntry(dp);
      if !wrote {
        return false, p;
      }
      p := (dp, i);
      Known(dp);
      EnterExpected(n, Now(), ref, valid, p, name, x);
      ghost var s' := Entering(Expecting(Now(), dp, x), p, name, x);
      inodes := inodes[dp := inodes[dp].(entries := Entered(inodes[dp].entries, i, Entry(name, x)))];
      if inodes[x].kind.Dir? {
        inodes := inodes[dp := inodes[dp].(nlink := inodes[dp].nlink + 1)];
      }
      up, holders := s'.up, s'.holders;
      assert Now() == s';
      return true, p;
    }

    /** create's way out: the new inode loses its link and so is freed again. */
    method GiveUp(ip: nat, dp: nat, ghost s: Fs, ghost node: Inode)
      requires Good(n, s, ref[ip := 0]) && ip in s.inodes && s.inodes[ip].kind.Free? && Now() == Making(s, ip, node)
      requires Valid() && ip in ref && ref[ip] == 1 && dp in ref && ref[dp] > 0 && ip != dp && ip in holders
      requires holders[ip] == {} && ip in valid
      modifies this
      ensures Valid() && Now() == Released(s, old(ref[dp]), dp) && ref == old(ref)[ip := 0][dp := old(ref[dp]) - 1]
    {
      hide Valid, Good, SameSurplus, Strands, Dropped;
      Held(ip);
      MadeInVain(n, s, ref[ip := 0], ip, node);
      SetNlink(ip, 0);
      Iput(ip);
      Iput(dp);
    }

    /** create of a name that is new: an inode with one link, entered, or no trace. */
    method CreateNew(dp: nat, name: string, kind: Kind, dot: bool, dotdot: bool, wrote: bool)
      returns (ip: nat, ghost p: Place)
      requires Valid() && dp in ref && ref[dp] > 0 && IsDir(Now(), dp) && !kind.Free?
      requires NewName(inodes[dp].entries, name)
      modifies this
      ensures Valid() && (ip != 0 <==> AnyFree(old(Now())) && (kind.Dir? ==> dot && dotdot) && wrote)
      ensures ip == 0 ==> Now() == Released(old(Now()), old(ref[dp]), dp) && ref == old(ref)[dp := old(ref[dp]) - 1]
      ensures ip != 0 ==> Created(old(Now()), old(ref), dp, name, kind, ip, p, Now(), ref)
    {
      hide Inv, Good, NoOrphans, Released, Entering, CanEnter, SameSurplus, Strands, Dropped;
      p := (dp, 0);
      Held(dp);
      var ok;
      ghost var s := Now();
      ip, ok := Make(kind, dp, dot, dotdot);
      if !ok {
        Iput(dp);
        return 0, p;
      }
      Known(ip);
      Iget(ip);
      Ilock(ip);
      assert ref[ip := 0] == old(ref);
      ok, p := EnterNew(dp, name, ip, wrote);
      if !ok {
        GiveUp(ip, dp, s, NewNode(kind, ip, dp));
        return 0, p;
      }
      Iput(dp);
    }

    /**
     create: the inode now called name in dp, with a reference, or 0. It panics exactly when the name is
     there and names a free inode, which happens only to ".." in a directory that has been removed.
     */
    method Create(dp: nat, name: string, kind: Kind, dot: bool, dotdot: bool, wrote: bool)
      returns (ip: nat, panicked: bool, ghost p: Place)
      requires Valid() && dp in ref && ref[dp] > 0 && IsDir(Now(), dp) && !kind.Free?
      modifies this
      ensures !NewName(old(inodes[dp].entries), name) ==>
                p.0 == dp && HasEntry(old(Now()), p) && old(inodes[dp].entries)[p.1].name == name
      ensures panicked <==> !NewName(old(inodes[dp].entries), name) && !Allocated(old(Now()), Target(old(Now()), p))
      ensures panicked ==> name == ".." && !Attached(old(Now()), dp)
      ensures !panicked ==> Valid()
      ensures !panicked && !NewName(old(inodes[dp].entries), name) ==>
                && Found(old(Now()), old(ref), dp, Target(old(Now()), p), kind, ip, Now(), ref)
                && inodes == old(inodes)[dp := Dropped(old(inodes[dp]), old(ref[dp]))]
                && (SameSurplus(old(Now()), Now()) <==> !Strands(old(inodes[dp]), old(ref[dp])))
      ensures NewName(old(inodes[dp].entries), name) ==>
                && (ip != 0 <==> AnyFree(old(Now())) && (kind.Dir? ==> dot && dotdot) && wrote)
                && (ip == 0 ==>
                      Now() == Released(old(Now()), old(ref[dp]), dp) && ref == old(ref)[dp := old(ref[dp]) - 1])
                && (ip != 0 ==> Created(old(Now()), old(ref), dp, name, kind, ip, p, Now(), ref))
                && (ip != 0 ==> MadeIn(old(inodes), old(ref), dp, p.1, name, kind, ip, inodes))
                && (SameSurplus(old(Now()), Now()) <==>
                      !Strands(if ip != 0 then Gained(old(inodes[dp]), p.1, name, ip, kind.Dir?) else old(inodes[dp]),
                               old(ref[dp])))
    {
      hide Valid, Good, Inv, NoOrphans, Created, Found, Released, MadeIn, SameSurplus, Strands, Gained, Dropped;
      Ilock(dp);
      Inside();
      Parts();
      ghost var orphans := valid;
      var found := Dirlookup(dp, name);
      if found >= 0 {
        DirShape(Now(), dp);
        p := (dp, found);
        ip, panicked := Existing(dp, found, kind);
        if !panicked {
          FoundExact(old(Now()), old(ref), orphans, dp, Target(old(Now()), p), kind, ip, Now(), ref);
        }
        return;
      }
      panicked := false;
      ip, p := CreateNew(dp, name, kind, dot, dotdot, wrote);
      if ip == 0 {
        ReleasedExact(old(Now()), old(ref[dp]), dp);
      } else {
        CreatedNodes(old(Now()), old(ref), dp, name, kind, ip, p, Now(), ref);
        CreatedBlank(n, old(Now()), old(ref), dp, name, kind, ip, p, Now(), ref);
        CreatedSurplus(old(Now()), old(ref), dp, name, kind, ip, p, Now(), ref);
      }
    }

    /** The name is there already: only a file or device is returned, and only if a file is wanted. */
    method Existing(dp: nat, i: nat, kind: Kind) returns (ip: nat, panicked: bool)
      requires Valid() && dp in ref && ref[dp] > 0 && HasEntry(Now(), (dp, i))
      modifies this
      ensures panicked <==> !Allocated(old(Now()), old(Target(Now(), (dp, i))))
      ensures panicked ==> i == 1 && !Attached(old(Now()), dp)
      ensures !panicked ==> Valid()
      ensures !panicked ==> Found(old(Now()), old(ref), dp, old(Target(Now(), (dp, i))), kind, ip, Now(), ref)
    {
      hide Valid, Inv, SameSurplus, Strands, Released;
      Inside();
      NamesAllocated(Now(), dp, i);
      ip := inodes[dp].entries[i].inum;
      if ip !in inodes || inodes[ip].kind.Free? {
        return 0, true;
      }
      panicked := false;
      Iget(ip);
      Iput(dp);
      Ilock(ip);
      if kind.File? && (inodes[ip].kind.File? || inodes[ip].kind.Device?) {
        return;
      }
      Iput(ip);
      ip := 0;
    }
  }
}
