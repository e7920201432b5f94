/**
 Links against entries, exactly.  The surplus of an inode is its link count less the entries that count; a call may
 raise it in between, and leaves it as it was.
 */
module LinkCount {
  import Counting
  import opened DirTree

  function Surplus(s: Fs, x: nat): int {
    if x in s.inodes && x in s.holders then s.inodes[x].nlink - |s.holders[x]| else 0
  }

  ghost predicate SameSurplus(s: Fs, s': Fs) { forall y: nat :: Surplus(s', y) == Surplus(s, y) }

  predicate EmptyDir(es: seq<Entry>) { forall k :: 2 <= k < |es| ==> es[k].inum == 0 }

  /** Freed with the last of refs references, a directory that has no links but entries takes these with it. */
  predicate Strands(node: Inode, refs: nat) {
    refs == 1 && node.nlink == 0 && node.kind.Dir? && !EmptyDir(node.entries)
  }

  lemma OneMore<T>(a: set<T>, x: T)
    requires x !in a
    ensures |a + {x}| == |a| + 1
  {
  }

  lemma OneLess<T>(a: set<T>, x: T)
    requires x in a
    ensures |a - {x}| == |a| - 1
  {
    assert a == (a - {x}) + {x};
  }

  lemma HeldExactly(s: Fs, x: nat, p: Place)
    requires Inv(s) && x in s.holders
    ensures p in s.holders[x] <==> Counts(s, p) == x
  {
  }

  /** A new entry takes up a link of what it names, and the ".." of a directory one of its parent. */
  lemma EnterSurplus(s: Fs, p: Place, name: string, x: nat, y: nat)
    requires Inv(s) && CanEnter(s, p, name, x)
    ensures var taken := if y == x || (IsDir(s, x) && y == p.0) then 1 else 0;
            Surplus(Entering(s, p, name, x), y) == Surplus(s, y) - taken
  {
    hide Inv, Counts, NewName, HasEntry;
    EnterCounts(s, p, name, x, p);
    HeldExactly(s, x, p);
    OneMore(s.holders[x], p);
    if IsDir(s, x) {
      EnterCounts(s, p, name, x, (x, 1));
      HoldersKnown(s, p.0);
      HeldExactly(s, p.0, (x, 1));
      OneMore(s.holders[p.0], (x, 1));
    }
  }

  /** An entry erased sets free what it took up. */
  lemma EraseSurplus(s: Fs, p: Place, y: nat)
    requires Inv(s) && CanErase(s, p)
    ensures var given := if y == Target(s, p) || (IsDir(s, Target(s, p)) && y == p.0) then 1 else 0;
            Surplus(Erasing(s, p), y) == Surplus(s, y) + given
  {
    EraseOk(s, p);
    hide Inv, UpAt;
    OneLess(s.holders[Target(s, p)], p);
    if IsDir(s, Target(s, p)) {
      OneLess(s.holders[p.0], (Target(s, p), 1));
    }
  }

  /** The counted entries of directory x that name y. */
  function Within(s: Fs, x: nat, y: nat): set<Place>
    requires y in s.holders
  {
    set p: Place | p in s.holders[y] && p.0 == x
  }

  /** Whatever a freed directory named keeps a link that no entry stands for. */
  lemma UnmakeSurplus(s: Fs, x: nat, y: nat)
    requires Inv(s) && x in s.inodes && s.inodes[x].nlink == 0 && y in s.inodes && y in s.holders
    ensures Surplus(Unmaking(s, x), y) == Surplus(s, y) + |Within(s, x, y)|
  {
    Unnamed(s, x);
    hide Inv;
    var rest := set p: Place | p in s.holders[y] && p.0 != x;
    assert s.holders[y] == rest + Within(s, x, y);
    assert Unmaking(s, x).holders[y] == rest;
  }

  /** A removed directory's entries count, but for the first two. */
  lemma WithinEntries(s: Fs, x: nat, k: nat)
    requires Inv(s) && IsDir(s, x) && !Attached(s, x) && HasEntry(s, (x, k))
    ensures k >= 2 ==> Target(s, (x, k)) in s.inodes && Target(s, (x, k)) in s.holders
                       && (x, k) in Within(s, x, Target(s, (x, k)))
  {
    if k >= 2 {
      assert Counts(s, (x, k)) == Target(s, (x, k));
    }
  }

  lemma WithinEmpty(s: Fs, x: nat, y: nat)
    requires Inv(s) && y in s.holders && x in s.inodes && !Attached(s, x)
    requires IsDir(s, x) ==> EmptyDir(s.inodes[x].entries)
    ensures Within(s, x, y) == {}
  {
    forall p: Place | p in s.holders[y] ensures p.0 != x {
      assert Counts(s, p) == y && y != 0;
    }
  }

  /** Freeing an inode strands nothing exactly when it is no directory, or an empty one. */
  lemma UnmakeExact(s: Fs, x: nat)
    requires Inv(s) && x in s.inodes && s.inodes[x].nlink == 0
    ensures SameSurplus(s, Unmaking(s, x)) <==> !Strands(s.inodes[x], 1)
  {
    Unnamed(s, x);
    if Strands(s.inodes[x], 1) {
      var k :| 2 <= k < |s.inodes[x].entries| && s.inodes[x].entries[k].inum != 0;
      WithinEntries(s, x, k);
      var y := Target(s, (x, k));
      UnmakeSurplus(s, x, y);
      assert |Within(s, x, y)| > 0;
    } else {
      forall y: nat ensures Surplus(Unmaking(s, x), y) == Surplus(s, y) {
        UnmakeSame(s, x, y);
      }
    }
  }

  lemma UnmakeSame(s: Fs, x: nat, y: nat)
    requires Inv(s) && x in s.inodes && s.inodes[x].nlink == 0 && !Strands(s.inodes[x], 1)
    ensures Surplus(Unmaking(s, x), y) == Surplus(s, y)
  {
    if y in s.inodes {
      HoldersKnown(s, y);
      Unnamed(s, x);
      UnmakeSurplus(s, x, y);
      WithinEmpty(s, x, y);
    }
  }

  lemma SurplusTrans(s: Fs, s1: Fs, s2: Fs)
    requires SameSurplus(s, s1)
    ensures SameSurplus(s, s2) <==> SameSurplus(s1, s2)
  {
    forall y: nat ensures Surplus(s1, y) == Surplus(s, y) {}
  }

  lemma SurplusEnd(s: Fs, s1: Fs, s2: Fs)
    requires SameSurplus(s1, s2)
    ensures SameSurplus(s, s2) <==> SameSurplus(s, s1)
  {
    forall y: nat ensures Surplus(s1, y) == Surplus(s2, y) {}
  }
}
