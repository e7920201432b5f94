/**
 The link count is a short. The class in SysFile counts without bound, which is what the code does for as
 long as every count fits; here is exactly when a call stops it from fitting, and what unlink does then.
 */
module LinkLimit {
  import opened DirTree
  import opened SysFile
  import opened Dangling

  const SHORT_MAX := 32767

  /** What a short holds after an assignment of n. */
  function Short(n: int): int { (n + 0x8000) % 0x1_0000 - 0x8000 }

  /** Every link count is the one that the code sees. */
  ghost predicate InShort(s: Fs) { forall x :: x in s.inodes ==> s.inodes[x].nlink <= SHORT_MAX }

  lemma ReleasedShort(s: Fs, refs: nat, x: nat)
    requires InShort(s)
    ensures InShort(Released(s, refs, x))
  {
  }

  /** link makes the count overflow exactly when the inode has 32767 links. */
  lemma LinkShort(s: Fs, ip: nat, p: Place, name: string, refs: nat)
    requires InShort(s) && ip in s.inodes && !IsDir(s, ip)
    requires CanEnter(SetLinks(s, ip, s.inodes[ip].nlink + 1), p, name, ip)
    ensures var s' := Released(Entering(SetLinks(s, ip, s.inodes[ip].nlink + 1), p, name, ip), refs, p.0);
            InShort(s') <==> s.inodes[ip].nlink < SHORT_MAX
  {
    var s1 := SetLinks(s, ip, s.inodes[ip].nlink + 1);
    var s2 := Entering(s1, p, name, ip);
    var s' := Released(s2, refs, p.0);
    assert ip in s'.inodes && s'.inodes[ip].nlink == s.inodes[ip].nlink + 1;
    if s.inodes[ip].nlink < SHORT_MAX {
      assert InShort(s2);
      ReleasedShort(s2, refs, p.0);
    }
  }

  /** create does so exactly when a directory with 32767 links gets a subdirectory. */
  lemma CreateShort(s: Fs, ref: map<nat, nat>, dp: nat, name: string, kind: Kind, ip: nat, p: Place, s': Fs,
                    ref': map<nat, nat>)
    requires Inv(s) && InShort(s) && Created(s, ref, dp, name, kind, ip, p, s', ref') && !kind.Free?
    ensures InShort(s') <==> !kind.Dir? || s.inodes[dp].nlink < SHORT_MAX
  {
    hide Inv;
    var s1 := Making(s, ip, NewNode(kind, ip, dp));
    var s2 := Expecting(s1, dp, ip);
    var s3 := Entering(s2, p, name, ip);
    assert IsDir(s1, ip) <==> kind.Dir?;
    if kind.Dir? && s.inodes[dp].nlink == SHORT_MAX {
      assert s3.inodes[dp].nlink == SHORT_MAX + 1;
      ReleasedNot(s3, ref[dp], dp);
    } else {
      assert InShort(s3);
      ReleasedShort(s3, ref[dp], dp);
    }
  }

  /** unlink only lowers counts; and while they fit, the count it checks is positive. */
  lemma UnlinkShort(s: Fs, p: Place, refs: nat, refs': nat)
    requires Inv(s) && CanErase(s, p) && Target(s, p) in s.inodes
    ensures InShort(s) ==> InShort(Released(Released(Removal(s, p), refs, p.0), refs', Target(s, p)))
    ensures InShort(s) ==> Short(s.inodes[Target(s, p)].nlink) >= 1
  {
    CanEraseAt(s, p);
    hide Inv;
    if InShort(s) {
      assert InShort(Removal(s, p));
      ReleasedShort(Removal(s, p), refs, p.0);
      ReleasedShort(Released(Removal(s, p), refs, p.0), refs', Target(s, p));
    }
  }

  /** Whatever the count, unlink's check panics exactly if its last 16 bits are zero or have the top bit set. */
  lemma CheckExact(s: Fs, p: Place)
    requires Inv(s) && CanErase(s, p)
    ensures Target(s, p) in s.inodes
    ensures var k := s.inodes[Target(s, p)].nlink;
            k >= 1 && (Short(k) < 1 <==> k % 0x1_0000 == 0 || k % 0x1_0000 > SHORT_MAX)
  {
    CanEraseAt(s, p);
  }

  // ----- a file with 32768 links -----

  function Digits(k: nat): (r: string)
    ensures |r| >= 1 && '0' <= r[|r| - 1] <= '9' && (|r| == 1 <==> k < 10)
  {
    var d := [(k % 10) as char + '0'];
    if k < 10 then d else Digits(k / 10) + d
  }

  lemma {:induction false} DigitsDiffer(a: nat, b: nat)
    requires Digits(a) == Digits(b)
    ensures a == b
    decreases a
  {
    var r := Digits(a);
    assert r[|r| - 1] == (a % 10) as char + '0' && r[|r| - 1] == (b % 10) as char + '0';
    if a >= 10 {
      assert Digits(a / 10) == r[..|r| - 1] && Digits(b / 10) == r[..|r| - 1];
      DigitsDiffer(a / 10, b / 10);
    }
  }

  /** The names fit into a directory entry. */
  lemma {:induction false} DigitsShort(k: nat, n: nat)
    requires n >= 1 && k < Power(n)
    ensures |Digits(k)| <= n
  {
    if k >= 10 {
      DigitsShort(k / 10, n - 1);
    }
  }

  function Power(n: nat): nat { if n == 0 then 1 else 10 * Power(n - 1) }

  function Links(f: nat, lo: nat, hi: nat): (r: seq<Entry>)
    requires lo <= hi
    ensures |r| == hi - lo
  {
    seq(hi - lo, i requires 0 <= i < hi - lo => Entry(Digits(lo + i), f))
  }

  /** A name not used yet. */
  lemma LinksNew(es: seq<Entry>, f: nat, lo: nat, hi: nat)
    requires lo <= hi && NewName(es, Digits(hi))
    ensures NewName(es + Links(f, lo, hi), Digits(hi))
  {
    var all := es + Links(f, lo, hi);
    forall k | |es| <= k < |all| ensures all[k].name != Digits(hi) {
      assert all[k] == Links(f, lo, hi)[k - |es|];
      if all[k].name == Digits(hi) {
        DigitsDiffer(lo + (k - |es|), hi);
      }
    }
  }

  lemma LinksMore(f: nat, lo: nat, hi: nat)
    requires lo <= hi
    ensures Links(f, lo, hi + 1) == Links(f, lo, hi) + [Entry(Digits(hi), f)]
  {
  }

  lemma LinksFit(f: nat, lo: nat, hi: nat)
    requires lo <= hi <= 100000
    ensures forall i :: 0 <= i < hi - lo ==> |Links(f, lo, hi)[i].name| <= 5
  {
    assert Power(5) == 100000;
    forall i | 0 <= i < hi - lo ensures |Links(f, lo, hi)[i].name| <= 5 {
      DigitsShort(lo + i, 5);
    }
  }

  lemma LinkEffect(s: Fs, ip: nat, p: Place, name: string, refs: nat)
    requires ip in s.inodes && CanEnter(SetLinks(s, ip, s.inodes[ip].nlink + 1), p, name, ip) && ip != p.0
    requires p.0 in s.inodes && s.inodes[p.0].nlink > 0 && AllUsed(s.inodes[p.0].entries)
    ensures var s' := Released(Entering(SetLinks(s, ip, s.inodes[ip].nlink + 1), p, name, ip), refs, p.0);
            s'.inodes == s.inodes[ip := s.inodes[ip].(nlink := s.inodes[ip].nlink + 1)]
              [p.0 := s.inodes[p.0].(entries := s.inodes[p.0].entries + [Entry(name, ip)])]
  {
  }

  method AddLink(t: FileTree, f: nat, d: nat, name: string)
    requires t.Valid() && f in t.inodes && t.inodes[f].kind.File? && d in t.inodes && IsDir(t.Now(), d)
    requires d != 0 && t.inodes[d].nlink > 0 && AllUsed(t.inodes[d].entries) && NewName(t.inodes[d].entries, name)
    modifies t
    ensures t.Valid() && t.ref == old(t.ref) && f in old(t.inodes) && d in old(t.inodes)
    ensures t.inodes == old(t.inodes)[f := old(t.inodes[f]).(nlink := old(t.inodes[f].nlink) + 1)]
              [d := old(t.inodes[d]).(entries := old(t.inodes[d].entries) + [Entry(name, f)])]
  {
    hide FileTree.Valid, CanEnter, Entering, Released;
    ghost var s := t.Now();
    t.Iget(f);
    t.Iget(d);
    var ok;
    ghost var p;
    ghost var refs := t.ref[d];
    ok, p := t.Link(f, d, name, true);
    LinkEffect(s, f, p, name, refs);
  }

  method AddLinks(t: FileTree, f: nat, d: nat, lo: nat, hi: nat)
    requires lo <= hi && f != 0 && d != 0
    requires t.Valid() && f in t.inodes && t.inodes[f].kind.File? && d in t.inodes && IsDir(t.Now(), d)
    requires t.inodes[d].nlink > 0 && AllUsed(t.inodes[d].entries)
    requires forall k :: lo <= k < hi ==> NewName(t.inodes[d].entries, Digits(k))
    modifies t
    ensures t.Valid() && f in old(t.inodes) && d in old(t.inodes)
    ensures t.inodes == old(t.inodes)[f := old(t.inodes[f]).(nlink := old(t.inodes[f].nlink) + (hi - lo))]
              [d := old(t.inodes[d]).(entries := old(t.inodes[d].entries) + Links(f, lo, hi))]
  {
    hide FileTree.Valid, NewName, Digits;
    ghost var es := t.inodes[d].entries;
    var k := lo;
    assert es + Links(f, lo, lo) == es;
    while k < hi
      invariant lo <= k <= hi && t.Valid()
      invariant t.inodes == old(t.inodes)[f := old(t.inodes[f]).(nlink := old(t.inodes[f].nlink) + (k - lo))]
                  [d := old(t.inodes[d]).(entries := es + Links(f, lo, k))]
    {
      LinksNew(es, f, lo, k);
      LinksMore(f, lo, k);
      AddLink(t, f, d, Digits(k));
      k := k + 1;
      assert es + Links(f, lo, k) == (es + Links(f, lo, k - 1)) + [Entry(Digits(k - 1), f)];
    }
  }

  /** What creating a file does to the inodes when it enters the name at the end of dp. */
  lemma MkfileEffect(s: Fs, ref: map<nat, nat>, dp: nat, name: string, ip: nat, p: Place, s': Fs, ref': map<nat, nat>)
    requires Created(s, ref, dp, name, File, ip, p, s', ref') && dp in s.inodes && s.inodes[dp].nlink > 0
    requires AllUsed(s.inodes[dp].entries)
    ensures s'.inodes == s.inodes[ip := NewNode(File, ip, dp)]
                         [dp := s.inodes[dp].(entries := s.inodes[dp].entries + [Entry(name, ip)])]
  {
  }

  method Mkfile(t: FileTree, dp: nat, name: string) returns (ip: nat)
    requires t.Valid() && IsDir(t.Now(), dp) && AnyFree(t.Now()) && dp in t.inodes && t.inodes[dp].nlink > 0
    requires dp in t.ref
    requires AllUsed(t.inodes[dp].entries) && NewName(t.inodes[dp].entries, name)
    modifies t
    ensures t.Valid() && ip in old(t.inodes) && old(t.inodes[ip].kind).Free? && t.ref == old(t.ref)[ip := 1]
    ensures ip != dp && ip != 0 && dp in old(t.inodes)
    ensures t.inodes == old(t.inodes)[ip := NewNode(File, ip, dp)]
              [dp := old(t.inodes[dp]).(entries := old(t.inodes[dp].entries) + [Entry(name, ip)])]
  {
    hide FileTree.Valid, Created, Released;
    ghost var s := t.Now();
    t.Iget(dp);
    var panicked;
    ghost var p, ref := (0, 0), t.ref;
    ip, panicked, p := t.Create(dp, name, File, true, true, true);
    MkfileEffect(s, ref, dp, name, ip, p, t.Now(), t.ref);
    CreatedRefs(s, ref, dp, name, File, ip, p, t.Now(), t.ref);
  }

  /** A root directory with a file and a directory in it. */
  method OneFile() returns (t: FileTree, f: nat, d: nat)
    ensures fresh(t) && t.Valid() && f != d && f > 1 && d > 1 && 1 in t.inodes && f in t.inodes && d in t.inodes
    ensures t.inodes[1] == Inode(Dir, 2, [Entry(".", 1), Entry("..", 1), Entry("f", f), Entry("d", d)])
    ensures t.inodes[f] == Inode(File, 1, []) && t.inodes[d] == Inode(Dir, 1, [Entry(".", d), Entry("..", 1)])
    ensures t.inodes.Keys == {1, f, d}
  {
    hide FileTree.Valid;
    t := ThreeInodes();
    assert AnyFree(t.Now()) by {
      assert t.inodes[2].kind.Free?;
    }
    f := Mkfile(t, 1, "f");
    assert AnyFree(t.Now()) by {
      assert t.inodes[if f == 2 then 3 else 2].kind.Free?;
    }
    d := Mkdir(t, 1, "d");
  }

  /** Both directories are smaller than the largest file, names fit, and unlink of "f" meets a negative count. */
  method TooManyLinks() returns (t: FileTree, f: nat)
    ensures fresh(t) && t.Valid() && f in t.inodes && t.inodes[f].nlink == SHORT_MAX + 1
    ensures Short(t.inodes[f].nlink) < 1
    ensures CanErase(t.Now(), (1, 2)) && Target(t.Now(), (1, 2)) == f
    ensures forall x :: x in t.inodes ==> |t.inodes[x].entries| <= 268 * 64
    ensures forall x, i :: x in t.inodes && 0 <= i < |t.inodes[x].entries| ==> |t.inodes[x].entries[i].name| <= 14
  {
    hide FileTree.Valid, Inv, Digits, CanErase, NewName, Links;
    var d;
    t, f, d := OneFile();
    LettersNew(f, d);
    LinksFit(f, 0, 16384);
    LinksFit(f, 16384, SHORT_MAX);
    AddLinks(t, f, 1, 0, 16384);
    AddLinks(t, f, d, 16384, SHORT_MAX);
    t.Inside();
    CanEraseAt(t.Now(), (1, 2));
  }

  lemma LettersNew(f: nat, d: nat)
    ensures forall k: nat :: NewName([Entry(".", 1), Entry("..", 1), Entry("f", f), Entry("d", d)], Digits(k))
    ensures forall k: nat :: NewName([Entry(".", d), Entry("..", 1)], Digits(k))
  {
  }
}
