/**
 The log and the buffer cache together. Every block in the log header is pinned in a buffer until it has been
 installed, and the cache has no more buffers than the log has room for blocks.
 */
module LogBuffers {
  import opened Counting
  import opened Bio
  import M = LogMachine
  import LogSafety
  import Exact = LogSpaceExact

  const NBUF: nat := 30   // MAXOPBLOCKS * 3

  /** Buffer i holds a block that is in the log header. */
  predicate Pinned(bufs: seq<Buf>, dev: nat, lh: seq<int>, i: int) {
    0 <= i < |bufs| && bufs[i].key.dev == dev && bufs[i].key.blockno in lh
  }

  ghost predicate Cached(bufs: seq<Buf>, k: Key) { exists i :: 0 <= i < |bufs| && bufs[i].key == k }

  /** The buffers in use are those pinned for the log, all of its blocks being cached, and some held by clients. */
  ghost predicate InUse(bufs: seq<Buf>, dev: nat, lh: seq<int>, held: set<int>) {
    && dev != 0 && Unique(bufs) && (forall k :: 0 <= k < |lh| ==> lh[k] >= 0 && Cached(bufs, Key(dev, lh[k])))
    && (forall i :: i in held ==> 0 <= i < |bufs| && !Pinned(bufs, dev, lh, i))
    && (forall i :: 0 <= i < |bufs| ==> (bufs[i].refcnt > 0 <==> i in held || Pinned(bufs, dev, lh, i)))
  }

  ghost function Pins(bufs: seq<Buf>, dev: nat, lh: seq<int>): (s: set<int>)
    ensures forall i :: i in s <==> Pinned(bufs, dev, lh, i)
  {
    set i | 0 <= i < |bufs| && Pinned(bufs, dev, lh, i)
  }

  /** One buffer to each block of the log. */
  lemma {:induction false} PinsSize(bufs: seq<Buf>, dev: nat, lh: seq<int>)
    requires dev != 0 && Unique(bufs) && NoRepeats(lh)
    requires forall k :: 0 <= k < |lh| ==> lh[k] >= 0 && Cached(bufs, Key(dev, lh[k]))
    ensures |Pins(bufs, dev, lh)| == |lh|
    decreases |lh|
  {
    if lh == [] {
      assert Pins(bufs, dev, lh) == {};
    } else {
      var n := |lh| - 1;
      var rest, b := lh[..n], lh[n];
      assert Cached(bufs, Key(dev, b));
      var i :| 0 <= i < |bufs| && bufs[i].key == Key(dev, b);
      assert lh == rest + [b];
      PinsSize(bufs, dev, rest);
      PinsMore(bufs, dev, rest, b, i);
    }
  }

  lemma PinsMore(bufs: seq<Buf>, dev: nat, lh: seq<int>, b: nat, i: int)
    requires dev != 0 && Unique(bufs) && b !in lh && 0 <= i < |bufs| && bufs[i].key == Key(dev, b)
    ensures Pins(bufs, dev, lh + [b]) == Pins(bufs, dev, lh) + {i} && i !in Pins(bufs, dev, lh)
  {
    forall j | 0 <= j < |bufs| ensures Pinned(bufs, dev, lh + [b], j) <==> Pinned(bufs, dev, lh, j) || j == i {
      if bufs[j].key == Key(dev, b) {
        assert j == i;
      }
    }
  }

  /** bget of a block not cached finds a buffer exactly when log and clients leave one. */
  lemma FreeExact(bufs: seq<Buf>, dev: nat, lh: seq<int>, held: set<int>)
    requires InUse(bufs, dev, lh, held) && NoRepeats(lh)
    ensures (exists i :: 0 <= i < |bufs| && bufs[i].refcnt == 0) <==> |lh| + |held| < |bufs|
  {
    var pins, all := Pins(bufs, dev, lh), Range(0, |bufs|);
    PinsSize(bufs, dev, lh);
    assert pins * held == {};
    assert |pins + held| == |lh| + |held|;
    assert pins + held <= all;
    if |lh| + |held| < |bufs| {
      assert pins + held != all;
      var i :| i in all && i !in pins + held;
      assert bufs[i].refcnt == 0;
    } else {
      SubsetSize(pins + held, all);
      SameSize(pins + held, all);
    }
  }

  lemma SameSize(a: set<int>, b: set<int>)
    requires a <= b && |a| >= |b|
    ensures a == b
  {
    assert b == a + (b - a);
  }

  /** Whatever the log has been through, its blocks leave all buffers but 29 to the clients. */
  lemma BesideLog(l: M.Layout, r: M.Run, bufs: seq<Buf>, dev: nat, held: set<int>)
    requires M.IsRun(l, r) && l.nlog <= NBUF && InUse(bufs, dev, r.last.lh, held) && |held| + (NBUF - 1) < |bufs|
    ensures exists i :: 0 <= i < |bufs| && bufs[i].refcnt == 0
  {
    LogSafety.RunShape(l, r);
    FreeExact(bufs, dev, r.last.lh, held);
  }

  /** The log that mkfs makes does come to hold 29 blocks. */
  lemma FullLog(l: M.Layout) returns (r: M.Run)
    requires Exact.BigEnough(l) && l.nlog == M.LOGSIZE
    ensures M.IsRun(l, r) && |r.last.lh| == NBUF - 1
  {
    Exact.WorstPanics(l, M.MAXOPBLOCKS);
    var op, b;
    r, op, b :| Exact.PanicAt(l, r, op, b, M.MAXOPBLOCKS);
    LogSafety.RunShape(l, r);
  }

  // ----- a run -----

  function FirstBlocks(j: nat): (lh: seq<int>)
    ensures |lh| == j && (forall k :: 0 <= k < j ==> lh[k] == k) && forall x :: x in lh <==> 0 <= x < j
  {
    if j == 0 then [] else FirstBlocks(j - 1) + [j - 1]
  }

  /** The first j blocks of device 1 are pinned, and nothing else of it is cached. */
  ghost predicate Logged(c: Cache, j: nat)
    reads c
  {
    && c.Valid() && c.n == NBUF && InUse(c.bufs, 1, FirstBlocks(j), {}) && (forall i :: 0 <= i < c.n ==> !c.locked[i])
    && forall i :: 0 <= i < c.n && c.bufs[i].key.dev == 1 ==> c.bufs[i].key.blockno < j
  }

  /** An operation reads the next block, changes it, and passes it to log_write, which pins it. */
  method LogNext(c: Cache, j: nat)
    requires Logged(c, j) && j < NBUF
    modifies c
    ensures Logged(c, j + 1)
  {
    hide Cache.Linked, AllClean, SameLatest, Latest, InUse, FirstBlocks, Unique;
    ghost var was := c.bufs;
    FreeExact(was, 1, FirstBlocks(j), {});
    var b := c.Bget(Key(1, j));
    c.Lock(b);
    c.Fill(b);
    c.Bpin(b);
    c.Brelse(b);
    LoggedNext(was, c.bufs, j, b);
  }

  lemma LoggedNext(was: seq<Buf>, bufs: seq<Buf>, j: nat, b: int)
    requires |bufs| == |was| && Unique(bufs) && InUse(was, 1, FirstBlocks(j), {}) && 0 <= b < |was|
    requires forall i :: 0 <= i < |was| && was[i].key.dev == 1 ==> was[i].key.blockno < j
    requires was[b].refcnt == 0 && bufs[b].key == Key(1, j) && bufs[b].refcnt > 0
    requires forall i :: 0 <= i < |was| && i != b ==> bufs[i] == was[i]
    ensures InUse(bufs, 1, FirstBlocks(j + 1), {})
  {
    var lh, lh' := FirstBlocks(j), FirstBlocks(j + 1);
    forall k | 0 <= k < |lh'| ensures Cached(bufs, Key(1, lh'[k])) {
      if k < j {
        assert Cached(was, Key(1, lh[k]));
        var i :| 0 <= i < |was| && was[i].key == Key(1, lh[k]);
        assert Pinned(was, 1, lh, i);
        assert bufs[i] == was[i];
      } else {
        assert bufs[b].key == Key(1, lh'[k]);
      }
    }
    forall i | 0 <= i < |bufs| ensures bufs[i].refcnt > 0 <==> Pinned(bufs, 1, lh', i) {
      if i != b {
        assert bufs[i] == was[i];
        assert Pinned(bufs, 1, lh', i) <==> Pinned(was, 1, lh, i);
      } else {
        assert lh'[j] == j;
      }
    }
  }

  /** binit's cache, with nothing logged. */
  method Empty() returns (c: Cache)
    ensures fresh(c) && Logged(c, 0)
  {
    hide Cache.Linked, AllClean;
    c := new Cache(NBUF, map[]);
  }

  /** With 29 blocks pinned, one more held by anyone is enough for the next read to panic. */
  method NoBuffers() returns (c: Cache, b: int)
    ensures c.n == NBUF && b == -1
  {
    hide Cache.Linked, AllClean, SameLatest, InUse, FirstBlocks, Unique;
    c := Empty();
    var j := 0;
    while j < NBUF - 1
      invariant 0 <= j <= NBUF - 1 && Logged(c, j) && fresh(c)
    {
      LogNext(c, j);
      j := j + 1;
    }
    ghost var was := c.bufs;
    FreeExact(was, 1, FirstBlocks(j), {});
    b := c.Bget(Key(1, j));
    LoggedNext(was, c.bufs, j, b);
    FreeExact(c.bufs, 1, FirstBlocks(j + 1), {});
    b := c.Bget(Key(1, j + 1));
  }
}
