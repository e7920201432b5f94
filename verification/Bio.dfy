/**
 The buffer cache of bio.c. Each method is a section run under the cache's lock or under a buffer's
 sleep lock; bread is Bget, Lock and Fill. Device 0 is the device number of a buffer never used.
 */
module Bio {
  import opened BufRing

  type Block = seq<nat>

  datatype Key = Key(dev: nat, blockno: nat)

  datatype Buf = Buf(key: Key, valid: bool, refcnt: nat, data: Block)

  function DiskAt(disk: map<Key, Block>, k: Key): Block { if k in disk then disk[k] else [] }

  /** At most one buffer holds a block of a real device. */
  ghost predicate Unique(bufs: seq<Buf>) {
    forall i, j :: 0 <= i < |bufs| && 0 <= j < |bufs| && i != j && bufs[i].key.dev != 0 ==> bufs[i].key != bufs[j].key
  }

  /** What is nobody's may be thrown away. */
  predicate Clean(b: Buf, disk: map<Key, Block>) {
    b.refcnt == 0 && b.valid && b.key.dev != 0 ==> b.data == DiskAt(disk, b.key)
  }

  ghost predicate AllClean(bufs: seq<Buf>, disk: map<Key, Block>) {
    forall i :: 0 <= i < |bufs| ==> Clean(bufs[i], disk)
  }

  /** c is the current contents of block k: what a valid buffer holds, else what the disk holds. */
  ghost predicate Latest(bufs: seq<Buf>, disk: map<Key, Block>, k: Key, c: Block) {
    && (forall i :: 0 <= i < |bufs| && bufs[i].key == k && bufs[i].valid ==> bufs[i].data == c)
    && ((forall i :: 0 <= i < |bufs| && bufs[i].key == k ==> !bufs[i].valid) ==> DiskAt(disk, k) == c)
  }

  /** Every block of a real device has exactly one current contents. */
  lemma LatestUnique(bufs: seq<Buf>, disk: map<Key, Block>, k: Key, c: Block, d: Block)
    requires Latest(bufs, disk, k, c) && Latest(bufs, disk, k, d)
    ensures c == d
  {
  }

  lemma LatestExists(bufs: seq<Buf>, disk: map<Key, Block>, k: Key) returns (c: Block)
    requires Unique(bufs) && k.dev != 0
    ensures Latest(bufs, disk, k, c)
  {
    c := DiskAt(disk, k);
    if i :| 0 <= i < |bufs| && bufs[i].key == k && bufs[i].valid {
      c := bufs[i].data;
    }
  }

  /** No block of a real device has changed its current contents. */
  ghost predicate SameLatest(bufs: seq<Buf>, disk: map<Key, Block>, bufs': seq<Buf>, disk': map<Key, Block>) {
    forall k: Key, c :: k.dev != 0 && Latest(bufs, disk, k, c) ==> Latest(bufs', disk', k, c)
  }

  /** Only reference counts changed. */
  lemma CountsOnly(bufs: seq<Buf>, disk: map<Key, Block>, b: int, refcnt: nat)
    requires 0 <= b < |bufs| && Unique(bufs)
    ensures var bufs' := bufs[b := bufs[b].(refcnt := refcnt)]; Unique(bufs') && SameLatest(bufs, disk, bufs', disk)
  {
    var bufs' := bufs[b := bufs[b].(refcnt := refcnt)];
    assert forall i :: 0 <= i < |bufs| ==>
             bufs'[i].key == bufs[i].key && bufs'[i].valid == bufs[i].valid && bufs'[i].data == bufs[i].data;
    forall k, c | Latest(bufs, disk, k, c) ensures Latest(bufs', disk, k, c) {
      CountsLatest(bufs, disk, bufs', k, c);
    }
  }

  lemma CountsLatest(bufs: seq<Buf>, disk: map<Key, Block>, bufs': seq<Buf>, k: Key, c: Block)
    requires |bufs'| == |bufs| && Latest(bufs, disk, k, c)
    requires forall i :: 0 <= i < |bufs| ==>
              bufs'[i].key == bufs[i].key && bufs'[i].valid == bufs[i].valid && bufs'[i].data == bufs[i].data
    ensures Latest(bufs', disk, k, c)
  {
    if forall i :: 0 <= i < |bufs'| && bufs'[i].key == k ==> !bufs'[i].valid {
      assert forall i :: 0 <= i < |bufs| && bufs[i].key == k ==> !bufs[i].valid by {
        forall i | 0 <= i < |bufs| && bufs[i].key == k ensures !bufs[i].valid {
          assert bufs'[i].key == k;
        }
      }
    }
  }

  /** A clean buffer is given to another block. */
  lemma Recycled(bufs: seq<Buf>, disk: map<Key, Block>, b: int, k: Key)
    requires 0 <= b < |bufs| && Unique(bufs) && AllClean(bufs, disk) && bufs[b].refcnt == 0
    requires forall i :: 0 <= i < |bufs| ==> bufs[i].key != k
    ensures var bufs' := bufs[b := bufs[b].(key := k, valid := false, refcnt := 1)];
            Unique(bufs') && AllClean(bufs', disk) && SameLatest(bufs, disk, bufs', disk)
  {
    var bufs' := bufs[b := bufs[b].(key := k, valid := false, refcnt := 1)];
    forall x: Key, c | x.dev != 0 && Latest(bufs, disk, x, c) ensures Latest(bufs', disk, x, c) {
      RecycledLatest(bufs, disk, b, k, x, c);
    }
  }

  lemma RecycledLatest(bufs: seq<Buf>, disk: map<Key, Block>, b: int, k: Key, x: Key, c: Block)
    requires 0 <= b < |bufs| && Unique(bufs) && Clean(bufs[b], disk) && bufs[b].refcnt == 0 && x.dev != 0
    requires (forall i :: 0 <= i < |bufs| ==> bufs[i].key != k) && Latest(bufs, disk, x, c)
    ensures Latest(bufs[b := bufs[b].(key := k, valid := false, refcnt := 1)], disk, x, c)
  {
    var bufs' := bufs[b := bufs[b].(key := k, valid := false, refcnt := 1)];
    if forall i :: 0 <= i < |bufs'| && bufs'[i].key == x ==> !bufs'[i].valid {
      if bufs[b].key == x && bufs[b].valid {
        assert bufs[b].data == c == DiskAt(disk, x);
      } else {
        forall i | 0 <= i < |bufs| && bufs[i].key == x ensures !bufs[i].valid {
          assert i != b ==> bufs'[i] == bufs[i];
        }
      }
    }
  }

  /** Buffer b gets contents d for its block; the disk may change at that block too. */
  lemma Stored(bufs: seq<Buf>, disk: map<Key, Block>, b: int, buf: Buf, disk': map<Key, Block>, k: Key, c: Block)
    requires 0 <= b < |bufs| && Unique(bufs) && buf.key == bufs[b].key && buf.valid && k.dev != 0
    requires forall x :: x != buf.key ==> DiskAt(disk', x) == DiskAt(disk, x)
    requires if k == buf.key then c == buf.data else Latest(bufs, disk, k, c)
    ensures Unique(bufs[b := buf]) && Latest(bufs[b := buf], disk', k, c)
  {
    var bufs' := bufs[b := buf];
    assert forall i :: 0 <= i < |bufs| ==> bufs'[i].key == bufs[i].key;
    if k == buf.key {
      assert bufs'[b].key == k && bufs'[b].valid;
    } else if forall i :: 0 <= i < |bufs'| && bufs'[i].key == k ==> !bufs'[i].valid {
      forall i | 0 <= i < |bufs| && bufs[i].key == k ensures !bufs[i].valid {
        assert i != b;
        assert bufs'[i] == bufs[i];
      }
    }
  }

  /** A block cached but not yet read is what the disk holds. */
  lemma FilledLatest(bufs: seq<Buf>, disk: map<Key, Block>, b: int, k: Key, c: Block)
    requires 0 <= b < |bufs| && Unique(bufs) && bufs[b].key == k && !bufs[b].valid && k.dev != 0
    requires Latest(bufs, disk, k, c)
    ensures c == DiskAt(disk, k)
  {
    assert forall i :: 0 <= i < |bufs| && bufs[i].key == k ==> i == b;
  }

  /** Of the unreferenced buffers, b was moved to the front longest ago. */
  ghost predicate LeastRecent(bufs: seq<Buf>, stamp: seq<nat>, b: int) {
    && 0 <= b < |bufs| == |stamp| && bufs[b].refcnt == 0
    && forall i :: 0 <= i < |bufs| && bufs[i].refcnt == 0 ==> stamp[b] <= stamp[i]
  }

  /** The last unreferenced buffer of the ring is the least recently used one. */
  lemma LastIsLeast(bufs: seq<Buf>, order: seq<int>, stamp: seq<nat>, k: int)
    requires Complete(order, |bufs|) && Recent(order, stamp) && |stamp| == |bufs| && 0 <= k < |order|
    requires bufs[order[k]].refcnt == 0 && forall i :: k < i < |order| ==> bufs[order[i]].refcnt > 0
    ensures LeastRecent(bufs, stamp, order[k])
  {
    forall b | 0 <= b < |bufs| && bufs[b].refcnt == 0 ensures stamp[order[k]] <= stamp[b] {
      CompleteHas(order, |bufs|, b);
      var i :| 0 <= i < |order| && order[i] == b;
    }
  }

  class Cache {
    const n: nat
    var bufs: seq<Buf>
    var locked: seq<bool>
    var next: seq<int>
    var prev: seq<int>
    var disk: map<Key, Block>
    ghost var order: seq<int>
    ghost var stamp: seq<nat>
    ghost var clock: nat

    ghost predicate Linked()
      reads this
    {
      && Ring(next, prev, order, n) && Complete(order, n) && Recent(order, stamp) && |stamp| == n
      && forall i :: 0 <= i < n ==> stamp[i] < clock
    }

    ghost predicate Valid()
      reads this
    {
      && |bufs| == n == |locked| && Linked() && Unique(bufs) && AllClean(bufs, disk)
      && forall i :: 0 <= i < n ==> locked[i] ==> bufs[i].refcnt > 0
    }

    /** binit: the ring holds every buffer, each unreferenced and of device 0. */
    constructor (n: nat, disk: map<Key, Block>)
      ensures Valid() && this.n == n && this.disk == disk && fresh(this)
      ensures forall i :: 0 <= i < n ==> bufs[i] == Buf(Key(0, 0), false, 0, [])
    {
      hide Ring, Complete, Recent, Distinct;
      this.n, this.disk := n, disk;
      bufs := seq(n, _ => Buf(Key(0, 0), false, 0, []));
      locked := seq(n, _ => false);
      next, prev := seq(n + 1, _ => n), seq(n + 1, _ => n);
      order, stamp, clock := [], seq(n, i => i), n;
      new;
      LinkAll();
    }

    /** binit's loop: each buffer goes to the front of the ring. */
    method LinkAll()
      requires |next| == |prev| == n + 1 && next[n] == n && prev[n] == n && |stamp| == n && clock == n
      requires forall i :: 0 <= i < n ==> stamp[i] == i
      modifies this`next, this`prev, this`order
      ensures Linked()
    {
      hide Ring;
      order := [];
      EmptyRing(next, prev, n);
      var b := 0;
      while b < n
        invariant 0 <= b <= n && Ring(next, prev, order, n) && |next| == |prev| == n + 1
        invariant |order| == b && (forall i :: 0 <= i < b ==> order[i] == b - 1 - i)
      {
        PushRing(next, prev, order, n, b);
        next := next[b := next[n]];
        prev := prev[b := n];
        prev := prev[next[n] := b];
        next := next[n := b];
        order := [b] + order;
        b := b + 1;
      }
    }

    /** The buffer in which k is cached, or -1. */
    method Lookup(k: Key) returns (b: int)
      requires Valid()
      ensures -1 <= b < n
      ensures if b == -1 then forall i :: 0 <= i < n ==> bufs[i].key != k else bufs[b].key == k
    {
      b := next[n];
      ghost var i := 0;
      while b != n
        invariant 0 <= i <= |order| && b == After(order, n, i - 1) && (i < |order| ==> 0 <= b < n)
        invariant forall j :: 0 <= j < i ==> bufs[order[j]].key != k
        decreases |order| - i
      {
        assert LinkAt(next, prev, order, n, i);
        if bufs[b].key == k {
          return;
        }
        b := next[b];
        i := i + 1;
      }
      forall j | 0 <= j < n ensures bufs[j].key != k {
        CompleteHas(order, n, j);
      }
      return -1;
    }

    /** The unreferenced buffer least recently used, or -1 if every buffer is referenced. */
    method Victim() returns (b: int)
      requires Valid()
      ensures if b == -1 then forall i :: 0 <= i < n ==> bufs[i].refcnt > 0 else LeastRecent(bufs, stamp, b)
    {
      b := prev[n];
      ghost var i := |order|;
      while b != n
        invariant 0 <= i <= |order| && b == Before(order, n, i) && (i > 0 ==> 0 <= b < n)
        invariant forall j :: i <= j < |order| ==> bufs[order[j]].refcnt > 0
        decreases i
      {
        assert LinkAt(next, prev, order, n, i - 1);
        if bufs[b].refcnt == 0 {
          LastIsLeast(bufs, order, stamp, i - 1);
          return;
        }
        b := prev[b];
        i := i - 1;
      }
      forall j | 0 <= j < n ensures bufs[j].refcnt > 0 {
        CompleteHas(order, n, j);
      }
      return -1;
    }

    /**
     A reference to a buffer for block k: the one it is cached in, or else the least recently used
     unreferenced one; -1, where the code panics, when k is not cached and every buffer is referenced.
     */
    method Bget(k: Key) returns (b: int)
      requires Valid()
      modifies this`bufs
      ensures Valid() && SameLatest(old(bufs), disk, bufs, disk)
      ensures b == -1 <==> forall i :: 0 <= i < n ==> old(bufs[i].key) != k && old(bufs[i].refcnt) > 0
      ensures b == -1 ==> bufs == old(bufs)
      ensures b != -1 ==> 0 <= b < n && bufs[b].key == k && forall i :: 0 <= i < n && i != b ==> bufs[i] == old(bufs[i])
      ensures b != -1 && old(bufs[b].key) == k ==> bufs[b] == old(bufs[b]).(refcnt := old(bufs[b].refcnt) + 1)
      ensures b != -1 && old(bufs[b].key) != k ==>
                LeastRecent(old(bufs), stamp, b) && !bufs[b].valid && bufs[b].refcnt == 1
                                                   && forall i :: 0 <= i < n ==> old(bufs[i].key) != k
    {
      hide Ring, Distinct, Recent, Complete;
      b := Lookup(k);
      if b != -1 {
        CountsOnly(bufs, disk, b, bufs[b].refcnt + 1);
        bufs := bufs[b := bufs[b].(refcnt := bufs[b].refcnt + 1)];
        return;
      }
      b := Victim();
      if b != -1 {
        Recycled(bufs, disk, b, k);
        bufs := bufs[b := bufs[b].(key := k, valid := false, refcnt := 1)];
      }
    }

    /** acquiresleep, once whoever held the lock has released it. */
    method Lock(b: int)
      requires Valid() && 0 <= b < n && bufs[b].refcnt > 0 && !locked[b]
      modifies this`locked
      ensures Valid() && locked == old(locked)[b := true]
    {
      locked := locked[b := true];
    }

    /** The rest of bread: the buffer holds the current contents of its block. */
    method Fill(b: int)
      requires Valid() && 0 <= b < n && locked[b]
      modifies this`bufs
      ensures Valid() && SameLatest(old(bufs), disk, bufs, disk)
      ensures bufs[b].valid && bufs[b].key == old(bufs[b].key) && bufs[b].refcnt == old(bufs[b].refcnt)
      ensures bufs[b].key.dev != 0 ==> Latest(bufs, disk, bufs[b].key, bufs[b].data)
      ensures old(bufs[b].valid) ==> bufs == old(bufs)
      ensures forall i :: 0 <= i < n && i != b ==> bufs[i] == old(bufs[i])
    {
      hide Ring, Distinct, Recent, Complete;
      if !bufs[b].valid {
        ghost var was := bufs;
        var buf := bufs[b].(data := DiskAt(disk, bufs[b].key), valid := true);
        bufs := bufs[b := buf];
        forall k: Key, c | k.dev != 0 && Latest(was, disk, k, c) ensures Latest(bufs, disk, k, c) {
          if k == buf.key {
            FilledLatest(was, disk, b, k, c);
          }
          Stored(was, disk, b, buf, disk, k, c);
        }
      }
      if bufs[b].key.dev != 0 {
        ghost var c := LatestExists(bufs, disk, bufs[b].key);
      }
    }

    /** A client changes the contents of a buffer it has locked and read. */
    method Modify(b: int, data: Block)
      requires Valid() && 0 <= b < n && locked[b] && bufs[b].valid
      modifies this`bufs
      ensures Valid() && bufs == old(bufs)[b := old(bufs[b]).(data := data)]
      ensures bufs[b].key.dev != 0 ==> Latest(bufs, disk, bufs[b].key, data)
      ensures forall k: Key, c :: k.dev != 0 && k != bufs[b].key && Latest(old(bufs), disk, k, c) ==>
                Latest(bufs, disk, k, c)
    {
      hide Ring, Distinct, Recent, Complete;
      ghost var was := bufs;
      var buf := bufs[b].(data := data);
      bufs := bufs[b := buf];
      if buf.key.dev != 0 {
        Stored(was, disk, b, buf, disk, buf.key, data);
      }
      forall k: Key, c | k.dev != 0 && k != buf.key && Latest(was, disk, k, c) ensures Latest(bufs, disk, k, c) {
        Stored(was, disk, b, buf, disk, k, c);
      }
      assert forall i :: 0 <= i < n ==> bufs[i].key == was[i].key;
    }

    method Bwrite(b: int)
      requires Valid() && 0 <= b < n && locked[b] && bufs[b].valid
      modifies this`disk
      ensures Valid() && disk == old(disk)[bufs[b].key := bufs[b].data] && SameLatest(bufs, old(disk), bufs, disk)
    {
      hide Ring, Distinct, Recent, Complete;
      ghost var was := disk;
      disk := disk[bufs[b].key := bufs[b].data];
      assert bufs[b := bufs[b]] == bufs;
      forall k: Key, c | k.dev != 0 && Latest(bufs, was, k, c) ensures Latest(bufs, disk, k, c) {
        Stored(bufs, was, b, bufs[b], disk, k, c);
      }
    }

    /** Clients write or pin a change before they let go of the last reference. */
    ghost predicate MayDrop(b: int)
      requires 0 <= b < |bufs|
      reads this
    {
      bufs[b].refcnt > 0 && Clean(bufs[b].(refcnt := bufs[b].refcnt - 1), disk)
    }

    /** releasesleep: another client with a reference may take the lock before this one drops its own. */
    method Unlock(b: int)
      requires Valid() && 0 <= b < n && locked[b]
      modifies this`locked
      ensures Valid() && locked == old(locked)[b := false]
    {
      locked := locked[b := false];
    }

    /** brelse's second section: a reference less; with the last one the buffer moves to the front. */
    method Drop(b: int)
      requires Valid() && 0 <= b < n && MayDrop(b) && (locked[b] ==> bufs[b].refcnt > 1)
      modifies this`bufs, this`next, this`prev, this`order, this`stamp, this`clock
      ensures Valid() && SameLatest(old(bufs), disk, bufs, disk)
      ensures bufs == old(bufs)[b := old(bufs[b]).(refcnt := old(bufs[b].refcnt) - 1)]
      ensures if bufs[b].refcnt > 0 then order == old(order) && stamp == old(stamp)
              else order[0] == b && stamp == old(stamp)[b := old(clock)]
    {
      hide Ring, Complete, Recent, Distinct;
      ghost var was := bufs;
      CountsOnly(was, disk, b, was[b].refcnt - 1);
      bufs := bufs[b := bufs[b].(refcnt := bufs[b].refcnt - 1)];
      if bufs[b].refcnt == 0 {
        MoveToFront(b);
      }
    }

    /** Gives up the lock and then the reference, with nobody coming between. */
    method Brelse(b: int)
      requires Valid() && 0 <= b < n && locked[b] && MayDrop(b)
      modifies this
      ensures Valid() && disk == old(disk) && SameLatest(old(bufs), disk, bufs, disk)
      ensures locked == old(locked)[b := false]
      ensures bufs == old(bufs)[b := old(bufs[b]).(refcnt := old(bufs[b].refcnt) - 1)]
      ensures if bufs[b].refcnt > 0 then order == old(order) && stamp == old(stamp)
              else order[0] == b && stamp == old(stamp)[b := old(clock)]
    {
      hide Linked, SameLatest;
      Unlock(b);
      Drop(b);
    }

    method MoveToFront(b: int)
      requires 0 <= b < n && Linked()
      modifies this`next, this`prev, this`order, this`stamp, this`clock
      ensures Linked() && |order| > 0 && order[0] == b && stamp == old(stamp)[b := old(clock)]
    {
      hide Ring, Complete, Recent, Without;
      CompleteHas(order, n, b);
      ghost var k :| 0 <= k < |order| && order[k] == b;
      MoveRing(next, prev, order, n, k);
      RecentPush(order, n, stamp, k, clock);
      ghost var rest := Without(order, k);
      prev := prev[next[b] := prev[b]];
      next := next[prev[b] := next[b]];
      next := next[b := next[n]];
      prev := prev[b := n];
      prev := prev[next[n] := b];
      next := next[n := b];
      order, stamp, clock := [b] + rest, stamp[b := clock], clock + 1;
    }

    method Bpin(b: int)
      requires Valid() && 0 <= b < n
      modifies this`bufs
      ensures Valid() && SameLatest(old(bufs), disk, bufs, disk)
      ensures bufs == old(bufs)[b := old(bufs[b]).(refcnt := old(bufs[b].refcnt) + 1)]
    {
      CountsOnly(bufs, disk, b, bufs[b].refcnt + 1);
      bufs := bufs[b := bufs[b].(refcnt := bufs[b].refcnt + 1)];
    }

    method Bunpin(b: int)
      requires Valid() && 0 <= b < n && MayDrop(b) && (locked[b] ==> bufs[b].refcnt > 1)
      modifies this`bufs
      ensures Valid() && SameLatest(old(bufs), disk, bufs, disk)
      ensures bufs == old(bufs)[b := old(bufs[b]).(refcnt := old(bufs[b].refcnt) - 1)]
    {
      CountsOnly(bufs, disk, b, bufs[b].refcnt - 1);
      bufs := bufs[b := bufs[b].(refcnt := bufs[b].refcnt - 1)];
    }
  }
}
