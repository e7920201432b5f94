/** The free list of umalloc.c as the address-ordered sequence of its blocks, base first. */
module FreeList {

  datatype Header = Header(ptr: int, size: nat)

  datatype Blk = Blk(addr: int, size: nat)

  type Memory = map<int, Header>

  /** Address order, base first and empty. */
  ghost predicate Ordered(base: int, fl: seq<Blk>) {
    && |fl| > 0 && fl[0] == Blk(base, 0)
    && (forall i :: 1 <= i < |fl| ==> fl[i].size > 0 && base < fl[i].addr)
    && (forall i, j :: 0 <= i < j < |fl| ==> fl[i].addr + fl[i].size <= fl[j].addr)
  }

  /** Block i does not touch the next one. */
  ghost predicate Gap(fl: seq<Blk>, i: int) {
    0 <= i < |fl| - 1 ==> fl[i].addr + fl[i].size < fl[i + 1].addr
  }

  /** Fully coalesced: no two neighbours touch. */
  ghost predicate Coalesced(base: int, fl: seq<Blk>) {
    Ordered(base, fl) && forall i :: Gap(fl, i)
  }

  /** The address after position i; the list is circular. */
  function Follow(fl: seq<Blk>, i: nat): int
    requires i < |fl|
  {
    if i + 1 < |fl| then fl[i + 1].addr else fl[0].addr
  }

  ghost predicate LinkedAt(mem: Memory, fl: seq<Blk>, i: nat)
    requires i < |fl|
  {
    fl[i].addr in mem && mem[fl[i].addr] == Header(Follow(fl, i), fl[i].size)
  }

  /** The headers in memory form exactly this circular list. */
  ghost predicate Linked(mem: Memory, fl: seq<Blk>) {
    forall i :: 0 <= i < |fl| ==> LinkedAt(mem, fl, i)
  }

  // ----- putting a block in -----

  function PutIn(fl: seq<Blk>, k: nat, b: Blk): (r: seq<Blk>)
    requires k < |fl|
    ensures |r| == |fl| + 1
    ensures forall i :: 0 <= i < |r| ==> r[i] == if i <= k then fl[i] else if i == k + 1 then b else fl[i - 1]
  {
    fl[..k + 1] + [b] + fl[k + 1..]
  }

  /** b fits between position k and the next. */
  ghost predicate Fits(fl: seq<Blk>, k: nat, b: Blk) {
    && k < |fl| && b.size > 0 && fl[0].addr < b.addr && fl[k].addr + fl[k].size <= b.addr
    && (k + 1 < |fl| ==> b.addr + b.size <= fl[k + 1].addr)
  }

  lemma PutInOrder(base: int, fl: seq<Blk>, k: nat, b: Blk, i: int, j: int)
    requires Ordered(base, fl) && Fits(fl, k, b) && 0 <= i < j <= |fl|
    ensures var r := PutIn(fl, k, b); r[i].addr + r[i].size <= r[j].addr
  {
    if i == k + 1 {
      assert k + 1 == j - 1 || fl[k + 1].addr + fl[k + 1].size <= fl[j - 1].addr;
    } else if j == k + 1 {
      assert i == k || fl[i].addr + fl[i].size <= fl[k].addr;
    } else {
      var i', j' := if i <= k then i else i - 1, if j <= k then j else j - 1;
      assert fl[i'].addr + fl[i'].size <= fl[j'].addr;
    }
  }

  lemma PutInOrdered(base: int, fl: seq<Blk>, k: nat, b: Blk)
    requires Ordered(base, fl) && Fits(fl, k, b)
    ensures Ordered(base, PutIn(fl, k, b))
  {
    var r := PutIn(fl, k, b);
    forall i, j | 0 <= i < j < |r| ensures r[i].addr + r[i].size <= r[j].addr {
      PutInOrder(base, fl, k, b, i, j);
    }
  }

  /** Only the new block can touch its neighbours. */
  lemma PutInGap(fl: seq<Blk>, k: nat, b: Blk, i: int)
    requires k < |fl| && i != k && i != k + 1 && Gap(fl, if i < k then i else i - 1)
    ensures Gap(PutIn(fl, k, b), i)
  {
  }

  function PutInMem(mem: Memory, p: int, b: Blk): Memory
    requires p in mem
  {
    mem[b.addr := Header(mem[p].ptr, b.size)][p := Header(b.addr, mem[p].size)]
  }

  lemma PutInLinked(base: int, mem: Memory, fl: seq<Blk>, k: nat, b: Blk)
    requires Ordered(base, fl) && Linked(mem, fl) && Fits(fl, k, b)
    requires forall i :: 0 <= i < |fl| ==> fl[i].addr != b.addr
    ensures LinkedAt(mem, fl, k) && Linked(PutInMem(mem, fl[k].addr, b), PutIn(fl, k, b))
  {
    assert LinkedAt(mem, fl, k);
    var r, mem' := PutIn(fl, k, b), PutInMem(mem, fl[k].addr, b);
    forall i | 0 <= i < |r| ensures LinkedAt(mem', r, i) {
      if i < k {
        assert LinkedAt(mem, fl, i);
      } else if i > k + 1 {
        assert LinkedAt(mem, fl, i - 1);
      }
    }
  }

  // ----- joining a block with the next -----

  function Joined(fl: seq<Blk>, k: nat): (r: seq<Blk>)
    requires k + 1 < |fl|
    ensures |r| == |fl| - 1
    ensures forall i :: 0 <= i < |r| ==>
              r[i] == if i < k then fl[i] else if i == k then Blk(fl[k].addr, fl[k].size + fl[k + 1].size)
                      else fl[i + 1]
  {
    fl[..k] + [Blk(fl[k].addr, fl[k].size + fl[k + 1].size)] + fl[k + 2..]
  }

  lemma JoinedOrdered(base: int, fl: seq<Blk>, k: nat)
    requires Ordered(base, fl) && 1 <= k < |fl| - 1 && fl[k].addr + fl[k].size == fl[k + 1].addr
    ensures Ordered(base, Joined(fl, k))
  {
    var r := Joined(fl, k);
    forall i, j | 0 <= i < j < |r| ensures r[i].addr + r[i].size <= r[j].addr {
      var i', j' := if i < k then i else i + 1, if j <= k then j else j + 1;
      assert fl[i'].addr + fl[i'].size <= fl[j'].addr;
    }
  }

  lemma JoinedGap(fl: seq<Blk>, k: nat, i: int)
    requires k + 1 < |fl| && fl[k].addr + fl[k].size == fl[k + 1].addr && Gap(fl, if i < k then i else i + 1)
    ensures Gap(Joined(fl, k), i)
  {
  }

  function JoinedMem(mem: Memory, p: int): Memory
    requires p in mem && mem[p].ptr in mem
  {
    var q := mem[p].ptr;
    mem[p := Header(mem[q].ptr, mem[p].size + mem[q].size)]
  }

  lemma JoinedLinked(base: int, mem: Memory, fl: seq<Blk>, k: nat)
    requires Ordered(base, fl) && Linked(mem, fl) && 1 <= k < |fl| - 1
    ensures LinkedAt(mem, fl, k) && LinkedAt(mem, fl, k + 1)
    ensures Linked(JoinedMem(mem, fl[k].addr), Joined(fl, k))
  {
    assert LinkedAt(mem, fl, k) && LinkedAt(mem, fl, k + 1);
    var r, mem' := Joined(fl, k), JoinedMem(mem, fl[k].addr);
    forall i | 0 <= i < |r| ensures LinkedAt(mem', r, i) {
      if i < k {
        assert LinkedAt(mem, fl, i);
      } else if i > k {
        assert LinkedAt(mem, fl, i + 1);
      }
    }
  }
}
