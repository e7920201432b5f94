/**
 The disk driver's descriptor protocol (virtio_disk.c; sections 2.6 and 5.2 of VIRTIO 1.1) against a
 device that may fetch submitted requests when it likes and complete them in any order. A buffer is
 a number; busy holds the buffers whose disk flag is 1.
 */
module Virtio {
  import opened Counting

  const NUM := 8

  /** What a descriptor points to: a request header, a buffer's data, a status byte. */
  datatype Addr = Nowhere | Header(i: int) | Data(b: int) | Status(i: int)

  /** write: the device is to write there. */
  datatype Desc = Desc(addr: Addr, next: int, more: bool, write: bool)

  const NoDesc := Desc(Nowhere, 0, false, false)

  /** The header of a request: to the disk or from it, and the sector. */
  datatype Req = Req(out: bool, sector: nat)

  datatype Info = Info(b: int, status: int)

  datatype Phase = Queued | Pending | Done | Finished

  /** A request in flight: its second and third descriptor, its buffer, what it asks for, how far it has come. */
  datatype Chain = Chain(d1: int, d2: int, b: int, req: Req, phase: Phase)

  type Block = seq<int>

  /** blockno * (BSIZE / 512) */
  function Sector(blockno: nat): nat { blockno * 2 }

  function Contents(m: map<int, Block>, k: int): Block { if k in m then m[k] else [] }

  predicate In(i: int) { 0 <= i < NUM }

  /** The 16-bit index after k entries, and the slot entry k goes to. */
  function Idx(k: nat): int { k % 65536 }

  function Slot(k: nat): (i: int)
    ensures In(i)
  {
    k % 8
  }

  /** Indices wrap at 65536, slots at 8: the slot the driver computes is the right one all the same. */
  lemma IdxSlot(k: nat)
    ensures Idx(k) % NUM == Slot(k) && (Idx(k) + 1) % 65536 == Idx(k + 1)
  {
    assert k == k / 65536 * 65536 + k % 65536;
    assert k % 8 == (k / 65536 * 8192 * 8 + k % 65536) % 8;
  }

  lemma IdxDiffers(k: nat, n: nat)
    requires n <= NUM
    ensures Idx(k) == Idx(k + n) <==> n == 0
  {
  }

  lemma SlotDiffers(k: nat, i: nat, j: nat)
    requires i < j < i + 8
    ensures Slot(k + i) != Slot(k + j)
  {
  }

  /** The entries of a ring from its count k on. */
  ghost predicate Entries(ring: seq<int>, k: nat, heads: seq<int>) {
    |ring| == NUM && |heads| <= NUM && forall i :: 0 <= i < |heads| ==> ring[Slot(k + i)] == heads[i]
  }

  lemma EntriesPush(ring: seq<int>, k: nat, heads: seq<int>, h: int)
    requires Entries(ring, k, heads) && |heads| < NUM
    ensures Entries(ring[Slot(k + |heads|) := h], k, heads + [h])
  {
    var r := ring[Slot(k + |heads|) := h];
    forall i | 0 <= i < |heads| + 1 ensures r[Slot(k + i)] == (heads + [h])[i] {
      if i < |heads| {
        SlotDiffers(k, i, |heads|);
      }
    }
  }

  lemma EntriesPop(ring: seq<int>, k: nat, heads: seq<int>)
    requires Entries(ring, k, heads) && |heads| > 0
    ensures ring[Slot(k)] == heads[0] && Entries(ring, k + 1, heads[1..])
  {
    assert ring[Slot(k + 0)] == heads[0];
    forall i | 0 <= i < |heads| - 1 ensures ring[Slot(k + 1 + i)] == heads[1..][i] {
      assert ring[Slot(k + (i + 1))] == heads[i + 1];
    }
  }

  /** Heads of distinct requests: there is always room for them in a ring. */
  lemma RoomInRing(s: seq<int>)
    requires NoRepeats(s) && forall i :: 0 <= i < |s| ==> In(s[i])
    ensures |s| <= NUM
  {
    Pigeon(s, Range(0, NUM));
  }

  // ----- the state of the driver -----

  /** own[i] is the head of the chain descriptor i is in, -1 if it is free, -2 if it is set aside. */
  datatype State = State(desc: seq<Desc>, free: seq<bool>, info: seq<Info>, ops: seq<Req>, busy: set<int>,
                         own: seq<int>, chains: map<int, Chain>, who: map<int, int>)

  ghost predicate Sizes(s: State) { |s.desc| == |s.free| == |s.info| == |s.ops| == |s.own| == NUM }

  /** Descriptor i is free, or set aside, or one of the three of one chain. */
  ghost predicate DescOk(s: State, i: int, aside: set<int>)
    requires Sizes(s) && In(i)
  {
    && (s.free[i] <==> s.own[i] == -1) && (i in aside <==> s.own[i] == -2)
    && (s.own[i] == -1 || s.own[i] == -2
        || (s.own[i] in s.chains && (i == s.own[i] || i == s.chains[s.own[i]].d1 || i == s.chains[s.own[i]].d2)))
  }

  ghost predicate ChainOk(s: State, h: int)
    requires Sizes(s) && h in s.chains
  {
    var c := s.chains[h];
    && In(h) && In(c.d1) && In(c.d2) && h != c.d1 && h != c.d2 && c.d1 != c.d2
    && s.own[h] == h && s.own[c.d1] == h && s.own[c.d2] == h
    && s.desc[h] == Desc(Header(h), c.d1, true, false) && s.ops[h] == c.req
    && s.desc[c.d1] == Desc(Data(c.b), c.d2, true, !c.req.out)
    && s.desc[c.d2].addr == Status(h) && !s.desc[c.d2].more && s.desc[c.d2].write
    && s.info[h].b == c.b && c.b in s.who && s.who[c.b] == h
    && (c.b in s.busy <==> !c.phase.Finished?)
    && (c.phase.Done? || c.phase.Finished? ==> s.info[h].status == 0)
  }

  /** Every descriptor is free or in exactly one chain of three; every busy buffer has its one request. */
  ghost predicate Wf(s: State, aside: set<int>) {
    && Sizes(s) && (forall i :: i in aside ==> In(i))
    && (forall i :: In(i) ==> DescOk(s, i, aside))
    && (forall h :: h in s.chains ==> ChainOk(s, h))
    && (forall b :: b in s.who ==> s.who[b] in s.chains && s.chains[s.who[b]].b == b)
    && (forall b :: b in s.busy ==> b in s.who)
  }

  /** The requests in one of the two rings, or with the device, are those in that phase. */
  ghost predicate Holds(s: State, heads: seq<int>, phase: Phase) {
    && NoRepeats(heads)
    && (forall i :: 0 <= i < |heads| ==> heads[i] in s.chains && s.chains[heads[i]].phase == phase)
    && (forall h :: h in s.chains && s.chains[h].phase == phase ==> h in heads)
  }

  // ----- what each section does -----

  /** A free descriptor is set aside. */
  lemma TakeOk(s: State, aside: set<int>, i: int)
    requires Wf(s, aside) && In(i) && s.free[i]
    ensures i !in aside && Wf(s.(free := s.free[i := false], own := s.own[i := -2]), aside + {i})
  {
    var s' := s.(free := s.free[i := false], own := s.own[i := -2]);
    assert DescOk(s, i, aside);
    forall k | In(k) ensures DescOk(s', k, aside + {i}) {
      assert DescOk(s, k, aside);
    }
    forall h | h in s'.chains ensures ChainOk(s', h) {
      assert ChainOk(s, h);
    }
  }

  /** A descriptor set aside becomes free again; what it says does not matter. */
  lemma GiveOk(s: State, aside: set<int>, i: int, d: Desc)
    requires Wf(s, aside) && i in aside
    ensures !s.free[i] && Wf(s.(desc := s.desc[i := d], free := s.free[i := true], own := s.own[i := -1]), aside - {i})
  {
    var s' := s.(desc := s.desc[i := d], free := s.free[i := true], own := s.own[i := -1]);
    assert DescOk(s, i, aside);
    forall k | In(k) ensures DescOk(s', k, aside - {i}) {
      assert DescOk(s, k, aside);
    }
    forall h | h in s'.chains ensures ChainOk(s', h) {
      assert ChainOk(s, h);
    }
  }

  /** The three descriptors set aside become the chain of a new request for buffer b. */
  ghost function Formed(s: State, d0: int, d1: int, d2: int, b: int, req: Req): State
    requires Sizes(s) && In(d0) && In(d1) && In(d2)
  {
    State(s.desc[d0 := Desc(Header(d0), d1, true, false)][d1 := Desc(Data(b), d2, true, !req.out)]
                [d2 := Desc(Status(d0), 0, false, true)], s.free,
          s.info[d0 := Info(b, 0xff)], s.ops[d0 := req], s.busy + {b}, s.own[d0 := d0][d1 := d0][d2 := d0],
          s.chains[d0 := Chain(d1, d2, b, req, Queued)], s.who[b := d0])
  }

  lemma FormedOk(s: State, d0: int, d1: int, d2: int, b: int, req: Req)
    requires Wf(s, {d0, d1, d2}) && d0 != d1 && d0 != d2 && d1 != d2 && b !in s.who
    ensures d0 !in s.chains && Wf(Formed(s, d0, d1, d2, b, req), {})
  {
    var s' := Formed(s, d0, d1, d2, b, req);
    hide DescOk, ChainOk;
    assert DescOk(s, d0, {d0, d1, d2}) && DescOk(s, d1, {d0, d1, d2}) && DescOk(s, d2, {d0, d1, d2});
    FormedNew(s, d0, d1, d2, b, req);
    forall k | In(k) ensures DescOk(s', k, {}) {
      FormedDesc(s, d0, d1, d2, b, req, k);
    }
    forall h | h in s'.chains ensures ChainOk(s', h) {
      if h != d0 {
        FormedChain(s, d0, d1, d2, b, req, h);
      }
    }
  }

  lemma FormedNew(s: State, d0: int, d1: int, d2: int, b: int, req: Req)
    requires Sizes(s) && In(d0) && In(d1) && In(d2) && d0 != d1 && d0 != d2 && d1 != d2
    requires DescOk(s, d0, {d0, d1, d2}) && (d0 in s.chains ==> ChainOk(s, d0))
    ensures d0 !in s.chains && ChainOk(Formed(s, d0, d1, d2, b, req), d0)
  {
  }

  lemma FormedDesc(s: State, d0: int, d1: int, d2: int, b: int, req: Req, k: int)
    requires Sizes(s) && In(d0) && In(d1) && In(d2) && d0 != d1 && d0 != d2 && d1 != d2 && d0 !in s.chains
    requires In(k) && DescOk(s, k, {d0, d1, d2})
    ensures DescOk(Formed(s, d0, d1, d2, b, req), k, {})
  {
  }

  lemma FormedChain(s: State, d0: int, d1: int, d2: int, b: int, req: Req, h: int)
    requires Sizes(s) && In(d0) && In(d1) && In(d2) && d0 != d1 && d0 != d2 && d1 != d2 && d0 !in s.chains
    requires DescOk(s, d0, {d0, d1, d2}) && DescOk(s, d1, {d0, d1, d2}) && DescOk(s, d2, {d0, d1, d2})
    requires h in s.chains && ChainOk(s, h) && b !in s.who
    ensures ChainOk(Formed(s, d0, d1, d2, b, req), h)
  {
  }

  /** Request h moves to another phase; becoming finished is when its buffer stops being busy. */
  ghost function Moved(s: State, h: int, phase: Phase, status: int): State
    requires Sizes(s) && h in s.chains && In(h)
  {
    var c := s.chains[h];
    s.(chains := s.chains[h := c.(phase := phase)], info := s.info[h := s.info[h].(status := status)],
       busy := if phase.Finished? then s.busy - {c.b} else s.busy)
  }

  lemma MovedOk(s: State, aside: set<int>, h: int, phase: Phase, status: int)
    requires Wf(s, aside) && h in s.chains && !s.chains[h].phase.Finished?
    requires phase.Done? || phase.Finished? ==> status == 0
    ensures In(h) && Wf(Moved(s, h, phase, status), aside)
  {
    assert ChainOk(s, h);
    var s' := Moved(s, h, phase, status);
    forall k | In(k) ensures DescOk(s', k, aside) {
      assert DescOk(s, k, aside);
    }
    forall g | g in s'.chains ensures ChainOk(s', g) {
      assert ChainOk(s, g);
    }
  }

  lemma MovedHolds(s: State, h: int, phase: Phase, status: int, src: seq<int>, i: int, dst: seq<int>)
    requires Sizes(s) && h in s.chains && In(h) && 0 <= i < |src| && src[i] == h && phase != s.chains[h].phase
    requires Holds(s, src, s.chains[h].phase) && Holds(s, dst, phase)
    ensures var s' := Moved(s, h, phase, status);
            Holds(s', src[..i] + src[i + 1..], s.chains[h].phase) && Holds(s', dst + [h], phase)
  {
    var s', rest := Moved(s, h, phase, status), src[..i] + src[i + 1..];
    assert forall k :: 0 <= k < |rest| ==> rest[k] == src[if k < i then k else k + 1];
    forall g | g in s'.chains && s'.chains[g].phase == s.chains[h].phase ensures g in rest {
      var k :| 0 <= k < |src| && src[k] == g;
      assert rest[if k < i then k else k - 1] == g;
    }
  }

  lemma MovedOthers(s: State, h: int, phase: Phase, status: int, heads: seq<int>, other: Phase)
    requires Sizes(s) && h in s.chains && In(h) && Holds(s, heads, other) && other != phase
    requires other != s.chains[h].phase
    ensures Holds(Moved(s, h, phase, status), heads, other)
  {
  }

  /** A finished request gives up its descriptors: they are set aside, about to be freed. */
  ghost function Dropped(s: State, h: int): State
    requires Sizes(s) && h in s.chains && In(h) && In(s.chains[h].d1) && In(s.chains[h].d2)
  {
    var c := s.chains[h];
    s.(info := s.info[h := s.info[h].(b := -1)], own := s.own[h := -2][c.d1 := -2][c.d2 := -2],
       chains := s.chains - {h}, who := s.who - {c.b})
  }

  lemma DroppedOk(s: State, h: int)
    requires Wf(s, {}) && h in s.chains && s.chains[h].phase.Finished?
    ensures ChainOk(s, h) && Wf(Dropped(s, h), {h, s.chains[h].d1, s.chains[h].d2})
  {
    assert ChainOk(s, h);
    var s', c := Dropped(s, h), s.chains[h];
    forall k | In(k) ensures DescOk(s', k, {h, c.d1, c.d2}) {
      DroppedDesc(s, h, k);
    }
    forall g | g in s'.chains ensures ChainOk(s', g) {
      DroppedChain(s, h, g);
    }
  }

  lemma DroppedDesc(s: State, h: int, k: int)
    requires Sizes(s) && h in s.chains && ChainOk(s, h) && In(k) && DescOk(s, k, {})
    ensures DescOk(Dropped(s, h), k, {h, s.chains[h].d1, s.chains[h].d2})
  {
  }

  lemma DroppedChain(s: State, h: int, g: int)
    requires Sizes(s) && h in s.chains && ChainOk(s, h) && g in s.chains && g != h && ChainOk(s, g)
    ensures ChainOk(Dropped(s, h), g)
  {
  }

  lemma DroppedHolds(s: State, h: int, heads: seq<int>, phase: Phase)
    requires Wf(s, {}) && h in s.chains && s.chains[h].phase.Finished? && ChainOk(s, h) && Holds(s, heads, phase)
    requires !phase.Finished?
    ensures Holds(Dropped(s, h), heads, phase)
  {
  }

  lemma FinishedHolds(s: State, aside: set<int>, h: int, heads: seq<int>)
    requires Wf(s, aside) && h in s.chains && In(h) && Holds(s, heads, Done) && |heads| > 0 && heads[0] == h
    ensures Holds(Moved(s, h, Finished, 0), heads[1..], Done)
  {
    hide Wf;
    forall g | g in s.chains && g != h && s.chains[g].phase.Done? ensures g in heads[1..] {
      var k :| 0 <= k < |heads| && heads[k] == g;
      assert heads[1..][k - 1] == g;
    }
  }

  function Elems(s: seq<int>): (r: set<int>)
    ensures forall x :: x in r <==> x in s
  {
    set x | x in s
  }

  lemma ElemsTail(s: seq<int>, j: int)
    requires NoRepeats(s) && 0 <= j < |s|
    ensures s[j] in s[j..] && Elems(s[j..]) - {s[j]} == Elems(s[j + 1..])
  {
    assert s[j..] == [s[j]] + s[j + 1..];
    assert s[j] !in s[j + 1..];
  }

  /** The descriptors of a chain are exactly those that name it. */
  lemma OwnExactly(s: State, h: int)
    requires Wf(s, {}) && h in s.chains
    ensures ChainOk(s, h)
    ensures forall k :: In(k) ==> (s.own[k] == h <==> k == h || k == s.chains[h].d1 || k == s.chains[h].d2)
  {
    assert ChainOk(s, h);
    forall k | In(k) ensures s.own[k] == h <==> k == h || k == s.chains[h].d1 || k == s.chains[h].d2 {
      assert DescOk(s, k, {});
    }
  }

  /** Changes that leave the requests alone. */
  lemma SameChains(s: State, s': State, heads: seq<int>, phase: Phase)
    requires Holds(s, heads, phase) && s'.chains == s.chains
    ensures Holds(s', heads, phase)
  {
  }

  lemma FormedHolds(s: State, d0: int, d1: int, d2: int, b: int, req: Req, heads: seq<int>, phase: Phase)
    requires Sizes(s) && In(d0) && In(d1) && In(d2) && d0 !in s.chains && Holds(s, heads, phase)
    ensures Holds(Formed(s, d0, d1, d2, b, req), if phase.Queued? then heads + [d0] else heads, phase)
  {
    assert d0 !in heads;
  }

  lemma HeadsFit(s: State, aside: set<int>, heads: seq<int>, phase: Phase)
    requires Wf(s, aside) && Holds(s, heads, phase)
    ensures |heads| <= NUM && forall i :: 0 <= i < |heads| ==> In(heads[i])
  {
    forall i | 0 <= i < |heads| ensures In(heads[i]) {
      assert ChainOk(s, heads[i]);
    }
    RoomInRing(heads);
  }

  lemma Basics(s: State, aside: set<int>)
    requires Wf(s, aside)
    ensures Sizes(s) && forall i :: i in aside ==> In(i)
  {
  }

  lemma ChainFacts(s: State, aside: set<int>, h: int)
    requires Wf(s, aside) && h in s.chains
    ensures Sizes(s) && ChainOk(s, h)
  {
  }

  lemma BusyKnown(s: State, aside: set<int>)
    requires Wf(s, aside)
    ensures forall b :: b in s.busy ==> b in s.who
  {
  }

  lemma ChainRange(s: State, h: int)
    requires Sizes(s) && h in s.chains && ChainOk(s, h)
    ensures In(h)
  {
  }

  lemma EntriesSize(ring: seq<int>, k: nat, heads: seq<int>)
    requires Entries(ring, k, heads)
    ensures |ring| == NUM && |heads| <= 8
  {
  }

  lemma HeadFacts(s: State, heads: seq<int>, phase: Phase, i: int)
    requires Holds(s, heads, phase) && 0 <= i < |heads|
    ensures heads[i] in s.chains && s.chains[heads[i]].phase == phase
  {
  }

  /** Which buffers are still busy after request h has finished. */
  lemma BusyAfter(s: State, aside: set<int>, h: int)
    requires Wf(s, aside) && h in s.chains && !s.chains[h].phase.Finished?
    ensures In(h) && Sizes(s) && forall b :: b in s.busy ==> b in s.who && (b == s.chains[h].b <==> s.who[b] == h)
  {
    assert ChainOk(s, h);
  }

  // ----- the two rings -----

  /** Both rings with their indices; fetched and seen count, queued, pending and done list the requests. */
  datatype Flow = Flow(availRing: seq<int>, availIdx: int, deviceNext: int,
                       usedRing: seq<int>, deviceIdx: int, usedIdx: int,
                       fetched: nat, seen: nat, queued: seq<int>, pending: seq<int>, done: seq<int>)

  /** The rings hold exactly the requests submitted and not fetched, completed and not seen. */
  ghost predicate FlowOk(s: State, f: Flow) {
    && Holds(s, f.queued, Queued) && Holds(s, f.pending, Pending) && Holds(s, f.done, Done)
    && Entries(f.availRing, f.fetched, f.queued) && Entries(f.usedRing, f.seen, f.done)
    && f.availIdx == Idx(f.fetched + |f.queued|) && f.deviceNext == Idx(f.fetched)
    && f.deviceIdx == Idx(f.seen + |f.done|) && f.usedIdx == Idx(f.seen)
  }

  lemma FlowSame(s: State, s': State, f: Flow)
    requires FlowOk(s, f) && s'.chains == s.chains
    ensures FlowOk(s', f)
  {
    SameChains(s, s', f.queued, Queued);
    SameChains(s, s', f.pending, Pending);
    SameChains(s, s', f.done, Done);
  }

  /** The driver adds head h to the available ring. */
  ghost function Offered(f: Flow, h: int): Flow
    requires |f.availRing| == NUM
  {
    f.(availRing := f.availRing[Slot(f.fetched + |f.queued|) := h], availIdx := Idx(f.fetched + |f.queued| + 1),
       queued := f.queued + [h])
  }

  lemma OfferedOk(s: State, f: Flow, d0: int, d1: int, d2: int, b: int, req: Req, s': State, f': Flow)
    requires Wf(s, {d0, d1, d2}) && d0 != d1 && d0 != d2 && d1 != d2 && b !in s.who && FlowOk(s, f)
    requires Sizes(s) && In(d0) && In(d1) && In(d2) && s' == Formed(s, d0, d1, d2, b, req)
    requires |f.availRing| == NUM && f' == Offered(f, d0)
    ensures d0 !in s.chains && Wf(s', {}) && FlowOk(s', f')
  {
    hide Idx, Slot, Wf, Holds, Entries, Formed;
    FormedOk(s, d0, d1, d2, b, req);
    FormedHolds(s, d0, d1, d2, b, req, f.queued, Queued);
    FormedHolds(s, d0, d1, d2, b, req, f.pending, Pending);
    FormedHolds(s, d0, d1, d2, b, req, f.done, Done);
    HeadsFit(s', {}, f.queued + [d0], Queued);
    EntriesPush(f.availRing, f.fetched, f.queued, d0);
  }

  /** The device takes the first request from the available ring. */
  ghost function Fetched(f: Flow): Flow
    requires |f.queued| > 0
  {
    f.(deviceNext := Idx(f.fetched + 1), fetched := f.fetched + 1, queued := f.queued[1..],
       pending := f.pending + [f.queued[0]])
  }

  lemma FetchedOk(s: State, f: Flow, h: int, f': Flow)
    requires Wf(s, {}) && FlowOk(s, f) && |f.queued| > 0 && h == f.queued[0] && f' == Fetched(f)
    ensures h in s.chains && In(h) && Sizes(s) && |f.availRing| == NUM && f.availRing[Slot(f.fetched)] == h
    ensures var s' := Moved(s, h, Pending, s.info[h].status); s'.info == s.info && Wf(s', {}) && FlowOk(s', f')
  {
    hide Wf, Holds, Entries, Idx, Slot, ChainOk;
    HeadFacts(s, f.queued, Queued, 0);
    ChainFacts(s, {}, h);
    ChainRange(s, h);
    MovedOk(s, {}, h, Pending, s.info[h].status);
    MovedHolds(s, h, Pending, s.info[h].status, f.queued, 0, f.pending);
    MovedOthers(s, h, Pending, s.info[h].status, f.done, Done);
    EntriesPop(f.availRing, f.fetched, f.queued);
    EntriesSize(f.availRing, f.fetched, f.queued);
    assert f.queued[..0] + f.queued[1..] == f.queued[1..];
  }

  /** The device reports the request at position i of pending in the used ring. */
  ghost function Completed(f: Flow, i: int): Flow
    requires 0 <= i < |f.pending| && |f.usedRing| == NUM
  {
    f.(usedRing := f.usedRing[Slot(f.seen + |f.done|) := f.pending[i]], deviceIdx := Idx(f.seen + |f.done| + 1),
       pending := f.pending[..i] + f.pending[i + 1..], done := f.done + [f.pending[i]])
  }

  lemma CompletedOk(s: State, f: Flow, i: int, h: int)
    requires Wf(s, {}) && FlowOk(s, f) && 0 <= i < |f.pending| && h == f.pending[i]
    ensures h in s.chains && In(h) && Sizes(s) && |f.usedRing| == NUM
    ensures Wf(Moved(s, h, Done, 0), {}) && FlowOk(Moved(s, h, Done, 0), Completed(f, i))
  {
    hide Wf, Holds, Entries, Idx, Slot, ChainOk;
    HeadFacts(s, f.pending, Pending, i);
    ChainFacts(s, {}, h);
    ChainRange(s, h);
    MovedOk(s, {}, h, Done, 0);
    MovedHolds(s, h, Done, 0, f.pending, i, f.done);
    MovedOthers(s, h, Done, 0, f.queued, Queued);
    HeadsFit(Moved(s, h, Done, 0), {}, f.done + [h], Done);
    EntriesSize(f.usedRing, f.seen, f.done);
    EntriesPush(f.usedRing, f.seen, f.done, h);
  }

  /** The interrupt handler has dealt with the first entry of the used ring. */
  ghost function Seen(f: Flow): Flow
    requires |f.done| > 0
  {
    f.(usedIdx := Idx(f.seen + 1), seen := f.seen + 1, done := f.done[1..])
  }

  lemma DoneInfo(s: State, h: int)
    requires Sizes(s) && h in s.chains && ChainOk(s, h) && s.chains[h].phase.Done?
    ensures In(h) && s.info[h] == Info(s.chains[h].b, 0)
  {
  }

  lemma SeenOk(s: State, f: Flow, h: int)
    requires Wf(s, {}) && FlowOk(s, f) && |f.done| > 0 && h == f.done[0]
    ensures h in s.chains && In(h) && Sizes(s) && |f.usedRing| == NUM && f.usedRing[Slot(f.seen)] == h
    ensures s.info[h] == Info(s.chains[h].b, 0)
    ensures var s' := Moved(s, h, Finished, 0); s'.info == s.info && Wf(s', {}) && FlowOk(s', Seen(f))
  {
    hide Wf, Holds, Entries, Idx, Slot, ChainOk;
    HeadFacts(s, f.done, Done, 0);
    ChainFacts(s, {}, h);
    ChainRange(s, h);
    DoneInfo(s, h);
    MovedOk(s, {}, h, Finished, 0);
    FinishedHolds(s, {}, h, f.done);
    MovedOthers(s, h, Finished, 0, f.queued, Queued);
    MovedOthers(s, h, Finished, 0, f.pending, Pending);
    EntriesPop(f.usedRing, f.seen, f.done);
    EntriesSize(f.usedRing, f.seen, f.done);
  }

  /** Nothing new in the used ring exactly when the two indices agree. */
  lemma SeenAll(s: State, f: Flow)
    requires FlowOk(s, f)
    ensures f.usedIdx == f.deviceIdx <==> |f.done| == 0
  {
    EntriesSize(f.usedRing, f.seen, f.done);
    IdxDiffers(f.seen, |f.done|);
  }

  lemma FlowSizes(s: State, f: Flow)
    requires FlowOk(s, f)
    ensures |f.availRing| == |f.usedRing| == NUM && f.availIdx == Idx(f.fetched + |f.queued|)
    ensures f.deviceNext == Idx(f.fetched)
    ensures f.deviceIdx == Idx(f.seen + |f.done|) && f.usedIdx == Idx(f.seen)
  {
  }

  lemma DonePhase(s: State, f: Flow)
    requires FlowOk(s, f) && |f.done| > 0
    ensures f.done[0] in s.chains && s.chains[f.done[0]].phase.Done? && f.usedIdx == Idx(f.seen)
  {
  }

  lemma DroppedFlow(s: State, h: int, f: Flow)
    requires Wf(s, {}) && h in s.chains && s.chains[h].phase.Finished? && Sizes(s) && ChainOk(s, h) && FlowOk(s, f)
    ensures FlowOk(Dropped(s, h), f)
  {
    DroppedHolds(s, h, f.queued, Queued);
    DroppedHolds(s, h, f.pending, Pending);
    DroppedHolds(s, h, f.done, Done);
  }

  lemma SizesOf(s: State, aside: set<int>)
    requires Wf(s, aside)
    ensures Sizes(s)
  {
  }

  ghost predicate ThreeFree(free: seq<bool>)
    requires |free| == NUM
  {
    exists a, b, c :: In(a) && In(b) && In(c) && a != b && b != c && a != c && free[a] && free[b] && free[c]
  }

  /** The same requests, however far they have come. */
  ghost predicate SameRequests(cs: map<int, Chain>, cs': map<int, Chain>) {
    cs'.Keys == cs.Keys && forall h :: h in cs && h in cs' ==> cs'[h] == cs[h].(phase := cs'[h].phase)
  }

  class Driver {
    var desc: seq<Desc>
    var free: seq<bool>
    var info: seq<Info>
    var ops: seq<Req>
    var busy: set<int>
    var data: map<int, Block>       // what the buffers hold
    var disk: map<nat, Block>       // what the sectors hold
    var availRing: seq<int>
    var availIdx: int
    var usedRing: seq<int>
    var deviceIdx: int
    var usedIdx: int
    var deviceNext: int
    ghost var own: seq<int>
    ghost var chains: map<int, Chain>
    ghost var who: map<int, int>
    ghost var fetched: nat
    ghost var seen: nat
    ghost var queued: seq<int>
    ghost var pending: seq<int>
    ghost var done: seq<int>

    ghost function Now(): State
      reads this`desc, this`free, this`info, this`ops, this`busy, this`own, this`chains, this`who
    {
      State(desc, free, info, ops, busy, own, chains, who)
    }

    ghost function Rings(): Flow
      reads this`availRing, this`availIdx, this`deviceNext, this`usedRing, this`deviceIdx, this`usedIdx
      reads this`fetched, this`seen, this`queued, this`pending, this`done
    {
      Flow(availRing, availIdx, deviceNext, usedRing, deviceIdx, usedIdx, fetched, seen, queued, pending, done)
    }

    ghost predicate Valid(aside: set<int>)
      reads this`desc, this`free, this`info, this`ops, this`busy, this`own, this`chains, this`who
      reads this`availRing, this`availIdx, this`deviceNext, this`usedRing, this`deviceIdx, this`usedIdx
      reads this`fetched, this`seen, this`queued, this`pending, this`done
    {
      Wf(Now(), aside) && FlowOk(Now(), Rings())
    }

    constructor (data: map<int, Block>, disk: map<nat, Block>)
      ensures Valid({}) && chains == map[] && busy == {} && this.data == data && this.disk == disk
      ensures who == map[] && queued == pending == done == [] && forall k :: In(k) ==> free[k]
    {
      this.data, this.disk := data, disk;
      desc, free := seq(8, _ => NoDesc), seq(8, _ => true);
      info, ops, busy := seq(8, _ => Info(-1, 0)), seq(8, _ => Req(false, 0)), {};
      availRing, usedRing := seq(8, _ => 0), seq(8, _ => 0);
      availIdx, deviceIdx, usedIdx, deviceNext := 0, 0, 0, 0;
      own, chains, who := seq(8, _ => -1), map[], map[];
      fetched, seen, queued, pending, done := 0, 0, [], [], [];
    }

    method AllocDesc(ghost aside: set<int>) returns (i: int)
      requires Valid(aside)
      modifies this`free, this`own
      ensures i == -1 ==> free == old(free) && own == old(own) && forall k :: In(k) ==> !free[k]
      ensures i != -1 ==>
                In(i) && i !in aside && old(free[i]) && free == old(free)[i := false] && own == old(own)[i := -2]
      ensures Valid(if i == -1 then aside else aside + {i})
    {
      i := 0;
      while i < NUM
        invariant 0 <= i <= NUM && free == old(free) && own == old(own) && forall k :: 0 <= k < i ==> !free[k]
      {
        if free[i] {
          hide FlowOk;
          ghost var s := Now();
          TakeOk(s, aside, i);
          free := free[i := false];
          own := own[i := -2];
          FlowSame(s, Now(), Rings());
          return;
        }
        i := i + 1;
      }
      return -1;
    }

    /** Its two panics cannot happen: i is a descriptor, and it is not free. */
    method FreeDesc(i: int, ghost aside: set<int>)
      requires Valid(aside) && i in aside
      modifies this`desc, this`free, this`own
      ensures Valid(aside - {i}) && desc == old(desc)[i := NoDesc] && free == old(free)[i := true]
    {
      hide FlowOk;
      ghost var s := Now();
      GiveOk(s, aside, i, NoDesc);
      assert In(i) && !free[i];
      desc := desc[i := NoDesc];
      free := free[i := true];
      own := own[i := -1];
      FlowSame(s, Now(), Rings());
    }

    /** Three free descriptors, or all put back because there are not three. */
    method Alloc3() returns (ok: bool, idx: seq<int>)
      requires Valid({})
      modifies this`desc, this`free, this`own
      ensures ok ==> |idx| == 3 && NoRepeats(idx) && Valid({idx[0], idx[1], idx[2]})
      ensures ok ==> In(idx[0]) && In(idx[1]) && In(idx[2])
      ensures |free| == |old(free)| == NUM && (ok ==> forall k :: In(k) ==> (old(free[k]) <==> free[k] || k in idx))
      ensures !ok ==> Valid({}) && free == old(free)
                      && forall a, b, c :: In(a) && In(b) && In(c) && free[a] && free[b] && free[c] ==>
                           a == b || b == c || a == c
    {
      hide Wf, FlowOk;
      idx := [];
      Basics(Now(), {});
      assert Elems([]) == {};
      while |idx| < 3
        invariant |idx| <= 3 && NoRepeats(idx) && Valid(Elems(idx)) && |free| == |old(free)| == NUM
        invariant forall k :: In(k) ==> (old(free[k]) <==> free[k] || k in idx)
        decreases 3 - |idx|
      {
        var i := AllocDesc(Elems(idx));
        if i == -1 {
          UndoAlloc(idx);
          return false, [];
        }
        assert Elems(idx + [i]) == Elems(idx) + {i};
        idx := idx + [i];
      }
      assert Elems(idx) == {idx[0], idx[1], idx[2]};
      Basics(Now(), Elems(idx));
      return true, idx;
    }

    /** alloc3_desc's way out. */
    method UndoAlloc(idx: seq<int>)
      requires Valid(Elems(idx)) && NoRepeats(idx) && |idx| < 3
      modifies this`desc, this`free, this`own
      ensures Valid({}) && |free| == |old(free)|
      ensures forall k :: In(k) && k < |free| ==> (free[k] <==> old(free[k]) || k in idx)
    {
      hide Wf, FlowOk, Elems;
      var j := 0;
      assert idx[0..] == idx;
      SizesOf(Now(), Elems(idx));
      while j < |idx|
        invariant 0 <= j <= |idx| && Valid(Elems(idx[j..])) && |free| == |old(free)| == NUM
        invariant forall k :: In(k) ==> (free[k] <==> old(free[k]) || k in idx[..j])
      {
        ElemsTail(idx, j);
        FreeDesc(idx[j], Elems(idx[j..]));
        SizesOf(Now(), Elems(idx[j..]) - {idx[j]});
        assert idx[..j + 1] == idx[..j] + [idx[j]];
        j := j + 1;
      }
      assert idx[..j] == idx && Elems(idx[j..]) == {};
    }

    /** virtio_disk_rw up to its sleep: buffer b, not in flight, is submitted. */
    method Submit(idx: seq<int>, b: int, write: bool, blockno: nat)
      requires |idx| == 3 && NoRepeats(idx) && Valid({idx[0], idx[1], idx[2]}) && b !in who
      modifies this`desc, this`info, this`ops, this`busy, this`own
      modifies this`chains, this`who, this`availRing, this`availIdx, this`queued
      ensures Valid({}) && busy == old(busy) + {b} && queued == old(queued) + [idx[0]] && idx[0] !in old(chains)
      ensures chains == old(chains)[idx[0] := Chain(idx[1], idx[2], b, Req(write, Sector(blockno)), Queued)]
      ensures who == old(who)[b := idx[0]]
    {
      hide Wf, FlowOk, Idx, Slot;
      var d0, d1, d2 := idx[0], idx[1], idx[2];
      Basics(Now(), {d0, d1, d2});
      FlowSizes(Now(), Rings());
      ghost var s', f' := Formed(Now(), d0, d1, d2, b, Req(write, Sector(blockno))), Offered(Rings(), d0);
      OfferedOk(Now(), Rings(), d0, d1, d2, b, Req(write, Sector(blockno)), s', f');
      Form(d0, d1, d2, b, write, blockno);
      Offer(d0);
    }

    /** The descriptors become a chain. */
    method Form(d0: int, d1: int, d2: int, b: int, write: bool, blockno: nat)
      requires Sizes(Now()) && In(d0) && In(d1) && In(d2)
      modifies this`desc, this`info, this`ops, this`busy, this`own, this`chains, this`who
      ensures Sizes(old(Now())) && Now() == Formed(old(Now()), d0, d1, d2, b, Req(write, Sector(blockno)))
    {
      ghost var s' := Formed(Now(), d0, d1, d2, b, Req(write, Sector(blockno)));
      Format(d0, d1, d2, b, write, blockno);
      own, chains, who := s'.own, s'.chains, s'.who;
      assert Now() == s';
    }

    /** Header, data and status descriptor, linked; the status starts at 0xff. */
    method Format(d0: int, d1: int, d2: int, b: int, write: bool, blockno: nat)
      requires |desc| == |info| == |ops| == NUM && In(d0) && In(d1) && In(d2)
      modifies this`desc, this`info, this`ops, this`busy
      ensures desc == old(desc)[d0 := Desc(Header(d0), d1, true, false)][d1 := Desc(Data(b), d2, true, !write)]
                               [d2 := Desc(Status(d0), 0, false, true)]
      ensures info == old(info)[d0 := Info(b, 0xff)] && ops == old(ops)[d0 := Req(write, Sector(blockno))]
      ensures busy == old(busy) + {b}
    {
      ops := ops[d0 := Req(write, Sector(blockno))];
      desc := desc[d0 := Desc(Header(d0), d1, true, false)];
      desc := desc[d1 := Desc(Data(b), d2, true, !write)];
      desc := desc[d2 := Desc(Status(d0), 0, false, true)];
      info := info[d0 := Info(b, 0xff)];
      busy := busy + {b};
    }

    /** Puts h into the available ring, then advances the index. */
    method Offer(h: int)
      requires |availRing| == NUM && availIdx == Idx(fetched + |queued|)
      modifies this`availRing, this`availIdx, this`queued
      ensures Rings() == Offered(old(Rings()), h)
    {
      hide Idx, Slot;
      IdxSlot(fetched + |queued|);
      availRing := availRing[availIdx % NUM := h];
      availIdx := (availIdx + 1) % 65536;
      queued := queued + [h];
    }

    /** The bookkeeping moves on to s and f, which the real fields have reached already. */
    ghost method Become(s: State, f: Flow)
      requires Wf(s, {}) && FlowOk(s, f)
      requires s == Now().(chains := s.chains)
      requires f == Rings().(fetched := f.fetched, seen := f.seen, queued := f.queued, pending := f.pending,
                             done := f.done)
      modifies this`chains, this`fetched, this`seen, this`queued, this`pending, this`done
      ensures Valid({}) && Now() == s && Rings() == f
    {
      hide Wf, FlowOk;
      chains, fetched, seen := s.chains, f.fetched, f.seen;
      Requeue(f.queued, f.pending, f.done);
    }

    ghost method Requeue(queued': seq<int>, pending': seq<int>, done': seq<int>)
      modifies this`queued, this`pending, this`done
      ensures queued == queued' && pending == pending' && done == done'
    {
      queued, pending, done := queued', pending', done';
    }

    /** The entry that the device reads next. */
    method AvailHead() returns (h: int)
      requires Valid({}) && |queued| > 0
      ensures h == queued[0]
    {
      hide Wf, FlowOk, Idx, Slot;
      FetchedOk(Now(), Rings(), queued[0], Fetched(Rings()));
      FlowSizes(Now(), Rings());
      IdxSlot(fetched);
      h := availRing[deviceNext % NUM];
    }

    /** The device takes the next request from the available ring. */
    method DeviceFetch() returns (h: int)
      requires Valid({}) && |queued| > 0
      modifies this`deviceNext, this`fetched, this`seen, this`queued, this`pending, this`done, this`chains
      ensures Valid({}) && old(queued) == [h] + queued && pending == old(pending) + [h] && done == old(done)
      ensures h in old(chains) && chains == old(chains)[h := old(chains)[h].(phase := Pending)]
    {
      hide Wf, FlowOk, Idx, Slot;
      h := AvailHead();
      ghost var f' := Fetched(Rings());
      FetchedOk(Now(), Rings(), h, f');
      FlowSizes(Now(), Rings());
      IdxSlot(fetched);
      ghost var s' := Moved(Now(), h, Pending, info[h].status);
      deviceNext := (deviceNext + 1) % 65536;
      Become(s', f');
    }

    /**
     The device carries out any request it has taken, as the three descriptors and the header say, and reports it in
     the used ring. This moves the buffer's data to the sector that was asked for, or the other way.
     */
    method DeviceComplete(ghost i: int, h: int)
      requires Valid({}) && 0 <= i < |pending| && pending[i] == h
      modifies this`info, this`chains, this`usedRing, this`deviceIdx, this`pending, this`done, this`data, this`disk
      ensures Valid({}) && done == old(done) + [h] && h in old(chains)
      ensures pending == old(pending)[..i] + old(pending)[i + 1..]
      ensures chains == old(chains)[h := old(chains)[h].(phase := Done)]
      ensures var c := old(chains)[h];
              if c.req.out then disk == old(disk)[c.req.sector := Contents(old(data), c.b)] && data == old(data)
              else data == old(data)[c.b := Contents(old(disk), c.req.sector)] && disk == old(disk)
    {
      hide Valid, Sizes, ChainOk;
      Pends(i, h);
      var k := Transfer(h);
      MarkDone(i, k);
    }

    lemma Pends(i: int, h: int)
      requires Valid({}) && 0 <= i < |pending| && pending[i] == h
      ensures h in chains && Sizes(Now()) && ChainOk(Now(), h)
    {
      hide Wf, FlowOk;
      CompletedOk(Now(), Rings(), i, h);
      ChainFacts(Now(), {}, h);
    }

    /** The status byte and the used ring. */
    method MarkDone(ghost i: int, h: int)
      requires Valid({}) && 0 <= i < |pending| && pending[i] == h
      modifies this`info, this`chains, this`usedRing, this`deviceIdx, this`pending, this`done
      ensures Valid({}) && done == old(done) + [h] && h in old(chains)
      ensures pending == old(pending)[..i] + old(pending)[i + 1..]
      ensures chains == old(chains)[h := old(chains)[h].(phase := Done)]
    {
      hide Wf, FlowOk, Idx, Slot;
      CompletedOk(Now(), Rings(), i, h);
      ghost var s', f' := Moved(Now(), h, Done, 0), Completed(Rings(), i);
      FlowSizes(Now(), Rings());
      info := info[h := info[h].(status := 0)];
      chains := s'.chains;
      assert Now() == s';
      Report(i, h);
    }

    /** The device follows the chain from h: header, data, status. */
    method Transfer(h: int) returns (k: int)
      requires Sizes(Now()) && h in chains && ChainOk(Now(), h)
      modifies this`data, this`disk
      ensures k == h
      ensures var c := chains[h];
              if c.req.out then disk == old(disk)[c.req.sector := Contents(old(data), c.b)] && data == old(data)
              else data == old(data)[c.b := Contents(old(disk), c.req.sector)] && disk == old(disk)
    {
      var d0 := desc[h];
      var d1 := desc[d0.next];
      var d2 := desc[d1.next];
      var req := ops[d0.addr.i];
      if !d1.write {
        assert req.out;
        disk := disk[req.sector := Contents(data, d1.addr.b)];
      } else {
        assert !req.out;
        data := data[d1.addr.b := Contents(disk, req.sector)];
      }
      k := d2.addr.i;
    }

    method Report(ghost i: int, h: int)
      requires |usedRing| == NUM && deviceIdx == Idx(seen + |done|) && 0 <= i < |pending| && pending[i] == h
      modifies this`usedRing, this`deviceIdx, this`pending, this`done
      ensures Rings() == Completed(old(Rings()), i)
    {
      hide Idx, Slot;
      IdxSlot(seen + |done|);
      usedRing := usedRing[deviceIdx % NUM := h];
      deviceIdx := (deviceIdx + 1) % 65536;
      pending, done := pending[..i] + pending[i + 1..], done + [h];
    }

    /** The indices are equal exactly when every completion has been seen; every busy buffer has a request. */
    lemma Caught()
      requires Valid({})
      ensures (usedIdx == deviceIdx <==> |done| == 0) && forall b :: b in busy ==> b in who
    {
      hide Wf, FlowOk, Idx, Slot;
      SeenAll(Now(), Rings());
      BusyKnown(Now(), {});
    }

    /** The interrupt handler clears the disk flag of exactly the buffers whose requests have completed. */
    method Intr()
      requires Valid({})
      modifies this`busy, this`chains, this`usedIdx, this`fetched, this`seen, this`queued, this`pending, this`done
      ensures Valid({}) && done == [] && queued == old(queued) && pending == old(pending)
      ensures forall b :: b in busy <==> b in old(busy) && (b in old(who) ==> old(who)[b] !in old(done))
      ensures busy <= old(busy) && SameRequests(old(chains), chains)
    {
      hide Valid;
      Caught();
      while usedIdx != deviceIdx
        invariant Valid({}) && queued == old(queued) && pending == old(pending) && who == old(who)
        invariant |done| <= |old(done)| && done == old(done)[|old(done)| - |done|..]
        invariant busy <= old(busy) && SameRequests(old(chains), chains)
        invariant forall b :: b in old(busy) ==>
                  b in who && (b !in busy <==> who[b] in old(done)[..|old(done)| - |done|])
        decreases |done|
      {
        Caught();
        ghost var d := |old(done)| - |done|;
        assert old(done)[..d + 1] == old(done)[..d] + [done[0]];
        IntrOne();
      }
      Caught();
      assert old(done)[..|old(done)| - |done|] == old(done);
    }

    /** The entry that the handler reads next; its request has status 0, so the panic cannot happen. */
    method UsedHead() returns (id: int)
      requires Valid({}) && |done| > 0
      ensures id == done[0] && In(id) && |info| == NUM && info[id].status == 0
    {
      hide Wf, FlowOk, Idx, Slot;
      SeenOk(Now(), Rings(), done[0]);
      DonePhase(Now(), Rings());
      IdxSlot(seen);
      id := usedRing[usedIdx % NUM];
    }

    /** One entry of the used ring. */
    method IntrOne()
      requires Valid({}) && |done| > 0
      modifies this`busy, this`chains, this`usedIdx, this`fetched, this`seen, this`queued, this`pending, this`done
      ensures Valid({}) && queued == old(queued) && pending == old(pending) && old(done) == [old(done)[0]] + done
      ensures forall b :: b in old(busy) ==> b in who && (b !in busy <==> who[b] == old(done)[0])
      ensures busy <= old(busy) && SameRequests(old(chains), chains)
    {
      hide Wf, FlowOk, Idx, Slot;
      var id := UsedHead();
      SeenOk(Now(), Rings(), id);
      DonePhase(Now(), Rings());
      BusyAfter(Now(), {}, id);
      ghost var f' := Seen(Rings());
      IdxSlot(seen);
      var b := info[id].b;
      ghost var s' := Moved(Now(), id, Finished, 0);
      busy, usedIdx := busy - {b}, (usedIdx + 1) % 65536;
      Become(s', f');
    }

    /** The rest of virtio_disk_rw, once the buffer's disk flag is clear: the chain is freed. */
    method Finish(h: int)
      requires Valid({}) && h in chains && chains[h].b !in busy
      modifies this`desc, this`free, this`info, this`own, this`chains, this`who
      ensures Valid({}) && chains == old(chains) - {h} && who == old(who) - {old(chains[h].b)}
      ensures |free| == |old(free)| == |old(own)| == NUM
      ensures forall k :: In(k) ==> (free[k] <==> old(free[k]) || old(own[k]) == h)
    {
      hide Wf, FlowOk;
      ghost var s := Now();
      ChainFacts(s, {}, h);
      DroppedOk(s, h);
      DroppedFlow(s, h, Rings());
      OwnExactly(s, h);
      SizesOf(s, {});
      ghost var s', c := Dropped(s, h), chains[h];
      info := info[h := info[h].(b := -1)];
      own, chains, who := s'.own, s'.chains, s'.who;
      assert Now() == s';
      FreeChain(h, c.d1, c.d2);
    }

    /** free_chain follows the links; the chain has three descriptors, so it stops after three. */
    method FreeChain(h: int, ghost d1: int, ghost d2: int)
      requires NoRepeats([h, d1, d2]) && Valid({h, d1, d2})
      requires desc[h].more && desc[h].next == d1 && desc[d1].more && desc[d1].next == d2 && !desc[d2].more
      modifies this`desc, this`free, this`own
      ensures Valid({}) && free == old(free)[h := true][d1 := true][d2 := true]
    {
      Basics(Now(), {h, d1, d2});
      hide Wf, FlowOk;
      ghost var path, k := [h, d1, d2], 0;
      assert path[0] != path[1] && path[0] != path[2] && path[1] != path[2];
      assert {h, d1, d2} - {h} == {d1, d2} && {d1, d2} - {d1} == {d2} && {d2} - {d2} == {};
      var i := h;
      while true
        invariant 0 <= k < 3 && Valid(if k == 0 then {h, d1, d2} else if k == 1 then {d1, d2} else {d2})
        invariant i == (if k == 0 then h else if k == 1 then d1 else d2)
        invariant |desc| == NUM && desc[d2] == old(desc[d2]) && (k <= 1 ==> desc[d1] == old(desc[d1]))
        invariant (k == 0 ==> desc == old(desc))
        invariant free == (if k == 0 then old(free) else if k == 1 then old(free)[h := true]
                           else old(free)[h := true][d1 := true])
        decreases 3 - k
      {
        var flag, nxt := desc[i].more, desc[i].next;
        FreeDesc(i, if k == 0 then {h, d1, d2} else if k == 1 then {d1, d2} else {d2});
        k := k + 1;
        if flag {
          i := nxt;
        } else {
          break;
        }
      }
    }

    /** The device has nothing to do and nothing to report. */
    ghost predicate Quiet()
      reads this
    {
      Valid({}) && queued == pending == done == []
    }

    lemma Owns(h: int)
      requires Valid({}) && h in chains
      ensures |own| == NUM && forall k :: In(k) ==> (own[k] == h <==> k == h || k == chains[h].d1 || k == chains[h].d2)
    {
      OwnExactly(Now(), h);
    }

    /** A request on its way from the driver through the device and back; nothing else is going on. */
    method Serve(h: int)
      requires Valid({}) && queued == [h] && pending == done == [] && h in chains
      requires chains[h].b in who && who[chains[h].b] == h
      modifies this`deviceNext, this`fetched, this`seen, this`queued, this`pending, this`done, this`chains
      modifies this`info, this`usedRing, this`deviceIdx, this`data, this`disk, this`busy, this`usedIdx
      ensures Quiet() && SameRequests(old(chains), chains) && chains[h].b !in busy && busy <= old(busy)
      ensures forall b :: b in old(busy) && b in old(who) && old(who)[b] != h ==> b in busy
      ensures var c := old(chains)[h];
              if c.req.out then disk == old(disk)[c.req.sector := Contents(old(data), c.b)] && data == old(data)
              else data == old(data)[c.b := Contents(old(disk), c.req.sector)] && disk == old(disk)
    {
      hide Valid;
      var g := DeviceFetch();
      assert [h] == [g] + queued && |queued| == 0 && [h][0] == h && pending == [h];
      DeviceComplete(0, h);
      assert pending == [];
      ghost var d, b := done, chains[h].b;
      assert d == [h] && h in d;
      Intr();
      assert b !in busy;
    }

    /** virtio_disk_rw from end to end, the device having nothing else to do; false if descriptors are lacking. */
    method Rw(b: int, write: bool, blockno: nat) returns (ok: bool)
      requires Quiet() && b !in who
      modifies this
      ensures Quiet() && who == old(who) && chains.Keys == old(chains.Keys) && |free| == |old(free)| == NUM
      ensures ok <==> ThreeFree(old(free))
      ensures forall k :: In(k) ==> (free[k] <==> old(free[k]))
      ensures !ok ==> data == old(data) && disk == old(disk)
      ensures ok && write ==> disk == old(disk)[Sector(blockno) := Contents(old(data), b)] && data == old(data)
      ensures ok && !write ==> data == old(data)[b := Contents(old(disk), Sector(blockno))] && disk == old(disk)
    {
      hide Valid;
      var idx;
      ok, idx := Alloc3();
      if !ok {
        return;
      }
      assert ThreeFree(old(free)) by {
        assert idx[0] in idx && idx[1] in idx && idx[2] in idx;
        assert old(free)[idx[0]] && old(free)[idx[1]] && old(free)[idx[2]];
      }
      RwWith(idx, b, write, blockno);
    }

    /** The same once there are three descriptors. */
    method RwWith(idx: seq<int>, b: int, write: bool, blockno: nat)
      requires |idx| == 3 && NoRepeats(idx) && Valid({idx[0], idx[1], idx[2]}) && b !in who
      requires queued == pending == done == []
      modifies this
      ensures Quiet() && who == old(who) && chains.Keys == old(chains.Keys) && |free| == |old(free)| == NUM
      ensures forall k :: In(k) ==> (free[k] <==> old(free[k]) || k in idx)
      ensures if write then disk == old(disk)[Sector(blockno) := Contents(old(data), b)] && data == old(data)
              else data == old(data)[b := Contents(old(disk), Sector(blockno))] && disk == old(disk)
    {
      hide Valid, NoRepeats, Contents, Sector;
      Ask(idx, b, write, blockno);
      Owns(idx[0]);
      assert idx == [idx[0], idx[1], idx[2]];
      Finish(idx[0]);
      assert who == old(who);
    }

    /** Submitted, and waited for. */
    method Ask(idx: seq<int>, b: int, write: bool, blockno: nat)
      requires |idx| == 3 && NoRepeats(idx) && Valid({idx[0], idx[1], idx[2]}) && b !in who
      requires queued == pending == done == []
      modifies this
      ensures Quiet() && who == old(who)[b := idx[0]] && free == old(free) && idx[0] !in old(chains)
      ensures chains.Keys == old(chains.Keys) + {idx[0]} && b !in busy
      ensures chains[idx[0]] == Chain(idx[1], idx[2], b, Req(write, Sector(blockno)), chains[idx[0]].phase)
      ensures if write then disk == old(disk)[Sector(blockno) := Contents(old(data), b)] && data == old(data)
              else data == old(data)[b := Contents(old(disk), Sector(blockno))] && disk == old(disk)
    {
      hide Valid, NoRepeats, Contents, Sector;
      Submit(idx, b, write, blockno);
      Serve(idx[0]);
    }

    /** A block written and read back into another buffer is the same. */
    method ReadBack(a: int, b: int, blockno: nat)
      requires Quiet() && a !in who && b !in who && |free| == NUM && ThreeFree(free)
      modifies this
      ensures Quiet() && Contents(data, b) == Contents(old(data), a) && Contents(data, a) == Contents(old(data), a)
    {
      hide Valid;
      var ok := Rw(a, true, blockno);
      ok := Rw(b, false, blockno);
    }
  }
}
