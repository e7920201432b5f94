/** The doubly linked ring of bio.c as the sequence of its buffers, most recently used first. */
module BufRing {
  import opened Counting

  /** After and before position i; head closes the ring. */
  function After(order: seq<int>, head: int, i: int): int
    requires -1 <= i < |order|
  {
    if i + 1 < |order| then order[i + 1] else head
  }

  function Before(order: seq<int>, head: int, i: int): int
    requires 0 <= i <= |order|
  {
    if i > 0 then order[i - 1] else head
  }

  ghost predicate Distinct(order: seq<int>, head: int) {
    && (forall i :: 0 <= i < |order| ==> 0 <= order[i] < head)
    && NoRepeats(order)
  }

  ghost predicate LinkAt(next: seq<int>, prev: seq<int>, order: seq<int>, head: int, i: int)
    requires 0 <= i < |order|
  {
    0 <= order[i] < |next| == |prev| && next[order[i]] == After(order, head, i)
    && prev[order[i]] == Before(order, head, i)
  }

  /** The links through next and prev are exactly this ring. */
  ghost predicate Ring(next: seq<int>, prev: seq<int>, order: seq<int>, head: int) {
    && 0 <= head && |next| == |prev| == head + 1 && Distinct(order, head)
    && next[head] == After(order, head, -1) && prev[head] == Before(order, head, |order|)
    && (forall i :: 0 <= i < |order| ==> LinkAt(next, prev, order, head, i))
  }

  // ----- taking a buffer out -----

  function Without(order: seq<int>, k: int): (r: seq<int>)
    requires 0 <= k < |order|
    ensures |r| == |order| - 1 && forall i :: 0 <= i < |r| ==> r[i] == if i < k then order[i] else order[i + 1]
  {
    order[..k] + order[k + 1..]
  }

  lemma WithoutDistinct(order: seq<int>, head: int, k: int)
    requires Distinct(order, head) && 0 <= k < |order|
    ensures Distinct(Without(order, k), head)
    ensures forall i :: 0 <= i < |order| - 1 ==> Without(order, k)[i] != order[k]
  {
    var r := Without(order, k);
    forall i, j | 0 <= i < j < |r| ensures r[i] != r[j] {
      assert order[if i < k then i else i + 1] != order[if j < k then j else j + 1];
    }
  }

  lemma UnlinkRing(next: seq<int>, prev: seq<int>, order: seq<int>, head: int, k: int)
    requires Ring(next, prev, order, head) && 0 <= k < |order|
    ensures LinkAt(next, prev, order, head, k) && 0 <= next[order[k]] <= head && 0 <= prev[order[k]] <= head
    ensures var b := order[k];
            Ring(next[prev[b] := next[b]], prev[next[b] := prev[b]], Without(order, k), head)
  {
    assert LinkAt(next, prev, order, head, k);
    var b, r := order[k], Without(order, k);
    var next', prev' := next[prev[b] := next[b]], prev[next[b] := prev[b]];
    WithoutDistinct(order, head, k);
    hide Distinct;
    forall i | 0 <= i < |r| ensures LinkAt(next', prev', r, head, i) {
      UnlinkAt(next, prev, order, head, k, i);
    }
  }

  lemma UnlinkAt(next: seq<int>, prev: seq<int>, order: seq<int>, head: int, k: int, i: int)
    requires Ring(next, prev, order, head) && 0 <= k < |order| && 0 <= i < |order| - 1
    requires LinkAt(next, prev, order, head, k)
    requires var b := order[k]; 0 <= next[b] <= head && 0 <= prev[b] <= head
    ensures var b := order[k]; LinkAt(next[prev[b] := next[b]], prev[next[b] := prev[b]], Without(order, k), head, i)
  {
    hide Ring;
    var j := if i < k then i else i + 1;
    Linked(next, prev, order, head, j, k - 1);
    Linked(next, prev, order, head, j, k + 1);
  }

  lemma Linked(next: seq<int>, prev: seq<int>, order: seq<int>, head: int, j: int, m: int)
    requires Ring(next, prev, order, head) && 0 <= j < |order|
    ensures |next| == |prev| == head + 1 && LinkAt(next, prev, order, head, j) && order[j] < head
    ensures 0 <= m < |order| && m != j ==> order[m] != order[j]
  {
  }

  // ----- putting a buffer in front -----

  lemma EmptyRing(next: seq<int>, prev: seq<int>, head: int)
    requires 0 <= head && |next| == |prev| == head + 1 && next[head] == prev[head] == head
    ensures Ring(next, prev, [], head)
  {
  }

  lemma PushRing(next: seq<int>, prev: seq<int>, order: seq<int>, head: int, b: int)
    requires Ring(next, prev, order, head) && 0 <= b < head && forall i :: 0 <= i < |order| ==> order[i] != b
    ensures var h := next[head];
            0 <= h <= head && Ring(next[b := h][head := b], prev[b := head][h := b], [b] + order, head)
  {
    var h, r := next[head], [b] + order;
    var next', prev' := next[b := h][head := b], prev[b := head][h := b];
    forall i | 0 <= i < |r| ensures LinkAt(next', prev', r, head, i) {
      if i > 0 {
        assert LinkAt(next, prev, order, head, i - 1);
        assert i > 1 ==> order[i - 1] != order[0];
      }
    }
  }

  /** Unlinking a buffer and pushing it in front: the ring is the same but for its place. */
  lemma MoveRing(next: seq<int>, prev: seq<int>, order: seq<int>, head: int, k: int)
    requires Ring(next, prev, order, head) && Complete(order, head) && 0 <= k < |order|
    ensures var b := order[k];
            && |next| == |prev| == head + 1 && 0 <= b < head && 0 <= next[b] <= head && 0 <= prev[b] <= head
            && var next', prev', r := next[prev[b] := next[b]], prev[next[b] := prev[b]], [b] + Without(order, k);
               var h := next'[head];
               0 <= h <= head && Ring(next'[b := h][head := b], prev'[b := head][h := b], r, head) && Complete(r, head)
  {
    UnlinkRing(next, prev, order, head, k);
    WithoutDistinct(order, head, k);
    var b := order[k];
    PushRing(next[prev[b] := next[b]], prev[next[b] := prev[b]], Without(order, k), head, b);
  }

  // ----- recency -----

  /** Each buffer was moved to the front later than those behind it. */
  ghost predicate Recent(order: seq<int>, stamp: seq<nat>) {
    && (forall i :: 0 <= i < |order| ==> 0 <= order[i] < |stamp|)
    && (forall i, j :: 0 <= i < j < |order| ==> stamp[order[i]] > stamp[order[j]])
  }

  lemma RecentPush(order: seq<int>, head: int, stamp: seq<nat>, k: int, clock: nat)
    requires Complete(order, head) && Recent(order, stamp) && |stamp| == head && 0 <= k < |order|
    requires forall i :: 0 <= i < |stamp| ==> stamp[i] < clock
    ensures Recent([order[k]] + Without(order, k), stamp[order[k] := clock])
  {
    var r, stamp' := Without(order, k), stamp[order[k] := clock];
    WithoutDistinct(order, head, k);
    var r' := [order[k]] + r;
    forall i, j | 0 <= i < j < |r'| ensures stamp'[r'[i]] > stamp'[r'[j]] {
      assert r'[j] == r[j - 1];
      if i > 0 {
        assert r'[i] == r[i - 1];
        assert stamp[order[if i - 1 < k then i - 1 else i]] > stamp[order[if j - 1 < k then j - 1 else j]];
      }
    }
  }

  /** order is a permutation of all the buffers. */
  ghost predicate Complete(order: seq<int>, head: int) {
    Distinct(order, head) && |order| == head
  }

  /** A distinct sequence as long as there are buffers leaves none out. */
  lemma CompleteHas(order: seq<int>, head: nat, b: int)
    requires Complete(order, head) && 0 <= b < head
    ensures b in order
  {
    if b !in order {
      Pigeon(order, Range(0, head) - {b});
    }
  }
}
