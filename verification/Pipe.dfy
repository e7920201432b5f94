/**
 pipe.c, with the two file structures that refer to the pipe (file.c). Each method is what runs from
 taking the pipe's lock until it is given up; threads are numbers, and a sleeping thread that has been
 woken calls the method again. When a kill or a bad user address is noticed is up to the caller.
 */
module Pipe {

  // uint counters wrap at 2^32; the buffer has 512 bytes.
  function Count(n: nat): int { n % 0x1_0000_0000 }

  function Slot(n: nat): (i: int)
    ensures 0 <= i < 512
  {
    n % 512
  }

  lemma CountSlot(n: nat)
    ensures Count(n) % 512 == Slot(n) && (Count(n) + 1) % 0x1_0000_0000 == Count(n + 1)
  {
    assert n == n / 0x1_0000_0000 * 0x1_0000_0000 + n % 0x1_0000_0000;
    assert n % 512 == (n / 0x1_0000_0000 * 0x80_0000 * 512 + n % 0x1_0000_0000) % 512;
  }

  /** The full and empty tests are right across the wrap. */
  lemma FullEmpty(r: nat, w: nat)
    requires r <= w <= r + 512
    ensures Count(w) == (Count(r) + 512) % 0x1_0000_0000 <==> w == r + 512
    ensures Count(r) == Count(w) <==> r == w
  {
  }

  lemma SlotsDiffer(a: nat, b: nat)
    requires a < b < a + 512
    ensures Slot(a) != Slot(b)
  {
  }

  /** The bytes enqueued and not dequeued are in the buffer. */
  ghost predicate Holds(data: seq<int>, enq: seq<int>, taken: nat) {
    && |data| == 512 && taken <= |enq| <= taken + 512
    && forall k :: taken <= k < |enq| ==> data[Slot(k)] == enq[k]
  }

  lemma HoldsPut(data: seq<int>, enq: seq<int>, taken: nat, ch: int)
    requires Holds(data, enq, taken) && |enq| < taken + 512
    ensures Holds(data[Slot(|enq|) := ch], enq + [ch], taken)
  {
    forall k | taken <= k < |enq| + 1 ensures data[Slot(|enq|) := ch][Slot(k)] == (enq + [ch])[k] {
      if k < |enq| {
        SlotsDiffer(k, |enq|);
      }
    }
  }

  datatype Outcome = Returned(n: int) | Asleep(done: nat)

  /** Why a writer's loop stops: everything written or bad memory, no reader or a kill, or no room. */
  datatype Stop = Ended | Failed | Full

  /**
   A writer at byte i of len gets to its kill before byte killAt: with used bytes in the buffer there is
   room for those in between, and none of them faults.
   */
  predicate Reaches(used: int, i: nat, killAt: int, faultAt: int, len: nat) {
    i <= killAt < len && used + (killAt - i) <= 512 && !(i <= faultAt < killAt)
  }

  class Pipe {
    var data: array<int>
    var nread: int
    var nwrite: int
    var readopen: bool
    var writeopen: bool
    var readref: nat
    var writeref: nat
    var frees: nat
    var readers: set<int>
    var writers: set<int>
    ghost var enq: seq<int>
    ghost var deq: seq<int>
    ghost var unannounced: nat

    /** Bytes dequeued are a prefix of the bytes enqueued; what lies between is in the buffer. */
    ghost predicate Ring()
      reads this`data, this`nread, this`nwrite, this`enq, this`deq, data
    {
      && data.Length == 512 && |deq| <= |enq| <= |deq| + 512 && deq == enq[..|deq|] && Holds(data[..], enq, |deq|)
      && nread == Count(|deq|) && nwrite == Count(|enq|)
    }

    /**
     No writer sleeps with space available; a reader sleeps with data available only if all of it was
     left by writers that were killed and so did not wake anyone.
     */
    ghost predicate NoneLost()
      reads this
    {
      && (writers != {} ==> |enq| == |deq| + 512 && readopen)
      && (readers != {} ==> |enq| - |deq| <= unannounced && writeopen)
    }

    /** Each end is open while its file has references; the page goes when both are closed. */
    ghost predicate Open()
      reads this
    {
      && readopen == (readref > 0) && writeopen == (writeref > 0)
      && frees == if readref == 0 && writeref == 0 then 1 else 0
    }

    ghost predicate Valid()
      reads this, data
    {
      Ring() && NoneLost() && Open()
    }

    constructor ()
      ensures Valid() && fresh(data) && enq == deq == [] && readref == writeref == 1 && unannounced == 0
      ensures readers == {} && writers == {}
    {
      data := new int[512];
      nread, nwrite, readopen, writeopen, readref, writeref, frees := 0, 0, true, true, 1, 1, 0;
      readers, writers, enq, deq, unannounced := {}, {}, [], [], 0;
    }

    /** One byte into the buffer. */
    method Put(ch: int)
      requires Ring() && |enq| < |deq| + 512
      modifies this`nwrite, this`enq, data
      ensures Ring() && enq == old(enq) + [ch]
    {
      CountSlot(|enq|);
      HoldsPut(data[..], enq, |deq|, ch);
      data[nwrite % 512] := ch;
      assert data[..] == old(data[..])[Slot(|enq|) := ch];
      nwrite := (nwrite + 1) % 0x1_0000_0000;
      enq := enq + [ch];
    }

    /** pipewrite's loop, up to the byte at which it stops. */
    method PutAll(src: seq<int>, i: nat, killAt: int, faultAt: int) returns (k: nat, stop: Stop)
      requires Ring() && i <= |src|
      modifies this`nwrite, this`enq, data
      ensures Ring() && i <= k <= |src| && |enq| == |old(enq)| + (k - i) && |deq| <= |enq| <= |deq| + 512
      ensures old(enq) <= enq && enq[|old(enq)|..] == src[i..k]
      ensures (i <= killAt ==> k <= killAt) && (i <= faultAt ==> k <= faultAt) && (!readopen ==> k == i)
      ensures stop.Failed? <==> k < |src| && (!readopen || k == killAt)
      ensures stop.Full? <==> k < |src| && readopen && k != killAt && |enq| == |deq| + 512
      ensures stop.Ended? ==> k == |src| || k == faultAt
    {
      hide Holds, Count, Slot;
      k := i;
      assert enq[|old(enq)|..] == [];
      while k < |src|
        invariant i <= k <= |src| && Ring() && |enq| == |old(enq)| + (k - i) && old(enq) <= enq
        invariant enq[|old(enq)|..] == src[i..k]
        invariant (!readopen ==> k == i) && (i <= killAt ==> k <= killAt) && (i <= faultAt ==> k <= faultAt)
      {
        if !readopen || k == killAt {
          return k, Failed;
        }
        FullEmpty(|deq|, |enq|);
        if nwrite == (nread + 512) % 0x1_0000_0000 {
          return k, Full;
        }
        if k == faultAt {
          break;
        }
        Put(src[k]);
        assert src[i..k + 1] == src[i..k] + [src[k]];
        assert enq[|old(enq)|..] == src[i..k + 1];
        k := k + 1;
      }
      return k, Ended;
    }

    /**
     pipewrite's loop for thread t with the bytes from position i on still to write: until all are
     written, or the buffer is full and t sleeps, or t is seen to be killed before byte killAt or its
     memory to be bad at byte faultAt.
     */
    method Write(t: int, src: seq<int>, i: nat, killAt: int, faultAt: int) returns (out: Outcome)
      requires Valid() && writeopen && i <= |src| && t !in writers
      modifies this, data
      ensures Valid() && data == old(data) && deq == old(deq) && readref == old(readref) && writeref == old(writeref)
      ensures old(enq) <= enq && |enq| - |old(enq)| <= |src| - i
      ensures enq[|old(enq)|..] == src[i..i + (|enq| - |old(enq)|)]
      ensures i <= killAt ==> i + (|enq| - |old(enq)|) <= killAt
      ensures out.Asleep? ==>
                out.done == i + (|enq| - |old(enq)|) < |src| && writers == old(writers) + {t} && readers == {}
      ensures out.Returned? && out.n >= 0 ==>
                out.n == i + (|enq| - |old(enq)|) && readers == {} && (out.n == |src| || out.n == faultAt)
      ensures out.Returned? && out.n < 0 ==> out.n == -1 && (!readopen || i + (|enq| - |old(enq)|) == killAt)
      ensures (!readopen || i == killAt) && i < |src| ==> out == Returned(-1) && enq == old(enq)
      ensures out.Returned? && out.n < 0 <==>
                i < |src| && (!readopen || Reaches(|old(enq)| - |old(deq)|, i, killAt, faultAt, |src|))
      ensures readopen && old(readers) != {} && |old(enq)| == |old(deq)| ==>
                (readers != {} && |enq| > |deq| <==> i < killAt && Reaches(0, i, killAt, faultAt, |src|))
      ensures out.Asleep? || (out.Returned? && out.n >= 0) ==> unannounced == 0
      ensures out.Returned? && out.n < 0 ==>
                unannounced == old(unannounced) + (|enq| - |old(enq)|) && readers == old(readers)
      ensures out.Returned? ==> writers == old(writers)
    {
      hide Ring;
      var k, stop := PutAll(src, i, killAt, faultAt);
      match stop
      case Failed =>
        unannounced := unannounced + (k - i);
        return Returned(-1);
      case Full =>
        readers, unannounced := {}, 0;
        writers := writers + {t};
        return Asleep(k);
      case Ended =>
        readers, unannounced := {}, 0;
        return Returned(k);
    }

    /** One byte out of the buffer. */
    method Get() returns (ch: int)
      requires Ring() && |deq| < |enq|
      modifies this`nread, this`deq
      ensures Ring() && ch == enq[|old(deq)|] && deq == old(deq) + [ch]
    {
      CountSlot(|deq|);
      ch := data[nread % 512];
      assert data[..][Slot(|deq|)] == enq[|deq|];
      nread := (nread + 1) % 0x1_0000_0000;
      deq := enq[..|deq| + 1];
    }

    /**
     piperead by thread t: sleeps on an empty pipe that may still be written to, else takes up to n
     bytes. A bad address at byte faultAt loses the byte already taken.
     */
    method Read(t: int, n: nat, killed: bool, faultAt: int) returns (out: Outcome, got: seq<int>)
      requires Valid() && readopen
      modifies this
      ensures Valid() && data == old(data) && enq == old(enq) && old(deq) <= deq
      ensures readref == old(readref) && writeref == old(writeref) && unannounced == old(unannounced)
      ensures out.Asleep? <==> |old(deq)| == |enq| && writeopen && !killed
      ensures out.Asleep? ==> deq == old(deq) && readers == old(readers) + {t} && got == []
      ensures out.Returned? && out.n < 0 <==> |old(deq)| == |enq| && writeopen && killed
      ensures out.Returned? && out.n < 0 ==> out.n == -1 && deq == old(deq) && got == []
      ensures out.Returned? && out.n >= 0 ==>
                out.n == |got| <= n && writers == {} && got <= deq[|old(deq)|..]
                && if |got| == faultAt < n && |old(deq)| + |got| < |enq| then |deq| == |old(deq)| + |got| + 1
                   else |deq| == |old(deq)| + |got| && (|got| == n || |deq| == |enq|)
      ensures out.Returned? && out.n >= 0 ==>
                (|deq| > |old(deq)| + |got| <==> 0 <= faultAt < n && faultAt < |enq| - |old(deq)|)
    {
      hide Ring;
      Empty();
      if nread == nwrite && writeopen {
        if killed {
          return Returned(-1), [];
        }
        readers := readers + {t};
        return Asleep(0), [];
      }
      got := GetAll(n, faultAt);
      writers := {};
      return Returned(|got|), got;
    }

    lemma Empty()
      requires Ring()
      ensures (nread == nwrite <==> |deq| == |enq|) && |deq| <= |enq| <= |deq| + 512
    {
      FullEmpty(|deq|, |enq|);
    }

    /** piperead's loop. */
    method GetAll(n: nat, faultAt: int) returns (got: seq<int>)
      requires Ring()
      modifies this`nread, this`deq
      ensures Ring() && |got| <= n && old(deq) <= deq && got <= deq[|old(deq)|..]
      ensures if |got| == faultAt < n && |old(deq)| + |got| < |enq| then |deq| == |old(deq)| + |got| + 1
              else |deq| == |old(deq)| + |got| && (|got| == n || |deq| == |enq|)
      ensures |deq| > |old(deq)| + |got| <==> 0 <= faultAt < n && faultAt < |enq| - |old(deq)|
    {
      hide Ring;
      got := [];
      Empty();
      assert deq[|old(deq)|..] == [];
      var i := 0;
      while i < n
        invariant 0 <= i <= n && i == |got| && Ring() && |deq| <= |enq|
        invariant old(deq) <= deq && |deq| == |old(deq)| + i && deq[|old(deq)|..] == got
        invariant |got| <= faultAt || faultAt < 0
      {
        Empty();
        if nread == nwrite {
          break;
        }
        var ch := Get();
        assert deq[|old(deq)|..] == got + [ch];
        if i == faultAt {
          break;
        }
        got := got + [ch];
        i := i + 1;
      }
    }

    /** kill wakes thread t wherever it sleeps on the pipe; it then looks at its killed flag. */
    method Interrupt(t: int)
      requires Valid()
      modifies this`readers, this`writers
      ensures Valid() && readers == old(readers) - {t} && writers == old(writers) - {t}
    {
      readers, writers := readers - {t}, writers - {t};
    }

    /** filedup of one end. */
    method Dup(writable: bool)
      requires Valid() && (if writable then writeref else readref) >= 1
      modifies this`readref, this`writeref
      ensures Valid()
      ensures writeref == old(writeref) + (if writable then 1 else 0)
      ensures readref == old(readref) + (if writable then 0 else 1)
    {
      if writable {
        writeref := writeref + 1;
      } else {
        readref := readref + 1;
      }
    }

    /** fileclose of one end: the last reference closes it, the last end frees the page, once. */
    method Close(writable: bool)
      requires Valid() && (if writable then writeref else readref) >= 1
      modifies this
      ensures Valid() && data == old(data) && enq == old(enq) && deq == old(deq)
      ensures writeref == old(writeref) - (if writable then 1 else 0)
      ensures readref == old(readref) - (if writable then 0 else 1)
      ensures old(frees) == 0 && (frees == 1 <==> writeref == 0 && readref == 0)
      ensures writeref == 0 ==> readers == {}
      ensures readref == 0 ==> writers == {}
    {
      if writable {
        writeref := writeref - 1;
        if writeref > 0 {
          return;
        }
        writeopen := false;
        readers := {};
      } else {
        readref := readref - 1;
        if readref > 0 {
          return;
        }
        readopen := false;
        writers := {};
      }
      if !readopen && !writeopen {
        frees := frees + 1;
      }
    }
  }

  /** The exception is real: a writer killed between two bytes leaves a reader asleep beside the first. */
  method KilledWriter() returns (p: Pipe)
    ensures p.Valid() && p.readers == {1} && p.deq == [] && p.enq == [7]
  {
    p := new Pipe();
    var out, got := p.Read(1, 1, false, -1);
    out := p.Write(2, [7, 8], 0, 1, -1);
  }

  /** A reader whose memory is bad at its first byte loses that byte. */
  method LostByte() returns (p: Pipe, n: int)
    ensures p.Valid() && p.enq == p.deq == [7] && n == 0
  {
    p := new Pipe();
    var out := p.Write(2, [7], 0, -1, -1);
    var got;
    out, got := p.Read(1, 1, false, 0);
    n := out.n;
  }

  /** A writer killed while it sleeps on a full pipe is woken and returns; it leaves no bytes unannounced. */
  method KilledSleeper(p: Pipe, t: int, src: seq<int>, i: nat) returns (out: Outcome)
    requires p.Valid() && p.writeopen && i < |src|
    modifies p, p.data
    ensures p.Valid() && out == Returned(-1) && p.enq == old(p.enq) && t !in p.writers
    ensures p.unannounced == old(p.unannounced)
  {
    p.Interrupt(t);
    out := p.Write(t, src, i, i, -1);
  }
}
