/**
 Log space.  begin_op reserves MAXOPBLOCKS blocks per operation out of LOGSIZE; log_write refuses
 at LOGSIZE entries or at nlog - 1.  For operations that log at most m distinct blocks the header
 never holds more than MAXOPBLOCKS + 2m entries, and that number is reached, which settles exactly
 when the "too big a transaction" panic can happen.
 */
module LogSpace {
  import opened LogMachine
  import opened LogSafety

  lemma Shrink(ops: map<OpId, set<int>>, k: OpId)
    requires k in ops
    ensures |ops - {k}| == |ops| - 1
  {
    assert (ops - {k}).Keys == ops.Keys - {k};
  }

  /** Blocks still unused out of a budget of m per outstanding operation. */
  ghost function Slack(ops: map<OpId, set<int>>, m: int): int
    decreases |ops|
  {
    if ops == map[] then 0
    else
      var k :| k in ops;
      Shrink(ops, k);
      m - |ops[k]| + Slack(ops - {k}, m)
  }

  lemma {:induction false} SlackRemove(ops: map<OpId, set<int>>, m: int, k: OpId)
    requires k in ops
    ensures Slack(ops, m) == m - |ops[k]| + Slack(ops - {k}, m)
    decreases |ops|
  {
    var j :| j in ops && Slack(ops, m) == m - |ops[j]| + Slack(ops - {j}, m);
    if j != k {
      Shrink(ops, j);
      Shrink(ops, k);
      SlackRemove(ops - {j}, m, k);
      SlackRemove(ops - {k}, m, j);
      assert ops - {j} - {k} == ops - {k} - {j};
    }
  }

  lemma Distribute(m: int, n: int)
    ensures m * n == m * (n - 1) + m
  {
  }

  lemma {:induction false} SlackBound(ops: map<OpId, set<int>>, m: int)
    requires forall op :: op in ops ==> |ops[op]| <= m
    ensures 0 <= Slack(ops, m) <= m * |ops|
    decreases |ops|
  {
    if ops != map[] {
      var k :| k in ops;
      SlackRemove(ops, m, k);
      Shrink(ops, k);
      SlackBound(ops - {k}, m);
      Distribute(m, |ops|);
    }
  }

  /** Every operation of the run stays within m distinct logged blocks. */
  ghost predicate Limited(r: Run, m: nat) {
    && (forall op :: op in r.last.ops ==> |r.last.ops[op]| <= m)
    && (r.After? ==> Limited(r.before, m))
  }

  ghost predicate Roomy(s: State, m: nat) {
    && (forall op :: op in s.ops ==> forall b :: b in s.ops[op] ==> b in s.lh)
    && |s.lh| + Slack(s.ops, m) <= MAXOPBLOCKS + 2 * m
  }

  lemma RoomArithmetic(n: nat, k: nat, m: nat)
    requires k >= 1 && m <= MAXOPBLOCKS && n + Reserve(k + 1) <= LOGSIZE
    ensures n + m * k + m <= MAXOPBLOCKS + 2 * m
  {
    assert k == 1 || k == 2;
  }

  lemma RoomyBegin(s: State, m: nat, op: OpId)
    requires m <= MAXOPBLOCKS && Roomy(s, m) && op !in s.ops
    requires forall o :: o in s.ops ==> |s.ops[o]| <= m
    requires s.ops.Keys == {} ==> s.lh == []
    requires |s.lh| + Reserve(|s.ops| + 1) <= LOGSIZE
    ensures Roomy(s.(ops := s.ops[op := {}]), m)
  {
    var ops' := s.ops[op := {}];
    assert ops' - {op} == s.ops;
    SlackRemove(ops', m, op);
    SlackBound(s.ops, m);
    if |s.ops| == 0 {
      assert s.ops == map[];
    } else {
      RoomArithmetic(|s.lh|, |s.ops|, m);
    }
  }

  lemma RoomyLogWrite(s: State, m: nat, op: OpId, b: int)
    requires Roomy(s, m) && op in s.ops
    ensures Roomy(s.(lh := Absorb(s.lh, b), ops := s.ops[op := s.ops[op] + {b}]), m)
  {
    var ops' := s.ops[op := s.ops[op] + {b}];
    assert ops' - {op} == s.ops - {op};
    SlackRemove(ops', m, op);
    SlackRemove(s.ops, m, op);
    if b in s.ops[op] {
      assert s.ops[op] + {b} == s.ops[op];
    } else {
      assert |s.ops[op] + {b}| == |s.ops[op]| + 1;
    }
  }

  lemma RoomyEnd(s: State, m: nat, op: OpId)
    requires Roomy(s, m) && op in s.ops && |s.ops[op]| <= m
    ensures Roomy(s.(ops := s.ops - {op}), m)
  {
    SlackRemove(s.ops, m, op);
  }

  /** After a crash the header read back from disk is one that a WriteHead put there. */
  ghost predicate HeaderRoomy(l: Layout, s: State, m: nat) {
    Shape(l, s) && |GetHeader(s.disk[l.start])| <= MAXOPBLOCKS + 2 * m
  }

  lemma NoOps(s: State)
    requires Books(s) && !s.phase.Running?
    ensures s.ops == map[]
  {
    assert s.ops.Keys == {};
  }

  lemma RoomyNone(s: State, m: nat)
    requires s.ops == map[] && |s.lh| <= MAXOPBLOCKS + 2 * m
    ensures Roomy(s, m)
  {
  }

  lemma RoomySame(s: State, s': State, m: nat)
    requires Roomy(s, m) && s'.ops == s.ops && s'.lh == s.lh
    ensures Roomy(s', m)
  {
  }

  lemma FirstOp(s: State, op: OpId)
    requires Books(s) && s.phase.Running? && op !in s.used
    ensures op !in s.ops && (s.ops.Keys == {} ==> s.lh == [])
  {
    assert op in s.ops ==> op in s.ops.Keys;
  }

  lemma RoomyStep(l: Layout, s: State, step: Step, s': State, m: nat)
    requires m <= MAXOPBLOCKS && Safe(l, s) && Safe(l, s') && Next(l, s, step, s')
    requires Roomy(s, m) && HeaderRoomy(l, s, m)
    requires forall o :: o in s.ops ==> |s.ops[o]| <= m
    ensures Roomy(s', m)
  {
    hide Sound, Books, Roomy;
    if step.BeginOp? {
      FirstOp(s, step.op);
      RoomyBegin(s, m, step.op);
      RoomySame(s.(ops := s.ops[step.op := {}]), s', m);
    } else if step.LogWrite? {
      RoomyLogWrite(s, m, step.op, step.b);
      RoomySame(s.(lh := s'.lh, ops := s'.ops), s', m);
    } else if step.EndOp? {
      RoomyEnd(s, m, step.op);
      RoomySame(s.(ops := s.ops - {step.op}), s', m);
    } else if step.Crash? || step.Boot? || step.EraseHead? || step.ReplayErase? {
      NoOps(if step.ReplayErase? then s else s');
      RoomyNone(s', m);
    } else {
      RoomySame(s, s', m);
    }
  }

  lemma HeaderRoomyStep(l: Layout, s: State, step: Step, s': State, m: nat)
    requires Safe(l, s) && Safe(l, s') && Next(l, s, step, s')
    requires HeaderRoomy(l, s, m) && |s.lh| <= MAXOPBLOCKS + 2 * m
    ensures HeaderRoomy(l, s', m)
  {
    if step.WriteHead? {
      HeaderRoundTrip(s.cache[l.start], s.lh);
    } else if step.EraseHead? || step.ReplayErase? {
      HeaderRoundTrip(s.cache[l.start], []);
    }
  }

  lemma {:induction false} RoomyRun(l: Layout, r: Run, m: nat)
    requires m <= MAXOPBLOCKS && IsRun(l, r) && Limited(r, m)
    ensures Roomy(r.last, m) && HeaderRoomy(l, r.last, m)
  {
    SafeRun(l, r);
    if r.After? {
      SafeRun(l, r.before);
      RoomyRun(l, r.before, m);
      SlackBound(r.before.last.ops, m);
      RoomyStep(l, r.before.last, r.step, r.last, m);
      HeaderRoomyStep(l, r.before.last, r.step, r.last, m);
    }
  }

  /**
   The reservation is honoured: logged blocks plus the unused part of every outstanding
   operation's MAXOPBLOCKS never exceed LOGSIZE.
   */
  lemma Reservation(l: Layout, r: Run)
    requires IsRun(l, r) && Limited(r, MAXOPBLOCKS)
    ensures |r.last.lh| + Slack(r.last.ops, MAXOPBLOCKS) <= LOGSIZE
  {
    RoomyRun(l, r, MAXOPBLOCKS);
  }
}
