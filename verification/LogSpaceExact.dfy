/** The bound of LogSpace is reached, so the panic condition is exact. */
module LogSpaceExact {
  import opened LogMachine
  import opened LogSafety
  import opened LogSpace

  /** Operation op is about to call log_write(b), and stays within its m distinct blocks. */
  ghost predicate Calls(s: State, op: OpId, b: int, m: nat) {
    && s.phase.Running? && op in s.ops && b in s.dirty && s.dirty[b] == op
    && |s.ops[op] + {b}| <= m
  }

  ghost predicate PanicAt(l: Layout, r: Run, op: OpId, b: int, m: nat) {
    IsRun(l, r) && Limited(r, m) && Calls(r.last, op, b, m) && TooBig(l, r.last.lh)
  }

  /** Some run, of operations that log at most m distinct blocks each, panics in log_write. */
  ghost predicate PanicReachable(l: Layout, m: nat) {
    exists r, op, b :: PanicAt(l, r, op, b, m)
  }

  // ----- building the worst run -----

  function Blk(l: Layout, i: nat): int { l.start + l.nlog + i }

  function Blks(l: Layout, n: nat): seq<int> { seq(n, i requires 0 <= i => Blk(l, i)) }

  ghost predicate Ready(l: Layout, r: Run, m: nat, n: nat) {
    && IsRun(l, r) && Limited(r, m)
    && r.last.phase.Running? && r.last.dirty == map[] && r.last.lh == Blks(l, n)
  }

  ghost predicate BigEnough(l: Layout) {
    ValidLayout(l) && l.start + l.nlog + LOGSIZE <= l.size
  }

  /** A run never gets stuck: any enabled step extends it. */
  lemma Extend(l: Layout, r: Run, step: Step, m: nat) returns (r': Run)
    requires IsRun(l, r) && Limited(r, m) && Enabled(l, r.last, step)
    requires Shape(l, r.last) ==>
               var s' := Do(l, r.last, step); forall o :: o in s'.ops ==> |s'.ops[o]| <= m
    ensures Shape(l, r.last) && r' == After(r, step, Do(l, r.last, step))
    ensures IsRun(l, r') && Limited(r', m)
  {
    SafeRun(l, r);
    r' := After(r, step, Do(l, r.last, step));
  }

  lemma LogNext(l: Layout, r: Run, op: OpId, m: nat, n: nat) returns (r': Run)
    requires BigEnough(l) && n < LOGSIZE && Ready(l, r, m, n)
    requires op in r.last.ops && |r.last.ops[op]| < m && Blk(l, n) !in r.last.ops[op]
    ensures PanicReachable(l, m) || Ready(l, r', m, n + 1)
    ensures r'.last.used == r.last.used
    ensures PanicReachable(l, m) || r'.last.ops == r.last.ops[op := r.last.ops[op] + {Blk(l, n)}]
  {
    var b := Blk(l, n);
    var r1 := Extend(l, r, Modify(op, b, []), m);
    assert r1.last.ops == r.last.ops && r1.last.lh == r.last.lh;
    if TooBig(l, r.last.lh) {
      assert PanicAt(l, r1, op, b, m);
      r' := r1;
    } else {
      assert b !in r.last.lh;
      r' := Extend(l, r1, LogWrite(op, b), m);
      assert r'.last.lh == r.last.lh + [b];
      assert r'.last.lh == Blks(l, n + 1);
    }
  }

  /** op logs k fresh blocks, one after another. */
  lemma {:induction false} Fill(l: Layout, r: Run, op: OpId, m: nat, n: nat, k: nat) returns (r': Run)
    requires BigEnough(l) && n + k <= LOGSIZE && Ready(l, r, m, n)
    requires op in r.last.ops && |r.last.ops[op]| + k <= m
    requires forall b :: b in r.last.ops[op] ==> b < Blk(l, n)
    ensures PanicReachable(l, m) || Ready(l, r', m, n + k)
    ensures PanicReachable(l, m) ||
            (&& r'.last.ops.Keys == r.last.ops.Keys && |r'.last.ops[op]| == |r.last.ops[op]| + k
             && (forall o :: o in r.last.ops && o != op ==> r'.last.ops[o] == r.last.ops[o])
             && (forall b :: b in r.last.ops[op] ==> b in r'.last.ops[op])
             && (k > 0 ==> Blk(l, n) in r'.last.ops[op]))
    ensures r'.last.used == r.last.used
    decreases k
  {
    r' := r;
    if k > 0 {
      r' := LogNext(l, r, op, m, n);
      if !PanicReachable(l, m) {
        r' := Fill(l, r', op, m, n + 1, k - 1);
      }
    }
  }

  lemma Open(l: Layout, r: Run, op: OpId, m: nat, n: nat) returns (r': Run)
    requires BigEnough(l) && Ready(l, r, m, n) && op !in r.last.used
    requires n + Reserve(|r.last.ops| + 1) <= LOGSIZE
    ensures Ready(l, r', m, n) && r'.last.ops == r.last.ops[op := {}] && r'.last.used == r.last.used + {op}
  {
    r' := Extend(l, r, BeginOp(op), m);
  }

  lemma Close(l: Layout, r: Run, op: OpId, m: nat, n: nat) returns (r': Run)
    requires BigEnough(l) && Ready(l, r, m, n) && op in r.last.ops && r.last.ops.Keys != {op}
    ensures Ready(l, r', m, n) && r'.last.ops == r.last.ops - {op} && r'.last.used == r.last.used
  {
    assert (r.last.ops - {op}).Keys == r.last.ops.Keys - {op};
    r' := Extend(l, r, EndOp(op), m);
  }

  /** Operation 0 is outstanding and has logged nothing; n operations came and went. */
  ghost predicate Idle(l: Layout, r: Run, m: nat, n: nat) {
    && Ready(l, r, m, n) && r.last.ops == map[0 := {}]
    && (forall o :: o in r.last.used ==> o <= n)
  }

  /** A one-block operation comes and goes. */
  lemma TinyOp(l: Layout, r: Run, m: nat, n: nat) returns (r': Run)
    requires BigEnough(l) && m >= 1 && n < MAXOPBLOCKS && Idle(l, r, m, n)
    ensures PanicReachable(l, m) || Idle(l, r', m, n + 1)
  {
    hide Ready, PanicReachable, BigEnough;
    OneOp(r.last.ops);
    r' := Open(l, r, n + 1, m, n);
    r' := LogNext(l, r', n + 1, m, n);
    if !PanicReachable(l, m) {
      assert 0 in r'.last.ops.Keys;
      r' := Close(l, r', n + 1, m, n + 1);
      assert r'.last.ops == map[0 := {}];
    }
  }

  /** k of them, one after another. */
  lemma {:induction false} Tiny(l: Layout, r: Run, m: nat, n: nat, k: nat) returns (r': Run)
    requires BigEnough(l) && m >= 1 && n + k <= MAXOPBLOCKS && Idle(l, r, m, n)
    ensures PanicReachable(l, m) || Idle(l, r', m, n + k)
    decreases k
  {
    r' := r;
    if k > 0 {
      r' := TinyOp(l, r, m, n);
      if !PanicReachable(l, m) {
        r' := Tiny(l, r', m, n + 1, k - 1);
      }
    }
  }

  lemma Begin(l: Layout, m: nat) returns (r: Run)
    requires BigEnough(l)
    ensures Ready(l, r, m, 0) && r.last.ops == map[0 := {}] && r.last.used == {0}
  {
    var disk := seq(l.size, _ => seq(WORDS, _ => 0));
    r := Start(State(disk, disk, [], map[], map[], Running, disk, [], NoGroup, {}));
    assert r.last.lh == Blks(l, 0);
    r := Open(l, r, 0, m, 0);
  }

  /** Ten small operations fill MAXOPBLOCKS entries; then two concurrent ones use m each. */
  lemma Worst(l: Layout, m: nat) returns (r: Run)
    requires BigEnough(l) && 1 <= m <= MAXOPBLOCKS
    ensures PanicReachable(l, m) ||
            (&& Ready(l, r, m, MAXOPBLOCKS + 2 * m) && 0 in r.last.ops && |r.last.ops[0]| <= m
             && Blk(l, MAXOPBLOCKS + m) in r.last.ops[0])
  {
    hide Ready, PanicReachable, BigEnough;
    r := Begin(l, m);
    r := Tiny(l, r, m, 0, MAXOPBLOCKS);
    if !PanicReachable(l, m) {
      r := Two(l, r, m);
    }
  }

  lemma Two(l: Layout, r: Run, m: nat) returns (r': Run)
    requires BigEnough(l) && 1 <= m <= MAXOPBLOCKS && Idle(l, r, m, MAXOPBLOCKS)
    ensures PanicReachable(l, m) ||
            (&& Ready(l, r', m, MAXOPBLOCKS + 2 * m) && 0 in r'.last.ops && |r'.last.ops[0]| <= m
             && Blk(l, MAXOPBLOCKS + m) in r'.last.ops[0])
  {
    hide Ready, PanicReachable, BigEnough, Blk, Idle;
    r' := Beside(l, r, m);
    if !PanicReachable(l, m) {
      var n := MAXOPBLOCKS + m;
      assert n + m == MAXOPBLOCKS + 2 * m;
      r' := Fill(l, r', 0, m, n, m);
    }
  }

  /** A second operation comes and logs m blocks, beside operation 0. */
  lemma Beside(l: Layout, r: Run, m: nat) returns (r': Run)
    requires BigEnough(l) && 1 <= m <= MAXOPBLOCKS && Idle(l, r, m, MAXOPBLOCKS)
    ensures PanicReachable(l, m) ||
            (Ready(l, r', m, MAXOPBLOCKS + m) && 0 in r'.last.ops && r'.last.ops[0] == {})
  {
    hide Ready, PanicReachable, BigEnough, Blk;
    OneOp(r.last.ops);
    var op := MAXOPBLOCKS + 1;
    r' := Open(l, r, op, m, MAXOPBLOCKS);
    r' := Fill(l, r', op, m, MAXOPBLOCKS, m);
    assert 0 in r.last.ops.Keys;
  }

  lemma OneOp(ops: map<OpId, set<int>>)
    requires ops == map[0 := {}]
    ensures ops.Keys == {0} && |ops| == 1
  {
  }

  /** Rewriting a block it already logged, operation 0 meets the size check at MAXOPBLOCKS + 2m entries. */
  lemma WorstPanics(l: Layout, m: nat)
    requires BigEnough(l) && 1 <= m <= MAXOPBLOCKS
    requires MAXOPBLOCKS + 2 * m >= LOGSIZE || MAXOPBLOCKS + 2 * m >= l.nlog - 1
    ensures PanicReachable(l, m)
  {
    var r := Worst(l, m);
    if !PanicReachable(l, m) {
      var b := Blk(l, MAXOPBLOCKS + m);
      var r' := Extend(l, r, Modify(0, b, []), m);
      assert r.last.ops[0] + {b} == r.last.ops[0];
      assert |r'.last.lh| == MAXOPBLOCKS + 2 * m;
      assert PanicAt(l, r', 0, b, m);
    }
  }

  lemma {:induction false} LimitedMonotone(r: Run, m: nat, m': nat)
    requires Limited(r, m) && m <= m'
    ensures Limited(r, m')
  {
    if r.After? {
      LimitedMonotone(r.before, m, m');
    }
  }

  lemma PanicMonotone(l: Layout, m: nat, m': nat)
    requires PanicReachable(l, m) && m <= m'
    ensures PanicReachable(l, m')
  {
    var r, op, b :| PanicAt(l, r, op, b, m);
    LimitedMonotone(r, m, m');
    assert PanicAt(l, r, op, b, m');
  }

  lemma Fits(l: Layout, m: nat, r: Run, op: OpId, b: int)
    requires m <= MAXOPBLOCKS && MAXOPBLOCKS + 2 * m < LOGSIZE && MAXOPBLOCKS + 2 * m < l.nlog - 1
    ensures !PanicAt(l, r, op, b, m)
  {
    if IsRun(l, r) && Limited(r, m) {
      RoomyRun(l, r, m);
      SlackBound(r.last.ops, m);
    }
  }

  /**
   Exactly when operations of at most m distinct blocks can never meet "too big a transaction":
   when MAXOPBLOCKS + 2m entries fit below both limits that log_write checks.
   */
  lemma TooBigExact(l: Layout, m: nat)
    requires BigEnough(l) && m >= 1
    ensures PanicReachable(l, m) <==> (MAXOPBLOCKS + 2 * m >= LOGSIZE || MAXOPBLOCKS + 2 * m >= l.nlog - 1)
  {
    if MAXOPBLOCKS + 2 * m >= LOGSIZE || MAXOPBLOCKS + 2 * m >= l.nlog - 1 {
      var k := if m <= MAXOPBLOCKS then m else MAXOPBLOCKS;
      WorstPanics(l, k);
      PanicMonotone(l, k, m);
    } else {
      forall r, op, b ensures !PanicAt(l, r, op, b, m) {
        Fits(l, m, r, op, b);
      }
    }
  }

  /** With the log that mkfs makes (nlog == LOGSIZE), nine distinct blocks are safe and ten are not. */
  lemma MkfsLogLimit(l: Layout, m: nat)
    requires BigEnough(l) && l.nlog == LOGSIZE && m >= 1
    ensures PanicReachable(l, m) <==> m >= MAXOPBLOCKS
  {
    TooBigExact(l, m);
  }
}
