/**
 log.c itself: the global log structure with its in-memory header, the loops over the logged
 blocks, and one bwrite at a time.  Every method is proved to take the log through steps of
 LogMachine, so LogSafety and LogSpace speak about these methods at each of their disk writes.
 */
module Log {
  import opened LogMachine
  import opened LogSafety
  import opened LogHistory

  /** Storing b[i] in word 1 + i of a header whose first i block numbers are in place. */
  lemma HeaderStep(n: int, b: seq<int>, h: Block, i: nat)
    requires i < |b| && |b| < |h|
    ensures ([n] + b[..i] + h[1 + i..])[1 + i := b[i]] == [n] + b[..i + 1] + h[2 + i..]
  {
  }

  class Log {
    const layout: Layout
    var n: int                  // log.lh.n
    const block: array<int>     // log.lh.block
    var outstanding: nat
    var committing: bool
    var disk: Disk
    var cache: Disk             // what bread returns
    ghost var run: Run          // everything that happened so far

    ghost predicate Header()
      reads this, block
    {
      block.Length == LOGSIZE && 0 <= n <= LOGSIZE && run.last.lh == block[..n]
    }

    ghost predicate Valid()
      reads this, block
    {
      && IsRun(layout, run) && Header()
      && run.last.disk == disk && run.last.cache == cache
      && |run.last.ops| == outstanding
      && committing == (run.last.phase.WritingLog? || run.last.phase.Installing? || run.last.phase.Committed?)
    }

    /** Memory after a reboot is empty; only the disk survives. */
    constructor Reboot(l: Layout, d: Disk, ghost r: Run)
      requires IsRun(l, r) && r.last.phase.Down? && r.last.disk == d
      ensures Valid() && fresh(block) && layout == l && disk == d && run == r
    {
      hide IsRun;
      DownEmpty(l, r);
      layout, disk, cache, n, run := l, d, d, 0, r;
      block := new int[LOGSIZE];
      outstanding, committing := 0, false;
    }

    ghost method Take(step: Step)
      requires IsRun(layout, run) && Enabled(layout, run.last, step)
      modifies this`run
      ensures Shape(layout, old(run.last)) && run == After(old(run), step, Do(layout, old(run.last), step))
      ensures IsRun(layout, run) && Shape(layout, run.last)
    {
      SafeRun(layout, run);
      run := After(run, step, Do(layout, run.last, step));
      SafeRun(layout, run);
    }

    /** write_head: copy the in-memory header into the header block and write it. */
    method WriteHeader()
      requires ValidLayout(layout) && |disk| == |cache| == layout.size && |cache[layout.start]| == WORDS
      requires block.Length == LOGSIZE && 0 <= n <= LOGSIZE
      modifies this`disk, this`cache
      ensures cache == old(cache)[layout.start := PutHeader(old(cache[layout.start]), block[..n])]
      ensures disk == old(disk)[layout.start := PutHeader(old(cache[layout.start]), block[..n])]
    {
      var hb := cache[layout.start];
      hb := hb[0 := n];
      var i := 0;
      while i < n
        invariant 0 <= i <= n && cache == old(cache) && disk == old(disk)
        invariant hb == [n] + block[..i] + old(cache[layout.start])[1 + i..]
      {
        HeaderStep(n, block[..], old(cache[layout.start]), i);
        assert block[..][..i] == block[..i] && block[..][..i + 1] == block[..i + 1];
        hb := hb[1 + i := block[i]];
        i := i + 1;
      }
      cache := cache[layout.start := hb];
      disk := disk[layout.start := hb];
    }

    /** read_head. */
    method ReadHeader()
      requires ValidLayout(layout) && |cache| == layout.size && HeaderOk(cache[layout.start])
      requires block.Length == LOGSIZE
      modifies this`n, block
      ensures 0 <= n <= LOGSIZE && block[..n] == GetHeader(cache[layout.start])
    {
      var hb := cache[layout.start];
      n := hb[0];
      var i := 0;
      while i < n
        invariant 0 <= i <= n == hb[0]
        invariant block[..i] == hb[1..1 + i]
      {
        block[i] := hb[1 + i];
        i := i + 1;
      }
    }

    /** One round of write_log: one logged block goes from the cache to its log slot. */
    method CopyOne(tail: nat)
      requires Valid() && run.last.phase == WritingLog(tail) && tail < n
      modifies this`disk, this`cache, this`run
      ensures Valid() && run == After(old(run), CopyBlock, run.last)
      ensures run.last.phase == WritingLog(tail + 1) && run.last.current == old(run.last.current)
      ensures run.last.committed == old(run.last.committed)
    {
      SlotBounds(layout, run, tail);
      var from := cache[block[tail]];
      cache := cache[layout.start + tail + 1 := from];
      disk := disk[layout.start + tail + 1 := from];
      Take(CopyBlock);
    }

    /** write_log: copy every logged block. */
    method WriteLog()
      requires Valid() && run.last.phase == WritingLog(0)
      modifies this`disk, this`cache, this`run
      ensures Valid() && EarlierIn(old(run), run)
      ensures run.last.phase == WritingLog(n) && run.last.current == old(run.last.current)
      ensures run.last.committed == old(run.last.committed)
    {
      var tail := 0;
      while tail < n
        invariant 0 <= tail <= n
        invariant Valid() && EarlierIn(old(run), run)
        invariant run.last.phase == WritingLog(tail) && run.last.current == old(run.last.current)
        invariant run.last.committed == old(run.last.committed)
      {
        CopyOne(tail);
        tail := tail + 1;
      }
    }

    /** One round of install_trans: one log slot goes to its home block. */
    method InstallOne(recovering: bool, tail: nat)
      requires Valid() && tail < n
      requires run.last.phase == if recovering then Replaying(tail) else Installing(tail)
      modifies this`disk, this`cache, this`run
      ensures Valid() && run == After(old(run), if recovering then ReplayBlock else InstallBlock, run.last)
      ensures run.last.phase == if recovering then Replaying(tail + 1) else Installing(tail + 1)
      ensures run.last.committed == old(run.last.committed)
    {
      hide IsRun, Shape;
      SlotBounds(layout, run, tail);
      var lbuf := cache[layout.start + tail + 1];
      cache := cache[block[tail] := lbuf];
      disk := disk[block[tail] := lbuf];
      if recovering {
        Take(ReplayBlock);
      } else {
        Take(InstallBlock);
      }
    }

    /** install_trans: install every logged block. */
    method InstallTrans(recovering: bool)
      requires Valid() && run.last.phase == if recovering then Replaying(0) else Installing(0)
      modifies this`disk, this`cache, this`run
      ensures Valid() && EarlierIn(old(run), run)
      ensures run.last.phase == if recovering then Replaying(n) else Installing(n)
      ensures run.last.committed == old(run.last.committed)
    {
      var tail := 0;
      while tail < n
        invariant 0 <= tail <= n
        invariant Valid() && EarlierIn(old(run), run)
        invariant run.last.phase == if recovering then Replaying(tail) else Installing(tail)
        invariant run.last.committed == old(run.last.committed)
      {
        InstallOne(recovering, tail);
        tail := tail + 1;
      }
    }

    /** The commit point: write_head with the header full. */
    method CommitHeader()
      requires Valid() && run.last.phase == WritingLog(n)
      modifies this`disk, this`cache, this`run
      ensures Valid() && run == After(old(run), WriteHead, run.last)
      ensures run.last.phase == Installing(0)
      ensures run.last.committed == old(run.last.committed) + [old(run.last.current)]
    {
      RunShape(layout, run);
      WriteHeader();
      Take(WriteHead);
    }

    /** log.lh.n = 0; write_head(): the transaction is erased. */
    method EraseHeader(recovering: bool)
      requires Valid() && run.last.phase == if recovering then Replaying(n) else Installing(n)
      modifies this`disk, this`cache, this`run, this`n
      ensures Valid() && run == After(old(run), if recovering then ReplayErase else EraseHead, run.last)
      ensures n == 0 && run.last.committed == old(run.last.committed) && run.last.ops.Keys == {}
      ensures run.last.phase == if recovering then Running else Committed
    {
      RunShape(layout, run);
      QuietOps(layout, run);
      n := 0;
      assert block[..0] == [];
      WriteHeader();
      Take(if recovering then ReplayErase else EraseHead);
    }

    method BootHeader()
      requires Valid() && run.last.phase.Down?
      modifies this`cache, this`n, this`run, block
      ensures Valid() && run == After(old(run), Boot, run.last)
      ensures run.last.phase == Replaying(0) && run.last.committed == old(run.last.committed)
    {
      RunShape(layout, run);
      cache := disk;
      ReadHeader();
      Take(Boot);
    }

    /** recover_from_log, as called from initlog: afterwards the home blocks hold the committed contents. */
    method RecoverFromLog()
      requires Valid() && run.last.phase.Down?
      modifies this, block
      ensures Valid() && EarlierIn(old(run), run) && run.last.phase.Running? && n == 0
      ensures run.last.committed == old(run.last.committed)
      ensures SameHome(layout, disk, ApplyGroups(run.last.base, run.last.committed))
    {
      BootHeader();
      ghost var mid := run;
      InstallTrans(true);
      EarlierTrans(old(run), mid, run);
      EraseHeader(true);
      IdleIsDurable(layout, run);
    }

    /** One pass of begin_op; false means the caller sleeps and tries again. */
    method BeginOp(ghost op: OpId) returns (ok: bool)
      requires Valid() && op !in run.last.used && (committing || run.last.phase.Running?)
      modifies this`outstanding, this`run
      ensures Valid()
      ensures ok <==> !committing && n + Reserve(old(outstanding) + 1) <= LOGSIZE
      ensures ok ==> run == After(old(run), LogMachine.BeginOp(op), run.last)
      ensures !ok ==> run == old(run)
    {
      if committing {
        return false;
      } else if n + Reserve(outstanding + 1) > LOGSIZE {
        return false;
      }
      SafeRun(layout, run);
      outstanding := outstanding + 1;
      Take(LogMachine.BeginOp(op));
      ok := true;
    }

    /** An operation changes a buffer it holds. */
    method Modify(ghost op: OpId, b: int, data: Block)
      requires Valid() && run.last.phase.Running? && op in run.last.ops && Home(layout, b)
      requires b in run.last.dirty ==> run.last.dirty[b] == op
      modifies this`cache, this`run
      ensures Valid() && run == After(old(run), LogMachine.Modify(op, b, data), run.last)
      ensures cache == old(cache)[b := data]
    {
      hide IsRun;
      SafeRun(layout, run);
      cache := cache[b := data];
      Take(LogMachine.Modify(op, b, data));
    }

    /** log_write's search of the header: a block already there is absorbed, a new one added. */
    method Enter(b: int)
      requires block.Length == LOGSIZE && 0 <= n < LOGSIZE
      modifies this`n, block
      ensures 0 <= n <= LOGSIZE && block[..n] == Absorb(old(block[..n]), b)
    {
      var i := 0;
      while i < n && block[i] != b
        invariant 0 <= i <= n
        invariant b !in block[..i]
      {
        i := i + 1;
      }
      ghost var lh := block[..n];
      block[i] := b;
      if i == n {
        n := n + 1;
        assert block[..n] == lh + [b];
      } else {
        assert lh[i] == b;
        assert block[..n] == lh;
      }
    }

    /** log_write; false stands for the "too big a transaction" panic. */
    method LogWrite(ghost op: OpId, b: int) returns (ok: bool)
      requires Valid() && run.last.phase.Running? && op in run.last.ops
      requires b in run.last.dirty && run.last.dirty[b] == op
      modifies this`n, this`run, block
      ensures Valid() && ok == !TooBig(layout, old(run.last.lh))
      ensures ok ==> run == After(old(run), LogMachine.LogWrite(op, b), run.last)
      ensures !ok ==> run == old(run)
    {
      if n >= LOGSIZE || n >= layout.nlog - 1 {
        return false;
      }
      SafeRun(layout, run);
      Enter(b);
      Take(LogMachine.LogWrite(op, b));
      ok := true;
    }

    /** commit: afterwards the transaction is on disk and the log is empty again. */
    method Commit()
      requires Valid() && ((run.last.phase == WritingLog(0) && n > 0) || run.last.phase.Committed?)
      modifies this, block
      ensures Valid() && EarlierIn(old(run), run) && run.last.phase.Committed? && n == 0
      ensures committing == old(committing) && outstanding == old(outstanding)
      ensures run.last.committed == old(run.last.committed) +
                                    if old(n) > 0 then [old(run.last.current)] else []
    {
      QuietOps(layout, run);
      if n > 0 {
        WriteLog();
        CommitHeader();
        ghost var mid := run;
        assert EarlierIn(old(run), mid);
        InstallTrans(false);
        EarlierTrans(old(run), mid, run);
        EraseHeader(false);
      }
    }

    /** end_op's first critical section; true when this was the last outstanding operation. */
    method CloseOp(ghost op: OpId) returns (doCommit: bool)
      requires Valid() && run.last.phase.Running? && op in run.last.ops
      requires forall b :: b in run.last.dirty ==> run.last.dirty[b] != op
      modifies this`outstanding, this`committing, this`run
      ensures Valid() && run == After(old(run), LogMachine.EndOp(op), run.last)
      ensures outstanding == old(outstanding) - 1 && doCommit == (outstanding == 0)
      ensures var g := CloseGroup(old(run.last.current), op);
              if doCommit && n == 0 then
                run.last.phase.Committed? && run.last.committed == old(run.last.committed) + [g]
              else
                && run.last.phase == (if doCommit then WritingLog(0) else Running)
                && run.last.committed == old(run.last.committed) && run.last.current == g
    {
      ghost var ops := run.last.ops;
      assert (ops - {op}).Keys == ops.Keys - {op};
      assert |ops - {op}| == |ops| - 1;
      assert |ops - {op}| == 0 <==> (ops - {op}).Keys == {};
      outstanding := outstanding - 1;
      Take(LogMachine.EndOp(op));
      doCommit := outstanding == 0;
      if doCommit {
        committing := true;
      }
    }

    /** end_op's second critical section. */
    method FinishOp()
      requires Valid() && run.last.phase.Committed?
      modifies this`committing, this`run
      ensures Valid() && run == After(old(run), FinishCommit, run.last)
      ensures run.last.phase.Running? && run.last.committed == old(run.last.committed)
      ensures SameHome(layout, disk, ApplyGroups(run.last.base, run.last.committed))
    {
      QuietOps(layout, run);
      committing := false;
      Take(FinishCommit);
      IdleIsDurable(layout, run);
    }

    /** end_op: the last outstanding operation commits the transaction before it returns. */
    method EndOp(ghost op: OpId)
      requires Valid() && run.last.phase.Running? && op in run.last.ops
      requires forall b :: b in run.last.dirty ==> run.last.dirty[b] != op
      modifies this, block
      ensures Valid() && EarlierIn(old(run), run) && run.last.phase.Running?
      ensures outstanding == old(outstanding) - 1
      ensures outstanding > 0 ==> run.last.committed == old(run.last.committed) &&
                                  run.last.current == CloseGroup(old(run.last.current), op)
      ensures outstanding == 0 ==>
                run.last.committed == old(run.last.committed) + [CloseGroup(old(run.last.current), op)]
      ensures outstanding == 0 ==> SameHome(layout, disk, ApplyGroups(run.last.base, run.last.committed))
      ensures outstanding == 0 ==> AllStored(layout, run, disk)
    {
      var doCommit := CloseOp(op);
      if doCommit {
        ghost var mid := run;
        Commit();
        EarlierTrans(old(run), mid, run);
        FinishOp();
        IdleAllStored(layout, run);
      }
    }
  }
}
