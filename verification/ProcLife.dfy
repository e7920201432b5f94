/** One whole life: a process is forked, runs, exits, and is waited for; its slot is free again. */
module ProcLife {
  import opened ProcMachine
  import opened ProcInv
  import opened ProcSafety
  import opened KillRuns

  /** init in slot 0, its child in slot 1, one processor; done is 1 once the child's exit has been counted. */
  function Pair(p: Proc, q: Proc, pcs: seq<Pc>, held: seq<bool>, wlock: int, on: int, done: nat): Sys {
    Sys([p, q], pcs, held, wlock, [on], [if on == 0 then 0 else -1, if on == 1 then 0 else -1], 0, 3, 1, 0, 0, done,
        map[1 := 0, 2 := 1], map[])
  }

  const Free2 := [false, false]

  lemma GivesWay(p: Proc, q: Proc)
    requires p == First.(state := Running) && q == Child
    ensures Waiting(Idle, false, p, false) == Pair(p, q, [Idle, Idle], Free2, -1, 0, 0)
    ensures var s := Pair(p, q, [Idle, Idle], Free2, -1, 0, 0);
            Enabled(s, Yield(0)) && Do(s, Yield(0)) == Pair(First, q, [Idle, Idle], [true, false], -1, 0, 0)
    ensures var s := Pair(First, q, [Idle, Idle], [true, false], -1, 0, 0);
            Enabled(s, SchedOut(0)) && Do(s, SchedOut(0)) == Pair(First, q, [Idle, Idle], Free2, -1, -1, 0)
    ensures var s := Pair(First, q, [Idle, Idle], Free2, -1, -1, 0);
            && Enabled(s, Dispatch(0, 1))
            && Do(s, Dispatch(0, 1)) == Pair(First, q.(state := Running), [Idle, Idle], Free2, -1, 1, 0)
  {
  }

  lemma Begins(q: Proc)
    requires q == Child.(state := Running)
    ensures var s := Pair(First, q, [Idle, Idle], Free2, -1, 1, 0);
            Enabled(s, ExitMetrics(1)) && Do(s, ExitMetrics(1)) == Pair(First, q, [Idle, Exiting], Free2, -1, 1, 1)
    ensures var s := Pair(First, q, [Idle, Exiting], Free2, -1, 1, 1);
            Enabled(s, ExitLock(1)) && Do(s, ExitLock(1)) == Pair(First, q, [Idle, ExitReparent(0)], Free2, 1, 1, 1)
  {
  }

  lemma HasNoChildren(q: Proc)
    requires q == Child.(state := Running)
    ensures var s := Pair(First, q, [Idle, ExitReparent(0)], Free2, 1, 1, 1);
            Enabled(s, ExitPass(1)) && Do(s, ExitPass(1)) == Pair(First, q, [Idle, ExitReparent(1)], Free2, 1, 1, 1)
    ensures var s := Pair(First, q, [Idle, ExitReparent(1)], Free2, 1, 1, 1);
            Enabled(s, ExitPass(1)) && Do(s, ExitPass(1)) == Pair(First, q, [Idle, ExitReparent(2)], Free2, 1, 1, 1)
    ensures var s := Pair(First, q, [Idle, ExitReparent(2)], Free2, 1, 1, 1);
            Enabled(s, ExitGiven(1)) && Do(s, ExitGiven(1)) == Pair(First, q, [Idle, ExitWakeParent(0)], Free2, 1, 1, 1)
  {
  }

  lemma TellsParent(q: Proc)
    requires q == Child.(state := Running)
    ensures var s := Pair(First, q, [Idle, ExitWakeParent(0)], Free2, 1, 1, 1);
            Enabled(s, WakeOne(1)) && Do(s, WakeOne(1)) == Pair(First, q, [Idle, ExitWakeParent(1)], Free2, 1, 1, 1)
    ensures var s := Pair(First, q, [Idle, ExitWakeParent(1)], Free2, 1, 1, 1);
            Enabled(s, WakeSkip(1)) && Do(s, WakeSkip(1)) == Pair(First, q, [Idle, ExitWakeParent(2)], Free2, 1, 1, 1)
    ensures var s := Pair(First, q, [Idle, ExitWakeParent(2)], Free2, 1, 1, 1);
            Enabled(s, WakeEnd(1)) && Do(s, WakeEnd(1)) == Pair(First, q, [Idle, ExitLast], Free2, 1, 1, 1)
  {
  }

  lemma Goes(q: Proc, z: Proc)
    requires q == Child.(state := Running) && z == Child.(state := Zombie)
    ensures var s := Pair(First, q, [Idle, ExitLast], Free2, 1, 1, 1);
            Enabled(s, ExitDone(1)) && Do(s, ExitDone(1)) == Pair(First, z, [Idle, Exited], [false, true], -1, 1, 1)
    ensures var s := Pair(First, z, [Idle, Exited], [false, true], -1, 1, 1);
            Enabled(s, SchedOut(0)) && Do(s, SchedOut(0)) == Pair(First, z, [Idle, Exited], Free2, -1, -1, 1)
    ensures var s := Pair(First, z, [Idle, Exited], Free2, -1, -1, 1);
            && Enabled(s, Dispatch(0, 0))
            && Do(s, Dispatch(0, 0)) == Pair(First.(state := Running), z, [Idle, Exited], Free2, -1, 0, 1)
  {
  }

  lemma IsReaped(p: Proc, z: Proc)
    requires p == First.(state := Running) && z == Child.(state := Zombie)
    ensures var s := Pair(p, z, [Idle, Exited], Free2, -1, 0, 1);
            Enabled(s, WaitLock(0)) && Do(s, WaitLock(0)) == Pair(p, z, [WaitScan(0, false), Exited], Free2, 0, 0, 1)
    ensures var s := Pair(p, z, [WaitScan(0, false), Exited], Free2, 0, 0, 1);
            Enabled(s, WaitPass(0)) && Do(s, WaitPass(0)) == Pair(p, z, [WaitScan(1, false), Exited], Free2, 0, 0, 1)
    ensures var s := Pair(p, z, [WaitScan(1, false), Exited], Free2, 0, 0, 1);
            Enabled(s, WaitReap(0, true)) && var s' := Do(s, WaitReap(0, true));
            |s'.procs| == 2 && s'.procs[1].state.Unused? && s'.reaped == map[2 := 1] && s'.wlock == -1
  {
  }

  /** Every section of fork, exit and wait is gone through on the way. */
  lemma WholeLife() returns (r: Run)
    ensures IsRun(r) && |Last(r).procs| == 2 && Last(r).procs[1].state.Unused? && Last(r).reaped == map[2 := 1]
    ensures Last(r).wlock == -1
  {
    hide Do, Enabled, Pair, Waiting;
    var p, q, z := First.(state := Running), Child.(state := Running), Child.(state := Zombie);
    r := ForkedRun();
    GivesWay(p, Child);
    r := Extend(r, Yield(0));
    r := Extend(r, SchedOut(0));
    r := Extend(r, Dispatch(0, 1));
    Begins(q);
    r := Extend(r, ExitMetrics(1));
    r := Extend(r, ExitLock(1));
    HasNoChildren(q);
    r := Extend(r, ExitPass(1));
    r := Extend(r, ExitPass(1));
    r := Extend(r, ExitGiven(1));
    TellsParent(q);
    r := Extend(r, WakeOne(1));
    r := Extend(r, WakeSkip(1));
    r := Extend(r, WakeEnd(1));
    Goes(q, z);
    r := Extend(r, ExitDone(1));
    r := Extend(r, SchedOut(0));
    r := Extend(r, Dispatch(0, 0));
    IsReaped(p, z);
    r := Extend(r, WaitLock(0));
    r := Extend(r, WaitPass(0));
    r := Extend(r, WaitReap(0, true));
  }
}
