/** Two runs that kill goes wrong in: the race with wait, and a slot that is killed while nobody is in it. */
module KillRuns {
  import opened ProcMachine
  import opened ProcInv
  import opened ProcSafety
  import opened ProcHistory
  import opened ProcKill
  import ProcTime

  lemma Extend(r: Run, step: Step) returns (r': Run)
    requires IsRun(r) && Enabled(Last(r), step)
    ensures IsRun(r') && r' == After(r, step, Do(Last(r), step))
  {
    hide Do, Enabled;
    r' := After(r, step, Do(Last(r), step));
  }

  const First := ProcTime.Fresh(Runnable, -1, 1, 1, -1)
  const Child := ProcTime.Fresh(Runnable, 0, 2, 1, -1)

  /** init, in slot 0, has forked the process in slot 1 and is at pc; wait_lock is free or init's. */
  function Waiting(pc: Pc, locked: bool, p: Proc, held: bool): Sys {
    Sys([p, Child], [pc, Idle], [held, false], if locked then 0 else -1, [0], [0, -1], 0, 3, 1, 0, 0, 0,
        map[1 := 0, 2 := 1], map[])
  }

  lemma ForkedRun() returns (r: Run)
    ensures IsRun(r) && Last(r) == Waiting(Idle, false, First.(state := Running), false)
  {
    hide Do, Enabled, Booted, ProcTime.Two;
    var p, q := First, ProcTime.Fresh(Unused, -1, 0, 0, -1);
    r := Start(ProcTime.Two(p, q, Idle, false, -1, 2));
    ProcTime.BootedTwo(p, q);
    ProcTime.Dispatched(p, q);
    r := Extend(r, Dispatch(0, 0));
    p := p.(state := Running);
    ProcTime.Allocated(p, q);
    r := Extend(r, ForkAlloc(0, 1));
    q := ProcTime.Fresh(Used, -1, 2, 0, 0);
    ProcTime.Adopted(p, q);
    r := Extend(r, ForkAdopt(0));
    q := q.(parent := 0);
    ProcTime.Started(p, q);
    r := Extend(r, ForkRun(0));
    SameTwo(p);
  }

  lemma SameTwo(p: Proc)
    ensures ProcTime.Two(p, Child, Idle, false, 0, 3) == Waiting(Idle, false, p, false)
  {
  }

  /** wait up to its look at the flag. */
  lemma Scanned(p: Proc)
    requires p == First.(state := Running)
    ensures var s := Waiting(Idle, false, p, false);
            && Enabled(s, WaitLock(0)) && Do(s, WaitLock(0)) == Waiting(WaitScan(0, false), true, p, false)
    ensures var s := Waiting(WaitScan(0, false), true, p, false);
            && Enabled(s, WaitPass(0)) && Do(s, WaitPass(0)) == Waiting(WaitScan(1, false), true, p, false)
    ensures var s := Waiting(WaitScan(1, false), true, p, false);
            && Enabled(s, WaitChild(0)) && Do(s, WaitChild(0)) == Waiting(WaitScan(2, true), true, p, false)
  {
  }

  lemma Decided(p: Proc)
    requires p == First.(state := Running)
    ensures var s := Waiting(WaitScan(2, true), true, p, false);
            && Enabled(s, WaitDecide(0)) && Do(s, WaitDecide(0)) == Waiting(WaitCommit, true, p, false)
    ensures var s := Waiting(WaitCommit, true, p, false);
            && Enabled(s, Kill(0)) && Do(s, Kill(0)) == Waiting(WaitCommit, true, p.(killed := true), false)
  {
  }

  lemma WentToSleep(p: Proc)
    requires p == First.(state := Running, killed := true)
    ensures var s := Waiting(WaitCommit, true, p, false);
            && Enabled(s, WaitUnlock(0)) && Do(s, WaitUnlock(0)) == Waiting(WaitLocked, false, p, true)
    ensures var s := Waiting(WaitLocked, false, p, true);
            && Enabled(s, WaitSleep(0))
            && Do(s, WaitSleep(0)) == Waiting(WaitAsleep, false, p.(state := Sleeping, chan := Slot(0)), true)
  {
  }

  /** Killed after its look at the flag, init sleeps in wait, and its only child has not exited. */
  lemma SleepsKilled() returns (r: Run)
    ensures IsRun(r) && In(Last(r), 0) && In(Last(r), 1) && Committed(Last(r), 0)
    ensures var s := Last(r);
            s.procs[0].killed && s.procs[0].state.Sleeping? && s.procs[1].parent == 0 && s.procs[1].state.Runnable?
  {
    hide Do, Enabled;
    var p := First.(state := Running);
    r := ForkedRun();
    Scanned(p);
    r := Extend(r, WaitLock(0));
    r := Extend(r, WaitPass(0));
    r := Extend(r, WaitChild(0));
    Decided(p);
    r := Extend(r, WaitDecide(0));
    r := Extend(r, Kill(0));
    WentToSleep(p.(killed := true));
    r := Extend(r, WaitUnlock(0));
    r := Extend(r, WaitSleep(0));
  }

  // ----- kill(0) -----

  /** Unused slots have pid 0, so that kill(0) finds one. */
  lemma KilledUnused(p: Proc, q: Proc)
    requires p == First.(state := Running) && q == ProcTime.Fresh(Unused, -1, 0, 0, -1)
    ensures var s := ProcTime.Two(p, q, Idle, false, 0, 2);
            && s.procs[1].pid == 0 && Enabled(s, Kill(1))
            && Do(s, Kill(1)) == ProcTime.Two(p, q.(killed := true), Idle, false, 0, 2)
  {
  }

  lemma BornSo(p: Proc, q: Proc)
    requires p == First.(state := Running) && q == ProcTime.Fresh(Unused, -1, 0, 0, -1).(killed := true)
    ensures var s := ProcTime.Two(p, q, Idle, false, 0, 2);
            Enabled(s, ForkAlloc(0, 1)) && var s' := Do(s, ForkAlloc(0, 1));
            |s'.procs| == 2 && s'.procs[1].state.Used? && s'.procs[1].pid == 2 && s'.procs[1].killed
  {
  }

  /** The next process to get that slot is born killed, although nobody has killed its pid. */
  lemma BornKilled() returns (r: Run)
    ensures IsRun(r) && In(Last(r), 1)
    ensures r.After? && r.step == ForkAlloc(0, 1) && Last(r).procs[1].state.Used? && Last(r).procs[1].killed
  {
    hide Do, Enabled, Booted, ProcTime.Two;
    var p, q := First, ProcTime.Fresh(Unused, -1, 0, 0, -1);
    r := Start(ProcTime.Two(p, q, Idle, false, -1, 2));
    ProcTime.BootedTwo(p, q);
    ProcTime.Dispatched(p, q);
    r := Extend(r, Dispatch(0, 0));
    p := p.(state := Running);
    KilledUnused(p, q);
    r := Extend(r, Kill(1));
    BornSo(p, q.(killed := true));
    r := Extend(r, ForkAlloc(0, 1));
  }

  /** A process is born killed exactly if its slot was killed since it was last freed. */
  lemma BornExact(r: Run)
    requires IsRun(r) && r.After? && r.step.ForkAlloc? && In(Last(r), r.step.np)
    ensures Last(r).procs[r.step.np].killed <==> KilledIn(r.before, r.step.np)
  {
    hide IsRun;
    KilledExact(r, r.step.np);
  }
}
