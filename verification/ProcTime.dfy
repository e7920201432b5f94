/**
 The metrics. The code keeps times in 32 bits and adds up, over the processes that have exited, their
 turnaround and waiting times in 64.
 */
module ProcTime {
  import opened ProcMachine
  import opened ProcInv
  import opened ProcSteps
  import opened ProcSafety

  function Age(s: Sys, i: int): int
    requires In(s, i)
  {
    s.ticks - s.procs[i].creation
  }

  /** No process of the run was older than m when it exited. */
  ghost predicate ExitsWithin(r: Run, m: nat)
    decreases r
  {
    r.After? ==>
      && ExitsWithin(r.before, m)
      && (r.step.ExitMetrics? && In(Last(r.before), r.step.t) ==> Age(Last(r.before), r.step.t) <= m)
  }

  lemma MildSums(s: Sys, step: Step)
    requires Enabled(s, step) && Mild(step)
    ensures var s' := Do(s, step);
            if step.ResetMetrics? then s'.turnaround == s'.waited == s'.finished == 0
            else s'.turnaround == s.turnaround && s'.waited == s.waited && s'.finished == s.finished
  {
  }

  lemma ExitRuns(s: Sys, step: Step)
    requires Enabled(s, step) && step.ExitMetrics?
    ensures In(s, step.t) && s.procs[step.t].state.Running?
  {
  }

  /** What one step adds to the sums. */
  lemma SumsStep(s: Sys, step: Step)
    requires Inv(s) && Enabled(s, step)
    ensures var s' := Do(s, step);
            if step.ExitMetrics? then
              && In(s, step.t) && Charged(s.procs[step.t], s.ticks) && !s.procs[step.t].state.Unused?
              && s'.turnaround == s.turnaround + Word(Age(s, step.t)) && s'.finished == s.finished + 1
              && s'.waited == s.waited + Word(s.procs[step.t].waiting)
            else if step.ResetMetrics? then s'.turnaround == s'.waited == s'.finished == 0
            else s'.turnaround == s.turnaround && s'.waited == s.waited && s'.finished == s.finished
  {
    hide Do, Enabled, Inv, Charged, Word;
    if Mild(step) {
      MildSums(s, step);
    } else {
      MovesShape(s, step, step.t, Do(s, step));
      hide Moves;
      Ledgers(s, step, step.t, Do(s, step));
      EachSound(s, step.t);
      if step.ExitMetrics? {
        ExitRuns(s, step);
      }
    }
  }

  /** The sums stay within what 64 bits hold for the first 2^32 exits. */
  lemma {:induction false} SumsFit(r: Run)
    requires IsRun(r)
    ensures var s := Last(r);
            0 <= s.waited <= s.finished * (WORD - 1) && 0 <= s.turnaround <= s.finished * (WORD - 1)
    decreases r
  {
    hide Do, Enabled, Inv;
    if r.After? {
      SumsFit(r.before);
      RunInv(r.before);
      SumsStep(Last(r.before), r.step);
    }
  }

  lemma {:induction false} SumsBounded(r: Run)
    requires IsRun(r) && ExitsWithin(r, WORD - 1)
    ensures Last(r).waited <= Last(r).turnaround
    decreases r
  {
    hide Do, Enabled, Inv;
    if r.After? {
      SumsBounded(r.before);
      RunInv(r.before);
      SumsStep(Last(r.before), r.step);
    }
  }

  /** Subtraction in 32 bits is right across the wrap for times less than 2^32 apart. */
  lemma WordDiff(a: nat, b: nat)
    requires 0 <= a - b < WORD
    ensures Word(Word(a) - Word(b)) == a - b
  {
    var q := a / WORD - b / WORD;
    assert Word(a) - Word(b) == a - b - WORD * q;
  }

  /**
   No process has waited longer than it has existed, also as the code computes both in 32 bits, for a
   process less than 2^32 ticks old; summed over the finished ones likewise.
   */
  lemma WaitingBounded(r: Run)
    requires IsRun(r)
    ensures var s := Last(r);
            forall i :: In(s, i) && !s.procs[i].state.Unused? ==>
              && 0 <= s.procs[i].waiting <= Age(s, i)
              && (Age(s, i) < WORD ==>
                    Word(s.procs[i].waiting) <= Word(Word(s.ticks) - Word(s.procs[i].creation)) == Age(s, i))
    ensures ExitsWithin(r, WORD - 1) ==> Last(r).waited <= Last(r).turnaround
  {
    hide Do, Enabled, Inv;
    RunInv(r);
    var s := Last(r);
    forall i | In(s, i) && !s.procs[i].state.Unused?
      ensures 0 <= s.procs[i].waiting <= Age(s, i)
      ensures Age(s, i) < WORD ==>
                Word(s.procs[i].waiting) <= Word(Word(s.ticks) - Word(s.procs[i].creation)) == Age(s, i)
    {
      EachSound(s, i);
      if Age(s, i) < WORD {
        WordDiff(s.ticks, s.procs[i].creation);
      }
    }
    if ExitsWithin(r, WORD - 1) {
      SumsBounded(r);
    }
  }

  // ----- a process that gets too old -----

  lemma Take(r: Run, step: Step, m: nat) returns (r': Run)
    requires IsRun(r) && ExitsWithin(r, m) && Enabled(Last(r), step)
    requires step.ExitMetrics? && In(Last(r), step.t) ==> Age(Last(r), step.t) <= m
    ensures IsRun(r') && ExitsWithin(r', m) && Last(r') == Do(Last(r), step)
  {
    hide Do, Enabled;
    r' := After(r, step, Do(Last(r), step));
  }

  function Fresh(state: PState, parent: int, pid: nat, last: nat, forker: int): Proc {
    Proc(state, NoChan, parent, false, pid, if pid == 0 then 0 else 1, last, 0, forker)
  }

  /** A machine with two slots and one processor at tick 1; init runs in slot 0 and is at pc in fork. */
  function Two(p: Proc, q: Proc, pc: Pc, held: bool, on: int, pids: nat): Sys {
    Sys([p, q], [pc, Idle], [held, false], -1, [if on == -1 then -1 else 0], [on, -1], 0, pids, 1, 0, 0, 0,
        if pids == 2 then map[1 := 0] else map[1 := 0, 2 := 1], map[])
  }

  /** The process in slot 1, created at tick 1, has been runnable since, and the one processor is free. */
  predicate Queued(s: Sys) {
    && Shape(s) && |s.procs| == 2 && s.cpu == [-1] && s.init == 0 && !s.plock[1] && s.pc[1].Idle?
    && s.procs[1].state.Runnable? && s.procs[1].last == s.procs[1].creation == 1 && s.procs[1].waiting == 0
    && s.turnaround == s.waited == 0
  }

  lemma BootedTwo(p: Proc, q: Proc)
    requires p == Fresh(Runnable, -1, 1, 1, -1) && q == Fresh(Unused, -1, 0, 0, -1)
    ensures Booted(Two(p, q, Idle, false, -1, 2))
  {
  }

  lemma Dispatched(p: Proc, q: Proc)
    requires p == Fresh(Runnable, -1, 1, 1, -1) && q == Fresh(Unused, -1, 0, 0, -1)
    ensures var s := Two(p, q, Idle, false, -1, 2);
            Enabled(s, Dispatch(0, 0)) && Do(s, Dispatch(0, 0)) == Two(p.(state := Running), q, Idle, false, 0, 2)
  {
  }

  lemma Allocated(p: Proc, q: Proc)
    requires p == Fresh(Running, -1, 1, 1, -1) && q == Fresh(Unused, -1, 0, 0, -1)
    ensures var s := Two(p, q, Idle, false, 0, 2);
            && Enabled(s, ForkAlloc(0, 1))
            && Do(s, ForkAlloc(0, 1)) == Two(p, Fresh(Used, -1, 2, 0, 0), ForkAllocated(1), false, 0, 3)
  {
  }

  lemma Adopted(p: Proc, q: Proc)
    requires p == Fresh(Running, -1, 1, 1, -1) && q == Fresh(Used, -1, 2, 0, 0)
    ensures var s := Two(p, q, ForkAllocated(1), false, 0, 3);
            && Enabled(s, ForkAdopt(0))
            && Do(s, ForkAdopt(0)) == Two(p, q.(parent := 0), ForkAdopted(1), false, 0, 3)
  {
  }

  lemma Started(p: Proc, q: Proc)
    requires p == Fresh(Running, -1, 1, 1, -1) && q == Fresh(Used, 0, 2, 0, 0)
    ensures var s := Two(p, q, ForkAdopted(1), false, 0, 3);
            && Enabled(s, ForkRun(0))
            && Do(s, ForkRun(0)) == Two(p, Fresh(Runnable, 0, 2, 1, -1), Idle, false, 0, 3)
  {
  }

  lemma Yielded(p: Proc, q: Proc)
    requires p == Fresh(Running, -1, 1, 1, -1) && q == Fresh(Runnable, 0, 2, 1, -1)
    ensures var s := Two(p, q, Idle, false, 0, 3);
            && Enabled(s, Yield(0)) && Enabled(Do(s, Yield(0)), SchedOut(0))
            && Queued(Do(Do(s, Yield(0)), SchedOut(0))) && Do(Do(s, Yield(0)), SchedOut(0)).ticks == 1
  {
  }

  lemma Forked() returns (r: Run)
    ensures IsRun(r) && ExitsWithin(r, 0) && Queued(Last(r)) && Last(r).ticks == 1
  {
    hide Do, Enabled, Queued, Booted, Two;
    var p, q := Fresh(Runnable, -1, 1, 1, -1), Fresh(Unused, -1, 0, 0, -1);
    r := Start(Two(p, q, Idle, false, -1, 2));
    BootedTwo(p, q);
    Dispatched(p, q);
    r := Take(r, Dispatch(0, 0), 0);
    p := p.(state := Running);
    Allocated(p, q);
    r := Take(r, ForkAlloc(0, 1), 0);
    q := Fresh(Used, -1, 2, 0, 0);
    Adopted(p, q);
    r := Take(r, ForkAdopt(0), 0);
    q := q.(parent := 0);
    Started(p, q);
    r := Take(r, ForkRun(0), 0);
    q := Fresh(Runnable, 0, 2, 1, -1);
    Yielded(p, q);
    r := Take(r, Yield(0), 0);
    r := Take(r, SchedOut(0), 0);
  }

  lemma {:induction false} Ticked(r: Run, n: nat) returns (r': Run)
    requires IsRun(r) && ExitsWithin(r, 0)
    ensures IsRun(r') && ExitsWithin(r', 0) && Last(r') == Last(r).(ticks := Last(r).ticks + n)
  {
    if n == 0 {
      r' := r;
    } else {
      r' := Ticked(r, n - 1);
      r' := Take(r', Tick, 0);
    }
  }

  lemma {:induction false} WithinMore(r: Run, m: nat, m': nat)
    requires ExitsWithin(r, m) && m <= m'
    ensures ExitsWithin(r, m')
    decreases r
  {
    if r.After? {
      WithinMore(r.before, m, m');
    }
  }

  lemma Later(s: Sys, ticks: nat)
    requires Queued(s)
    ensures Queued(s.(ticks := ticks))
  {
  }

  lemma Served(s: Sys)
    requires Queued(s) && s.ticks == WORD
    ensures var d := Dispatch(0, 1);
            && Enabled(s, d) && Enabled(Do(s, d), Tick)
            && var s' := Do(Do(s, d), Tick);
               Enabled(s', ExitMetrics(1)) && In(s', 1) && Age(s', 1) == WORD && s'.procs[1].waiting == WORD - 1
               && s'.waited == s'.turnaround == 0
  {
  }

  /** It waits 2^32 - 1 ticks, runs for one and exits: its turnaround counts as 0. */
  lemma OldExit() returns (r: Run)
    ensures IsRun(r) && ExitsWithin(r, WORD) && Last(r).waited > Last(r).turnaround
  {
    hide Do, Enabled, Queued;
    r := Forked();
    Later(Last(r), WORD);
    r := Ticked(r, WORD - 1);
    WithinMore(r, 0, WORD);
    Served(Last(r));
    r := Take(r, Dispatch(0, 1), WORD);
    r := Take(r, Tick, WORD);
    RunInv(r);
    SumsStep(Last(r), ExitMetrics(1));
    r := Take(r, ExitMetrics(1), WORD);
  }

  /** Summed waiting is at most summed turnaround in all runs of processes up to age m just for m < 2^32. */
  lemma WrapExact(m: nat)
    ensures (forall r :: IsRun(r) && ExitsWithin(r, m) ==> Last(r).waited <= Last(r).turnaround) <==> m < WORD
  {
    if m < WORD {
      forall r | IsRun(r) && ExitsWithin(r, m) ensures Last(r).waited <= Last(r).turnaround {
        WithinMore(r, m, WORD - 1);
        SumsBounded(r);
      }
    } else {
      var r := OldExit();
      WithinMore(r, WORD, m);
    }
  }
}
