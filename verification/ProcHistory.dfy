/**
 Runs seen from one process: whether it runs, what it sleeps on and whether it has been killed, told from the steps
 that concern it. The table agrees with this in every run.
 */
module ProcHistory {
  import opened ProcMachine
  import opened ProcInv
  import opened ProcSteps
  import opened ProcSafety

  // ----- what a step does to one slot -----

  /** The clock, the scheduler, sleeping elsewhere, and kill. */
  lemma MildLocal(s: Sys, step: Step, u: int)
    requires Shape(s) && Enabled(s, step) && Mild(step) && In(s, u)
    ensures var (s', p) := (Do(s, step), s.procs[u]);
            && |s'.procs| == |s.procs| && s'.pc == s.pc && s'.init == s.init
            && s'.ticks == s.ticks + (if step.Tick? then 1 else 0)
            && s'.procs[u] ==
               if step.Dispatch? && step.i == u then
                 p.(state := Running, chan := NoChan,
                    waiting := p.waiting + if Word(p.last) > 0 then s.ticks - p.last else 0)
               else if step.Yield? && step.t == u then Woken(p, s.ticks)
               else if step.SleepElsewhere? && step.t == u then p.(state := Sleeping, chan := Elsewhere(step.c))
               else if step.WakeElsewhere? && step.j == u then Woken(p, s.ticks)
               else if step.Kill? && step.j == u then
                 if p.state.Sleeping? then Woken(p, s.ticks).(killed := true) else p.(killed := true)
               else p
  {
  }

  /** The slot that a step of fork or wait frees, -1 for all others. */
  function Frees(s: Sys, step: Step): int {
    if step.ForkFail? && At(s, step.t) && s.pc[step.t].ForkAllocated? then s.pc[step.t].np
    else if step.WaitReap? && step.copied && At(s, step.t) && s.pc[step.t].WaitScan? then s.pc[step.t].i
    else -1
  }

  /** What was sound at t and u before a step of t. */
  ghost predicate Pre(s: Sys, step: Step, t: int, u: int, s': Sys) {
    && Acts(step, t) && Moves(s, step, t, s') && In(s, u) && |s'.procs| == |s.procs| && Here(s, u)
    && Agree(s.pc[t], s.procs[t], s.plock[t], t)
  }

  lemma PreOf(s: Sys, step: Step, u: int)
    requires Inv(s) && Enabled(s, step) && !Mild(step) && In(s, u)
    ensures Pre(s, step, step.t, u, Do(s, step))
  {
    hide Do, Enabled, Inv;
    MovesShape(s, step, step.t, Do(s, step));
    EachSound(s, u);
  }

  // ----- the clock -----

  function Clock(r: Run): nat {
    if r.Start? then r.first.ticks else Clock(r.before) + if r.step.Tick? then 1 else 0
  }

  lemma TicksStep(s: Sys, step: Step)
    requires Inv(s) && Enabled(s, step)
    ensures Do(s, step).ticks == s.ticks + if step.Tick? then 1 else 0
  {
    hide Do, Enabled, Inv;
    SoundShape(s);
    if Mild(step) {
      MildLocal(s, step, s.init);
    } else {
      PreOf(s, step, s.init);
      Local(s, step, step.t, s.init, Do(s, step));
    }
  }

  lemma {:induction false} ClockExact(r: Run)
    requires IsRun(r)
    ensures Last(r).ticks == Clock(r)
    decreases r
  {
    hide Do, Enabled, Inv;
    if r.After? {
      ClockExact(r.before);
      RunInv(r.before);
      TicksStep(Last(r.before), r.step);
    }
  }

  // ----- processors -----

  /** The process that processor c was last given and has not come back from. */
  function Current(r: Run, c: int): int {
    if r.Start? then -1
    else if r.step.Dispatch? && r.step.c == c then r.step.i
    else if r.step.SchedOut? && r.step.c == c then -1
    else Current(r.before, c)
  }

  lemma CpuStep(s: Sys, step: Step, c: int)
    requires Inv(s) && Enabled(s, step) && 0 <= c < |s.cpu|
    ensures var s' := Do(s, step);
            && |s'.cpu| == |s.cpu|
            && s'.cpu[c] == if step.Dispatch? && step.c == c then step.i
                            else if step.SchedOut? && step.c == c then -1 else s.cpu[c]
  {
    hide Inv;
    SoundShape(s);
    if !Mild(step) {
      hide Do, Enabled;
      PreOf(s, step, s.init);
      Local(s, step, step.t, s.init, Do(s, step));
    }
  }

  lemma {:induction false} CpuExact(r: Run, c: int)
    requires IsRun(r) && 0 <= c < |Last(r).cpu|
    ensures Last(r).cpu[c] == Current(r, c)
    decreases r
  {
    hide Do, Enabled, Inv;
    if r.After? {
      RunInv(r.before);
      CpuCount(Last(r.before), r.step);
      CpuExact(r.before, c);
      CpuStep(Last(r.before), r.step, c);
    }
  }

  lemma CpuCount(s: Sys, step: Step)
    requires Inv(s) && Enabled(s, step)
    ensures |Do(s, step).cpu| == |s.cpu|
  {
    hide Inv;
    SoundShape(s);
    if !Mild(step) {
      hide Do, Enabled;
      PreOf(s, step, s.init);
      Local(s, step, step.t, s.init, Do(s, step));
    }
  }

  /** Process i has been dispatched, and has not given up its processor since. */
  function Going(r: Run, i: int): bool {
    if r.Start? then false
    else if r.step.Dispatch? && r.step.i == i then true
    else if (r.step.Yield? || r.step.SleepElsewhere? || r.step.WaitSleep? || r.step.ExitDone?) && r.step.t == i then
      false
    else Going(r.before, i)
  }

  lemma GoingStep(s: Sys, step: Step, i: int)
    requires Inv(s) && Enabled(s, step) && In(s, i)
    ensures var s' := Do(s, step);
            && |s'.procs| == |s.procs|
            && (s'.procs[i].state.Running? <==>
                  if step.Dispatch? && step.i == i then true
                  else if (step.Yield? || step.SleepElsewhere? || step.WaitSleep? || step.ExitDone?) && step.t == i
                  then false else s.procs[i].state.Running?)
  {
    hide Do, Enabled, Inv, Pre;
    SoundShape(s);
    if Mild(step) {
      GoingMild(s, step, i);
    } else {
      PreOf(s, step, i);
      GoingActs(s, step, step.t, i, Do(s, step));
    }
  }

  lemma GoingMild(s: Sys, step: Step, i: int)
    requires Shape(s) && Enabled(s, step) && Mild(step) && In(s, i)
    ensures var s' := Do(s, step);
            && |s'.procs| == |s.procs|
            && (s'.procs[i].state.Running? <==>
                  if step.Dispatch? && step.i == i then true
                  else if (step.Yield? || step.SleepElsewhere?) && step.t == i then false
                  else s.procs[i].state.Running?)
  {
    hide Do;
    MildLocal(s, step, i);
  }

  lemma GoingActs(s: Sys, step: Step, t: int, i: int, s': Sys)
    requires Pre(s, step, t, i, s')
    ensures |s'.procs| == |s.procs|
    ensures s'.procs[i].state.Running? <==>
              s.procs[i].state.Running? && !((step.WaitSleep? || step.ExitDone?) && t == i)
  {
    hide Do, Act;
    Local(s, step, t, i, s');
  }

  /** A process is Running just from its dispatch to its yield, sleep or exit. */
  lemma {:induction false} GoingExact(r: Run, i: int)
    requires IsRun(r) && In(Last(r), i)
    ensures Last(r).procs[i].state.Running? <==> Going(r, i)
    decreases r
  {
    hide Do, Enabled, Inv;
    if r.After? {
      RunInv(r.before);
      SizeKept(Last(r.before), r.step);
      GoingExact(r.before, i);
      GoingStep(Last(r.before), r.step, i);
    }
  }

  lemma SizeKept(s: Sys, step: Step)
    requires Inv(s) && Enabled(s, step)
    ensures |Do(s, step).procs| == |s.procs|
  {
    hide Do, Enabled, Inv;
    SoundShape(s);
    if Mild(step) {
      MildLocal(s, step, s.init);
    } else {
      PreOf(s, step, s.init);
    }
  }

  // ----- sleeping -----

  /** exit looks at slot i and wakes those who sleep on this channel. */
  predicate Rouses(s: Sys, step: Step, i: int, c: Chan) {
    step.WakeOne? && At(s, step.t) && InWake(s.pc[step.t]) && s.pc[step.t].j == i && c == Slot(WakeTarget(s, step.t))
  }

  /** What i went to sleep on and has not been woken from: by its channel's wakeup, or by kill. */
  function SleepsOn(r: Run, i: int): Chan {
    if r.Start? then NoChan
    else if r.step.SleepElsewhere? && r.step.t == i then Elsewhere(r.step.c)
    else if r.step.WaitSleep? && r.step.t == i then Slot(i)
    else if (r.step.WakeElsewhere? || r.step.Kill?) && r.step.j == i then NoChan
    else if Rouses(Last(r.before), r.step, i, SleepsOn(r.before, i)) then NoChan
    else SleepsOn(r.before, i)
  }

  predicate Asleep(p: Proc, c: Chan) { if c == NoChan then !p.state.Sleeping? else p.state.Sleeping? && p.chan == c }

  lemma SleepStep(s: Sys, step: Step, i: int, c: Chan, c': Chan)
    requires Inv(s) && Enabled(s, step) && In(s, i) && Asleep(s.procs[i], c)
    requires c' == if step.SleepElsewhere? && step.t == i then Elsewhere(step.c)
                   else if step.WaitSleep? && step.t == i then Slot(i)
                   else if (step.WakeElsewhere? || step.Kill?) && step.j == i then NoChan
                   else if Rouses(s, step, i, c) then NoChan else c
    ensures |Do(s, step).procs| == |s.procs| && Asleep(Do(s, step).procs[i], c')
  {
    hide Do, Enabled, Inv, Pre, Asleep;
    SoundShape(s);
    if Mild(step) {
      SleepMild(s, step, i, c, c');
    } else {
      PreOf(s, step, i);
      SleepActs(s, step, step.t, i, Do(s, step), c, c');
    }
  }

  lemma SleepMild(s: Sys, step: Step, i: int, c: Chan, c': Chan)
    requires Shape(s) && Enabled(s, step) && Mild(step) && In(s, i) && Asleep(s.procs[i], c)
    requires c' == if step.SleepElsewhere? && step.t == i then Elsewhere(step.c)
                   else if (step.WakeElsewhere? || step.Kill?) && step.j == i then NoChan else c
    ensures |Do(s, step).procs| == |s.procs| && Asleep(Do(s, step).procs[i], c')
  {
    hide Do;
    MildLocal(s, step, i);
  }

  lemma SleepActs(s: Sys, step: Step, t: int, i: int, s': Sys, c: Chan, c': Chan)
    requires Pre(s, step, t, i, s') && Asleep(s.procs[i], c)
    requires c' == if step.WaitSleep? && t == i then Slot(i) else if Rouses(s, step, i, c) then NoChan else c
    ensures |s'.procs| == |s.procs| && Asleep(s'.procs[i], c')
  {
    hide Do, Act;
    Local(s, step, t, i, s');
  }

  /** Who sleeps, and on what: nobody is woken but by a wakeup of the channel or by kill, and those do wake. */
  lemma {:induction false} SleepExact(r: Run, i: int)
    requires IsRun(r) && In(Last(r), i)
    ensures Asleep(Last(r).procs[i], SleepsOn(r, i))
    decreases r
  {
    hide Do, Enabled, Inv, Asleep, Rouses;
    if r.After? {
      RunInv(r.before);
      SizeKept(Last(r.before), r.step);
      SleepExact(r.before, i);
      SleepStep(Last(r.before), r.step, i, SleepsOn(r.before, i), SleepsOn(r, i));
    } else {
      NoneAsleep(r.first, i);
    }
  }

  lemma NoneAsleep(s: Sys, i: int)
    requires Booted(s) && In(s, i)
    ensures Asleep(s.procs[i], NoChan)
  {
  }

  // ----- slots in use -----

  /** A slot that fork has allocated and not yet filled has its fork still at work on it. */
  ghost predicate UsedAt(s: Sys, i: int)
    requires Shape(s) && In(s, i)
  {
    s.procs[i].state.Used? ==>
      var t := s.procs[i].forker;
      In(s, t) && (s.pc[t].ForkAllocated? || s.pc[t].ForkAdopted?) && s.pc[t].np == i
  }

  lemma UsedMild(s: Sys, step: Step, i: int)
    requires Shape(s) && Enabled(s, step) && Mild(step) && In(s, i) && UsedAt(s, i)
    requires Agree(s.pc[i], s.procs[i], s.plock[i], i)
    ensures Shape(Do(s, step)) && In(Do(s, step), i) && UsedAt(Do(s, step), i)
  {
  }

  lemma UsedActs(s: Sys, step: Step, t: int, i: int, s': Sys)
    requires Pre(s, step, t, i, s') && UsedAt(s, i) && (s.procs[i].state.Used? ==> Here(s, s.procs[i].forker))
    ensures UsedAt(s', i)
  {
    hide Do, Act, Enabled, NextPc, NextProc, Touched, Agree, ForkAt;
    if s'.procs[i].state.Used? {
      UsedRecord(s, step, t, i, s');
      UsedPlace(s, step, t, s'.procs[i].forker, i, s');
    }
  }

  /** It was used already, or this is its fork. */
  lemma UsedRecord(s: Sys, step: Step, t: int, i: int, s': Sys)
    requires Pre(s, step, t, i, s') && s'.procs[i].state.Used?
    ensures if step.ForkAlloc? && step.np == i then s'.procs[i].forker == t
            else s.procs[i].state.Used? && s'.procs[i].forker == s.procs[i].forker
                 && !((step.ForkFail? || step.ForkRun?) && s.pc[t].np == i)
  {
    hide Do, Act;
    Local(s, step, t, i, s');
  }

  /** Its fork has not come to its end. */
  lemma UsedPlace(s: Sys, step: Step, t: int, f: int, i: int, s': Sys)
    requires Pre(s, step, t, f, s')
    requires if step.ForkAlloc? && step.np == i then f == t
             else (s.pc[f].ForkAllocated? || s.pc[f].ForkAdopted?) && s.pc[f].np == i
                  && !((step.ForkFail? || step.ForkRun?) && s.pc[t].np == i)
    ensures (s'.pc[f].ForkAllocated? || s'.pc[f].ForkAdopted?) && s'.pc[f].np == i
  {
    hide Do, Act, NextProc;
    Local(s, step, t, f, s');
  }

  lemma UsedStep(s: Sys, step: Step, i: int)
    requires Inv(s) && Enabled(s, step) && In(s, i) && UsedAt(s, i)
    ensures Shape(Do(s, step)) && In(Do(s, step), i) && UsedAt(Do(s, step), i)
  {
    hide Do, Enabled, Inv;
    SoundShape(s);
    EachSound(s, i);
    if Mild(step) {
      UsedMild(s, step, i);
    } else {
      PreOf(s, step, i);
      if s.procs[i].state.Used? {
        EachSound(s, s.procs[i].forker);
      }
      UsedActs(s, step, step.t, i, Do(s, step));
    }
  }

  /** No slot is lost: whatever fork allocates it fills or frees. */
  lemma {:induction false} NoSlotLost(r: Run, i: int)
    requires IsRun(r) && In(Last(r), i)
    ensures Shape(Last(r)) && UsedAt(Last(r), i)
    decreases r
  {
    hide Do, Enabled, Inv;
    RunInv(r);
    SoundShape(Last(r));
    if r.After? {
      RunInv(r.before);
      SoundShape(Last(r.before));
      SizeKept(Last(r.before), r.step);
      NoSlotLost(r.before, i);
      UsedStep(Last(r.before), r.step, i);
    }
  }
}
