/**
 kill. The flag stays with the slot until it is freed, and a process that is killed does not go on sleeping; except that
 wait checks the flag before it takes its process's lock to sleep, and a kill may fall in between.
 */
module ProcKill {
  import opened ProcMachine
  import opened ProcInv
  import opened ProcSteps
  import opened ProcSafety
  import opened ProcHistory

  /** Slot i has been killed since it was last freed. */
  function KilledIn(r: Run, i: int): bool {
    if r.Start? then false
    else if r.step.Kill? && r.step.j == i then true
    else if Frees(Last(r.before), r.step) == i then false
    else KilledIn(r.before, i)
  }

  lemma KilledMild(s: Sys, step: Step, i: int)
    requires Shape(s) && Enabled(s, step) && Mild(step) && In(s, i)
    ensures |Do(s, step).procs| == |s.procs|
    ensures Do(s, step).procs[i].killed == (s.procs[i].killed || (step.Kill? && step.j == i))
  {
    hide Do;
    MildLocal(s, step, i);
  }

  lemma KilledActs(s: Sys, step: Step, t: int, i: int, s': Sys)
    requires Pre(s, step, t, i, s')
    ensures s'.procs[i].killed == (s.procs[i].killed && Frees(s, step) != i)
  {
    hide Do, Act;
    Local(s, step, t, i, s');
  }

  lemma KilledStep(s: Sys, step: Step, i: int)
    requires Inv(s) && Enabled(s, step) && In(s, i)
    ensures |Do(s, step).procs| == |s.procs|
    ensures Do(s, step).procs[i].killed ==
              if step.Kill? && step.j == i then true else if Frees(s, step) == i then false else s.procs[i].killed
  {
    hide Do, Enabled, Inv, Pre;
    SoundShape(s);
    SizeKept(s, step);
    if Mild(step) {
      KilledMild(s, step, i);
    } else {
      PreOf(s, step, i);
      KilledActs(s, step, step.t, i, Do(s, step));
    }
  }

  /** Once a process is killed it stays so until its slot is freed, and it was not killed otherwise. */
  lemma {:induction false} KilledExact(r: Run, i: int)
    requires IsRun(r) && In(Last(r), i)
    ensures Last(r).procs[i].killed <==> KilledIn(r, i)
    decreases r
  {
    hide Do, Enabled, Inv, Frees;
    if r.After? {
      RunInv(r.before);
      SizeKept(Last(r.before), r.step);
      KilledExact(r.before, i);
      KilledStep(Last(r.before), r.step, i);
    }
  }

  /** Right after kill the process has the flag and does not sleep. */
  lemma KillWakes(r: Run, i: int)
    requires IsRun(r) && In(Last(r), i) && r.After? && r.step == Kill(i)
    ensures Last(r).procs[i].killed && !Last(r).procs[i].state.Sleeping?
  {
    hide IsRun;
    KilledExact(r, i);
    SleepExact(r, i);
  }

  // ----- the race with wait -----

  /** i has been killed since wait last looked at its flag, and before it had its lock. */
  function KilledLate(r: Run, i: int): bool {
    if r.Start? then false
    else if r.step.WaitDecide? && r.step.t == i then false
    else if r.step.Kill? && r.step.j == i && At(Last(r.before), i) && Last(r.before).pc[i].WaitCommit? then true
    else KilledLate(r.before, i)
  }

  /** From the look at the flag on, up to the end of its sleep. */
  ghost predicate Late(s: Sys, i: int, late: bool)
    requires Shape(s) && In(s, i)
  {
    s.pc[i].WaitCommit? || Committed(s, i) ==> (s.procs[i].killed <==> late)
  }

  lemma LateMild(s: Sys, step: Step, i: int, late: bool)
    requires Shape(s) && Enabled(s, step) && Mild(step) && In(s, i) && Late(s, i, late)
    requires Agree(s.pc[i], s.procs[i], s.plock[i], i)
    ensures Shape(Do(s, step)) && In(Do(s, step), i)
    ensures Late(Do(s, step), i, late || (step.Kill? && step.j == i && s.pc[i].WaitCommit?))
  {
    MildLocal(s, step, i);
  }

  lemma LateActs(s: Sys, step: Step, t: int, i: int, s': Sys, late: bool)
    requires Pre(s, step, t, i, s') && Late(s, i, late)
    ensures Late(s', i, late && !(step.WaitDecide? && t == i))
  {
    hide Do, Act;
    Local(s, step, t, i, s');
  }

  lemma LateStep(s: Sys, step: Step, i: int, late: bool)
    requires Inv(s) && Enabled(s, step) && Shape(s) && In(s, i) && Late(s, i, late)
    ensures Shape(Do(s, step)) && In(Do(s, step), i)
    ensures Late(Do(s, step), i, if step.WaitDecide? && step.t == i then false
                                 else if step.Kill? && step.j == i && s.pc[i].WaitCommit? then true else late)
  {
    hide Do, Enabled, Inv, Late, Agree;
    EachSound(s, i);
    if Mild(step) {
      LateMild(s, step, i, late);
    } else {
      PreOf(s, step, i);
      LateActs(s, step, step.t, i, Do(s, step), late);
    }
  }

  lemma {:induction false} LateRun(r: Run, i: int)
    requires IsRun(r) && In(Last(r), i)
    ensures Shape(Last(r)) && Late(Last(r), i, KilledLate(r, i))
    decreases r
  {
    hide Do, Enabled, Inv, Late;
    RunInv(r);
    SoundShape(Last(r));
    if r.After? {
      RunInv(r.before);
      SoundShape(Last(r.before));
      SizeKept(Last(r.before), r.step);
      LateRun(r.before, i);
      LateStep(Last(r.before), r.step, i, KilledLate(r.before, i));
    } else {
      NotLate(r.first, i);
    }
  }

  lemma NotLate(s: Sys, i: int)
    requires Booted(s) && In(s, i)
    ensures Late(s, i, false)
  {
  }

  /**
   A process asleep in wait, or bound to sleep there, is a killed one exactly if the kill came after its look at the
   flag and before it had its lock.
   */
  lemma KillRace(r: Run, i: int)
    requires IsRun(r) && In(Last(r), i) && Committed(Last(r), i)
    ensures Last(r).procs[i].killed <==> KilledLate(r, i)
  {
    hide IsRun;
    LateRun(r, i);
  }
}
