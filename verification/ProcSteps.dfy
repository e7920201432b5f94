/** fork, exit and wait keep the invariant, one process at a time. */
module ProcSteps {
  import opened ProcMachine
  import opened ProcInv

  /** A step of fork, exit or wait by process t. */
  predicate Acts(step: Step, t: int) { !Mild(step) && step.t == t }

  predicate ForkStep(step: Step) { step.ForkAlloc? || step.ForkFail? || step.ForkAdopt? || step.ForkRun? }

  predicate WakeStep(step: Step) { step.WakeSkip? || step.WakeOne? || step.WakeEnd? }

  /** Steps that change a family, make a zombie or commit to sleeping. */
  predicate Loud(step: Step) {
    step.ForkAdopt? || step.ExitGive? || step.ExitDone? || step.WaitReap? || step.WaitUnlock?
  }

  /** The invariant at process t alone. */
  ghost predicate Here(s: Sys, t: int)
    requires Shape(s) && In(s, t)
  {
    Agree(s.pc[t], s.procs[t], s.plock[t], t) && ForkAt(s, t) && (Holds(s.pc[t]) <==> s.wlock == t)
  }

  /** s' comes from s by a step of process t. */
  ghost predicate Moves(s: Sys, step: Step, t: int, s': Sys) {
    Shape(s) && Enabled(s, step) && s' == Do(s, step) && In(s, t) && Here(s, t) && Shape(s')
  }

  /** What a step of process t does to slot u. */
  lemma Local(s: Sys, step: Step, t: int, u: int, s': Sys)
    requires Acts(step, t) && Moves(s, step, t, s') && In(s, u)
    ensures Enabled(s, step) && At(s, t) && |s'.procs| == |s.procs| && s'.init == s.init && s'.ticks == s.ticks
    ensures s'.procs[u] == if u == Touched(s, step) then NextProc(s, step, s.procs[u]) else s.procs[u]
    ensures s'.pc[u] == if Reaps(step) && u == Touched(s, step) then Idle else if u == t then NextPc(s, step)
                        else s.pc[u]
    ensures s'.plock[u] == (s.plock[u] || (Stops(step) && u == t))
    ensures s'.wlock == NextLock(s, step) && s'.cpu == s.cpu && s'.on == s.on
  {
  }

  /** And to the ledgers. */
  lemma Ledgers(s: Sys, step: Step, t: int, s': Sys)
    requires Acts(step, t) && Moves(s, step, t, s')
    ensures Enabled(s, step) && At(s, t)
    ensures if step.ForkAlloc? then s'.nextpid == s.nextpid + 1 && s'.slotOf == s.slotOf[s.nextpid := step.np]
            else s'.nextpid == s.nextpid && s'.slotOf == s.slotOf
    ensures if Reaps(step) then s'.reaped == s.reaped[s.procs[Touched(s, step)].pid := s.procs[t].pid]
            else s'.reaped == s.reaped
    ensures if step.ExitMetrics?
            then s'.turnaround == s.turnaround + Word(s.ticks - s.procs[t].creation)
                 && s'.waited == s.waited + Word(s.procs[t].waiting) && s'.finished == s.finished + 1
            else s'.turnaround == s.turnaround && s'.waited == s.waited && s'.finished == s.finished
  {
  }

  lemma StepLock(s: Sys, step: Step, t: int, u: int, s': Sys)
    requires Acts(step, t) && Moves(s, step, t, s') && In(s, u) && Here(s, u)
    ensures (Holds(s'.pc[u]) <==> s'.wlock == u) && (s'.wlock == s.wlock || s'.wlock == -1 || s'.wlock == t)
  {
    hide Do, Act;
    Local(s, step, t, u, s');
  }

  lemma StepState(s: Sys, step: Step, t: int, u: int, s': Sys)
    requires Acts(step, t) && Moves(s, step, t, s') && In(s, u) && Here(s, u)
    ensures Agree(s'.pc[u], s'.procs[u], s'.plock[u], u)
  {
    hide Do, Act;
    Local(s, step, t, u, s');
  }

  lemma Unparented(s: Sys, i: int)
    requires Shape(s) && FamilyOk(s) && In(s, i) && s.procs[i].state.Unused?
    ensures ParentOf(s, i) == -1
  {
    assert KinOk(s, i);
  }

  lemma StepFork(s: Sys, step: Step, t: int, u: int, s': Sys)
    requires Acts(step, t) && Moves(s, step, t, s') && In(s, u) && Here(s, u) && FamilyOk(s)
    ensures ForkAt(s', u)
  {
    hide Do, Act, FamilyOk;
    Local(s, step, t, u, s');
    if s'.pc[u].ForkAllocated? || s'.pc[u].ForkAdopted? {
      Local(s, step, t, s'.pc[u].np, s');
      if step.ForkAlloc? {
        Unparented(s, step.np);
      }
    }
  }

  lemma StepKin(s: Sys, step: Step, t: int, u: int, s': Sys)
    requires Acts(step, t) && Moves(s, step, t, s') && In(s, u) && FamilyOk(s) && ExitAt(s, t)
    ensures KinOk(s', u)
  {
    hide Do, Act, FamilyOk, ExitAt, ForkAt, Agree;
    Local(s, step, t, u, s');
    Kin(s, t, u);
    if In(s, ParentOf(s', u)) {
      Local(s, step, t, ParentOf(s', u), s');
    }
  }

  /** What the invariant says of u's parent, and of the children of a process about to become a zombie. */
  lemma Kin(s: Sys, t: int, u: int)
    requires Shape(s) && FamilyOk(s) && In(s, t) && In(s, u) && ExitAt(s, t)
    requires Agree(s.pc[t], s.procs[t], s.plock[t], t)
    ensures KinOk(s, u) && Live(s.procs[s.init].state) && (s.pc[t].ExitLast? ==> t != s.init && ParentOf(s, u) != t)
    ensures ForkAt(s, t) && (s.pc[t].ForkAllocated? || s.pc[t].ForkAdopted?) ==>
              && In(s, s.pc[t].np) && s.procs[s.pc[t].np].state.Used?
              && (s.pc[t].ForkAdopted? ==> ParentOf(s, s.pc[t].np) == t)
  {
    assert KinOk(s, u);
  }

  lemma StepCpu(s: Sys, step: Step, t: int, u: int, s': Sys)
    requires Acts(step, t) && Moves(s, step, t, s') && In(s, u) && Here(s, u) && CpuAt(s, u)
    ensures s'.cpu == s.cpu && s'.on == s.on && CpuAt(s', u)
  {
    hide Do, Act;
    Local(s, step, t, u, s');
  }

  lemma StepPid(s: Sys, step: Step, t: int, u: int, s': Sys)
    requires Acts(step, t) && Moves(s, step, t, s') && In(s, u) && PidOk(s)
    ensures PidFits(s'.procs[u], u, s'.nextpid, s'.slotOf, s'.reaped)
  {
    hide Do, Act;
    Local(s, step, t, u, s');
    Ledgers(s, step, t, s');
    assert Reaps(step) ==> PidFits(s.procs[s.pc[t].i], s.pc[t].i, s.nextpid, s.slotOf, s.reaped);
  }

  lemma StepTime(s: Sys, step: Step, t: int, u: int, s': Sys)
    requires Acts(step, t) && Moves(s, step, t, s') && In(s, u) && Charged(s.procs[t], s.ticks)
    requires Charged(s.procs[u], s.ticks)
    ensures Charged(s'.procs[u], s'.ticks)
  {
    hide Do, Act;
    Local(s, step, t, u, s');
  }

  lemma StepQuiet(s: Sys, step: Step, t: int, u: int, s': Sys)
    requires Acts(step, t) && Moves(s, step, t, s') && In(s, u) && Here(s, u) && !Loud(step)
    ensures ParentOf(s', u) == ParentOf(s, u) && (Committed(s', u) ==> Committed(s, u))
            && (s'.procs[u].state.Zombie? ==> s.procs[u].state.Zombie?)
  {
    hide Do, Act;
    Local(s, step, t, u, s');
  }

  lemma StepPlace(s: Sys, step: Step, t: int, u: int, s': Sys)
    requires Acts(step, t) && Moves(s, step, t, s') && In(s, u) && Here(s, u) && u != t
    ensures s'.pc[u] == s.pc[u] || (!Holds(s.pc[u]) && !Holds(s'.pc[u]))
  {
    hide Do, Act;
    Local(s, step, t, u, s');
  }

  lemma StepWhole(s: Sys, step: Step, t: int, u: int, s': Sys)
    requires Acts(step, t) && Moves(s, step, t, s') && In(s, u) && FamilyOk(s) && PidOk(s)
    ensures s'.init == s.init && |s'.procs| == |s.procs|
            && (u == s.init ==> Live(s'.procs[u].state) && ParentOf(s', u) == -1 && !Leaving(s'.pc[u]))
            && (forall n :: n in s'.reaped || n in s'.slotOf ==> n < s'.nextpid)
  {
    hide Do, Act, KinOk, ForkAt, Agree;
    Local(s, step, t, u, s');
    Ledgers(s, step, t, s');
    if step.WaitReap? {
      assert PidFits(s.procs[s.pc[t].i], s.pc[t].i, s.nextpid, s.slotOf, s.reaped);
    }
    if u == s.init {
      InitFacts(s, t);
    }
  }

  /** init is nobody's new slot and nobody's zombie. */
  lemma InitFacts(s: Sys, t: int)
    requires Shape(s) && FamilyOk(s) && In(s, t) && Here(s, t)
    ensures s.pc[t].ForkAllocated? || s.pc[t].ForkAdopted? ==> s.pc[t].np != s.init
    ensures t == s.init ==> !Leaving(s.pc[t])
  {
  }
}
