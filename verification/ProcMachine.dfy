/**
 proc.c as a machine whose steps are the sections it runs under one process's lock. Slots of the
 process table are numbers; a parent of -1 is the null pointer.
 */
module ProcMachine {

  datatype PState = Unused | Used | Sleeping | Runnable | Running | Zombie

  /** What a process sleeps on: in wait, on its own slot; elsewhere on something that is no slot. */
  datatype Chan = NoChan | Slot(q: int) | Elsewhere(c: int)

  /** forker is the process that allocated the slot in fork, while it is Used. */
  datatype Proc = Proc(state: PState, chan: Chan, parent: int, killed: bool, pid: nat,
                       creation: nat, last: nat, waiting: int, forker: int)

  /** How far a process has come in fork, exit or wait. */
  datatype Pc =
    | Idle
    | ForkAllocated(np: int) | ForkAdopted(np: int)
    | Exiting | ExitReparent(i: int) | ExitWakeInit(i: int, j: int) | ExitWakeParent(j: int) | ExitLast | Exited
    | WaitScan(i: int, have: bool) | WaitCommit | WaitLocked | WaitAsleep

  /**
   wlock is the holder of wait_lock, -1 if it is free; plock[i] says that process i's lock is held by
   the process itself, or by the scheduler on its way back from it; cpu and on are inverse. slotOf
   records the slot every pid was given, reaped which process freed it in wait.
   */
  datatype Sys = Sys(procs: seq<Proc>, pc: seq<Pc>, plock: seq<bool>, wlock: int, cpu: seq<int>, on: seq<int>,
                     init: int, nextpid: nat, ticks: nat, turnaround: int, waited: int, finished: nat,
                     slotOf: map<nat, int>, reaped: map<nat, nat>)

  datatype Step =
    | Tick
    | ResetMetrics
    | Dispatch(c: int, i: int)
    | SchedOut(c: int)
    | Yield(t: int)
    | SleepElsewhere(t: int, c: int)
    | WakeElsewhere(j: int)
    | Kill(j: int)
    | ForkAlloc(t: int, np: int)
    | ForkFail(t: int)
    | ForkAdopt(t: int)
    | ForkRun(t: int)
    | ExitMetrics(t: int)
    | ExitLock(t: int)
    | ExitPass(t: int)
    | ExitGive(t: int)
    | ExitGiven(t: int)
    | WakeSkip(t: int)
    | WakeOne(t: int)
    | WakeEnd(t: int)
    | ExitDone(t: int)
    | WaitLock(t: int)
    | WaitPass(t: int)
    | WaitChild(t: int)
    | WaitReap(t: int, copied: bool)
    | WaitReturn(t: int)
    | WaitDecide(t: int)
    | WaitUnlock(t: int)
    | WaitSleep(t: int)

  predicate At(s: Sys, t: int) { 0 <= t < |s.procs| == |s.pc| == |s.plock| == |s.on| }

  predicate Runs(s: Sys, t: int) { At(s, t) && s.procs[t].state.Running? }

  /** Spinlocks held across steps, and with them no preemption. */
  predicate Holds(pc: Pc) {
    pc.ExitReparent? || pc.ExitWakeInit? || pc.ExitWakeParent? || pc.ExitLast? || pc.WaitScan? || pc.WaitCommit?
  }

  predicate InWake(pc: Pc) { pc.ExitWakeInit? || pc.ExitWakeParent? }

  /** The slot whose sleepers exit is waking, and the slot it looks at next. */
  function WakeTarget(s: Sys, t: int): int
    requires At(s, t)
  {
    if s.pc[t].ExitWakeInit? then s.init else s.procs[t].parent
  }

  function WakeNext(pc: Pc): Pc
    requires InWake(pc)
  {
    if pc.ExitWakeInit? then ExitWakeInit(pc.i, pc.j + 1) else ExitWakeParent(pc.j + 1)
  }

  /** ticks and the times kept in a process are 32 bits wide; the model keeps their full values. */
  const WORD: nat := 0x1_0000_0000

  function Word(x: int): int { x % WORD }

  function Woken(p: Proc, ticks: nat): Proc { p.(state := Runnable, last := ticks) }

  function Freed(p: Proc, ticks: nat): Proc {
    p.(state := Unused, chan := NoChan, parent := -1, killed := false, pid := 0, creation := ticks, forker := -1)
  }

  predicate Enabled(s: Sys, step: Step) {
    match step
    case Tick => true
    case ResetMetrics => true
    case Dispatch(c, i) => 0 <= c < |s.cpu| && s.cpu[c] == -1 && At(s, i) && s.procs[i].state.Runnable? && !s.plock[i]
    case SchedOut(c) => 0 <= c < |s.cpu| && At(s, s.cpu[c]) && !s.procs[s.cpu[c]].state.Running?
    case Yield(t) => Runs(s, t) && !s.plock[t] && !Holds(s.pc[t])
    case SleepElsewhere(t, c) => Runs(s, t) && !s.plock[t] && (s.pc[t].Idle? || s.pc[t].Exiting?)
    case WakeElsewhere(j) => At(s, j) && !s.plock[j] && s.procs[j].state.Sleeping? && s.procs[j].chan.Elsewhere?
    case Kill(j) => At(s, j) && !s.plock[j]
    case ForkAlloc(t, np) => Runs(s, t) && s.pc[t].Idle? && At(s, np) && !s.plock[np] && s.procs[np].state.Unused?
    case ForkFail(t) => Runs(s, t) && s.pc[t].ForkAllocated? && At(s, s.pc[t].np) && !s.plock[s.pc[t].np]
    case ForkAdopt(t) => Runs(s, t) && s.pc[t].ForkAllocated? && At(s, s.pc[t].np) && s.wlock == -1
    case ForkRun(t) => Runs(s, t) && s.pc[t].ForkAdopted? && At(s, s.pc[t].np) && !s.plock[s.pc[t].np]
    case ExitMetrics(t) => Runs(s, t) && s.pc[t].Idle? && t != s.init
    case ExitLock(t) => Runs(s, t) && s.pc[t].Exiting? && s.wlock == -1
    case ExitPass(t) => Runs(s, t) && s.pc[t].ExitReparent? && At(s, s.pc[t].i) && s.procs[s.pc[t].i].parent != t
    case ExitGive(t) => Runs(s, t) && s.pc[t].ExitReparent? && At(s, s.pc[t].i) && s.procs[s.pc[t].i].parent == t
    case ExitGiven(t) => Runs(s, t) && s.pc[t].ExitReparent? && s.pc[t].i == |s.procs|
    case WakeSkip(t) => Runs(s, t) && InWake(s.pc[t]) && s.pc[t].j == t
    case WakeOne(t) => Runs(s, t) && InWake(s.pc[t]) && s.pc[t].j != t && At(s, s.pc[t].j) && !s.plock[s.pc[t].j]
    case WakeEnd(t) => Runs(s, t) && InWake(s.pc[t]) && s.pc[t].j == |s.procs|
    case ExitDone(t) => Runs(s, t) && s.pc[t].ExitLast? && !s.plock[t]
    case WaitLock(t) => Runs(s, t) && (s.pc[t].Idle? || s.pc[t].WaitAsleep?) && s.wlock == -1
    case WaitPass(t) => Runs(s, t) && s.pc[t].WaitScan? && At(s, s.pc[t].i) && s.procs[s.pc[t].i].parent != t
    case WaitChild(t) => Runs(s, t) && s.pc[t].WaitScan? && At(s, s.pc[t].i) && s.procs[s.pc[t].i].parent == t
                         && !s.plock[s.pc[t].i] && !s.procs[s.pc[t].i].state.Zombie?
    case WaitReap(t, copied) => Runs(s, t) && s.pc[t].WaitScan? && At(s, s.pc[t].i) && s.procs[s.pc[t].i].parent == t
                                && !s.plock[s.pc[t].i] && s.procs[s.pc[t].i].state.Zombie?
    case WaitReturn(t) => Runs(s, t) && s.pc[t].WaitScan? && s.pc[t].i == |s.procs| && !s.plock[t]
                          && (!s.pc[t].have || s.procs[t].killed)
    case WaitDecide(t) => Runs(s, t) && s.pc[t].WaitScan? && s.pc[t].i == |s.procs| && !s.plock[t]
                          && s.pc[t].have && !s.procs[t].killed
    case WaitUnlock(t) => Runs(s, t) && s.pc[t].WaitCommit? && !s.plock[t]
    case WaitSleep(t) => Runs(s, t) && s.pc[t].WaitLocked?
  }

  function SetProc(s: Sys, t: int, p: Proc): Sys
    requires At(s, t)
  {
    s.(procs := s.procs[t := p])
  }

  // ----- fork, exit and wait: the process moves on, and changes at most one record and a lock -----

  predicate Mild(step: Step) {
    step.Tick? || step.ResetMetrics? || step.Dispatch? || step.SchedOut? || step.Yield? || step.SleepElsewhere?
    || step.WakeElsewhere? || step.Kill?
  }

  /** Where the process is afterwards. */
  function NextPc(s: Sys, step: Step): Pc
    requires Enabled(s, step) && !Mild(step)
  {
    var pc := s.pc[step.t];
    match step
    case ForkAlloc(_, np) => ForkAllocated(np)
    case ForkFail(_) => Idle
    case ForkAdopt(_) => ForkAdopted(pc.np)
    case ForkRun(_) => Idle
    case ExitMetrics(_) => Exiting
    case ExitLock(_) => ExitReparent(0)
    case ExitPass(_) => ExitReparent(pc.i + 1)
    case ExitGive(_) => ExitWakeInit(pc.i, 0)
    case ExitGiven(_) => ExitWakeParent(0)
    case WakeSkip(_) => WakeNext(pc)
    case WakeOne(_) => WakeNext(pc)
    case WakeEnd(_) => if pc.ExitWakeInit? then ExitReparent(pc.i + 1) else ExitLast
    case ExitDone(_) => Exited
    case WaitLock(_) => WaitScan(0, false)
    case WaitPass(_) => WaitScan(pc.i + 1, pc.have)
    case WaitChild(_) => WaitScan(pc.i + 1, true)
    case WaitReap(_, _) => Idle
    case WaitReturn(_) => Idle
    case WaitDecide(_) => WaitCommit
    case WaitUnlock(_) => WaitLocked
    case WaitSleep(_) => WaitAsleep
  }

  /** The slot whose record changes, -1 if none does. */
  function Touched(s: Sys, step: Step): (o: int)
    requires Enabled(s, step) && !Mild(step)
    ensures o == -1 || At(s, o)
  {
    var pc := s.pc[step.t];
    match step
    case ForkAlloc(_, np) => np
    case ForkFail(_) => pc.np
    case ForkAdopt(_) => pc.np
    case ForkRun(_) => pc.np
    case ExitGive(_) => pc.i
    case WakeOne(_) => pc.j
    case ExitDone(t) => t
    case WaitReap(_, copied) => if copied then pc.i else -1
    case WaitSleep(t) => t
    case _ => -1
  }

  /** The record p of that slot afterwards. */
  function NextProc(s: Sys, step: Step, p: Proc): Proc
    requires Enabled(s, step) && !Mild(step)
  {
    match step
    case ForkAlloc(t, _) =>
      p.(state := Used, pid := s.nextpid, creation := s.ticks, last := 0, waiting := 0, forker := t)
    case ForkFail(_) => Freed(p, s.ticks)
    case ForkAdopt(t) => p.(parent := t)
    case ForkRun(_) => Woken(p, s.ticks).(forker := -1)
    case ExitGive(_) => p.(parent := s.init)
    case WakeOne(t) => if p.state.Sleeping? && p.chan == Slot(WakeTarget(s, t)) then Woken(p, s.ticks) else p
    case ExitDone(_) => p.(state := Zombie)
    case WaitReap(_, _) => Freed(p, s.ticks)
    case WaitSleep(t) => p.(state := Sleeping, chan := Slot(t))
    case _ => p
  }

  /** The holder of wait_lock afterwards. */
  function NextLock(s: Sys, step: Step): int
    requires !Mild(step)
  {
    if step.ExitLock? || step.WaitLock? then step.t
    else if step.ExitDone? || step.WaitReap? || step.WaitReturn? || step.WaitUnlock? then -1
    else s.wlock
  }

  /** Steps that end with the process holding its own lock, on its way to the scheduler. */
  predicate Stops(step: Step) { step.ExitDone? || step.WaitUnlock? }

  predicate Reaps(step: Step) { step.WaitReap? && step.copied }

  function Act(s: Sys, step: Step): Sys
    requires Enabled(s, step) && !Mild(step)
  {
    var t, o := step.t, Touched(s, step);
    var pc := s.pc[t := NextPc(s, step)];
    var s1 := s.(procs := if o == -1 then s.procs else s.procs[o := NextProc(s, step, s.procs[o])],
                 pc := if Reaps(step) then pc[o := Idle] else pc,
                 plock := if Stops(step) then s.plock[t := true] else s.plock,
                 wlock := NextLock(s, step));
    if step.ForkAlloc? then
      s1.(nextpid := s.nextpid + 1, slotOf := s.slotOf[s.nextpid := step.np])
    else if step.ExitMetrics? then
      s1.(turnaround := s.turnaround + Word(s.ticks - s.procs[t].creation),
          waited := s.waited + Word(s.procs[t].waiting), finished := s.finished + 1)
    else if Reaps(step) then
      s1.(reaped := s.reaped[s.procs[o].pid := s.procs[t].pid])
    else s1
  }

  /** Every other step: the clock, the scheduler, sleeping elsewhere, and kill. */
  function Settle(s: Sys, step: Step): Sys
    requires Enabled(s, step) && Mild(step)
  {
    match step
    case Tick => s.(ticks := s.ticks + 1)
    case ResetMetrics => s.(turnaround := 0, waited := 0, finished := 0)
    case Dispatch(c, i) => Dispatched(s, c, i)
    case SchedOut(c) =>
      var i := s.cpu[c];
      s.(cpu := s.cpu[c := -1], on := s.on[i := -1], plock := s.plock[i := false])
    case Yield(t) => SetProc(s, t, Woken(s.procs[t], s.ticks)).(plock := s.plock[t := true])
    case SleepElsewhere(t, c) =>
      SetProc(s, t, s.procs[t].(state := Sleeping, chan := Elsewhere(c))).(plock := s.plock[t := true])
    case WakeElsewhere(j) => SetProc(s, j, Woken(s.procs[j], s.ticks))
    case Kill(j) =>
      var p := s.procs[j].(killed := true);
      SetProc(s, j, if p.state.Sleeping? then Woken(p, s.ticks) else p)
  }

  /** The scheduler charges the time since the process became runnable, unless that was at time 0. */
  function Dispatched(s: Sys, c: int, i: int): Sys
    requires 0 <= c < |s.cpu| && At(s, i)
  {
    var p := s.procs[i];
    var charge := if Word(p.last) > 0 then s.ticks - p.last else 0;
    SetProc(s, i, p.(state := Running, chan := NoChan, waiting := p.waiting + charge))
      .(cpu := s.cpu[c := i], on := s.on[i := c])
  }

  function Do(s: Sys, step: Step): Sys
    requires Enabled(s, step)
  {
    if Mild(step) then Settle(s, step) else Act(s, step)
  }

  datatype Run = Start(first: Sys) | After(before: Run, step: Step, last: Sys)

  function Last(r: Run): Sys { if r.Start? then r.first else r.last }
}
