/** The invariant of proc.c's life-cycle protocol, and what the steps that leave the families alone do to it. */
module ProcInv {
  import opened ProcMachine

  predicate Live(st: PState) { st.Sleeping? || st.Runnable? || st.Running? }

  predicate In(s: Sys, t: int) { 0 <= t < |s.procs| }

  predicate Shape(s: Sys) { |s.procs| == |s.pc| == |s.plock| == |s.on| && In(s, s.init) }

  /** wait_lock is held by the one process whose place in the code says so. */
  ghost predicate LockOk(s: Sys)
    requires Shape(s)
  {
    (s.wlock == -1 || In(s, s.wlock)) && forall t :: In(s, t) ==> (Holds(s.pc[t]) <==> s.wlock == t)
  }

  /** Where a process is in the code, its state, and whether its lock is held on its behalf. */
  predicate Agree(pc: Pc, p: Proc, held: bool, t: int) {
    && (Holds(pc) ==> p.state.Running? && !held)
    && (pc.ForkAllocated? || pc.ForkAdopted? ==> p.state.Running? || p.state.Runnable?)
    && (pc.Exiting? || pc.WaitAsleep? ==> Live(p.state))
    && (pc.WaitLocked? ==> p.state.Running? && held)
    && (pc.Exited? <==> p.state.Zombie?)
    && (p.state.Running? && held ==> pc.WaitLocked?)
    && (p.state.Used? || p.state.Unused? ==> pc.Idle? && !held)
    && (p.state.Sleeping? && pc.WaitAsleep? ==> p.chan == Slot(t))
  }

  ghost predicate StateOk(s: Sys)
    requires Shape(s)
  {
    forall t :: In(s, t) ==> Agree(s.pc[t], s.procs[t], s.plock[t], t)
  }

  // ----- families -----

  function ParentOf(s: Sys, i: int): int
    requires In(s, i)
  {
    s.procs[i].parent
  }

  /** Parents are alive; every process but init has one from the moment it can run until it is freed. */
  ghost predicate KinOk(s: Sys, i: int)
    requires Shape(s) && In(s, i)
  {
    var (p, st) := (ParentOf(s, i), s.procs[i].state);
    && (p == -1 || (In(s, p) && Live(s.procs[p].state)))
    && ((Live(st) || st.Zombie?) && i != s.init ==> p != -1)
    && (st.Unused? ==> p == -1)
  }

  ghost predicate FamilyOk(s: Sys)
    requires Shape(s)
  {
    && (forall i :: In(s, i) ==> KinOk(s, i))
    && Live(s.procs[s.init].state) && ParentOf(s, s.init) == -1 && !Leaving(s.pc[s.init])
  }

  predicate Leaving(pc: Pc) {
    pc.Exiting? || pc.ExitReparent? || pc.ExitWakeInit? || pc.ExitWakeParent? || pc.ExitLast? || pc.Exited?
  }

  /** The slot a process is filling in fork. */
  ghost predicate ForkAt(s: Sys, t: int)
    requires Shape(s) && In(s, t)
  {
    s.pc[t].ForkAllocated? || s.pc[t].ForkAdopted? ==>
      var np := s.pc[t].np;
      In(s, np) && s.procs[np].state.Used? && s.procs[np].forker == t
      && ParentOf(s, np) == if s.pc[t].ForkAllocated? then -1 else t
  }

  ghost predicate ForkOk(s: Sys)
    requires Shape(s)
  {
    forall t :: In(s, t) ==> ForkAt(s, t)
  }

  // ----- exit and wait -----

  /** w has scanned its children and given up wait_lock, and will sleep or sleeps until woken. */
  predicate Committed(s: Sys, w: int) {
    In(s, w) && |s.pc| == |s.procs| && (s.pc[w].WaitLocked? || (s.pc[w].WaitAsleep? && s.procs[w].state.Sleeping?))
  }

  predicate ZombieChild(s: Sys, w: int, i: int) { In(s, i) && ParentOf(s, i) == w && s.procs[i].state.Zombie? }

  ghost predicate NoKids(s: Sys, t: int, k: int) { forall i :: In(s, i) && i < k ==> ParentOf(s, i) != t }

  ghost predicate NoZombies(s: Sys, t: int, k: int) { forall i :: i < k ==> !ZombieChild(s, t, i) }

  /** How far an exiting process has come. */
  ghost predicate ExitAt(s: Sys, t: int)
    requires Shape(s) && In(s, t)
  {
    var pc := s.pc[t];
    && (pc.ExitReparent? ==> 0 <= pc.i <= |s.procs| && NoKids(s, t, pc.i))
    && (pc.ExitWakeInit? ==> 0 <= pc.i < |s.procs| && 0 <= pc.j <= |s.procs| && NoKids(s, t, pc.i + 1)
                             && (s.init < pc.j ==> !Committed(s, s.init)))
    && (pc.ExitWakeParent? ==> 0 <= pc.j <= |s.procs| && NoKids(s, t, |s.procs|)
                               && (ParentOf(s, t) < pc.j ==> !Committed(s, ParentOf(s, t))))
    && (pc.ExitLast? ==> NoKids(s, t, |s.procs|) && !Committed(s, ParentOf(s, t)))
  }

  ghost predicate ExitOk(s: Sys)
    requires Shape(s)
  {
    forall t :: In(s, t) ==> ExitAt(s, t)
  }

  ghost predicate WaitAt(s: Sys, t: int)
    requires Shape(s) && In(s, t)
  {
    var pc := s.pc[t];
    && (pc.WaitScan? ==> 0 <= pc.i <= |s.procs| && NoZombies(s, t, pc.i))
    && (pc.WaitCommit? ==> NoZombies(s, t, |s.procs|))
  }

  ghost predicate WaitOk(s: Sys)
    requires Shape(s)
  {
    forall t :: In(s, t) ==> WaitAt(s, t)
  }

  /** init may have a zombie child it sleeps through only while exit is on its way to wake it. */
  predicate Excused(s: Sys, w: int) { w == s.init && 0 <= s.wlock < |s.pc| && s.pc[s.wlock].ExitWakeInit? }

  ghost predicate SafeOk(s: Sys)
    requires Shape(s)
  {
    forall w, i :: Committed(s, w) && ZombieChild(s, w, i) ==> Excused(s, w)
  }

  // ----- processors -----

  /** A running process is on a processor; one that has stopped keeps its lock until it is off. */
  predicate CpuAt(s: Sys, i: int)
    requires Shape(s) && In(s, i)
  {
    && (s.on[i] == -1 || (0 <= s.on[i] < |s.cpu| && s.cpu[s.on[i]] == i))
    && (s.procs[i].state.Running? ==> s.on[i] != -1)
    && (!s.procs[i].state.Running? ==> (s.on[i] != -1 <==> s.plock[i]))
  }

  ghost predicate CpuOk(s: Sys)
    requires Shape(s)
  {
    && (forall c :: 0 <= c < |s.cpu| ==> s.cpu[c] == -1 || (In(s, s.cpu[c]) && s.on[s.cpu[c]] == c))
    && (forall i :: In(s, i) ==> CpuAt(s, i))
  }

  // ----- process identifiers -----

  predicate PidFits(p: Proc, i: int, nextpid: nat, slotOf: map<nat, int>, reaped: map<nat, nat>) {
    p.state.Unused? || (0 < p.pid < nextpid && p.pid in slotOf && slotOf[p.pid] == i && p.pid !in reaped)
  }

  ghost predicate PidOk(s: Sys) {
    && (forall i :: In(s, i) ==> PidFits(s.procs[i], i, s.nextpid, s.slotOf, s.reaped))
    && (forall n :: n in s.reaped || n in s.slotOf ==> n < s.nextpid)
  }

  // ----- accounting -----

  /** Time charged so far fits in the time since creation; while runnable, in the time until it became so. */
  predicate Charged(p: Proc, ticks: nat) {
    p.state.Unused? ||
    (&& p.creation <= ticks && 0 <= p.waiting <= ticks - p.creation
     && (p.state.Runnable? && p.last > 0 ==> p.creation <= p.last <= ticks && p.waiting <= p.last - p.creation))
  }

  ghost predicate TimeOk(s: Sys) {
    forall i :: In(s, i) ==> Charged(s.procs[i], s.ticks)
  }

  ghost predicate Inv(s: Sys) {
    && Shape(s) && LockOk(s) && StateOk(s) && FamilyOk(s) && ForkOk(s) && ExitOk(s) && WaitOk(s) && SafeOk(s)
    && CpuOk(s) && PidOk(s) && TimeOk(s)
  }

  // ----- steps that only move processes between sleeping, runnable and running -----

  /** Same places in the code, same families; nobody commits to sleeping in wait. */
  ghost predicate Calm(s: Sys, s': Sys) {
    && |s'.procs| == |s.procs| && s'.pc == s.pc && |s'.plock| == |s.plock| && |s'.on| == |s.on|
    && s'.wlock == s.wlock && s'.init == s.init
    && (forall i :: In(s, i) ==> Akin(s.procs[i], s'.procs[i]))
    && (forall w :: Committed(s', w) ==> Committed(s, w))
  }

  predicate Akin(p: Proc, p': Proc) {
    && p'.parent == p.parent && p'.forker == p.forker && (Live(p'.state) <==> Live(p.state))
    && (!Live(p.state) ==> p'.state == p.state)
  }

  lemma CalmFamily(s: Sys, s': Sys)
    requires Shape(s) && Calm(s, s') && LockOk(s) && FamilyOk(s) && ForkOk(s)
    ensures Shape(s') && LockOk(s') && FamilyOk(s') && ForkOk(s')
  {
    forall i | In(s', i) ensures KinOk(s', i) && ForkAt(s', i) {
      assert KinOk(s, i) && ForkAt(s, i);
    }
  }

  lemma CalmExit(s: Sys, s': Sys)
    requires Shape(s) && Calm(s, s') && ExitOk(s) && WaitOk(s) && SafeOk(s)
    ensures ExitOk(s') && WaitOk(s') && SafeOk(s')
  {
    assert forall i :: In(s, i) ==> ParentOf(s', i) == ParentOf(s, i);
    assert forall w, i :: ZombieChild(s', w, i) <==> ZombieChild(s, w, i);
    forall t | In(s', t) ensures ExitAt(s', t) && WaitAt(s', t) {
      assert ExitAt(s, t) && WaitAt(s, t);
      CalmAt(s, s', t);
    }
  }

  lemma CalmAt(s: Sys, s': Sys, t: int)
    requires Shape(s) && Shape(s') && Calm(s, s') && In(s, t) && ExitAt(s, t)
    requires forall i :: In(s, i) ==> ParentOf(s', i) == ParentOf(s, i)
    ensures ExitAt(s', t)
  {
    assert forall k :: NoKids(s, t, k) ==> NoKids(s', t, k);
    assert Committed(s', ParentOf(s', t)) ==> Committed(s, ParentOf(s, t));
    assert Committed(s', s.init) ==> Committed(s, s.init);
  }

  lemma MildCalm(s: Sys, step: Step)
    requires Shape(s) && StateOk(s) && Mild(step) && Enabled(s, step)
    ensures Calm(s, Do(s, step))
  {
  }

  lemma MildState(s: Sys, step: Step)
    requires Shape(s) && StateOk(s) && CpuOk(s) && Mild(step) && Enabled(s, step)
    ensures Shape(Do(s, step)) && StateOk(Do(s, step))
  {
    var s' := Do(s, step);
    forall i | In(s', i) ensures Agree(s'.pc[i], s'.procs[i], s'.plock[i], i) {
      assert CpuAt(s, i) && Agree(s.pc[i], s.procs[i], s.plock[i], i);
    }
  }

  lemma MildCpu(s: Sys, step: Step)
    requires Shape(s) && StateOk(s) && CpuOk(s) && Mild(step) && Enabled(s, step)
    ensures Shape(Do(s, step)) && CpuOk(Do(s, step))
  {
    hide Do, Enabled, CpuAt, Agree;
    var s' := Do(s, step);
    MildCpus(s, step);
    forall i | In(s', i) ensures CpuAt(s', i) {
      assert CpuAt(s, i) && Agree(s.pc[i], s.procs[i], s.plock[i], i);
      MildCpuAt(s, step, i);
    }
  }

  lemma MildCpus(s: Sys, step: Step)
    requires Shape(s) && StateOk(s) && CpuOk(s) && Mild(step) && Enabled(s, step)
    ensures var s' := Do(s, step);
            && Shape(s') && |s'.procs| == |s.procs|
            && forall c :: 0 <= c < |s'.cpu| ==> s'.cpu[c] == -1 || (In(s', s'.cpu[c]) && s'.on[s'.cpu[c]] == c)
  {
    hide Agree;
  }

  lemma MildCpuAt(s: Sys, step: Step, i: int)
    requires Shape(s) && CpuOk(s) && Mild(step) && Enabled(s, step) && Shape(Do(s, step)) && In(s, i)
    requires |Do(s, step).procs| == |s.procs| && Agree(s.pc[i], s.procs[i], s.plock[i], i)
    ensures CpuAt(Do(s, step), i)
  {
    assert CpuAt(s, i);
  }

  lemma MildPid(s: Sys, step: Step)
    requires Shape(s) && StateOk(s) && PidOk(s) && Mild(step) && Enabled(s, step)
    ensures PidOk(Do(s, step))
  {
  }

  lemma MildTime(s: Sys, step: Step)
    requires Shape(s) && StateOk(s) && TimeOk(s) && Mild(step) && Enabled(s, step)
    ensures TimeOk(Do(s, step))
  {
  }

  lemma MildStep(s: Sys, step: Step)
    requires Inv(s) && Mild(step) && Enabled(s, step)
    ensures Inv(Do(s, step))
  {
    hide LockOk, StateOk, FamilyOk, ForkOk, ExitOk, WaitOk, SafeOk, CpuOk, PidOk, TimeOk, Calm;
    var s' := Do(s, step);
    MildCalm(s, step);
    CalmFamily(s, s');
    CalmExit(s, s');
    MildState(s, step);
    MildCpu(s, step);
    MildPid(s, step);
    MildTime(s, step);
  }
}
