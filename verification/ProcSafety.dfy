/** In every run of fork, exit, wait, kill and the scheduler: no lost wakeup, no orphan, no double reaping. */
module ProcSafety {
  import opened ProcMachine
  import opened ProcInv
  import opened ProcSteps

  ghost predicate AllHere(s: Sys)
    requires Shape(s)
  {
    forall u :: In(s, u) ==> Here(s, u)
  }

  /** Families and commitments unchanged, no new zombie. */
  ghost predicate Quiet(s: Sys, s': Sys) {
    && |s'.procs| == |s.procs| == |s.pc| == |s'.pc| && s'.init == s.init
    && (forall u :: In(s, u) ==> ParentOf(s', u) == ParentOf(s, u))
    && (forall u :: Committed(s', u) ==> Committed(s, u))
    && (forall w, i :: ZombieChild(s', w, i) ==> ZombieChild(s, w, i))
  }

  lemma QuietMoves(s: Sys, step: Step, t: int, s': Sys)
    requires Acts(step, t) && Moves(s, step, t, s') && AllHere(s) && !Loud(step) && s'.init == s.init
    requires |s'.procs| == |s.procs|
    ensures Quiet(s, s')
  {
    hide Do, Enabled;
    forall u | In(s, u)
      ensures ParentOf(s', u) == ParentOf(s, u) && (Committed(s', u) ==> Committed(s, u))
      ensures s'.procs[u].state.Zombie? ==> s.procs[u].state.Zombie?
    {
      StepQuiet(s, step, t, u, s');
    }
  }

  lemma QuietExit(s: Sys, s': Sys, u: int)
    requires Shape(s) && Shape(s') && Quiet(s, s') && In(s, u) && s'.pc[u] == s.pc[u] && ExitAt(s, u) && WaitAt(s, u)
    ensures ExitAt(s', u) && WaitAt(s', u)
  {
    assert forall k :: NoKids(s, u, k) ==> NoKids(s', u, k);
    assert Committed(s', ParentOf(s', u)) ==> Committed(s, ParentOf(s, u));
    assert Committed(s', s.init) ==> Committed(s, s.init);
  }

  /** Another process than the one that moves. */
  lemma OtherKept(s: Sys, step: Step, t: int, u: int, s': Sys)
    requires Acts(step, t) && Moves(s, step, t, s') && AllHere(s) && In(s, u) && u != t && ExitAt(s, u) && WaitAt(s, u)
    requires s'.init == s.init && |s'.procs| == |s.procs|
    requires Holds(s.pc[u]) ==> !Loud(step)
    ensures ExitAt(s', u) && WaitAt(s', u)
  {
    hide Do, Enabled;
    StepPlace(s, step, t, u, s');
    if Holds(s.pc[u]) {
      QuietMoves(s, step, t, s');
      QuietExit(s, s', u);
    }
  }

  lemma LoudHolds(s: Sys, step: Step, t: int, u: int)
    requires Shape(s) && Acts(step, t) && Enabled(s, step) && In(s, u) && Here(s, u) && Here(s, t) && u != t
    ensures Holds(s.pc[u]) ==> !Loud(step)
  {
  }

  // ----- the process that moves -----

  lemma PlainKept(s: Sys, t: int)
    requires Shape(s) && In(s, t) && (!Holds(s.pc[t]) || s.pc[t] == ExitReparent(0) || s.pc[t] == WaitScan(0, false))
    ensures ExitAt(s, t) && WaitAt(s, t)
  {
  }

  /** reparent moves on past a process that is no child, or has just been given to init. */
  lemma PassKept(s: Sys, t: int, s': Sys)
    requires Shape(s) && Shape(s') && Quiet(s, s') && In(s, t) && ExitAt(s, t)
    requires s.pc[t].ExitReparent? && In(s, s.pc[t].i) && ParentOf(s, s.pc[t].i) != t
    requires s'.pc[t] == ExitReparent(s.pc[t].i + 1)
    ensures ExitAt(s', t) && WaitAt(s', t)
  {
  }

  lemma GivenKept(s: Sys, t: int, s': Sys)
    requires Shape(s) && Shape(s') && Quiet(s, s') && In(s, t) && ExitAt(s, t)
    requires s.pc[t].ExitReparent? && s.pc[t].i == |s.procs| && s'.pc[t] == ExitWakeParent(0)
    ensures ExitAt(s', t) && WaitAt(s', t)
  {
  }

  /** A wakeup has dealt with slot j: if it is the target's, the target is not committed any more. */
  lemma WakeKept(s: Sys, t: int, s': Sys)
    requires Shape(s) && Shape(s') && Quiet(s, s') && In(s, t) && ExitAt(s, t) && InWake(s.pc[t])
    requires s.pc[t].j < |s.procs| && s'.pc[t] == WakeNext(s.pc[t])
    requires WakeTarget(s, t) == s.pc[t].j ==> !Committed(s', s.pc[t].j)
    ensures ExitAt(s', t) && WaitAt(s', t)
  {
    assert Committed(s', ParentOf(s', t)) ==> Committed(s, ParentOf(s, t));
    assert Committed(s', s.init) ==> Committed(s, s.init);
    assert forall k :: NoKids(s, t, k) ==> NoKids(s', t, k);
  }

  lemma WakeEndKept(s: Sys, t: int, s': Sys)
    requires Shape(s) && Shape(s') && Quiet(s, s') && In(s, t) && ExitAt(s, t) && InWake(s.pc[t])
    requires s.pc[t].j == |s.procs|
    requires ParentOf(s, t) < |s.procs|
    requires s'.pc[t] == if s.pc[t].ExitWakeInit? then ExitReparent(s.pc[t].i + 1) else ExitLast
    ensures ExitAt(s', t) && WaitAt(s', t)
  {
    assert Committed(s', ParentOf(s', t)) ==> Committed(s, ParentOf(s, t));
    assert forall k :: NoKids(s, t, k) ==> NoKids(s', t, k);
  }

  lemma ScanKept(s: Sys, t: int, s': Sys, have: bool)
    requires Shape(s) && Shape(s') && Quiet(s, s') && In(s, t) && WaitAt(s, t) && s.pc[t].WaitScan?
    requires In(s, s.pc[t].i) && !ZombieChild(s, t, s.pc[t].i) && s'.pc[t] == WaitScan(s.pc[t].i + 1, have)
    ensures ExitAt(s', t) && WaitAt(s', t)
  {
  }

  lemma DecideKept(s: Sys, t: int, s': Sys)
    requires Shape(s) && Shape(s') && Quiet(s, s') && In(s, t) && WaitAt(s, t) && s.pc[t].WaitScan?
    requires s.pc[t].i == |s.procs|
    requires s'.pc[t] == WaitCommit
    ensures ExitAt(s', t) && WaitAt(s', t)
  {
  }

  lemma GiveKept(s: Sys, t: int, s': Sys)
    requires Moves(s, ExitGive(t), t, s') && ExitAt(s, t) && t != s.init
    ensures ExitAt(s', t) && WaitAt(s', t)
  {
    var i := s.pc[t].i;
    assert forall k :: In(s, k) && k != i ==> ParentOf(s', k) == ParentOf(s, k);
    assert NoKids(s', t, i + 1);
  }

  /** After the wakeup of slot j its process, if it slept in wait, is runnable. */
  lemma WokenUp(s: Sys, t: int, s': Sys)
    requires Moves(s, WakeOne(t), t, s') && Here(s, s.pc[t].j)
    ensures WakeTarget(s, t) == s.pc[t].j ==> !Committed(s', s.pc[t].j)
  {
  }

  lemma ActorExit(s: Sys, step: Step, t: int, s': Sys)
    requires Acts(step, t) && Moves(s, step, t, s') && Quiet(s, s') && ExitAt(s, t)
    requires step.ExitPass? || step.ExitGiven? || WakeStep(step)
    requires ParentOf(s, t) < |s.procs| && (step.WakeOne? ==> Here(s, s.pc[t].j))
    ensures ExitAt(s', t) && WaitAt(s', t)
  {
    hide Quiet, Here, NoKids, NoZombies;
    if step.ExitPass? {
      PassKept(s, t, s');
    } else if step.ExitGiven? {
      GivenKept(s, t, s');
    } else if step.WakeSkip? {
      WakeKept(s, t, s');
    } else if step.WakeOne? {
      WokenUp(s, t, s');
      WakeKept(s, t, s');
    } else {
      WakeEndKept(s, t, s');
    }
  }

  lemma ActorWait(s: Sys, step: Step, t: int, s': Sys)
    requires Acts(step, t) && Moves(s, step, t, s') && Quiet(s, s') && WaitAt(s, t)
    requires step.WaitPass? || step.WaitChild? || step.WaitDecide?
    ensures ExitAt(s', t) && WaitAt(s', t)
  {
    hide Quiet, Here, NoKids, NoZombies;
    if step.WaitPass? {
      ScanKept(s, t, s', s.pc[t].have);
    } else if step.WaitChild? {
      ScanKept(s, t, s', true);
    } else {
      DecideKept(s, t, s');
    }
  }

  lemma ActorKept(s: Sys, step: Step, t: int, s': Sys)
    requires Acts(step, t) && Moves(s, step, t, s') && AllHere(s) && ExitAt(s, t) && WaitAt(s, t)
    requires s'.init == s.init && |s'.procs| == |s.procs| && ParentOf(s, t) < |s.procs|
    requires (Leaving(s.pc[t]) ==> t != s.init)
    ensures ExitAt(s', t) && WaitAt(s', t)
  {
    hide Do, Here, AllHere, ExitAt, WaitAt, Quiet, Agree;
    if step.ExitGive? {
      GiveKept(s, t, s');
    } else if step.ExitPass? || step.ExitGiven? || WakeStep(step) {
      QuietMoves(s, step, t, s');
      if step.WakeOne? {
        EachHere(s, s.pc[t].j);
      }
      ActorExit(s, step, t, s');
    } else if step.WaitPass? || step.WaitChild? || step.WaitDecide? {
      QuietMoves(s, step, t, s');
      ActorWait(s, step, t, s');
    } else {
      ActorPlain(s, step, t, s');
    }
  }

  lemma EachHere(s: Sys, u: int)
    requires Shape(s) && AllHere(s) && In(s, u)
    ensures Here(s, u)
  {
  }

  predicate Settles(step: Step) {
    ForkStep(step) || step.ExitMetrics? || step.ExitLock? || step.ExitDone? || step.WaitLock? || step.WaitReap?
    || step.WaitReturn? || step.WaitUnlock? || step.WaitSleep?
  }

  lemma ActorPlain(s: Sys, step: Step, t: int, s': Sys)
    requires Acts(step, t) && Moves(s, step, t, s') && Settles(step)
    ensures ExitAt(s', t) && WaitAt(s', t)
  {
    hide Here, ExitAt, WaitAt, Agree;
    PlainKept(s', t);
  }

  // ----- no committed waiter has a zombie child -----

  /** While exit is on its way to wake init it stays so, and once there init is awake. */
  lemma ExcusedKept(s: Sys, step: Step, t: int, s': Sys)
    requires Acts(step, t) && Moves(s, step, t, s') && AllHere(s) && ExitAt(s, t) && s'.init == s.init
    requires Excused(s, s.init) && Committed(s, s.init) && |s'.procs| == |s.procs|
    ensures Excused(s', s.init)
  {
    var e := s.wlock;
    EachHere(s, e);
    if e != t {
      hide ExitAt, AllHere, Committed;
      StepPlace(s, step, t, e, s');
      StepLock(s, step, t, e, s');
    } else {
      hide AllHere;
      WakerStays(s, step, t, s');
    }
  }

  lemma WakerStays(s: Sys, step: Step, t: int, s': Sys)
    requires Acts(step, t) && Moves(s, step, t, s') && ExitAt(s, t) && s.pc[t].ExitWakeInit? && Committed(s, s.init)
    ensures s'.pc[t].ExitWakeInit? && s'.wlock == s.wlock
  {
  }

  lemma SafeQuiet(s: Sys, step: Step, t: int, s': Sys)
    requires Acts(step, t) && Moves(s, step, t, s') && AllHere(s) && ExitAt(s, t) && SafeOk(s) && Quiet(s, s')
    ensures SafeOk(s')
  {
    hide Do, Enabled, AllHere, ExitAt;
    forall w, i | Committed(s', w) && ZombieChild(s', w, i) ensures Excused(s', w) {
      assert Committed(s, w) && ZombieChild(s, w, i);
      ExcusedKept(s, step, t, s');
    }
  }

  lemma SafeAdopt(s: Sys, t: int, s': Sys)
    requires Moves(s, ForkAdopt(t), t, s') && SafeOk(s)
    ensures SafeOk(s')
  {
    assert forall w, i :: Committed(s', w) && ZombieChild(s', w, i) ==> Committed(s, w) && ZombieChild(s, w, i);
  }

  lemma SafeGive(s: Sys, t: int, s': Sys)
    requires Moves(s, ExitGive(t), t, s') && SafeOk(s)
    ensures SafeOk(s')
  {
    forall w, i | Committed(s', w) && ZombieChild(s', w, i) ensures Excused(s', w) {
      if w != s.init {
        assert Committed(s, w) && ZombieChild(s, w, i);
      }
    }
  }

  /** The new zombie's parent has been woken and cannot have committed again. */
  lemma SafeExit(s: Sys, t: int, s': Sys)
    requires Moves(s, ExitDone(t), t, s') && SafeOk(s) && ExitAt(s, t)
    ensures SafeOk(s')
  {
    assert forall w :: Committed(s', w) ==> Committed(s, w);
    assert forall w, i :: ZombieChild(s', w, i) && i != t ==> ZombieChild(s, w, i);
  }

  lemma SafeReap(s: Sys, t: int, copied: bool, s': Sys)
    requires Moves(s, WaitReap(t, copied), t, s') && SafeOk(s) && Here(s, s.pc[t].i)
    ensures SafeOk(s')
  {
    assert forall w :: Committed(s', w) ==> Committed(s, w);
    assert forall w, i :: ZombieChild(s', w, i) ==> ZombieChild(s, w, i);
  }

  /** Committing: the scan has found no zombie, and with wait_lock held none has appeared since. */
  lemma SafeCommit(s: Sys, t: int, s': Sys)
    requires Moves(s, WaitUnlock(t), t, s') && SafeOk(s) && WaitAt(s, t)
    ensures SafeOk(s')
  {
    assert forall w, i :: ZombieChild(s', w, i) ==> ZombieChild(s, w, i);
    assert forall w :: Committed(s', w) && w != t ==> Committed(s, w);
  }

  lemma SafeKept(s: Sys, step: Step, t: int, s': Sys)
    requires Acts(step, t) && Moves(s, step, t, s') && AllHere(s) && ExitAt(s, t) && WaitAt(s, t) && SafeOk(s)
    requires s'.init == s.init && |s'.procs| == |s.procs|
    ensures SafeOk(s')
  {
    hide Do, Here, AllHere, ExitAt, WaitAt, Quiet, SafeOk;
    if !Loud(step) {
      QuietMoves(s, step, t, s');
      SafeQuiet(s, step, t, s');
    } else if step.ForkAdopt? {
      SafeAdopt(s, t, s');
    } else if step.ExitGive? {
      SafeGive(s, t, s');
    } else if step.ExitDone? {
      SafeExit(s, t, s');
    } else if step.WaitReap? {
      EachHere(s, s.pc[t].i);
      SafeReap(s, t, step.copied, s');
    } else {
      SafeCommit(s, t, s');
    }
  }

  // ----- every step -----

  /** Everything the invariant says of one process. */
  ghost predicate Sound(s: Sys, u: int)
    requires Shape(s) && In(s, u)
  {
    && Here(s, u) && KinOk(s, u) && CpuAt(s, u) && PidFits(s.procs[u], u, s.nextpid, s.slotOf, s.reaped)
    && Charged(s.procs[u], s.ticks) && ExitAt(s, u) && WaitAt(s, u)
  }

  lemma EachSound(s: Sys, u: int)
    requires Inv(s) && In(s, u)
    ensures Sound(s, u)
  {
  }

  lemma ShapeKept(s: Sys, step: Step, t: int, s': Sys)
    requires Shape(s) && Acts(step, t) && Enabled(s, step) && s' == Do(s, step)
    ensures In(s, t) && Shape(s') && s'.init == s.init && |s'.procs| == |s.procs|
  {
  }

  lemma MovesShape(s: Sys, step: Step, t: int, s': Sys)
    requires Inv(s) && Acts(step, t) && Enabled(s, step) && s' == Do(s, step)
    ensures In(s, t) && Shape(s') && Moves(s, step, t, s') && AllHere(s) && s'.init == s.init && |s'.procs| == |s.procs|
  {
    hide Do, Enabled, ExitOk, WaitOk, SafeOk, CpuOk, PidOk, TimeOk, FamilyOk;
    ShapeKept(s, step, t, s');
    forall u | In(s, u) ensures Here(s, u) {
    }
  }

  lemma SoundKept(s: Sys, step: Step, t: int, u: int, s': Sys)
    requires Inv(s) && Acts(step, t) && Moves(s, step, t, s') && AllHere(s) && s'.init == s.init
    requires |s'.procs| == |s.procs|
    requires In(s, u)
    ensures Sound(s', u) && s'.cpu == s.cpu && s'.on == s.on
    ensures (s'.wlock == s.wlock || s'.wlock == -1 || s'.wlock == t)
    ensures (forall n :: n in s'.reaped || n in s'.slotOf ==> n < s'.nextpid)
    ensures u == s.init ==> Live(s'.procs[u].state) && ParentOf(s', u) == -1 && !Leaving(s'.pc[u])
  {
    EachSound(s, u);
    EachSound(s, t);
    assert Leaving(s.pc[t]) ==> t != s.init;
    hide Do, Enabled, LockOk, StateOk, ForkOk, ExitOk, WaitOk, SafeOk, CpuOk, AllHere, ExitAt, WaitAt, Agree, ForkAt,
         KinOk, CpuAt, PidFits, Charged;
    SteadyStep(s, step, t, u, s');
    if u == t {
      assert ParentOf(s, t) < |s.procs| by {
        KinInRange(s, t);
      }
      ActorKept(s, step, t, s');
    } else {
      LoudHolds(s, step, t, u);
      OtherKept(s, step, t, u, s');
    }
  }

  lemma KinInRange(s: Sys, t: int)
    requires Shape(s) && In(s, t) && KinOk(s, t)
    ensures ParentOf(s, t) < |s.procs|
  {
  }

  /** Sound, but for how far exit and wait have come. */
  ghost predicate Steady(s: Sys, s': Sys, t: int, u: int)
    requires Shape(s') && In(s', u)
  {
    && Here(s', u) && KinOk(s', u) && CpuAt(s', u) && PidFits(s'.procs[u], u, s'.nextpid, s'.slotOf, s'.reaped)
    && Charged(s'.procs[u], s'.ticks) && s'.cpu == s.cpu && s'.on == s.on
    && (s'.wlock == s.wlock || s'.wlock == -1 || s'.wlock == t)
    && (forall n :: n in s'.reaped || n in s'.slotOf ==> n < s'.nextpid)
    && (u == s.init ==> Live(s'.procs[u].state) && ParentOf(s', u) == -1 && !Leaving(s'.pc[u]))
  }

  lemma SteadyStep(s: Sys, step: Step, t: int, u: int, s': Sys)
    requires Acts(step, t) && Moves(s, step, t, s') && In(s, u) && |s'.procs| == |s.procs| && s'.init == s.init
    requires Sound(s, u) && Sound(s, t) && FamilyOk(s) && PidOk(s) && TimeOk(s)
    ensures Steady(s, s', t, u)
  {
    hide Do, Enabled, Agree, ForkAt, FamilyOk, PidOk, TimeOk, ExitAt, WaitAt, KinOk, CpuAt, PidFits, Charged;
    StepLock(s, step, t, u, s');
    StepState(s, step, t, u, s');
    StepFork(s, step, t, u, s');
    StepKin(s, step, t, u, s');
    StepCpu(s, step, t, u, s');
    StepPid(s, step, t, u, s');
    StepTime(s, step, t, u, s');
    StepWhole(s, step, t, u, s');
  }

  lemma ActsStep(s: Sys, step: Step, t: int, s': Sys)
    requires Inv(s) && Acts(step, t) && Enabled(s, step) && s' == Do(s, step)
    ensures Inv(s')
  {
    MovesShape(s, step, t, s');
    EachSound(s, t);
    SafeKept(s, step, t, s');
    hide Do, Enabled, Here, KinOk, PidFits, Charged, ExitAt, WaitAt, AllHere, Moves;
    forall u | In(s', u)
      ensures Sound(s', u)
      ensures u == s.init ==> Live(s'.procs[u].state) && ParentOf(s', u) == -1 && !Leaving(s'.pc[u])
    {
      SoundKept(s, step, t, u, s');
    }
    SoundKept(s, step, t, t, s');
    Gather(s, s', t);
  }

  /** The invariant from its parts. */
  lemma Gather(s: Sys, s': Sys, t: int)
    requires Shape(s) && CpuOk(s) && LockOk(s) && In(s, t) && Shape(s') && |s'.procs| == |s.procs| && s'.init == s.init
    requires s'.cpu == s.cpu && s'.on == s.on && (s'.wlock == s.wlock || s'.wlock == -1 || s'.wlock == t)
    requires (forall u :: In(s', u) ==> Sound(s', u)) && SafeOk(s')
    requires (forall n :: n in s'.reaped || n in s'.slotOf ==> n < s'.nextpid)
    requires Live(s'.procs[s'.init].state) && ParentOf(s', s'.init) == -1 && !Leaving(s'.pc[s'.init])
    ensures Inv(s')
  {
    hide KinOk, PidFits, Charged, ExitAt, WaitAt, Agree, ForkAt, SafeOk;
    forall u | In(s', u)
      ensures (Holds(s'.pc[u]) <==> s'.wlock == u) && Agree(s'.pc[u], s'.procs[u], s'.plock[u], u) && ForkAt(s', u)
      ensures KinOk(s', u) && CpuAt(s', u) && PidFits(s'.procs[u], u, s'.nextpid, s'.slotOf, s'.reaped)
      ensures Charged(s'.procs[u], s'.ticks) && ExitAt(s', u) && WaitAt(s', u)
    {
      assert Sound(s', u);
    }
  }

  // ----- runs -----

  /** After userinit: one process, runnable, in slot init; the rest of the table is unused. */
  ghost predicate Booted(s: Sys) {
    && Shape(s) && s.wlock == -1 && s.nextpid > 0 && s.waited == s.turnaround == s.finished == 0
    && s.reaped == map[]
    && (forall n :: n in s.slotOf ==> n < s.nextpid)
    && (forall c :: 0 <= c < |s.cpu| ==> s.cpu[c] == -1)
    && (forall i :: In(s, i) ==> s.pc[i].Idle? && !s.plock[i] && s.on[i] == -1 && s.procs[i].parent == -1)
    && (forall i :: In(s, i) ==> !s.procs[i].killed)
    && (forall i :: In(s, i) && i != s.init ==> s.procs[i].state.Unused?)
    && FirstProc(s.procs[s.init], s)
  }

  predicate FirstProc(p: Proc, s: Sys) {
    && p.state.Runnable? && p.waiting == 0 && p.creation <= p.last <= s.ticks
    && 0 < p.pid < s.nextpid && p.pid in s.slotOf && s.slotOf[p.pid] == s.init
  }

  ghost predicate IsRun(r: Run)
    decreases r
  {
    if r.Start? then Booted(r.first)
    else IsRun(r.before) && Enabled(Last(r.before), r.step) && r.last == Do(Last(r.before), r.step)
  }

  lemma BootedInv(s: Sys)
    requires Booted(s)
    ensures Inv(s)
  {
    hide NoKids, NoZombies;
    forall i | In(s, i)
      ensures (Holds(s.pc[i]) <==> s.wlock == i) && Agree(s.pc[i], s.procs[i], s.plock[i], i) && ForkAt(s, i)
      ensures KinOk(s, i) && CpuAt(s, i) && PidFits(s.procs[i], i, s.nextpid, s.slotOf, s.reaped)
      ensures Charged(s.procs[i], s.ticks) && ExitAt(s, i) && WaitAt(s, i)
    {
    }
  }

  lemma StepKeeps(s: Sys, step: Step)
    requires Inv(s) && Enabled(s, step)
    ensures Inv(Do(s, step))
  {
    hide Do, Enabled, Inv;
    if Mild(step) {
      MildStep(s, step);
    } else {
      ActsStep(s, step, step.t, Do(s, step));
    }
  }

  lemma {:induction false} RunInv(r: Run)
    requires IsRun(r)
    ensures Inv(Last(r))
    decreases r
  {
    hide Do, Enabled, Inv;
    if r.Start? {
      BootedInv(r.first);
    } else {
      RunInv(r.before);
      StepKeeps(Last(r.before), r.step);
    }
  }

  /**
   Whenever wait_lock is free, no process that has committed to sleeping in wait has a zombie child:
   the wakeup exit owes its parent, or init for the children it takes over, is never lost.
   */
  lemma NoLostWakeup(r: Run, w: int, i: int)
    requires IsRun(r) && Last(r).wlock == -1 && Committed(Last(r), w)
    ensures !ZombieChild(Last(r), w, i)
  {
    hide Do, Enabled;
    RunInv(r);
  }

  /** No parent pointer names a process that has exited, and every process but init has a parent. */
  lemma ParentsAlive(r: Run, i: int)
    requires IsRun(r) && In(Last(r), i)
    ensures var s := Last(r); var p := s.procs[i].parent;
            && (p != -1 ==> In(s, p) && Live(s.procs[p].state))
            && ((Live(s.procs[i].state) || s.procs[i].state.Zombie?) && i != s.init ==> p != -1)
  {
    hide Do, Enabled;
    RunInv(r);
    assert KinOk(Last(r), i);
  }

  /** A zombie is freed only by its current parent, in wait, off every processor, and a pid only once. */
  lemma ReapedOnce(r: Run)
    requires IsRun(r) && r.After?
    ensures var (s, s') := (Last(r.before), r.last);
            && (forall n :: n in s.reaped ==> n in s'.reaped && s'.reaped[n] == s.reaped[n])
            && (forall i :: In(s, i) && s.procs[i].state.Zombie? && In(s', i) && !s'.procs[i].state.Zombie? ==>
                  && r.step.WaitReap? && s.procs[i].parent == r.step.t && s.wlock == r.step.t && s.on[i] == -1
                  && s.procs[i].pid !in s.reaped && s'.reaped == s.reaped[s.procs[i].pid := s.procs[r.step.t].pid])
  {
    RunInv(r.before);
    ReapStep(Last(r.before), r.step);
  }

  /** No other step moves a process out of Zombie. */
  lemma ZombieStays(s: Sys, step: Step, i: int)
    requires Shape(s) && Enabled(s, step) && !step.WaitReap? && In(s, i) && s.procs[i].state.Zombie?
    requires !Mild(step) ==> In(s, step.t) && ForkAt(s, step.t)
    ensures In(Do(s, step), i) ==> Do(s, step).procs[i].state.Zombie?
  {
  }

  lemma ReapStep(s: Sys, step: Step)
    requires Inv(s) && Enabled(s, step)
    ensures var s' := Do(s, step);
            && (forall n :: n in s.reaped ==> n in s'.reaped && s'.reaped[n] == s.reaped[n])
            && (forall i :: In(s, i) && s.procs[i].state.Zombie? && In(s', i) && !s'.procs[i].state.Zombie? ==>
                  && step.WaitReap? && s.procs[i].parent == step.t && s.wlock == step.t && s.on[i] == -1
                  && s.procs[i].pid !in s.reaped && s'.reaped == s.reaped[s.procs[i].pid := s.procs[step.t].pid])
  {
    hide Do, Enabled, Inv;
    var s' := Do(s, step);
    if step.WaitReap? {
      ReapOne(s, step, step.t, s');
    } else {
      SameReaped(s, step);
      forall i | In(s, i) && s.procs[i].state.Zombie? && In(s', i) ensures s'.procs[i].state.Zombie? {
        if !Mild(step) {
          ActorIn(s, step);
          EachSound(s, step.t);
        }
        SoundShape(s);
        ZombieStays(s, step, i);
      }
    }
  }

  lemma SoundShape(s: Sys)
    requires Inv(s)
    ensures Shape(s)
  {
  }

  lemma ReapOne(s: Sys, step: Step, t: int, s': Sys)
    requires Inv(s) && Enabled(s, step) && step.WaitReap? && step.t == t && s' == Do(s, step)
    ensures forall n :: n in s.reaped ==> n in s'.reaped && s'.reaped[n] == s.reaped[n]
    ensures forall i :: In(s, i) && s.procs[i].state.Zombie? && In(s', i) && !s'.procs[i].state.Zombie? ==>
              && s.procs[i].parent == t && s.wlock == t && s.on[i] == -1
              && s.procs[i].pid !in s.reaped && s'.reaped == s.reaped[s.procs[i].pid := s.procs[t].pid]
  {
    hide Do, Act, Inv;
    MovesShape(s, step, t, s');
    Ledgers(s, step, t, s');
    EachSound(s, s.pc[t].i);
    hide ExitAt, WaitAt, ForkAt, KinOk;
    forall i | In(s, i) && s.procs[i].state.Zombie? && In(s', i) && !s'.procs[i].state.Zombie?
      ensures i == s.pc[t].i && step.copied
    {
      Local(s, step, t, i, s');
    }
  }

  lemma ActorIn(s: Sys, step: Step)
    requires Enabled(s, step) && !Mild(step)
    ensures In(s, step.t)
  {
  }

  lemma SameReaped(s: Sys, step: Step)
    requires Enabled(s, step) && !step.WaitReap?
    ensures Do(s, step).reaped == s.reaped
  {
    hide Do, Act;
    if Mild(step) {
      MildReaped(s, step);
    } else {
      DoActs(s, step);
      ActReaped(s, step);
    }
  }

  lemma MildReaped(s: Sys, step: Step)
    requires Enabled(s, step) && Mild(step)
    ensures Do(s, step).reaped == s.reaped
  {
  }

  lemma DoActs(s: Sys, step: Step)
    requires Enabled(s, step) && !Mild(step)
    ensures Do(s, step) == Act(s, step)
  {
    hide Act;
  }

  lemma ActReaped(s: Sys, step: Step)
    requires Enabled(s, step) && !Mild(step) && !step.WaitReap?
    ensures Act(s, step).reaped == s.reaped
  {
  }

  /** A running process is current on exactly one processor. */
  lemma OneCpu(r: Run, i: int)
    requires IsRun(r) && In(Last(r), i) && Last(r).procs[i].state.Running?
    ensures var s := Last(r);
            |s.on| == |s.procs| && 0 <= s.on[i] < |s.cpu|
            && forall c :: 0 <= c < |s.cpu| ==> (s.cpu[c] == i <==> c == s.on[i])
  {
    hide Do, Enabled;
    RunInv(r);
    assert CpuAt(Last(r), i);
  }
}
