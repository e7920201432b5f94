/**
 What the metrics measure. Over a run, the time from when a process becomes runnable until it is dispatched adds up to
 its waiting time, except for spells that begin when the 32-bit clock reads 0, which the scheduler takes for no time.
 */
module ProcMetrics {
  import opened ProcMachine
  import opened ProcInv
  import opened ProcSteps
  import opened ProcSafety
  import opened ProcHistory
  import ProcTime

  predicate IsRunnable(s: Sys, i: int) { In(s, i) && s.procs[i].state.Runnable? }

  /** The time at which i last became runnable. */
  function Since(r: Run, i: int): nat {
    if r.Start? then (if In(r.first, i) then r.first.procs[i].last else 0)
    else if IsRunnable(Last(r), i) && !IsRunnable(Last(r.before), i) then Clock(r.before)
    else Since(r.before, i)
  }

  /** The time at which slot i was last allocated. */
  function Born(r: Run, i: int): nat {
    if r.Start? then (if In(r.first, i) then r.first.procs[i].creation else 0)
    else if r.step.ForkAlloc? && r.step.np == i then Clock(r.before)
    else Born(r.before, i)
  }

  /** The time that the process in slot i has spent waiting to be dispatched. */
  function Waited(r: Run, i: int): int {
    if r.Start? then 0
    else if r.step.ForkAlloc? && r.step.np == i then 0
    else if r.step.Dispatch? && r.step.i == i then Waited(r.before, i) + Clock(r.before) - Since(r.before, i)
    else Waited(r.before, i)
  }

  /** The part of it in spells that began when the clock read 0. */
  function Uncharged(r: Run, i: int): int {
    if r.Start? then 0
    else if r.step.ForkAlloc? && r.step.np == i then 0
    else if r.step.Dispatch? && r.step.i == i && Word(Since(r.before, i)) == 0 then
      Uncharged(r.before, i) + Clock(r.before) - Since(r.before, i)
    else Uncharged(r.before, i)
  }

  /** What a record says about times, given what the run says. */
  predicate Timed(p: Proc, since: nat, born: nat, charged: int) {
    (p.state.Runnable? ==> p.last == since) && (!p.state.Unused? ==> p.creation == born && p.waiting == charged)
  }

  lemma TimedMild(s: Sys, step: Step, i: int, since: nat, since': nat, born: nat, charged: int)
    requires Shape(s) && Enabled(s, step) && Mild(step) && In(s, i) && Timed(s.procs[i], since, born, charged)
    requires |Do(s, step).procs| == |s.procs|
    requires since' == if IsRunnable(Do(s, step), i) && !IsRunnable(s, i) then s.ticks else since
    requires Agree(s.pc[i], s.procs[i], s.plock[i], i)
    ensures var spell := if step.Dispatch? && step.i == i && Word(since) > 0 then s.ticks - since else 0;
            Timed(Do(s, step).procs[i], since', born, charged + spell)
  {
    hide Do, Word;
    MildLocal(s, step, i);
  }

  lemma TimedActs(s: Sys, step: Step, t: int, i: int, s': Sys, since: nat, since': nat, born: nat, charged: int)
    requires Pre(s, step, t, i, s') && Timed(s.procs[i], since, born, charged)
    requires since' == if IsRunnable(s', i) && !IsRunnable(s, i) then s.ticks else since
    ensures var new_ := step.ForkAlloc? && step.np == i;
            Timed(s'.procs[i], since', if new_ then s.ticks else born, if new_ then 0 else charged)
  {
    hide Do, Act;
    Local(s, step, t, i, s');
  }

  lemma TimedStep(s: Sys, step: Step, i: int, since: nat, since': nat, born: nat, charged: int)
    requires Inv(s) && Enabled(s, step) && In(s, i) && Timed(s.procs[i], since, born, charged)
    requires since' == if IsRunnable(Do(s, step), i) && !IsRunnable(s, i) then s.ticks else since
    ensures var new_ := step.ForkAlloc? && step.np == i;
            var spell := if step.Dispatch? && step.i == i && Word(since) > 0 then s.ticks - since else 0;
            && |Do(s, step).procs| == |s.procs|
            && Timed(Do(s, step).procs[i], since', if new_ then s.ticks else born, if new_ then 0 else charged + spell)
  {
    hide Do, Enabled, Inv, Timed, Word, Agree, Pre, IsRunnable;
    SoundShape(s);
    EachSound(s, i);
    SizeKept(s, step);
    if Mild(step) {
      TimedMild(s, step, i, since, since', born, charged);
    } else {
      PreOf(s, step, i);
      TimedActs(s, step, step.t, i, Do(s, step), since, since', born, charged);
    }
  }

  lemma BootTimed(s: Sys, i: int)
    requires Booted(s) && In(s, i)
    ensures Timed(s.procs[i], s.procs[i].last, s.procs[i].creation, 0)
  {
  }

  /** The times kept in a process are those of the run. */
  lemma {:induction false} TimesExact(r: Run, i: int)
    requires IsRun(r) && In(Last(r), i)
    ensures Timed(Last(r).procs[i], Since(r, i), Born(r, i), Waited(r, i) - Uncharged(r, i))
    decreases r
  {
    hide Do, Enabled, Inv, Timed, IsRunnable, Word, Booted;
    if r.After? {
      RunInv(r.before);
      SizeKept(Last(r.before), r.step);
      TimesExact(r.before, i);
      ClockExact(r.before);
      TimedStep(Last(r.before), r.step, i, Since(r.before, i), Since(r, i), Born(r.before, i),
                Waited(r.before, i) - Uncharged(r.before, i));
      WordNat(Since(r.before, i));
    } else {
      BootTimed(r.first, i);
    }
  }

  lemma WordNat(x: nat)
    ensures Word(x) >= 0
  {
  }

  /** The waiting time is the time spent waiting just if no spell that lasted began when the clock read 0. */
  lemma WaitingExact(r: Run, i: int)
    requires IsRun(r) && In(Last(r), i) && !Last(r).procs[i].state.Unused?
    ensures Last(r).procs[i].waiting == Waited(r, i) - Uncharged(r, i)
    ensures Last(r).procs[i].waiting == Waited(r, i) <==> Uncharged(r, i) == 0
  {
    hide IsRun;
    TimesExact(r, i);
  }

  // ----- the sums -----

  /** Turnaround and waiting times of the processes that exited since the last reset, and how many. */
  datatype Sums = Sums(turnaround: int, waited: int, count: nat)

  function Total(r: Run): Sums {
    if r.Start? then Sums(0, 0, 0)
    else
      var t := Total(r.before);
      if r.step.ResetMetrics? then Sums(0, 0, 0)
      else if r.step.ExitMetrics? then
        var i := r.step.t;
        Sums(t.turnaround + Word(Clock(r.before) - Born(r.before, i)),
             t.waited + Word(Waited(r.before, i) - Uncharged(r.before, i)), t.count + 1)
      else t
  }

  /** What the metrics call reports is the total, each process's times taken modulo 2^32. */
  lemma {:induction false} SumsExact(r: Run)
    requires IsRun(r)
    ensures Sums(Last(r).turnaround, Last(r).waited, Last(r).finished) == Total(r)
    decreases r
  {
    hide Do, Enabled, Inv, Word, Born, Waited, Uncharged, Clock;
    if r.After? {
      SumsExact(r.before);
      RunInv(r.before);
      ProcTime.SumsStep(Last(r.before), r.step);
      if r.step.ExitMetrics? {
        TimesExact(r.before, r.step.t);
        ClockExact(r.before);
      }
    }
  }

  // ----- a spell that is not charged -----

  /** userinit at time 0: init is runnable since then. */
  function AtZero(): Sys {
    var p := ProcTime.Fresh(Runnable, -1, 1, 0, -1).(creation := 0);
    ProcTime.Two(p, ProcTime.Fresh(Unused, -1, 0, 0, -1), Idle, false, -1, 2).(ticks := 0)
  }

  lemma ServedLate()
    ensures Booted(AtZero()) && Enabled(AtZero(), Tick)
    ensures var s := Do(AtZero(), Tick); s == AtZero().(ticks := 1) && Enabled(s, Dispatch(0, 0))
    ensures var s := Do(AtZero().(ticks := 1), Dispatch(0, 0)); In(s, 0) && s.procs[0].waiting == 0
  {
  }

  /** init waits for one tick and is charged nothing. */
  lemma LostSpell() returns (r: Run)
    ensures IsRun(r) && In(Last(r), 0) && Last(r).procs[0].waiting == 0 && Waited(r, 0) == 1
  {
    ServedLate();
    var r0 := Start(AtZero());
    var r1 := After(r0, Tick, Do(AtZero(), Tick));
    r := After(r1, Dispatch(0, 0), Do(Last(r1), Dispatch(0, 0)));
    hide Do, Enabled, Booted;
    assert IsRun(r0) && IsRun(r1) && Clock(r1) == 1 && Since(r1, 0) == Since(r0, 0) == 0 && Waited(r1, 0) == 0;
  }
}
