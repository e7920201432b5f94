/**
 What a run of the log has to show for itself, told from its steps alone: which data each block was last given,
 and which writes make up each transaction.  The states of the run agree with this account.
 */
module LogHistory {
  import opened LogMachine
  import opened LogSafety

  datatype Latest = Untouched | Given(data: Block)

  /** The data that an operation last stored in block b since the last crash. */
  ghost function Modified(r: Run, b: int): Latest {
    match r
    case Start(_) => Untouched
    case After(before, step, _) =>
      match step
      case Modify(_, c, data) => if c == b then Given(data) else Modified(before, b)
      case Crash => Untouched
      case _ => Modified(before, b)
  }

  /** The disk that the run began with. */
  ghost function Origin(r: Run): Disk {
    match r
    case Start(s) => s.disk
    case After(before, _, _) => Origin(before)
  }

  /** Transactions whose header has been written, the one still open, and the operations that are in progress. */
  datatype Story = Story(committed: seq<Group>, open: Group, live: set<OpId>)

  /**
   Operations join the open transaction when they begin; log_write adds the block as its operation last left it.
   Writing the header commits; a transaction without writes needs no header and is over with its last operation.
   */
  function Tell(t: Story, step: Step, v: Latest): Story {
    match step
    case BeginOp(op) => t.(open := t.open.(begun := t.open.begun + {op}), live := t.live + {op})
    case LogWrite(op, b) =>
      t.(open := t.open.(writes := t.open.writes + [Write(op, b, if v.Given? then v.data else [])]))
    case EndOp(op) =>
      var g := t.open.(ended := t.open.ended + {op});
      if t.live == {op} && g.writes == [] then Story(t.committed + [g], Group({}, {}, []), {})
      else t.(open := g, live := t.live - {op})
    case WriteHead => t.(committed := t.committed + [t.open], open := Group({}, {}, []))
    case Crash => t.(open := Group({}, {}, []), live := {})
    case _ => t
  }

  ghost function Told(r: Run): Story {
    match r
    case Start(_) => Story([], Group({}, {}, []), {})
    case After(before, step, _) =>
      Tell(Told(before), step, if step.LogWrite? then Modified(before, step.b) else Untouched)
  }

  // ----- the latest data -----

  /** The cache has what was stored last; only stored blocks are dirty; a reboot starts afresh. */
  ghost predicate Holds(s: State, b: int, v: Latest) {
    && 0 <= b < |s.cache|
    && (v.Given? ==> s.cache[b] == v.data)
    && (b in s.dirty ==> v.Given?)
    && (s.phase.Down? || s.phase.Replaying? ==> v.Untouched?)
  }

  /** An install puts into the cache what is there already. */
  lemma InstallSame(l: Layout, s: State, s': State, b: int)
    requires Safe(l, s) && Next(l, s, InstallBlock, s') && Home(l, b)
    ensures |s'.cache| == |s.cache| && b < |s.cache| && s'.cache[b] == s.cache[b]
  {
    hide Books, Buffered, Installed, Durable;
    var t := s.phase.done;
    assert s.lh == GetHeader(s.disk[l.start]) && Home(l, s.lh[t]);
  }

  lemma HoldsStep(l: Layout, s: State, step: Step, s': State, b: int, v: Latest, v': Latest)
    requires Next(l, s, step, s') && Home(l, b) && Holds(s, b, v)
    requires step.InstallBlock? ==> |s'.cache| == |s.cache| && s'.cache[b] == s.cache[b]
    requires v' == if step.Modify? && step.b == b then Given(step.data) else if step.Crash? then Untouched else v
    ensures Holds(s', b, v')
  {
    hide Recoverable, GetHeader, PutHeader, Absorb;
  }

  /** bread shows the data last stored, logged or not, installed or not, until the next crash. */
  lemma {:induction false} LastStored(l: Layout, r: Run, b: int)
    requires IsRun(l, r) && Home(l, b)
    ensures Holds(r.last, b, Modified(r, b))
  {
    match r
    case Start(s) => assert |s.cache| == l.size;
    case After(before, step, s) =>
      LastStored(l, before, b);
      SafeRun(l, before);
      hide Safe, Holds;
      if step.InstallBlock? {
        InstallSame(l, before.last, s, b);
      }
      HoldsStep(l, before.last, step, s, b, Modified(before, b), Modified(r, b));
  }

  // ----- the transactions -----

  ghost predicate Agrees(s: State, t: Story) {
    && s.committed == t.committed && s.current == t.open && s.ops.Keys == t.live
    && (s.phase.Running? ==> (s.lh == [] <==> t.open.writes == []))
  }

  lemma AgreesLogWrite(l: Layout, s: State, op: OpId, b: int, s': State, t: Story, v: Latest)
    requires Next(l, s, LogWrite(op, b), s') && Agrees(s, t) && Holds(s, b, v)
    ensures Agrees(s', Tell(t, LogWrite(op, b), v))
  {
    assert s'.ops.Keys == s.ops.Keys;
  }

  lemma AgreesEnd(l: Layout, s: State, op: OpId, s': State, t: Story)
    requires Next(l, s, EndOp(op), s') && Agrees(s, t)
    ensures Agrees(s', Tell(t, EndOp(op), Untouched))
  {
    hide Shape;
    assert (s.ops - {op}).Keys == s.ops.Keys - {op};
  }

  lemma AgreesBegin(l: Layout, s: State, op: OpId, s': State, t: Story)
    requires Next(l, s, BeginOp(op), s') && Agrees(s, t)
    ensures Agrees(s', Tell(t, BeginOp(op), Untouched))
  {
    hide Shape;
    assert s'.ops.Keys == s.ops.Keys + {op};
  }

  /** A commit and a crash close the transaction, the one keeping and the other dropping it. */
  lemma AgreesClosed(l: Layout, s: State, step: Step, s': State, t: Story)
    requires Next(l, s, step, s') && Agrees(s, t) && (step.WriteHead? || step.Crash?)
    ensures Agrees(s', Tell(t, step, Untouched))
  {
    hide Shape, PutHeader;
    assert step.Crash? ==> s'.ops.Keys == {};
  }

  lemma AgreesQuiet(l: Layout, s: State, step: Step, s': State, t: Story)
    requires Next(l, s, step, s') && Agrees(s, t)
    requires !step.BeginOp? && !step.LogWrite? && !step.EndOp? && !step.WriteHead? && !step.Crash?
    requires s.phase.Committed? || s.phase.Replaying? ==> s.current == NoGroup
    requires s.phase.Committed? ==> s.lh == []
    ensures Agrees(s', Tell(t, step, Untouched))
  {
    hide Shape, PutHeader, GetHeader;
    assert s'.committed == s.committed && s'.current == s.current && s'.ops == s.ops;
  }

  lemma AgreesStep(l: Layout, r: Run)
    requires IsRun(l, r) && r.After? && Agrees(r.before.last, Told(r.before))
    ensures Agrees(r.last, Told(r))
  {
    hide Agrees, Tell, Holds, Safe;
    var s, step, s', t := r.before.last, r.step, r.last, Told(r.before);
    SafeRun(l, r.before);
    match step
    case LogWrite(op, b) =>
      assert Home(l, b);
      LastStored(l, r.before, b);
      AgreesLogWrite(l, s, op, b, s', t, Modified(r.before, b));
    case BeginOp(op) => AgreesBegin(l, s, op, s', t);
    case EndOp(op) => AgreesEnd(l, s, op, s', t);
    case WriteHead => AgreesClosed(l, s, step, s', t);
    case Crash => AgreesClosed(l, s, step, s', t);
    case _ =>
      Quiet(l, s);
      AgreesQuiet(l, s, step, s', t);
  }

  lemma Quiet(l: Layout, s: State)
    requires Safe(l, s)
    ensures s.phase.Committed? || s.phase.Replaying? ==> s.current == NoGroup
    ensures s.phase.Committed? ==> s.lh == []
  {
    hide Sound;
    QuietPhase(l, s);
  }

  /** The transactions are those of the account: whole operations, each write with the data last stored. */
  lemma {:induction false} ToldTrue(l: Layout, r: Run)
    requires IsRun(l, r)
    ensures Agrees(r.last, Told(r))
  {
    if r.After? {
      ToldTrue(l, r.before);
      AgreesStep(l, r);
    }
  }

  lemma {:induction false} OriginIsBase(l: Layout, r: Run)
    requires IsRun(l, r)
    ensures r.last.base == Origin(r)
  {
    hide Next;
    if r.After? {
      OriginIsBase(l, r.before);
      StepKeepsCommitted(l, r.before.last, r.step, r.last);
    }
  }

  /** Recovery after a crash at any moment gives the first disk with the committed transactions of the account. */
  lemma RecoversTold(l: Layout, r: Run)
    requires IsRun(l, r)
    ensures Recoverable(l, r.last.disk)
    ensures SameHome(l, Recover(l, r.last.disk), ApplyGroups(Origin(r), Told(r).committed))
  {
    hide Recover, Recoverable, SameHome, IsRun;
    CrashSafety(l, r);
    ToldTrue(l, r);
    OriginIsBase(l, r);
  }

  /** Once nothing is outstanding, what was stored last is on disk, at home. */
  lemma IdleStored(l: Layout, r: Run, b: int)
    requires IsRun(l, r) && Home(l, b) && r.last.phase.Running? && Told(r).live == {}
    ensures b < |r.last.disk|
    ensures var v := Modified(r, b); v.Given? ==> r.last.disk[b] == r.last.cache[b] == v.data
  {
    hide IsRun;
    ToldTrue(l, r);
    IdleIsDurable(l, r);
    LastStored(l, r, b);
  }

  /** Every block stored since the last crash is on disk d as it was stored last. */
  ghost predicate AllStored(l: Layout, r: Run, d: Disk) {
    forall b :: Home(l, b) && Modified(r, b).Given? ==> b < |d| && d[b] == Modified(r, b).data
  }

  lemma IdleAllStored(l: Layout, r: Run)
    requires IsRun(l, r) && r.last.phase.Running? && r.last.ops.Keys == {}
    ensures AllStored(l, r, r.last.disk)
  {
    hide IsRun;
    ToldTrue(l, r);
    forall b | Home(l, b) && Modified(r, b).Given? ensures b < |r.last.disk| && r.last.disk[b] == Modified(r, b).data {
      IdleStored(l, r, b);
    }
  }
}
