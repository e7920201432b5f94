/**
 Crash safety of the log: in every state of every run, recovery would leave exactly the home
 blocks that the committed transactions wrote, whole operations only.
 */
module LogSafety {
  import opened LogMachine

  // ----- the meaning of a history -----

  function Put(d: Disk, b: int, v: Block): (r: Disk)
    ensures |r| == |d|
  {
    if 0 <= b < |d| then d[b := v] else d
  }

  /** The disk after a sequence of writes, latest last. */
  function ApplyWrites(d: Disk, ws: seq<Write>): (r: Disk)
    ensures |r| == |d|
  {
    if ws == [] then d
    else
      var w := ws[|ws| - 1];
      Put(ApplyWrites(d, ws[..|ws| - 1]), w.block, w.data)
  }

  /** The disk after a sequence of transactions. */
  function ApplyGroups(d: Disk, gs: seq<Group>): (r: Disk)
    ensures |r| == |d|
  {
    if gs == [] then d
    else ApplyWrites(ApplyGroups(d, gs[..|gs| - 1]), gs[|gs| - 1].writes)
  }

  function Durable(s: State): Disk { ApplyGroups(s.base, s.committed) }

  function Logical(s: State): Disk { ApplyWrites(Durable(s), s.current.writes) }

  // ----- the invariant -----

  /** Reading home blocks through the on-disk header gives v. */
  ghost predicate Represents(l: Layout, d: Disk, v: Disk) {
    && Recoverable(l, d) && |v| == l.size
    && (var h := GetHeader(d[l.start]);
        && (forall b :: Home(l, b) && b !in h ==> d[b] == v[b])
        && (forall i :: 0 <= i < |h| ==> d[l.start + 1 + i] == v[h[i]]))
  }

  ghost predicate LogCached(l: Layout, s: State)
    requires Shape(l, s)
  {
    forall b :: l.start <= b < l.start + l.nlog ==> s.cache[b] == s.disk[b]
  }

  /** Before the commit point: the cache holds the logical contents, unlogged blocks are clean. */
  ghost predicate Buffered(l: Layout, s: State)
    requires Shape(l, s)
  {
    && GetHeader(s.disk[l.start]) == []
    && (forall b :: Home(l, b) && b !in s.dirty ==> s.cache[b] == Logical(s)[b])
    && (forall b :: Home(l, b) && b !in s.dirty && b !in s.lh ==> s.cache[b] == s.disk[b])
  }

  /** The first t logged blocks are in their home places. */
  ghost predicate Installed(l: Layout, d: Disk, h: seq<int>, t: nat, v: Disk)
    requires LogOk(l, h) && |d| == |v| == l.size && t <= |h|
  {
    forall i :: 0 <= i < t ==> d[h[i]] == v[h[i]]
  }

  ghost predicate PhaseOk(l: Layout, s: State)
    requires Shape(l, s)
  {
    match s.phase
    case Running => Buffered(l, s)
    case WritingLog(t) =>
      && Buffered(l, s) && s.dirty == map[] && t <= |s.lh|
      && forall i :: 0 <= i < t ==> s.disk[l.start + 1 + i] == s.cache[s.lh[i]]
    case Installing(t) =>
      && GetHeader(s.disk[l.start]) == s.lh && s.dirty == map[] && t <= |s.lh|
      && s.current == NoGroup
      && (forall b :: Home(l, b) ==> s.cache[b] == Durable(s)[b])
      && Installed(l, s.disk, s.lh, t, Durable(s))
    case Committed => Buffered(l, s) && s.dirty == map[] && s.lh == [] && s.current == NoGroup
    case Down => s.current == NoGroup && s.dirty == map[] && s.cache == s.disk
    case Replaying(t) =>
      && GetHeader(s.disk[l.start]) == s.lh && s.dirty == map[] && t <= |s.lh|
      && s.current == NoGroup && s.cache == s.disk
      && Installed(l, s.disk, s.lh, t, Durable(s))
  }

  /** A transaction on disk holds whole operations only. */
  ghost predicate Whole(g: Group) {
    && g.begun == g.ended
    && forall i :: 0 <= i < |g.writes| ==> g.writes[i].op in g.ended
  }

  /** No operation belongs to both transactions. */
  ghost predicate Apart(g: Group, h: Group) {
    forall op :: op in g.begun ==> op !in h.begun
  }

  ghost predicate Books(s: State) {
    && s.current.begun == s.current.ended + s.ops.Keys
    && s.current.begun <= s.used
    && (forall i :: 0 <= i < |s.current.writes| ==> s.current.writes[i].op in s.current.begun)
    && (forall b :: b in s.dirty ==> s.dirty[b] in s.ops)
    && (forall i :: 0 <= i < |s.committed| ==> Whole(s.committed[i]) && s.committed[i].begun <= s.used)
    && (forall i :: 0 <= i < |s.committed| ==> Apart(s.committed[i], s.current))
    && (forall i, j :: 0 <= i < j < |s.committed| ==> Apart(s.committed[i], s.committed[j]))
    && (!s.phase.Running? ==> s.ops.Keys == {})
    && (s.phase.Running? && s.ops.Keys == {} ==> s.current == NoGroup && s.lh == [])
  }

  /** The part of the invariant about disk and cache contents. */
  ghost predicate Sound(l: Layout, s: State) {
    && Shape(l, s)
    && Represents(l, s.disk, Durable(s))
    && (!s.phase.Down? ==> LogCached(l, s))
    && PhaseOk(l, s)
  }

  ghost predicate Safe(l: Layout, s: State) {
    Sound(l, s) && Books(s)
  }

  // ----- recovery -----

  lemma InstallNext(l: Layout, d: Disk, h: seq<int>, t: nat, v: Disk)
    requires ValidLayout(l) && |d| == |v| == l.size && LogOk(l, h) && t < |h|
    requires forall b :: Home(l, b) && b !in h[t..] ==> d[b] == v[b]
    requires forall i :: t <= i < |h| ==> d[l.start + 1 + i] == v[h[i]]
    ensures Home(l, h[t])
    ensures var d' := d[h[t] := d[l.start + 1 + t]];
            && (forall b :: Home(l, b) && b !in h[t + 1..] ==> d'[b] == v[b])
            && (forall i :: t + 1 <= i < |h| ==> d'[l.start + 1 + i] == v[h[i]])
            && (forall b :: 0 <= b < l.size && !Home(l, b) ==> d'[b] == d[b])
  {
    assert Home(l, h[t]);
    var d' := d[h[t] := d[l.start + 1 + t]];
    forall b | Home(l, b) && b !in h[t + 1..] ensures d'[b] == v[b] {
      if b != h[t] {
        assert h[t..] == [h[t]] + h[t + 1..];
      }
    }
  }

  lemma {:induction false} InstallRepresents(l: Layout, d: Disk, h: seq<int>, t: nat, v: Disk)
    requires ValidLayout(l) && |d| == |v| == l.size && LogOk(l, h) && t <= |h|
    requires forall b :: Home(l, b) && b !in h[t..] ==> d[b] == v[b]
    requires forall i :: t <= i < |h| ==> d[l.start + 1 + i] == v[h[i]]
    ensures SameHome(l, InstallFrom(l, d, h, t), v)
    ensures forall b :: 0 <= b < l.size && !Home(l, b) ==> InstallFrom(l, d, h, t)[b] == d[b]
    decreases |h| - t
  {
    if t < |h| {
      InstallNext(l, d, h, t, v);
      InstallRepresents(l, d[h[t] := d[l.start + 1 + t]], h, t + 1, v);
    }
  }

  /** Running recovery to its end on a disk that represents v yields v on the home blocks. */
  lemma RecoverYields(l: Layout, d: Disk, v: Disk)
    requires Represents(l, d, v)
    ensures SameHome(l, Recover(l, d), v)
  {
    var h := GetHeader(d[l.start]);
    assert h[0..] == h;
    InstallRepresents(l, d, h, 0, v);
  }

  /** Every recoverable disk represents something, namely what its own recovery computes. */
  lemma RepresentsRecover(l: Layout, d: Disk)
    requires Recoverable(l, d)
    ensures Represents(l, d, Recover(l, d))
  {
    var h := GetHeader(d[l.start]);
    var v := seq(l.size, b requires 0 <= b < l.size =>
      if b in h then (var i :| 0 <= i < |h| && h[i] == b; d[l.start + 1 + i]) else d[b]);
    assert Represents(l, d, v);
    hide Recover, GetHeader;
    RecoverYields(l, d, v);
    forall i | 0 <= i < |h| ensures d[l.start + 1 + i] == Recover(l, d)[h[i]] {
      assert Home(l, h[i]);
    }
  }

  /** Recovery is idempotent, and leaves an empty log behind. */
  lemma RecoverIdempotent(l: Layout, d: Disk)
    requires Recoverable(l, d)
    ensures Recoverable(l, Recover(l, d)) && GetHeader(Recover(l, d)[l.start]) == []
    ensures SameHome(l, Recover(l, Recover(l, d)), Recover(l, d))
  {
    var r := Recover(l, d);
    HeaderRoundTrip(d[l.start], []);
    RepresentsRecover(l, d);
    assert Represents(l, r, r);
    RecoverYields(l, r, r);
  }

  // ----- each step keeps the invariant -----

  lemma SafeInit(l: Layout, s: State)
    requires Init(l, s)
    ensures Safe(l, s) && Durable(s) == s.base
  {
    assert GetHeader(s.disk[l.start]) == [];
  }

  lemma ApplyWritesPush(d: Disk, ws: seq<Write>, w: Write)
    ensures ApplyWrites(d, ws + [w]) == Put(ApplyWrites(d, ws), w.block, w.data)
  {
    assert (ws + [w])[..|ws|] == ws;
  }

  lemma ApplyGroupsPush(d: Disk, gs: seq<Group>, g: Group)
    ensures ApplyGroups(d, gs + [g]) == ApplyWrites(ApplyGroups(d, gs), g.writes)
  {
    assert (gs + [g])[..|gs|] == gs;
  }

  lemma SoundBegin(l: Layout, s: State, op: OpId, s': State)
    requires Sound(l, s) && Next(l, s, BeginOp(op), s')
    ensures Sound(l, s')
  {
    assert Logical(s') == Logical(s);
  }

  lemma SoundModify(l: Layout, s: State, op: OpId, b: int, data: Block, s': State)
    requires Sound(l, s) && Next(l, s, Modify(op, b, data), s')
    ensures Sound(l, s')
  {
    assert Logical(s') == Logical(s);
  }

  lemma SoundLogWrite(l: Layout, s: State, op: OpId, b: int, s': State)
    requires Sound(l, s) && Next(l, s, LogWrite(op, b), s')
    ensures Sound(l, s')
  {
    hide Represents, Recoverable, ApplyGroups, ApplyWrites, Installed;
    ApplyWritesPush(Durable(s), s.current.writes, Write(op, b, s.cache[b]));
    assert LogOk(l, s'.lh);
    assert Logical(s') == Put(Logical(s), b, s.cache[b]);
  }

  /** The last operation leaves no locked buffer behind. */
  lemma EndCleans(l: Layout, s: State, op: OpId)
    requires Shape(l, s) && Books(s) && Enabled(l, s, EndOp(op)) && s.ops.Keys <= {op}
    ensures s.dirty == map[]
  {
    assert forall b :: b !in s.dirty;
  }

  lemma SoundEnd(l: Layout, s: State, op: OpId, s': State)
    requires Safe(l, s) && Next(l, s, EndOp(op), s')
    ensures Sound(l, s')
  {
    assert (s.ops - {op}).Keys == s.ops.Keys - {op};
    if s.ops.Keys - {op} == {} {
      assert s.ops.Keys <= {op};
      EndCleans(l, s, op);
      if |s.lh| == 0 {
        ApplyGroupsPush(s.base, s.committed, CloseGroup(s.current, op));
        assert Durable(s') == Logical(s);
        assert forall b :: Home(l, b) ==> s.cache[b] == Logical(s)[b];
      } else {
        assert Logical(s') == Logical(s);
      }
    } else {
      assert Logical(s') == Logical(s);
    }
  }

  lemma SoundCopy(l: Layout, s: State, s': State)
    requires Sound(l, s) && Next(l, s, CopyBlock, s')
    ensures Sound(l, s')
  {
    assert Durable(s') == Durable(s) && Logical(s') == Logical(s);
    assert Home(l, s.lh[s.phase.copied]);
    forall i | 0 <= i < s'.phase.copied ensures s'.disk[l.start + 1 + i] == s'.cache[s'.lh[i]] {
      assert Home(l, s.lh[i]);
    }
  }

  /** Writing lh into an empty header makes the logged copies count. */
  lemma CommitPoint(l: Layout, d: Disk, h: Block, lh: seq<int>, v: Disk)
    requires ValidLayout(l) && |d| == |v| == l.size && LogOk(l, lh) && HeaderOk(h) && GetHeader(h) == lh
    requires forall b :: Home(l, b) && b !in lh ==> d[b] == v[b]
    requires forall i :: 0 <= i < |lh| ==> d[l.start + 1 + i] == v[lh[i]]
    ensures Represents(l, d[l.start := h], v)
  {
  }

  /** Every logged block is in its slot, and the others are home. */
  lemma CopiedOut(l: Layout, s: State)
    requires Sound(l, s) && Enabled(l, s, WriteHead)
    ensures |Logical(s)| == |s.disk| && forall i :: 0 <= i < |s.lh| ==> s.disk[l.start + 1 + i] == Logical(s)[s.lh[i]]
    ensures forall b :: Home(l, b) && b !in s.lh ==> s.disk[b] == Logical(s)[b]
    ensures forall b :: Home(l, b) ==> s.cache[b] == Logical(s)[b]
  {
    forall i | 0 <= i < |s.lh| ensures s.disk[l.start + 1 + i] == Logical(s)[s.lh[i]] {
      assert Home(l, s.lh[i]);
    }
  }

  lemma CommittedState(l: Layout, s: State, h: Block)
    requires Sound(l, s) && Enabled(l, s, WriteHead) && HeaderOk(h) && GetHeader(h) == s.lh
    ensures var s' := s.(disk := s.disk[l.start := h], cache := s.cache[l.start := h], phase := Installing(0),
                         committed := s.committed + [s.current], current := NoGroup);
            Sound(l, s') && Durable(s') == Logical(s)
  {
    ApplyGroupsPush(s.base, s.committed, s.current);
    CopiedOut(l, s);
    CommitPoint(l, s.disk, h, s.lh, Logical(s));
  }

  /** The header write is the commit point: the durable contents become the logical ones. */
  lemma SoundWriteHead(l: Layout, s: State, s': State)
    requires Sound(l, s) && Next(l, s, WriteHead, s')
    ensures Sound(l, s') && Durable(s') == Logical(s)
  {
    HeaderRoundTrip(s.cache[l.start], s.lh);
    CommittedState(l, s, PutHeader(s.cache[l.start], s.lh));
  }

  lemma InstallOne(l: Layout, d: Disk, t: nat, v: Disk)
    requires Represents(l, d, v) && t < |GetHeader(d[l.start])|
    requires Installed(l, d, GetHeader(d[l.start]), t, v)
    ensures var h := GetHeader(d[l.start]);
            && Home(l, h[t]) && d[l.start + 1 + t] == v[h[t]]
            && (var e := d[h[t] := d[l.start + 1 + t]];
                && e[l.start] == d[l.start] && Represents(l, e, v) && Installed(l, e, h, t + 1, v))
  {
    var h := GetHeader(d[l.start]);
    assert Home(l, h[t]);
  }

  lemma InstalledState(l: Layout, s: State, e: Disk, c: Disk)
    requires Sound(l, s) && Enabled(l, s, InstallBlock)
    requires |e| == |s.disk| && e[l.start] == s.disk[l.start] && Represents(l, e, Durable(s))
    requires Installed(l, e, s.lh, s.phase.done + 1, Durable(s))
    requires |c| == |s.cache| && forall b :: Home(l, b) ==> c[b] == s.cache[b]
    requires forall b :: l.start <= b < l.start + l.nlog ==> c[b] == e[b]
    ensures Sound(l, s.(disk := e, cache := c, phase := Installing(s.phase.done + 1)))
  {
  }

  lemma SoundInstall(l: Layout, s: State, s': State)
    requires Sound(l, s) && Next(l, s, InstallBlock, s')
    ensures Sound(l, s')
  {
    hide Represents, Installed, Durable, Books, Recover, GetHeader;
    var t := s.phase.done;
    InstallOne(l, s.disk, t, Durable(s));
    assert s.cache[l.start + 1 + t] == s.disk[l.start + 1 + t];
    InstalledState(l, s, s'.disk, s'.cache);
  }

  /** Once every logged block is installed, the header can go. */
  lemma EraseKeeps(l: Layout, d: Disk, v: Disk)
    requires Represents(l, d, v)
    requires Installed(l, d, GetHeader(d[l.start]), |GetHeader(d[l.start])|, v)
    ensures var e := d[l.start := PutHeader(d[l.start], [])];
            Represents(l, e, v) && GetHeader(e[l.start]) == [] && SameHome(l, e, v)
  {
    HeaderRoundTrip(d[l.start], []);
    var h := GetHeader(d[l.start]);
    forall b | Home(l, b) ensures d[b] == v[b] {
      if b in h {
        var i :| 0 <= i < |h| && h[i] == b;
      }
    }
  }

  lemma SoundErase(l: Layout, s: State, s': State)
    requires Sound(l, s) && Next(l, s, EraseHead, s')
    ensures Sound(l, s')
  {
    EraseKeeps(l, s.disk, Durable(s));
  }

  lemma ReplayedState(l: Layout, s: State, e: Disk)
    requires Sound(l, s) && Enabled(l, s, ReplayBlock)
    requires |e| == |s.disk| && e[l.start] == s.disk[l.start] && Represents(l, e, Durable(s))
    requires Installed(l, e, s.lh, s.phase.done + 1, Durable(s))
    ensures Sound(l, s.(disk := e, cache := e, phase := Replaying(s.phase.done + 1)))
  {
  }

  lemma SoundReplay(l: Layout, s: State, s': State)
    requires Sound(l, s) && Next(l, s, ReplayBlock, s')
    ensures Sound(l, s')
  {
    hide Represents, Installed, Durable, Recover, GetHeader;
    InstallOne(l, s.disk, s.phase.done, Durable(s));
    ReplayedState(l, s, s'.disk);
  }

  /** A disk with nothing left in its log, all its home blocks being as they should. */
  lemma ErasedState(l: Layout, s: State, e: Disk)
    requires Sound(l, s) && Enabled(l, s, ReplayErase) && |e| == |s.disk| && Represents(l, e, Durable(s))
    requires GetHeader(e[l.start]) == [] && SameHome(l, e, Durable(s))
    ensures Sound(l, s.(disk := e, cache := e, lh := [], phase := Running))
  {
  }

  lemma SoundReplayErase(l: Layout, s: State, s': State)
    requires Sound(l, s) && Next(l, s, ReplayErase, s')
    ensures Sound(l, s')
  {
    hide Represents, Installed, Durable, Recover, GetHeader, SameHome;
    EraseKeeps(l, s.disk, Durable(s));
    ErasedState(l, s, s'.disk);
  }

  lemma SoundOther(l: Layout, s: State, step: Step, s': State)
    requires Sound(l, s) && Next(l, s, step, s')
    requires step.FinishCommit? || step.Crash? || step.Boot?
    ensures Sound(l, s')
  {
  }

  lemma SoundStep(l: Layout, s: State, step: Step, s': State)
    requires Safe(l, s) && Next(l, s, step, s')
    ensures Sound(l, s')
  {
    hide Sound, Books, Next;
    match step
    case BeginOp(op) => SoundBegin(l, s, op, s');
    case Modify(op, b, data) => SoundModify(l, s, op, b, data, s');
    case LogWrite(op, b) => SoundLogWrite(l, s, op, b, s');
    case EndOp(op) => SoundEnd(l, s, op, s');
    case CopyBlock => SoundCopy(l, s, s');
    case WriteHead => SoundWriteHead(l, s, s');
    case InstallBlock => SoundInstall(l, s, s');
    case EraseHead => SoundErase(l, s, s');
    case ReplayBlock => SoundReplay(l, s, s');
    case ReplayErase => SoundReplayErase(l, s, s');
    case _ => SoundOther(l, s, step, s');
  }

  /** Steps that neither open nor close a transaction leave the books as they are. */
  lemma BooksQuiet(l: Layout, s: State, step: Step, s': State)
    requires Books(s) && Next(l, s, step, s')
    requires !step.BeginOp? && !step.LogWrite? && !step.EndOp? && !step.WriteHead?
    requires s.phase.Committed? || s.phase.Replaying? ==> s.current == NoGroup
    requires s.phase.Committed? ==> s.lh == []
    ensures Books(s')
  {
    assert step.FinishCommit? || step.ReplayErase? ==> s'.current == NoGroup && s'.lh == [];
  }

  lemma BooksBegin(s: State, op: OpId)
    requires Books(s) && op !in s.used && s.phase.Running?
    ensures Books(s.(ops := s.ops[op := {}], used := s.used + {op},
                     current := s.current.(begun := s.current.begun + {op})))
  {
    assert s.ops[op := {}].Keys == s.ops.Keys + {op};
  }

  lemma BooksLogWrite(s: State, op: OpId, b: int, w: Write, lh: seq<int>)
    requires Books(s) && op in s.ops && s.phase.Running? && w.op == op
    ensures Books(s.(lh := lh, dirty := s.dirty - {b}, ops := s.ops[op := s.ops[op] + {b}],
                     current := s.current.(writes := s.current.writes + [w])))
  {
    assert s.ops[op := s.ops[op] + {b}].Keys == s.ops.Keys;
  }

  lemma BooksClose(s: State, g: Group, s': State)
    requires Books(s) && Whole(g) && g.begun == s.current.begun
    requires s'.committed == s.committed + [g] && s'.current == NoGroup && s'.used == s.used
    requires s'.ops.Keys == {} && s'.dirty == map[] && !s'.phase.Running?
    ensures Books(s')
  {
  }

  lemma BooksEnd(l: Layout, s: State, op: OpId, s': State)
    requires Books(s) && Next(l, s, EndOp(op), s')
    ensures Books(s')
  {
    assert (s.ops - {op}).Keys == s.ops.Keys - {op};
    if s.ops.Keys - {op} == {} {
      assert s.ops.Keys <= {op};
      EndCleans(l, s, op);
      if |s.lh| == 0 {
        BooksClose(s, CloseGroup(s.current, op), s');
      }
    }
  }

  lemma CloseWhole(s: State)
    requires Books(s) && s.ops.Keys == {}
    ensures Whole(s.current)
  {
  }

  lemma QuietPhase(l: Layout, s: State)
    requires Sound(l, s)
    ensures s.phase.Committed? || s.phase.Replaying? ==> s.current == NoGroup
    ensures s.phase.Committed? ==> s.lh == []
    ensures s.phase.WritingLog? ==> s.dirty == map[]
  {
    hide Represents, Buffered, Installed;
  }

  lemma BooksStep(l: Layout, s: State, step: Step, s': State)
    requires Safe(l, s) && Next(l, s, step, s')
    ensures Books(s')
  {
    hide Sound, Books, Whole;
    QuietPhase(l, s);
    match step
    case BeginOp(op) => BooksBegin(s, op);
    case LogWrite(op, b) => BooksLogWrite(s, op, b, Write(op, b, s.cache[b]), s'.lh);
    case EndOp(op) => BooksEnd(l, s, op, s');
    case WriteHead =>
      IdleOps(s);
      CloseWhole(s);
      BooksClose(s, s.current, s');
    case _ => BooksQuiet(l, s, step, s');
  }

  lemma IdleOps(s: State)
    requires Books(s) && !s.phase.Running?
    ensures s.ops.Keys == {}
  {
  }

  lemma SafeStep(l: Layout, s: State, step: Step, s': State)
    requires Safe(l, s) && Next(l, s, step, s')
    ensures Safe(l, s')
  {
    hide Sound, Books, Next;
    SoundStep(l, s, step, s');
    BooksStep(l, s, step, s');
  }

  lemma {:induction false} SafeRun(l: Layout, r: Run)
    requires IsRun(l, r)
    ensures Safe(l, r.last)
  {
    match r
    case Start(s) => SafeInit(l, s);
    case After(before, step, s) =>
      SafeRun(l, before);
      SafeStep(l, before.last, step, s);
  }

  /** Every log and home block that a commit or a recovery touches exists. */
  lemma RunShape(l: Layout, r: Run)
    requires IsRun(l, r)
    ensures Shape(l, r.last)
  {
    SafeRun(l, r);
  }

  /** Nothing of memory survives a crash. */
  lemma DownEmpty(l: Layout, r: Run)
    requires IsRun(l, r) && r.last.phase.Down?
    ensures r.last.ops == map[] && r.last.lh == [] && r.last.cache == r.last.disk
  {
    hide Represents, Recover, Books;
    SafeRun(l, r);
    match r
    case Start(s) =>
    case After(before, step, s) => SafeRun(l, before);
  }

  lemma QuietOps(l: Layout, r: Run)
    requires IsRun(l, r) && !r.last.phase.Running?
    ensures r.last.ops.Keys == {}
    ensures r.last.phase.Committed? ==> r.last.lh == []
  {
    SafeRun(l, r);
  }

  lemma SlotBounds(l: Layout, r: Run, tail: nat)
    requires IsRun(l, r) && tail < |r.last.lh|
    ensures |r.last.disk| == |r.last.cache| == l.size
    ensures 0 <= r.last.lh[tail] < l.size && l.start < l.start + tail + 1 < l.size
  {
    SafeRun(l, r);
    assert Home(l, r.last.lh[tail]);
  }

  // ----- the theorems about whole runs -----

  /**
   After every run, wherever it stops (crashed or not, in a commit or in recovery), recovery from
   the disk of that moment gives the boot disk plus exactly the committed transactions, and those
   consist of whole operations, each in one transaction.
   */
  lemma CrashSafety(l: Layout, r: Run)
    requires IsRun(l, r)
    ensures Recoverable(l, r.last.disk)
    ensures SameHome(l, Recover(l, r.last.disk), ApplyGroups(r.last.base, r.last.committed))
    ensures forall k :: 0 <= k < |r.last.committed| ==> Whole(r.last.committed[k])
    ensures forall j, k :: 0 <= j < k < |r.last.committed| ==> Apart(r.last.committed[j], r.last.committed[k])
  {
    SafeRun(l, r);
    RecoverYields(l, r.last.disk, Durable(r.last));
  }

  lemma StepKeepsCommitted(l: Layout, s: State, step: Step, s': State)
    requires Next(l, s, step, s')
    ensures s.committed <= s'.committed && s.base == s'.base
  {
  }

  /** Committed transactions are never lost or reordered: each stage's list is a prefix of every later one. */
  lemma {:induction false} CommittedGrows(l: Layout, p: Run, r: Run)
    requires IsRun(l, r) && EarlierIn(p, r)
    ensures p.last.committed <= r.last.committed && p.last.base == r.last.base
  {
    if p != r {
      CommittedGrows(l, p, r.before);
      StepKeepsCommitted(l, r.before.last, r.step, r.last);
    }
  }

  /**
   When the log is idle (no operation outstanding, no commit under way), every operation that
   ended is on disk: the logical contents are durable, and the home blocks already hold them.
   */
  lemma IdleIsDurable(l: Layout, r: Run)
    requires IsRun(l, r) && r.last.phase.Running? && r.last.ops.Keys == {}
    ensures SameHome(l, r.last.disk, ApplyGroups(r.last.base, r.last.committed))
    ensures SameHome(l, r.last.cache, r.last.disk)
  {
    SafeRun(l, r);
    var s := r.last;
    assert forall b :: b !in s.dirty;
  }

  /** bread sees the logical contents: every committed or logged write, in order. */
  lemma ReadsSeeWrites(l: Layout, r: Run, b: int)
    requires IsRun(l, r) && Home(l, b)
    requires !r.last.phase.Down? && !r.last.phase.Replaying? && b !in r.last.dirty
    ensures |r.last.cache| == |r.last.base| == l.size
    ensures r.last.cache[b] == ApplyWrites(ApplyGroups(r.last.base, r.last.committed), r.last.current.writes)[b]
  {
    SafeRun(l, r);
  }
}
