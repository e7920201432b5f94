/**
 The redo log as a state machine.  One step is one section that log.c runs under log.lock,
 or one single-block disk write, so a crash may fall between any two disk writes, during a
 commit as well as during recovery.
 */
module LogMachine {

  const MAXOPBLOCKS: nat := 10
  const LOGSIZE: nat := 30          // MAXOPBLOCKS * 3

  /** k * MAXOPBLOCKS: what begin_op reserves for k operations. */
  function Reserve(k: nat): nat { k * 10 }

  const WORDS: nat := 256   // BSIZE / sizeof(int)

  /** A disk block seen as an array of ints; only the log header is interpreted. */
  type Block = seq<int>
  type Disk = seq<Block>
  type OpId = nat

  /** The superblock's description of the log area. */
  datatype Layout = Layout(start: nat, nlog: nat, size: nat)

  ghost predicate ValidLayout(l: Layout) {
    2 <= l.nlog && l.start + l.nlog <= l.size
  }

  /** Blocks outside the log area: the only ones a file system operation may log. */
  predicate Home(l: Layout, b: int) {
    0 <= b < l.size && !(l.start <= b < l.start + l.nlog)
  }

  // ----- the on-disk header -----

  /** write_head: the count and the block numbers overwrite a prefix of the old header block. */
  function PutHeader(old_: Block, lh: seq<int>): Block
    requires |lh| < |old_|
  {
    [|lh|] + lh + old_[1 + |lh|..]
  }

  predicate HeaderOk(b: Block) {
    |b| == WORDS && 0 <= b[0] <= LOGSIZE
  }

  /** read_head: the block numbers recorded in a header block. */
  function GetHeader(b: Block): seq<int>
    requires HeaderOk(b)
  {
    b[1..1 + b[0]]
  }

  lemma HeaderRoundTrip(old_: Block, lh: seq<int>)
    requires |old_| == WORDS && |lh| <= LOGSIZE
    ensures HeaderOk(PutHeader(old_, lh)) && GetHeader(PutHeader(old_, lh)) == lh
  {
    var b := PutHeader(old_, lh);
    assert b[1..1 + |lh|] == lh;
  }

  // ----- what recovery does -----

  /** install_trans from position t on: copy log block t to its home, then the rest. */
  function InstallFrom(l: Layout, d: Disk, lh: seq<int>, t: nat): (r: Disk)
    requires ValidLayout(l) && |d| == l.size
    requires t <= |lh| < l.nlog && forall i :: 0 <= i < |lh| ==> Home(l, lh[i])
    ensures |r| == |d|
    decreases |lh| - t
  {
    if t == |lh| then d
    else
      assert Home(l, lh[t]);
      InstallFrom(l, d[lh[t] := d[l.start + 1 + t]], lh, t + 1)
  }

  ghost predicate Distinct(s: seq<int>) {
    forall i, j :: 0 <= i < j < |s| ==> s[i] != s[j]
  }

  ghost predicate LogOk(l: Layout, lh: seq<int>) {
    && |lh| <= LOGSIZE && |lh| < l.nlog
    && Distinct(lh)
    && forall i :: 0 <= i < |lh| ==> Home(l, lh[i])
  }

  /** A disk that recovery can handle. */
  ghost predicate Recoverable(l: Layout, d: Disk) {
    && ValidLayout(l) && |d| == l.size
    && HeaderOk(d[l.start]) && LogOk(l, GetHeader(d[l.start]))
  }

  /** recover_from_log run to its end without a crash. */
  ghost function Recover(l: Layout, d: Disk): (r: Disk)
    requires Recoverable(l, d)
    ensures |r| == |d|
  {
    var r := InstallFrom(l, d, GetHeader(d[l.start]), 0);
    r[l.start := PutHeader(d[l.start], [])]
  }

  ghost predicate SameHome(l: Layout, d: Disk, e: Disk) {
    |d| == |e| == l.size && forall b :: Home(l, b) ==> d[b] == e[b]
  }

  // ----- the machine -----

  /** One log_write: operation op leaves `data` in block b. */
  datatype Write = Write(op: OpId, block: int, data: Block)

  /** A transaction: the operations that joined it, those that ended, and their writes in order. */
  datatype Group = Group(begun: set<OpId>, ended: set<OpId>, writes: seq<Write>)

  const NoGroup := Group({}, {}, [])

  datatype Phase =
    | Running                   // committing == 0
    | WritingLog(copied: nat)   // write_log has copied this many blocks
    | Installing(done: nat)     // install_trans(0) has installed this many blocks
    | Committed                 // commit() has returned, committing still 1
    | Down                      // crashed
    | Replaying(done: nat)      // install_trans(1) has installed this many blocks

  /**
   disk is the device, cache what bread would return, lh the in-memory header, ops the
   outstanding operations with the distinct blocks each has logged, dirty the buffers that an
   operation holds locked and has modified but not yet logged.  base, committed, current and
   used record the history: the disk at boot, the transactions whose header write happened,
   the transaction now open, and every operation that ever began.
   */
  datatype State = State(
    disk: Disk, cache: Disk, lh: seq<int>,
    ops: map<OpId, set<int>>, dirty: map<int, OpId>, phase: Phase,
    base: Disk, committed: seq<Group>, current: Group, used: set<OpId>)

  datatype Step =
    | BeginOp(op: OpId)
    | Modify(op: OpId, b: int, data: Block)
    | LogWrite(op: OpId, b: int)
    | EndOp(op: OpId)
    | CopyBlock          // one bwrite of write_log
    | WriteHead          // the commit point
    | InstallBlock       // one bwrite of install_trans(0)
    | EraseHead          // log.lh.n = 0; write_head()
    | FinishCommit       // committing = 0
    | Crash
    | Boot               // read_head
    | ReplayBlock        // one bwrite of install_trans(1)
    | ReplayErase

  /** The check at the top of log_write. */
  predicate TooBig(l: Layout, lh: seq<int>) {
    |lh| >= LOGSIZE || |lh| >= l.nlog - 1
  }

  ghost predicate Enabled(l: Layout, s: State, step: Step)
    requires ValidLayout(l)
  {
    match step
    case BeginOp(op) =>
      && s.phase.Running? && op !in s.used
      && |s.lh| + Reserve(|s.ops| + 1) <= LOGSIZE
    case Modify(op, b, data) =>
      && s.phase.Running? && op in s.ops && Home(l, b)
      && (b in s.dirty ==> s.dirty[b] == op)
    case LogWrite(op, b) =>
      && s.phase.Running? && op in s.ops && b in s.dirty && s.dirty[b] == op
      && !TooBig(l, s.lh)
    case EndOp(op) =>
      && s.phase.Running? && op in s.ops
      && (forall b :: b in s.dirty ==> s.dirty[b] != op)
    case CopyBlock => s.phase.WritingLog? && s.phase.copied < |s.lh|
    case WriteHead => s.phase.WritingLog? && s.phase.copied == |s.lh|
    case InstallBlock => s.phase.Installing? && s.phase.done < |s.lh|
    case EraseHead => s.phase.Installing? && s.phase.done == |s.lh|
    case FinishCommit => s.phase.Committed?
    case Crash => true
    case Boot => s.phase.Down?
    case ReplayBlock => s.phase.Replaying? && s.phase.done < |s.lh|
    case ReplayErase => s.phase.Replaying? && s.phase.done == |s.lh|
  }

  /** Shape facts that make every step well defined; Safe (LogSafety) implies them. */
  ghost predicate Shape(l: Layout, s: State) {
    && ValidLayout(l) && |s.disk| == |s.cache| == |s.base| == l.size
    && Recoverable(l, s.disk)
    && LogOk(l, s.lh)
    && |s.cache[l.start]| == WORDS
    && (forall b :: b in s.dirty ==> Home(l, b))
  }

  function Absorb(lh: seq<int>, b: int): seq<int> {
    if b in lh then lh else lh + [b]
  }

  function CloseGroup(g: Group, op: OpId): Group {
    g.(ended := g.ended + {op})
  }

  ghost function Do(l: Layout, s: State, step: Step): State
    requires ValidLayout(l) && Shape(l, s) && Enabled(l, s, step)
  {
    match step
    case BeginOp(op) =>
      s.(ops := s.ops[op := {}], used := s.used + {op},
         current := s.current.(begun := s.current.begun + {op}))
    case Modify(op, b, data) =>
      s.(cache := s.cache[b := data], dirty := s.dirty[b := op])
    case LogWrite(op, b) =>
      s.(lh := Absorb(s.lh, b), dirty := s.dirty - {b},
         ops := s.ops[op := s.ops[op] + {b}],
         current := s.current.(writes := s.current.writes + [Write(op, b, s.cache[b])]))
    case EndOp(op) =>
      var ops := s.ops - {op};
      var g := CloseGroup(s.current, op);
      if ops.Keys != {} then s.(ops := ops, current := g)
      else if |s.lh| > 0 then s.(ops := ops, current := g, phase := WritingLog(0))
      else s.(ops := ops, committed := s.committed + [g], current := NoGroup, phase := Committed)
    case CopyBlock =>
      var t := s.phase.copied;
      var v := s.cache[s.lh[t]];
      s.(disk := s.disk[l.start + 1 + t := v], cache := s.cache[l.start + 1 + t := v],
         phase := WritingLog(t + 1))
    case WriteHead =>
      var h := PutHeader(s.cache[l.start], s.lh);
      s.(disk := s.disk[l.start := h], cache := s.cache[l.start := h], phase := Installing(0),
         committed := s.committed + [s.current], current := NoGroup)
    case InstallBlock =>
      var t := s.phase.done;
      var v := s.cache[l.start + 1 + t];
      s.(disk := s.disk[s.lh[t] := v], cache := s.cache[s.lh[t] := v], phase := Installing(t + 1))
    case EraseHead =>
      var h := PutHeader(s.cache[l.start], []);
      s.(disk := s.disk[l.start := h], cache := s.cache[l.start := h], lh := [], phase := Committed)
    case FinishCommit => s.(phase := Running)
    case Crash =>
      s.(cache := s.disk, lh := [], ops := map[], dirty := map[], phase := Down, current := NoGroup)
    case Boot => s.(cache := s.disk, lh := GetHeader(s.disk[l.start]), phase := Replaying(0))
    case ReplayBlock =>
      var t := s.phase.done;
      var v := s.cache[l.start + 1 + t];
      s.(disk := s.disk[s.lh[t] := v], cache := s.cache[s.lh[t] := v], phase := Replaying(t + 1))
    case ReplayErase =>
      var h := PutHeader(s.cache[l.start], []);
      s.(disk := s.disk[l.start := h], cache := s.cache[l.start := h], lh := [], phase := Running)
  }

  /** A formatted disk with an empty log, just after a clean boot. */
  ghost predicate Init(l: Layout, s: State) {
    && ValidLayout(l) && |s.disk| == l.size
    && HeaderOk(s.disk[l.start]) && s.disk[l.start][0] == 0
    && s == State(s.disk, s.disk, [], map[], map[], Running, s.disk, [], NoGroup, {})
  }

  ghost predicate Next(l: Layout, s: State, step: Step, s': State) {
    Shape(l, s) && Enabled(l, s, step) && s' == Do(l, s, step)
  }

  /** A run, its latest state last; every prefix of a run is a run. */
  datatype Run = Start(last: State) | After(before: Run, step: Step, last: State)

  ghost predicate IsRun(l: Layout, r: Run) {
    match r
    case Start(s) => Init(l, s)
    case After(before, step, s) => IsRun(l, before) && Next(l, before.last, step, s)
  }

  /** p is an earlier stage of r, or r itself. */
  ghost predicate EarlierIn(p: Run, r: Run) {
    p == r || (r.After? && EarlierIn(p, r.before))
  }

  lemma {:induction false} EarlierTrans(p: Run, q: Run, r: Run)
    requires EarlierIn(p, q) && EarlierIn(q, r)
    ensures EarlierIn(p, r)
  {
    if q != r {
      EarlierTrans(p, q, r.before);
    }
  }
}
