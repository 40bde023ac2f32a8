/**
 The redo log of log.c together with the part of bio.c it relies on: a step
 system over one disk, the block cache, the in-memory log header and the file
 system calls ("operations") in progress.

 One step is one critical section of log.lock, one buffer-cache action, or one
 disk block write.  A crash is a step that may be taken between any two others,
 also during commit and during recovery.
 */
module Log {

  type Block = nat
  type OpId = nat
  type Data = seq<int>  // the bytes of one block

  datatype Option<+T> = None | Some(value: T)

  /**
   The disk has `nblocks` blocks.  The log occupies `logSize` of them from
   `logStart` on, its header block included.  `maxOp` is MAXOPBLOCKS and
   `logCap` is LOGSIZE, the capacity of the in-memory header.
   */
  datatype Config = Config(nblocks: nat, logStart: nat, logSize: nat, maxOp: nat, logCap: nat)
  {
    ghost predicate Valid() {
      1 <= logSize && logStart + logSize <= nblocks
    }
    predicate InLog(b: Block) {
      logStart <= b < logStart + logSize
    }
    function Slot(i: nat): Block {
      logStart + 1 + i
    }
    predicate Home(b: Block) {
      b < nblocks && !InLog(b)
    }
  }

  /** A cached block.  `touched` says its holder changed it and has not logged it yet. */
  datatype Buf = Buf(data: Data, dirty: bool, holder: Option<OpId>, touched: bool)

  /** An operation between begin_op and end_op. */
  datatype Op = Op(unused: nat, armed: bool)

  /** One call of log_write: who logged which block, and with what contents. */
  datatype Entry = Entry(op: OpId, block: Block, data: Data)

  /** Where the committing (or recovering) kernel thread is. */
  datatype Phase =
    | Idle | WriteLog(tail: nat) | WriteHead | Install(tail: nat) | ClearHead | EndCommit
    | Boot | RecInstall(tail: nat) | RecClear

  /**
   `disk` and `header` survive a crash.  `init`, `groups`, `current`, `written` and
   `used` are history: the initial disk, the committed groups, the log_writes of the
   open group, all log_writes of each operation, and all operations ever begun.
   */
  datatype State = State(
    disk: seq<Data>, header: seq<Block>,
    cache: map<Block, Buf>, lh: seq<Block>, ops: map<OpId, Op>, sleepers: set<OpId>, phase: Phase,
    init: seq<Data>, groups: seq<seq<Entry>>, current: seq<Entry>,
    written: map<OpId, seq<Entry>>, used: set<OpId>)

  datatype Step =
    | Begin(o: OpId) | Sleep(o: OpId) | End(o: OpId)
    | Load(b: Block) | Evict(b: Block) | Hold(o: OpId, b: Block) | Release(o: OpId, b: Block)
    | Update(o: OpId, b: Block, d: Data) | Guard(o: OpId) | Append(o: OpId, b: Block)
    | LogBlock | CommitHead | InstallBlock | EraseHead | Finish
    | Crash | ReadHead

  // ----- Initial states

  ghost predicate Init(c: Config, s: State) {
    && c.Valid()
    && |s.disk| == c.nblocks && s.init == s.disk && s.header == []
    && s.cache == map[] && s.lh == [] && s.ops == map[] && s.sleepers == {} && s.phase == Idle
    && s.groups == [] && s.current == [] && s.written == map[] && s.used == {}
  }

  // ----- Steps

  /** begin_op has to wait: a commit is running, or this operation might exhaust the log. */
  predicate MustWait(c: Config, s: State) {
    s.phase != Idle || |s.lh| + (|s.ops| + 1) * c.maxOp > c.logCap
  }

  /** Recovery runs in the first process, before any other one makes file system calls. */
  predicate Recovering(s: State) {
    s.phase.Boot? || s.phase.RecInstall? || s.phase.RecClear?
  }

  predicate HeldBy(s: State, b: Block, o: OpId) {
    b in s.cache && s.cache[b].holder == Some(o)
  }

  predicate Unheld(s: State, b: Block) {
    b in s.cache ==> s.cache[b].holder == None
  }

  /** What bread would deliver for block b. */
  function Loaded(s: State, b: Block): Buf
    requires b < |s.disk|
  {
    if b in s.cache then s.cache[b] else Buf(s.disk[b], false, None, false)
  }

  predicate Enabled(c: Config, s: State, st: Step) {
    match st
    case Begin(o) => o !in s.used && o !in s.sleepers && !MustWait(c, s)
    case Sleep(o) => o !in s.used && MustWait(c, s) && !Recovering(s)
    case End(o) => o in s.ops && !s.ops[o].armed && forall b :: b in s.cache ==> s.cache[b].holder != Some(o)
    case Load(b) => b < |s.disk| && b !in s.cache
    case Evict(b) => b in s.cache && s.cache[b].holder == None && !s.cache[b].dirty
    case Hold(o, b) => b in s.cache && s.cache[b].holder == None
    case Release(o, b) => HeldBy(s, b, o) && !s.cache[b].touched
    case Update(o, b, d) => o in s.ops && HeldBy(s, b, o) && c.Home(b)
    case Guard(o) => o in s.ops && !(|s.lh| >= c.logCap || |s.lh| >= c.logSize - 1)
    case Append(o, b) => o in s.ops && s.ops[o].armed && HeldBy(s, b, o) && c.Home(b) && (b in s.lh || s.ops[o].unused > 0)
    case LogBlock =>
      && s.phase.WriteLog? && s.phase.tail < |s.lh|
      && s.lh[s.phase.tail] < |s.disk| && c.Slot(s.phase.tail) < |s.disk|
      && Unheld(s, s.lh[s.phase.tail]) && Unheld(s, c.Slot(s.phase.tail))
    case CommitHead => s.phase == WriteHead
    case InstallBlock =>
      && (s.phase.Install? || s.phase.RecInstall?) && s.phase.tail < |s.lh|
      && s.lh[s.phase.tail] < |s.disk| && c.Slot(s.phase.tail) < |s.disk|
      && Unheld(s, s.lh[s.phase.tail]) && Unheld(s, c.Slot(s.phase.tail))
    case EraseHead => s.phase == ClearHead || s.phase == RecClear
    case Finish => s.phase == EndCommit
    case Crash => true
    case ReadHead => s.phase == Boot
  }

  function Next(c: Config, s: State, st: Step): State
    requires Enabled(c, s, st)
  {
    match st
    case Begin(o) => s.(ops := s.ops[o := Op(c.maxOp, false)], used := s.used + {o}, written := s.written[o := []])
    case Sleep(o) => s.(sleepers := s.sleepers + {o})
    case End(o) =>
      if |s.ops| == 1 then
        s.(ops := map[], phase := if s.lh == [] then EndCommit else WriteLog(0))
      else
        s.(ops := s.ops - {o}, sleepers := {})
    case Load(b) => s.(cache := s.cache[b := Buf(s.disk[b], false, None, false)])
    case Evict(b) => s.(cache := s.cache - {b})
    case Hold(o, b) => s.(cache := s.cache[b := s.cache[b].(holder := Some(o))])
    case Release(o, b) => s.(cache := s.cache[b := s.cache[b].(holder := None)])
    case Update(o, b, d) => s.(cache := s.cache[b := s.cache[b].(data := d, touched := true)])
    case Guard(o) => s.(ops := s.ops[o := s.ops[o].(armed := true)])
    case Append(o, b) => AppendBlock(s, o, b)
    case LogBlock =>
      var t := s.phase.tail;
      var from := Loaded(s, s.lh[t]);
      s.(disk := s.disk[c.Slot(t) := from.data],
         cache := s.cache[s.lh[t] := from][c.Slot(t) := Buf(from.data, false, None, false)],
         phase := if t + 1 < |s.lh| then WriteLog(t + 1) else WriteHead)
    case CommitHead =>
      s.(header := s.lh, groups := s.groups + [s.current], current := [], phase := Install(0))
    case InstallBlock =>
      var t := s.phase.tail;
      var log := Loaded(s, c.Slot(t));
      s.(disk := s.disk[s.lh[t] := log.data],
         cache := s.cache[c.Slot(t) := log][s.lh[t] := Buf(log.data, false, None, false)],
         phase := if t + 1 < |s.lh| then s.phase.(tail := t + 1)
                  else if s.phase.Install? then ClearHead else RecClear)
    case EraseHead => s.(header := [], lh := [], phase := if s.phase == ClearHead then EndCommit else Idle)
    case Finish => s.(phase := Idle, sleepers := {})
    case Crash => s.(cache := map[], lh := [], ops := map[], sleepers := {}, phase := Boot, current := [])
    case ReadHead => s.(lh := s.header, phase := if s.header == [] then RecClear else RecInstall(0))
  }

  /** log_write's critical section: absorb or append, pin, and record the call. */
  function AppendBlock(s: State, o: OpId, b: Block): State
    requires o in s.ops && b in s.cache && (b in s.lh || s.ops[o].unused > 0)
  {
    var e := Entry(o, b, s.cache[b].data);
    var left := if b in s.lh then s.ops[o].unused else s.ops[o].unused - 1;
    s.(lh := if b in s.lh then s.lh else s.lh + [b],
       cache := s.cache[b := s.cache[b].(dirty := true, touched := false)],
       ops := s.ops[o := Op(left, false)],
       current := s.current + [e],
       written := if o in s.written then s.written[o := s.written[o] + [e]] else s.written)
  }

  // ----- Runs

  ghost predicate Runs(c: Config, s: State, steps: seq<Step>)
    decreases |steps|
  {
    steps == [] || (Enabled(c, s, steps[0]) && Runs(c, Next(c, s, steps[0]), steps[1..]))
  }

  ghost function Run(c: Config, s: State, steps: seq<Step>): State
    requires Runs(c, s, steps)
    decreases |steps|
  {
    if steps == [] then s else Run(c, Next(c, s, steps[0]), steps[1..])
  }

  /** The in-memory header fits the log region of the disk. */
  ghost predicate Fits(c: Config, s: State) {
    |s.lh| <= c.logSize - 1
  }

  /** In every state of the run the logged blocks fit the log region. */
  ghost predicate FitsThroughout(c: Config, s: State, steps: seq<Step>)
    requires Runs(c, s, steps)
    decreases |steps|
  {
    Fits(c, s) && (steps == [] || FitsThroughout(c, Next(c, s, steps[0]), steps[1..]))
  }

  // ----- Meaning of the disk

  function Write(img: seq<Data>, b: Block, d: Data): seq<Data> {
    if b < |img| then img[b := d] else img
  }

  function ApplyEntries(img: seq<Data>, es: seq<Entry>): seq<Data> {
    if es == [] then img
    else
      var e := es[|es| - 1];
      Write(ApplyEntries(img, es[..|es| - 1]), e.block, e.data)
  }

  function ApplyGroups(img: seq<Data>, gs: seq<seq<Entry>>): seq<Data> {
    if gs == [] then img else ApplyEntries(ApplyGroups(img, gs[..|gs| - 1]), gs[|gs| - 1])
  }

  /** The disk contents that the committed groups, and nothing else, add up to. */
  function Durable(s: State): seq<Data> {
    ApplyGroups(s.init, s.groups)
  }

  /** The two images agree on every block outside the log region. */
  ghost predicate HomeEqual(c: Config, a: seq<Data>, b: seq<Data>) {
    |a| == |b| == c.nblocks && forall x | 0 <= x < c.nblocks && !c.InLog(x) :: a[x] == b[x]
  }

  /** What running recover_from_log to its end makes of a disk with this header block. */
  ghost function Recovered(c: Config, disk: seq<Data>, header: seq<Block>, k: nat): seq<Data>
    requires k <= |header|
    ensures |Recovered(c, disk, header, k)| == |disk|
  {
    if k == 0 then disk
    else
      var d := Recovered(c, disk, header, k - 1);
      if c.Slot(k - 1) < |d| then Write(d, header[k - 1], d[c.Slot(k - 1)]) else d
  }

  function OfOp(es: seq<Entry>, o: OpId): seq<Entry> {
    if es == [] then []
    else
      var e := es[|es| - 1];
      OfOp(es[..|es| - 1], o) + (if e.op == o then [e] else [])
  }

  /** Log space reserved by operations in progress and not yet used. */
  ghost function Unused(ops: map<OpId, Op>): nat {
    if ops == map[] then 0
    else
      var o :| o in ops;
      ops[o].unused + Unused(ops - {o})
  }
}
