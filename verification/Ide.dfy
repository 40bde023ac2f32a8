/**
 The interrupt-driven disk driver of ide.c as a step system over an abstract device, and the
 synchronous driver of memide.c as its specification.  Buffers are named by numbers; a buffer
 inside iderw is locked by the process that called it.
 */
module Ide {

  type Data = seq<nat>

  datatype Buf = Buf(blockno: nat, valid: bool, dirty: bool, data: Data)

  datatype Option<+T> = None | Some(value: T)

  // ----- memide.c

  /** The machine as memide.c sees it: the disk and the buffers. */
  datatype Sync = Sync(disk: seq<Data>, bufs: seq<Buf>)

  /** iderw of memide.c: write a dirty buffer through, or fill a buffer that is not valid. */
  function Transfer(m: Sync, b: nat): Sync
    requires b < |m.bufs| && m.bufs[b].blockno < |m.disk|
  {
    var f := m.bufs[b];
    if f.dirty then
      Sync(m.disk[f.blockno := f.data], m.bufs[b := f.(valid := true, dirty := false)])
    else
      Sync(m.disk, m.bufs[b := f.(valid := true, data := m.disk[f.blockno])])
  }

  /** After a transfer buffer and block agree: on the buffer's contents if it was dirty, on the block's if not. */
  lemma TransferSyncs(m: Sync, b: nat)
    requires b < |m.bufs| && m.bufs[b].blockno < |m.disk|
    ensures var m', n := Transfer(m, b), m.bufs[b].blockno;
            && |m'.bufs| == |m.bufs| && |m'.disk| == |m.disk|
            && m'.bufs[b].blockno == n && m'.bufs[b].valid && !m'.bufs[b].dirty && m'.bufs[b].data == m'.disk[n]
            && m'.disk[n] == (if m.bufs[b].dirty then m.bufs[b].data else m.disk[n])
            && (forall c | 0 <= c < |m.bufs| && c != b :: m'.bufs[c] == m.bufs[c])
            && (forall k | 0 <= k < |m.disk| && k != n :: m'.disk[k] == m.disk[k])
  {
    var f := m.bufs[b];
    assert m.disk == m.disk[f.blockno := m.disk[f.blockno]];
  }

  /** What happens in memide.c's world: a transfer, or a change of a buffer by the holder of its lock. */
  datatype Act = Do(b: nat) | Change(b: nat, buf: Buf)

  predicate Allowed(m: Sync, a: Act) {
    && a.b < |m.bufs|
    && if a.Do? then m.bufs[a.b].blockno < |m.disk| && !(m.bufs[a.b].valid && !m.bufs[a.b].dirty)
       else a.buf.blockno < |m.disk|
  }

  function Effect(m: Sync, a: Act): Sync
    requires Allowed(m, a)
  {
    if a.Do? then Transfer(m, a.b) else m.(bufs := m.bufs[a.b := a.buf])
  }

  ghost predicate Acts(m: Sync, acts: seq<Act>)
    decreases acts
  {
    acts == [] || (Allowed(m, acts[0]) && Acts(Effect(m, acts[0]), acts[1..]))
  }

  ghost function Result(m: Sync, acts: seq<Act>): Sync
    requires Acts(m, acts)
    decreases acts
  {
    if acts == [] then m else Result(Effect(m, acts[0]), acts[1..])
  }

  // ----- ide.c

  /** A command given to the device by idestart: a read, or a write with the data sent along. */
  datatype Command = Read(blockno: nat) | Write(blockno: nat, data: Data)

  /**
   idequeue; the buffers and the disk; the device's command, and what it has read once the command
   is done and an interrupt is due; the buffers inside iderw; and the requests and completions so far.
   */
  datatype State = State(
    queue: seq<nat>, bufs: seq<Buf>, disk: seq<Data>,
    command: Option<Command>, done: Option<Data>,
    calls: set<nat>, requests: seq<nat>, finished: seq<nat>)

  /** idestart. */
  function Start(bufs: seq<Buf>, b: nat): Option<Command>
    requires b < |bufs|
  {
    Some(if bufs[b].dirty then Write(bufs[b].blockno, bufs[b].data) else Read(bufs[b].blockno))
  }

  datatype Step =
    | Request(b: nat)               // iderw up to its wait: append to the queue, start an idle disk
    | Finish                        // the device carries out its command and raises an interrupt
    | Interrupt                     // ideintr
    | Return(b: nat)                // iderw's wait ends
    | Change(b: nat, buf: Buf)      // the holder of the lock changes a buffer outside iderw

  predicate Enabled(s: State, e: Step) {
    match e
    case Request(b) => b < |s.bufs| && b !in s.calls && s.bufs[b].blockno < |s.disk| && !(s.bufs[b].valid && !s.bufs[b].dirty)
    case Finish => s.command.Some? && s.done.None?
    case Interrupt => s.done.Some?
    case Return(b) => b in s.calls && b < |s.bufs| && s.bufs[b].valid && !s.bufs[b].dirty
    case Change(b, f) => b < |s.bufs| && b !in s.calls && f.blockno < |s.disk|
  }

  function CarryOut(s: State): State
    requires s.command.Some?
  {
    var c := s.command.value;
    if c.blockno >= |s.disk| then s
    else if c.Write? then s.(disk := s.disk[c.blockno := c.data], done := Some([]))
    else s.(done := Some(s.disk[c.blockno]))
  }

  function Complete(f: Buf, read: Data): Buf {
    if f.dirty then f.(valid := true, dirty := false) else f.(valid := true, data := read)
  }

  function Handle(s: State): State
    requires s.done.Some?
  {
    if s.queue == [] then s.(command := None, done := None)
    else if s.queue[0] >= |s.bufs| then s
    else
      var b := s.queue[0];
      var bufs := s.bufs[b := Complete(s.bufs[b], s.done.value)];
      s.(queue := s.queue[1..], bufs := bufs, done := None, finished := s.finished + [b],
         command := if |s.queue| == 1 || s.queue[1] >= |bufs| then None else Start(bufs, s.queue[1]))
  }

  function Next(s: State, e: Step): State
    requires Enabled(s, e)
  {
    match e
    case Request(b) =>
      s.(queue := s.queue + [b], calls := s.calls + {b}, requests := s.requests + [b],
         command := if s.queue == [] then Start(s.bufs, b) else s.command)
    case Finish => CarryOut(s)
    case Interrupt => Handle(s)
    case Return(b) => s.(calls := s.calls - {b})
    case Change(b, f) => s.(bufs := s.bufs[b := f])
  }

  predicate Init(s: State) {
    && s.queue == [] && s.command.None? && s.done.None? && s.calls == {} && s.requests == [] && s.finished == []
    && forall b | 0 <= b < |s.bufs| :: s.bufs[b].blockno < |s.disk|
  }

  ghost predicate Runs(s: State, steps: seq<Step>)
    decreases steps
  {
    steps == [] || (Enabled(s, steps[0]) && Runs(Next(s, steps[0]), steps[1..]))
  }

  ghost function Run(s: State, steps: seq<Step>): State
    requires Runs(s, steps)
    decreases steps
  {
    if steps == [] then s else Run(Next(s, steps[0]), steps[1..])
  }

  // ----- What every step keeps

  /** The queue holds the callers not yet served, each once, oldest first; callers not in it can return. */
  ghost predicate QueueInv(s: State) {
    && s.requests == s.finished + s.queue
    && (forall k | 0 <= k < |s.queue| :: s.queue[k] in s.calls)
    && (forall j, k | 0 <= j < k < |s.queue| :: s.queue[j] != s.queue[k])
    && (forall b | b in s.calls :: b < |s.bufs| && (b in s.queue <==> !(s.bufs[b].valid && !s.bufs[b].dirty)))
    && (forall b | 0 <= b < |s.bufs| :: s.bufs[b].blockno < |s.disk|)
  }

  /** The device works on the head of the queue and on nothing else. */
  predicate DeviceInv(s: State) {
    && (s.queue == [] ==> s.command.None? && s.done.None?)
    && (s.queue != [] ==> s.queue[0] < |s.bufs| && s.command == Start(s.bufs, s.queue[0]))
    && (s.done.Some? && s.command.Some? && s.command.value.blockno < |s.disk| ==>
          if s.command.value.Write? then s.disk[s.command.value.blockno] == s.command.value.data
          else s.done.value == s.disk[s.command.value.blockno])
  }

  /** A write the device has carried out is not yet visible to the synchronous world until its interrupt. */
  ghost predicate Agrees(s: State, m: Sync) {
    && m.bufs == s.bufs && |m.disk| == |s.disk|
    && (!Early(s) ==> m.disk == s.disk)
    && (Early(s) ==> s.command.value.blockno < |m.disk|
                     && s.disk == m.disk[s.command.value.blockno := s.command.value.data])
  }

  predicate Early(s: State) {
    s.done.Some? && s.command.Some? && s.command.value.Write?
  }

  ghost predicate Inv(s: State) {
    QueueInv(s) && DeviceInv(s)
  }

  lemma InitInv(s: State)
    requires Init(s)
    ensures Inv(s) && Agrees(s, Sync(s.disk, s.bufs))
  {
  }

  lemma RequestKeeps(s: State, b: nat)
    requires Inv(s) && Enabled(s, Request(b))
    ensures Inv(Next(s, Request(b)))
  {
    var t := Next(s, Request(b));
    assert t.requests == t.finished + t.queue;
    forall c | c in t.calls
      ensures c < |t.bufs| && (c in t.queue <==> !(t.bufs[c].valid && !t.bufs[c].dirty))
    {
      if c != b {
        assert c in s.calls;
        assert c in t.queue <==> c in s.queue;
      } else {
        assert t.queue[|s.queue|] == b;
      }
    }
  }

  lemma HandleIs(s: State)
    requires Inv(s) && s.done.Some?
    ensures s.queue != [] && s.queue[0] < |s.bufs|
    ensures var t, b := Handle(s), s.queue[0];
            && t.queue == s.queue[1..] && t.bufs == s.bufs[b := Complete(s.bufs[b], s.done.value)] && t.calls == s.calls
            && t.requests == s.requests && t.finished == s.finished + [b] && t.disk == s.disk
  {
  }

  lemma QueueTail(q: seq<nat>)
    requires q != [] && forall j, k | 0 <= j < k < |q| :: q[j] != q[k]
    ensures q == [q[0]] + q[1..] && q[0] !in q[1..] && forall c :: c in q[1..] <==> c in q && c != q[0]
  {
  }

  lemma HandleQueue(s: State)
    requires Inv(s) && s.done.Some?
    ensures QueueInv(Handle(s))
  {
    HandleIs(s);
    hide DeviceInv, Handle;
    QueueTail(s.queue);
    var t := Handle(s);
    assert t.requests == t.finished + t.queue;
    assert forall k | 0 <= k < |t.queue| :: t.queue[k] == s.queue[k + 1];
    forall c | c in t.calls
      ensures c < |t.bufs| && (c in t.queue <==> !(t.bufs[c].valid && !t.bufs[c].dirty))
    {
      assert c in s.calls;
    }
  }

  lemma HandleDevice(s: State)
    requires Inv(s) && s.done.Some?
    ensures DeviceInv(Handle(s))
  {
    assert s.queue != [];
    if |s.queue| > 1 {
      assert s.queue[1] in s.calls && s.queue[1] in s.queue;
    }
  }

  lemma HandleKeeps(s: State)
    requires Inv(s) && s.done.Some?
    ensures Inv(Handle(s))
  {
    HandleQueue(s);
    HandleDevice(s);
  }

  lemma ChangeKeeps(s: State, b: nat, f: Buf)
    requires Inv(s) && Enabled(s, Step.Change(b, f))
    ensures Inv(Next(s, Step.Change(b, f)))
  {
    var t := Next(s, Step.Change(b, f));
    if s.queue != [] {
      assert s.queue[0] in s.calls;
      assert Start(t.bufs, s.queue[0]) == Start(s.bufs, s.queue[0]);
    }
  }

  lemma StepKeeps(s: State, e: Step)
    requires Inv(s) && Enabled(s, e)
    ensures Inv(Next(s, e))
  {
    match e {
      case Request(b) => RequestKeeps(s, b);
      case Finish =>
      case Interrupt => HandleKeeps(s);
      case Return(b) => ReturnKeeps(s, b);
      case Change(b, f) => ChangeKeeps(s, b, f);
    }
  }

  lemma ReturnKeeps(s: State, b: nat)
    requires Inv(s) && Enabled(s, Return(b))
    ensures Inv(Next(s, Return(b)))
  {
    assert b !in s.queue;
  }

  // ----- Refinement

  /** The synchronous act of a step: the interrupt is the transfer of the head of the queue. */
  function ActOf(s: State, e: Step): seq<Act> {
    if e.Interrupt? && s.queue != [] then [Do(s.queue[0])]
    else if e.Change? then [Act.Change(e.b, e.buf)]
    else []
  }

  lemma StepRefines(s: State, e: Step, m: Sync)
    requires Inv(s) && Enabled(s, e) && Agrees(s, m)
    ensures Acts(m, ActOf(s, e)) && Agrees(Next(s, e), Result(m, ActOf(s, e)))
  {
    var acts := ActOf(s, e);
    match e {
      case Interrupt =>
        assert s.queue[0] in s.calls && s.queue[0] in s.queue;
        var b := s.queue[0];
        assert Allowed(m, Do(b));
        assert acts[1..] == [];
        assert Result(m, acts) == Result(Transfer(m, b), []) == Transfer(m, b);
        InterruptAgrees(s, m);
      case Change(b, f) =>
        assert acts[1..] == [];
        assert Result(m, acts) == Result(Effect(m, acts[0]), []) == Effect(m, acts[0]);
      case _ =>
    }
  }

  lemma InterruptAgrees(s: State, m: Sync)
    requires Inv(s) && s.done.Some? && Agrees(s, m) && s.queue != [] && s.queue[0] < |m.bufs|
    requires m.bufs[s.queue[0]].blockno < |m.disk|
    ensures Agrees(Handle(s), Transfer(m, s.queue[0]))
  {
    var b := s.queue[0];
    assert s.command == Start(s.bufs, b);
  }

  ghost function ActsOf(s: State, steps: seq<Step>): seq<Act>
    requires Runs(s, steps)
    decreases steps
  {
    if steps == [] then [] else ActOf(s, steps[0]) + ActsOf(Next(s, steps[0]), steps[1..])
  }

  lemma {:induction false} ActsThen(m: Sync, a: seq<Act>, b: seq<Act>)
    requires Acts(m, a) && Acts(Result(m, a), b)
    ensures Acts(m, a + b) && Result(m, a + b) == Result(Result(m, a), b)
    decreases a
  {
    if a == [] {
      assert a + b == b;
    } else {
      assert (a + b)[1..] == a[1..] + b;
      ActsThen(Effect(m, a[0]), a[1..], b);
    }
  }

  lemma {:induction false} RunRefines(s: State, steps: seq<Step>, m: Sync)
    requires Inv(s) && Agrees(s, m) && Runs(s, steps)
    ensures Inv(Run(s, steps)) && Acts(m, ActsOf(s, steps)) && Agrees(Run(s, steps), Result(m, ActsOf(s, steps)))
    decreases steps
  {
    if steps != [] {
      var a := ActOf(s, steps[0]);
      StepKeeps(s, steps[0]);
      StepRefines(s, steps[0], m);
      RunRefines(Next(s, steps[0]), steps[1..], Result(m, a));
      ActsThen(m, a, ActsOf(Next(s, steps[0]), steps[1..]));
    }
  }

  /**
   Every run of the interrupt-driven driver ends with the buffers that the synchronous driver
   gives when it serves the completed requests in completion order, among the same changes; and
   with its disk too, whenever no write is waiting for its interrupt.
   */
  lemma AsynchronousRefinesSynchronous(s: State, steps: seq<Step>)
    requires Init(s) && Runs(s, steps)
    ensures var m := Sync(s.disk, s.bufs);
            && Acts(m, ActsOf(s, steps))
            && Run(s, steps).bufs == Result(m, ActsOf(s, steps)).bufs
            && (Run(s, steps).done.None? ==> Run(s, steps).disk == Result(m, ActsOf(s, steps)).disk)
  {
    InitInv(s);
    RunRefines(s, steps, Sync(s.disk, s.bufs));
  }

  /** Requests finish in the order they were made, none is queued twice, and the head is the active one. */
  lemma FirstComeFirstServed(s: State, steps: seq<Step>)
    requires Init(s) && Runs(s, steps)
    ensures var t := Run(s, steps);
            && t.requests == t.finished + t.queue
            && (forall j, k | 0 <= j < k < |t.queue| :: t.queue[j] != t.queue[k])
            && (t.queue != [] ==> t.queue[0] < |t.bufs| && t.command == Start(t.bufs, t.queue[0]))
            && (t.queue == [] ==> t.command.None?)
  {
    InitInv(s);
    RunRefines(s, steps, Sync(s.disk, s.bufs));
  }

  /** A process in iderw is still queued, or its wait is over: no request is lost. */
  lemma NoLostRequest(s: State, steps: seq<Step>, b: nat)
    requires Init(s) && Runs(s, steps) && b in Run(s, steps).calls
    ensures b in Run(s, steps).queue || Enabled(Run(s, steps), Return(b))
  {
    InitInv(s);
    RunRefines(s, steps, Sync(s.disk, s.bufs));
  }
}
