/**
 pipe.c: a ring buffer with wrapping 32-bit counters, read and written by any number of
 processes.  One step is one stretch of pipewrite or piperead with p->lock held, from getting
 the lock (or waking up with it) to returning or going to sleep.  kill does not take that lock: one
 that falls between a stretch's test of `killed` and its sleep is a LateKill, taken after the stretch.
 */
module Pipe {

  const PIPESIZE: nat := 512
  const WORD: nat := 0x1_0000_0000

  type Byte = int
  type Pid = nat

  /** struct pipe. */
  datatype Ring = Ring(data: seq<Byte>, nread: nat, nwrite: nat)
  {
    predicate Full() { nwrite == (nread + PIPESIZE) % WORD }
    predicate Empty() { nread == nwrite }
  }

  function Put(r: Ring, c: Byte): Ring
    requires |r.data| == PIPESIZE
  {
    Ring(r.data[r.nwrite % PIPESIZE := c], r.nread, (r.nwrite + 1) % WORD)
  }

  /** The copy loop of pipewrite, up to the end of the bytes or a full buffer. */
  function PutAll(r: Ring, bytes: seq<Byte>): (res: (Ring, seq<Byte>))
    requires |r.data| == PIPESIZE
    ensures |res.0.data| == PIPESIZE && |res.1| <= |bytes|
    decreases |bytes|
  {
    if bytes == [] || r.Full() then (r, bytes) else PutAll(Put(r, bytes[0]), bytes[1..])
  }

  /** The copy loop of piperead, up to n bytes or an empty buffer. */
  function GetAll(r: Ring, n: nat): (res: (Ring, seq<Byte>))
    requires |r.data| == PIPESIZE
    ensures res.0.data == r.data && res.0.nwrite == r.nwrite && |res.1| <= n
    decreases n
  {
    if n == 0 || r.Empty() then (r, [])
    else
      var rest := GetAll(r.(nread := (r.nread + 1) % WORD), n - 1);
      (rest.0, [r.data[r.nread % PIPESIZE]] + rest.1)
  }

  /** A write in progress: which call it is, and the bytes it still has to write. */
  datatype Writing = Writing(call: nat, left: seq<Byte>)

  /** What a call of write or read came back with. */
  datatype Return = Wrote(call: nat, n: nat) | WriteFailed(call: nat) | Got(p: Pid, n: nat, bytes: seq<Byte>) | ReadFailed(p: Pid)

  /**
   writers and readers are the calls in progress, readers with the number of bytes wanted.  The rest
   is history: all bytes ever put into and taken from the pipe, the call that put each of them, the
   bytes each write was called with, and the returns so far.
   */
  datatype State = State(
    ring: Ring, readopen: bool, writeopen: bool,
    writers: map<Pid, Writing>, readers: map<Pid, nat>, asleep: set<Pid>, killed: set<Pid>,
    stored: seq<Byte>, delivered: seq<Byte>,
    source: seq<nat>, given: seq<seq<Byte>>, results: seq<Return>)

  datatype Step =
    | StartWrite(p: Pid, bytes: seq<Byte>) | RunWrite(p: Pid)
    | StartRead(p: Pid, n: nat) | RunRead(p: Pid)
    | CloseRead | CloseWrite
    | Kill(p: Pid)       // marks p and wakes it up
    | LateKill(p: Pid)   // marks p, which was about to sleep and goes on to do so

  predicate Init(s: State) {
    && |s.ring.data| == PIPESIZE && s.ring.nread == 0 && s.ring.nwrite == 0 && s.readopen && s.writeopen
    && s.writers == map[] && s.readers == map[] && s.asleep == {} && s.killed == {}
    && s.stored == [] && s.delivered == [] && s.source == [] && s.given == [] && s.results == []
  }

  /** A call in progress holds its end of the pipe open, so an end is closed only when nobody uses it. */
  predicate Enabled(s: State, st: Step) {
    |s.ring.data| == PIPESIZE &&
    match st
    case StartWrite(p, bytes) => s.writeopen && p !in s.writers && p !in s.readers
    case RunWrite(p) => p in s.writers && p !in s.asleep
    case StartRead(p, n) => s.readopen && p !in s.writers && p !in s.readers
    case RunRead(p) => p in s.readers && p !in s.asleep
    case CloseRead => s.readopen && s.readers == map[]
    case CloseWrite => s.writeopen && s.writers == map[]
    case Kill(p) => true
    case LateKill(p) => p in s.asleep
  }

  /** Who still sleeps after wakeup(&p->nread). */
  function WakeReaders(s: State): set<Pid> {
    set p | p in s.asleep && p !in s.readers
  }

  /** Who still sleeps after wakeup(&p->nwrite). */
  function WakeWriters(s: State): set<Pid> {
    set p | p in s.asleep && p !in s.writers
  }

  function Labels(n: nat, c: nat): (r: seq<nat>)
    ensures |r| == n && forall k | 0 <= k < n :: r[k] == c
  {
    seq(n, _ => c)
  }

  /** The count a write was called with. */
  function GivenTo(s: State, c: nat): nat {
    if c < |s.given| then |s.given[c]| else 0
  }

  function Next(s: State, st: Step): State
    requires Enabled(s, st)
  {
    match st
    case StartWrite(p, bytes) => s.(writers := s.writers[p := Writing(|s.given|, bytes)], given := s.given + [bytes])
    case RunWrite(p) =>
      var c, bytes := s.writers[p].call, s.writers[p].left;
      var (ring, left) := PutAll(s.ring, bytes);
      var n := |bytes| - |left|;
      var s1 := s.(ring := ring, stored := s.stored + bytes[..n], source := s.source + Labels(n, c));
      if left == [] then
        s1.(writers := s.writers - {p}, asleep := WakeReaders(s), results := s.results + [Wrote(c, GivenTo(s, c))])
      else if !s.readopen || p in s.killed then
        s1.(writers := s.writers - {p}, results := s.results + [WriteFailed(c)])
      else
        s1.(writers := s.writers[p := Writing(c, left)], asleep := WakeReaders(s) + {p})
    case StartRead(p, n) => s.(readers := s.readers[p := n])
    case RunRead(p) =>
      if s.ring.Empty() && s.writeopen then
        if p in s.killed then s.(readers := s.readers - {p}, results := s.results + [ReadFailed(p)])
        else s.(asleep := s.asleep + {p})
      else
        var (ring, out) := GetAll(s.ring, s.readers[p]);
        s.(ring := ring, delivered := s.delivered + out, readers := s.readers - {p}, asleep := WakeWriters(s),
           results := s.results + [Got(p, s.readers[p], out)])
    case CloseRead => s.(readopen := false, asleep := WakeWriters(s))
    case CloseWrite => s.(writeopen := false, asleep := WakeReaders(s))
    case Kill(p) => s.(killed := s.killed + {p}, asleep := s.asleep - {p})
    case LateKill(p) => s.(killed := s.killed + {p})
  }

  ghost predicate Runs(s: State, steps: seq<Step>)
    decreases |steps|
  {
    steps == [] || (Enabled(s, steps[0]) && Runs(Next(s, steps[0]), steps[1..]))
  }

  ghost function Run(s: State, steps: seq<Step>): State
    requires Runs(s, steps)
    decreases |steps|
  {
    if steps == [] then s else Run(Next(s, steps[0]), steps[1..])
  }

  // ----- The buffer holds the bytes stored and not yet delivered

  /** `in` bytes went in and `out` came out; the counters are those numbers modulo 2^32. */
  ghost predicate Holds(r: Ring, stored: seq<Byte>, out: nat) {
    && |r.data| == PIPESIZE && out <= |stored| <= out + PIPESIZE
    && r.nread == out % WORD && r.nwrite == |stored| % WORD
    && forall k | out <= k < |stored| :: r.data[k % PIPESIZE] == stored[k]
  }

  lemma ModNext(x: nat)
    ensures (x % WORD + 1) % WORD == (x + 1) % WORD
  {
  }

  lemma ModAdd(x: nat)
    ensures (x % WORD + PIPESIZE) % WORD == (x + PIPESIZE) % WORD
  {
  }

  /** The buffer size divides 2^32, so the index does not jump when a counter wraps around. */
  lemma IndexWraps(x: nat)
    ensures x % WORD % PIPESIZE == x % PIPESIZE
  {
    var q := x / WORD;
    assert x == q * WORD + x % WORD;
    assert x == q * 8388608 * PIPESIZE + x % WORD;
    ModShift(x % WORD, q * 8388608);
  }

  lemma {:induction false} ModShift(x: nat, k: nat)
    ensures (k * PIPESIZE + x) % PIPESIZE == x % PIPESIZE
    decreases k
  {
    if k > 0 {
      ModShift(x, k - 1);
      assert k * PIPESIZE + x == ((k - 1) * PIPESIZE + x) + PIPESIZE;
    }
  }

  /** Two positions less than a buffer apart use different cells. */
  lemma Apart(a: nat, b: nat)
    requires a < b < a + PIPESIZE
    ensures a % PIPESIZE != b % PIPESIZE
  {
  }

  lemma FullIff(r: Ring, stored: seq<Byte>, out: nat)
    requires Holds(r, stored, out)
    ensures r.Full() <==> |stored| == out + PIPESIZE
    ensures r.Empty() <==> |stored| == out
  {
    ModAdd(out);
    var d := |stored| - out;
    assert |stored| == out + d;
  }

  lemma PutHolds(r: Ring, stored: seq<Byte>, out: nat, c: Byte)
    requires Holds(r, stored, out) && !r.Full()
    ensures Holds(Put(r, c), stored + [c], out)
  {
    FullIff(r, stored, out);
    ModNext(|stored|);
    IndexWraps(|stored|);
    forall k | out <= k < |stored| ensures k % PIPESIZE != |stored| % PIPESIZE {
      Apart(k, |stored|);
    }
  }

  lemma {:induction false} PutAllHolds(r: Ring, stored: seq<Byte>, out: nat, bytes: seq<Byte>)
    requires Holds(r, stored, out)
    ensures |r.data| == PIPESIZE
    ensures var (r', left) := PutAll(r, bytes);
            && Holds(r', stored + bytes[..|bytes| - |left|], out)
            && (left != [] ==> r'.Full())
    decreases |bytes|
  {
    assert |r.data| == PIPESIZE;
    hide Holds;
    if bytes == [] || r.Full() {
      assert stored + bytes[..0] == stored;
    } else {
      PutHolds(r, stored, out, bytes[0]);
      PutAllHolds(Put(r, bytes[0]), stored + [bytes[0]], out, bytes[1..]);
      var left := PutAll(r, bytes).1;
      assert stored + [bytes[0]] + bytes[1..][..|bytes| - 1 - |left|] == stored + bytes[..|bytes| - |left|];
    }
  }

  /** What a stretch of pipewrite leaves to be written is the rest of its bytes. */
  lemma {:induction false} PutAllLeft(r: Ring, bytes: seq<Byte>)
    requires |r.data| == PIPESIZE
    ensures var left := PutAll(r, bytes).1; bytes == bytes[..|bytes| - |left|] + left
    decreases |bytes|
  {
    var left := PutAll(r, bytes).1;
    if bytes != [] && !r.Full() {
      PutAllLeft(Put(r, bytes[0]), bytes[1..]);
      assert bytes == [bytes[0]] + bytes[1..];
      assert [bytes[0]] + bytes[1..][..|bytes| - 1 - |left|] == bytes[..|bytes| - |left|];
    } else {
      assert bytes[..0] + bytes == bytes;
    }
  }

  lemma GetHolds(r: Ring, stored: seq<Byte>, out: nat)
    requires Holds(r, stored, out) && !r.Empty()
    ensures out < |stored| && r.data[r.nread % PIPESIZE] == stored[out]
    ensures Holds(r.(nread := (r.nread + 1) % WORD), stored, out + 1)
  {
    FullIff(r, stored, out);
    ModNext(out);
    IndexWraps(out);
  }

  lemma {:induction false} GetAllHolds(r: Ring, stored: seq<Byte>, out: nat, n: nat)
    requires Holds(r, stored, out)
    ensures out <= |stored| && |r.data| == PIPESIZE
    ensures var (r', got) := GetAll(r, n);
            && |got| == (if n <= |stored| - out then n else |stored| - out)
            && got == stored[out..out + |got|] && Holds(r', stored, out + |got|)
    decreases n
  {
    FullIff(r, stored, out);
    assert |r.data| == PIPESIZE && out <= |stored|;
    GetAllStep(r, n);
    hide Holds, GetAll;
    if n != 0 && !r.Empty() {
      GetHolds(r, stored, out);
      var r1 := r.(nread := (r.nread + 1) % WORD);
      GetAllHolds(r1, stored, out + 1, n - 1);
      SliceCons(stored, out, |GetAll(r1, n - 1).1|);
    }
  }

  lemma SliceCons(b: seq<Byte>, i: nat, n: nat)
    requires i + 1 + n <= |b|
    ensures [b[i]] + b[i + 1..i + 1 + n] == b[i..i + 1 + n]
  {
  }

  lemma GetAllStep(r: Ring, n: nat)
    requires |r.data| == PIPESIZE
    ensures n == 0 || r.Empty() ==> GetAll(r, n) == (r, [])
    ensures n > 0 && !r.Empty() ==>
              var rest := GetAll(r.(nread := (r.nread + 1) % WORD), n - 1);
              GetAll(r, n) == (rest.0, [r.data[r.nread % PIPESIZE]] + rest.1)
  {
  }

  // ----- Every step keeps the buffer and the order of the bytes

  /** What came out is a prefix of what went in, and the rest is in the buffer. */
  ghost predicate Inv(s: State) {
    && Holds(s.ring, s.stored, |s.delivered|) && s.delivered <= s.stored
    && (s.readers != map[] ==> s.readopen) && (s.writers != map[] ==> s.writeopen)
    && s.writers.Keys !! s.readers.Keys && s.asleep <= s.writers.Keys + s.readers.Keys
  }

  lemma StepKeeps(s: State, st: Step)
    requires Inv(s) && Enabled(s, st)
    ensures Inv(Next(s, st))
  {
    hide Holds, PutAll, GetAll;
    if st.RunWrite? { PutAllHolds(s.ring, s.stored, |s.delivered|, s.writers[st.p].left); }
    if st.RunRead? { GetAllHolds(s.ring, s.stored, |s.delivered|, s.readers[st.p]); }
  }

  lemma {:induction false} RunKeeps(s: State, steps: seq<Step>)
    requires Inv(s) && Runs(s, steps)
    ensures Inv(Run(s, steps))
    decreases |steps|
  {
    hide Next, Enabled, Inv;
    if steps != [] {
      StepKeeps(s, steps[0]);
      RunKeeps(Next(s, steps[0]), steps[1..]);
    }
  }

  /** Whatever readers and writers do, bytes come out in the order they went in. */
  lemma FirstInFirstOut(s: State, steps: seq<Step>)
    requires Init(s) && Runs(s, steps)
    ensures var e := Run(s, steps);
            && e.delivered <= e.stored && |e.stored| - |e.delivered| <= PIPESIZE
            && e.ring.nwrite == (e.ring.nread + (|e.stored| - |e.delivered|)) % WORD
            && (e.ring.Full() <==> |e.stored| - |e.delivered| == PIPESIZE)
            && (e.ring.Empty() <==> e.stored == e.delivered)
  {
    RunKeeps(s, steps);
    var e := Run(s, steps);
    FullIff(e.ring, e.stored, |e.delivered|);
    ModSum(|e.delivered|, |e.stored| - |e.delivered|);
  }

  lemma ModSum(x: nat, d: nat)
    ensures (x % WORD + d) % WORD == (x + d) % WORD
  {
  }

  // ----- Sleeping and waking

  /** Nobody sleeps who could go on: readers wait for data or the end, writers for room or a reader. */
  ghost predicate NoLostWakeup(s: State) {
    && (forall p | p in s.asleep && p in s.readers :: s.ring.Empty() && s.writeopen)
    && (forall p | p in s.asleep && p in s.writers :: s.ring.Full() && s.readopen)
  }

  /**
   The one stretch of code that loses a wakeup: a killed process fills an empty pipe on which a
   reader sleeps, still has bytes left, and returns from inside the loop (pipe.c:87-90).
   */
  ghost predicate KilledFill(s: State, st: Step) {
    && st.RunWrite? && st.p in s.writers && st.p in s.killed && s.readopen
    && |s.writers[st.p].left| > PIPESIZE
    && exists r :: r in s.readers && r in s.asleep
  }

  lemma {:induction false} PutAllCount(r: Ring, stored: seq<Byte>, out: nat, bytes: seq<Byte>)
    requires Holds(r, stored, out)
    ensures |r.data| == PIPESIZE
    ensures var room := out + PIPESIZE - |stored|;
            |PutAll(r, bytes).1| == if |bytes| <= room then 0 else |bytes| - room
    decreases |bytes|
  {
    FullIff(r, stored, out);
    assert |r.data| == PIPESIZE && |stored| <= out + PIPESIZE;
    hide Holds;
    if bytes != [] && !r.Full() {
      PutHolds(r, stored, out, bytes[0]);
      PutAllCount(Put(r, bytes[0]), stored + [bytes[0]], out, bytes[1..]);
    }
  }

  /** From a state without lost wakeups, exactly that stretch leads to one. */
  lemma LosesWakeupIff(s: State, st: Step)
    requires Inv(s) && NoLostWakeup(s) && Enabled(s, st)
    ensures NoLostWakeup(Next(s, st)) <==> !KilledFill(s, st)
  {
    FullIff(s.ring, s.stored, |s.delivered|);
    StepKeeps(s, st);
    var s' := Next(s, st);
    FullIff(s'.ring, s'.stored, |s'.delivered|);
    if st.RunWrite? {
      PutAllCount(s.ring, s.stored, |s.delivered|, s.writers[st.p].left);
      PutAllHolds(s.ring, s.stored, |s.delivered|, s.writers[st.p].left);
    }
  }

  /** Runs in which that does not happen; without kill, every run is one. */
  ghost predicate Careful(s: State, steps: seq<Step>)
    requires Runs(s, steps)
    decreases |steps|
  {
    steps == [] || (!KilledFill(s, steps[0]) && Careful(Next(s, steps[0]), steps[1..]))
  }

  lemma {:induction false} CarefulRunsWake(s: State, steps: seq<Step>)
    requires Inv(s) && NoLostWakeup(s) && Runs(s, steps) && Careful(s, steps)
    ensures NoLostWakeup(Run(s, steps))
    decreases |steps|
  {
    hide Next, Enabled, Inv, NoLostWakeup, KilledFill;
    if steps != [] {
      StepKeeps(s, steps[0]);
      LosesWakeupIff(s, steps[0]);
      CarefulRunsWake(Next(s, steps[0]), steps[1..]);
    }
  }

  lemma {:induction false} WithoutKillCareful(s: State, steps: seq<Step>)
    requires Runs(s, steps) && s.killed == {} && forall i | 0 <= i < |steps| :: !steps[i].Kill? && !steps[i].LateKill?
    ensures Careful(s, steps)
    decreases |steps|
  {
    if steps != [] {
      assert Next(s, steps[0]).killed == {};
      WithoutKillCareful(Next(s, steps[0]), steps[1..]);
    }
  }

  /** In a run without kill nobody ever sleeps who could go on. */
  lemma WithoutKillNoLostWakeup(s: State, steps: seq<Step>)
    requires Init(s) && Runs(s, steps) && forall i | 0 <= i < |steps| :: !steps[i].Kill? && !steps[i].LateKill?
    ensures NoLostWakeup(Run(s, steps))
  {
    WithoutKillCareful(s, steps);
    CarefulRunsWake(s, steps);
  }

  /** A killed writer of 513 bytes leaves reader 0 asleep on a full pipe. */
  lemma KillLosesWakeup(s: State) returns (steps: seq<Step>)
    requires Init(s)
    ensures Runs(s, steps) && !NoLostWakeup(Run(s, steps))
  {
    var bytes := seq(PIPESIZE + 1, i => 0);
    var s1 := Next(s, StartRead(0, 1));
    var s2 := Next(s1, RunRead(0));
    var s3 := Next(s2, StartWrite(1, bytes));
    var s4 := Next(s3, Kill(1));
    StepKeeps(s, StartRead(0, 1));
    StepKeeps(s1, RunRead(0));
    StepKeeps(s2, StartWrite(1, bytes));
    StepKeeps(s3, Kill(1));
    assert 0 in s4.readers && 0 in s4.asleep;
    LosesWakeupIff(s4, RunWrite(1));
    var t3, t2, t1 := [Kill(1), RunWrite(1)], [StartWrite(1, bytes), Kill(1), RunWrite(1)], [RunRead(0), StartWrite(1, bytes), Kill(1), RunWrite(1)];
    steps := [StartRead(0, 1), RunRead(0), StartWrite(1, bytes), Kill(1), RunWrite(1)];
    assert steps[1..] == t1 && t1[1..] == t2 && t2[1..] == t3 && t3[1..] == [RunWrite(1)];
    var e := Next(s4, RunWrite(1));
    assert Runs(s4, [RunWrite(1)]) && Run(s4, [RunWrite(1)]) == e;
    assert Runs(s3, t3) && Run(s3, t3) == e;
    assert Runs(s2, t2) && Run(s2, t2) == e;
    assert Runs(s1, t1) && Run(s1, t1) == e;
    assert Runs(s, steps) && Run(s, steps) == e;
  }
}
