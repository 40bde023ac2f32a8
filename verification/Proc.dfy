/**
 The process table of proc.c: allocation, fork, exit, wait, sleep, wakeup, kill and the scheduler as
 steps, one for each stretch of code that runs under ptable.lock or writes a single field without it.
 */
module Proc {

  datatype Option<+T> = None | Some(value: T)

  datatype Status = Unused | Embryo | Sleeping | Runnable | Running | Zombie

  /** What a process sleeps on: nothing, its own entry (in wait), or some other address. */
  datatype Chan = NoChan | WaitOn(p: nat) | Other(c: nat)

  datatype Entry = Entry(status: Status, pid: nat, parent: Option<nat>, chan: Chan, killed: bool)

  /**
   The table; the process on each CPU; the next pid; initproc; for each process inside fork the entry it
   is filling; and the pids that have exited and that wait has returned, in order.
   */
  datatype State = State(
    procs: seq<Entry>, cpus: seq<Option<nat>>, nextpid: nat, init: nat,
    forking: map<nat, nat>, exited: seq<nat>, reaped: seq<nat>)

  predicate Alive(e: Entry) {
    e.status.Sleeping? || e.status.Runnable? || e.status.Running?
  }

  // ----- Operations on the table

  /** wakeup1. */
  function Wake(procs: seq<Entry>, chan: Chan): (r: seq<Entry>)
    ensures |r| == |procs|
    ensures forall p | 0 <= p < |procs| ::
              r[p] == if procs[p].status.Sleeping? && procs[p].chan == chan then procs[p].(status := Runnable) else procs[p]
  {
    seq(|procs|, p requires 0 <= p < |procs| =>
      if procs[p].status.Sleeping? && procs[p].chan == chan then procs[p].(status := Runnable) else procs[p])
  }

  /** The children of p become children of init. */
  function Adopt(procs: seq<Entry>, p: nat, init: nat): (r: seq<Entry>)
    ensures |r| == |procs|
    ensures forall q | 0 <= q < |procs| ::
              r[q] == if procs[q].parent == Some(p) then procs[q].(parent := Some(init)) else procs[q]
  {
    seq(|procs|, q requires 0 <= q < |procs| =>
      if procs[q].parent == Some(p) then procs[q].(parent := Some(init)) else procs[q])
  }

  predicate ZombieChild(procs: seq<Entry>, p: nat, z: nat) {
    z < |procs| && procs[z].parent == Some(p) && procs[z].status.Zombie?
  }

  predicate HasZombie(procs: seq<Entry>, p: nat) {
    exists z | 0 <= z < |procs| :: ZombieChild(procs, p, z)
  }

  predicate HasChild(procs: seq<Entry>, p: nat) {
    exists z | 0 <= z < |procs| :: procs[z].parent == Some(p)
  }

  function WakeParent(procs: seq<Entry>, p: nat): seq<Entry>
    requires p < |procs|
  {
    if procs[p].parent.Some? then Wake(procs, WaitOn(procs[p].parent.value)) else procs
  }

  /** exit, from waking the parent to becoming a zombie. */
  function ExitTable(procs: seq<Entry>, p: nat, init: nat): seq<Entry>
    requires p < |procs|
  {
    var a := Adopt(WakeParent(procs, p), p, init);
    var b := if HasZombie(procs, p) then Wake(a, WaitOn(init)) else a;
    b[p := b[p].(status := Zombie)]
  }

  function Off(cpus: seq<Option<nat>>, p: nat): (r: seq<Option<nat>>)
    ensures |r| == |cpus| && forall c | 0 <= c < |cpus| :: r[c] == if cpus[c] == Some(p) then None else cpus[c]
  {
    seq(|cpus|, c requires 0 <= c < |cpus| => if cpus[c] == Some(p) then None else cpus[c])
  }

  // ----- Steps

  datatype Step =
    | Alloc(p: nat, n: nat)        // allocproc, called by p, finds entry n
    | ForkFail(p: nat)             // no stack or no memory: the entry is given back
    | SetParent(p: nat)            // fork stores the parent
    | ForkDone(p: nat)             // fork makes the child runnable
    | Exit(p: nat)
    | Reap(p: nat, z: nat)         // wait finds the exited child z
    | WaitNone(p: nat)             // wait returns -1
    | WaitSleep(p: nat)            // wait goes to sleep
    | Sleep(p: nat, c: nat)        // sleep on another address
    | Wakeup(c: nat)
    | Kill(pid: nat)
    | Yield(p: nat)
    | Dispatch(c: nat, p: nat)     // scheduler on CPU c picks p

  predicate Runs1(s: State, p: nat) {
    p < |s.procs| && s.procs[p].status.Running?
  }

  predicate FirstUnused(procs: seq<Entry>, n: nat) {
    n < |procs| && procs[n].status.Unused? && forall i | 0 <= i < n :: !procs[i].status.Unused?
  }

  predicate FirstZombie(procs: seq<Entry>, p: nat, z: nat) {
    ZombieChild(procs, p, z) && forall i | 0 <= i < z :: !ZombieChild(procs, p, i)
  }

  predicate Enabled(s: State, e: Step) {
    match e
    case Alloc(p, n) => Runs1(s, p) && p !in s.forking && FirstUnused(s.procs, n)
    case ForkFail(p) => Runs1(s, p) && p in s.forking && s.forking[p] < |s.procs| && s.procs[s.forking[p]].parent.None?
    case SetParent(p) => Runs1(s, p) && p in s.forking && s.forking[p] < |s.procs|
    case ForkDone(p) => Runs1(s, p) && p in s.forking && s.forking[p] < |s.procs| && s.procs[s.forking[p]].parent.Some?
    case Exit(p) => Runs1(s, p) && p !in s.forking && p != s.init
    case Reap(p, z) => Runs1(s, p) && p !in s.forking && FirstZombie(s.procs, p, z)
    case WaitNone(p) => Runs1(s, p) && p !in s.forking && !HasZombie(s.procs, p) && (!HasChild(s.procs, p) || s.procs[p].killed)
    case WaitSleep(p) => Runs1(s, p) && p !in s.forking && !HasZombie(s.procs, p) && HasChild(s.procs, p) && !s.procs[p].killed
    case Sleep(p, c) => Runs1(s, p) && p !in s.forking
    case Wakeup(c) => true
    case Kill(pid) => true
    case Yield(p) => Runs1(s, p)
    case Dispatch(c, p) => c < |s.cpus| && s.cpus[c].None? && p < |s.procs| && s.procs[p].status.Runnable?
  }

  function Put(s: State, p: nat, e: Entry): State
    requires p < |s.procs|
  {
    s.(procs := s.procs[p := e])
  }

  /** The first entry with the pid, whatever its status. */
  function Find(procs: seq<Entry>, pid: nat, i: nat): (r: nat)
    requires i <= |procs|
    ensures i <= r <= |procs|
    ensures r < |procs| ==> procs[r].pid == pid
    ensures forall j | i <= j < r :: procs[j].pid != pid
    decreases |procs| - i
  {
    if i == |procs| || procs[i].pid == pid then i else Find(procs, pid, i + 1)
  }

  function Killed(e: Entry): Entry {
    e.(killed := true, status := if e.status.Sleeping? then Runnable else e.status)
  }

  function KillTable(procs: seq<Entry>, pid: nat): seq<Entry> {
    if Find(procs, pid, 0) == |procs| then procs
    else procs[Find(procs, pid, 0) := Killed(procs[Find(procs, pid, 0)])]
  }

  function Next(s: State, e: Step): State
    requires Enabled(s, e)
  {
    match e
    case Alloc(p, n) =>
      Put(s, n, s.procs[n].(status := Embryo, pid := s.nextpid)).(nextpid := s.nextpid + 1, forking := s.forking[p := n])
    case ForkFail(p) => Put(s, s.forking[p], s.procs[s.forking[p]].(status := Unused)).(forking := s.forking - {p})
    case SetParent(p) => Put(s, s.forking[p], s.procs[s.forking[p]].(parent := Some(p)))
    case ForkDone(p) => Put(s, s.forking[p], s.procs[s.forking[p]].(status := Runnable)).(forking := s.forking - {p})
    case Exit(p) => s.(procs := ExitTable(s.procs, p, s.init), cpus := Off(s.cpus, p), exited := s.exited + [s.procs[p].pid])
    case Reap(p, z) =>
      Put(s, z, s.procs[z].(status := Unused, pid := 0, parent := None, killed := false)).(reaped := s.reaped + [s.procs[z].pid])
    case WaitNone(p) => s
    case WaitSleep(p) => Put(s, p, s.procs[p].(status := Sleeping, chan := WaitOn(p))).(cpus := Off(s.cpus, p))
    case Sleep(p, c) => Put(s, p, s.procs[p].(status := Sleeping, chan := Other(c))).(cpus := Off(s.cpus, p))
    case Wakeup(c) => s.(procs := Wake(s.procs, Other(c)))
    case Kill(pid) => s.(procs := KillTable(s.procs, pid))
    case Yield(p) => Put(s, p, s.procs[p].(status := Runnable)).(cpus := Off(s.cpus, p))
    case Dispatch(c, p) => Put(s, p, s.procs[p].(status := Running, chan := NoChan)).(cpus := s.cpus[c := Some(p)])
  }

  /** After userinit: init alone, runnable, and all CPUs idle. */
  predicate Init(s: State) {
    && s.init < |s.procs| && s.nextpid == 2 && s.forking == map[] && s.exited == [] && s.reaped == []
    && s.procs[s.init] == Entry(Runnable, 1, None, NoChan, false)
    && (forall p | 0 <= p < |s.procs| && p != s.init :: s.procs[p] == Entry(Unused, 0, None, NoChan, false))
    && (forall c | 0 <= c < |s.cpus| :: s.cpus[c].None?)
  }

  ghost predicate Runs(s: State, steps: seq<Step>)
    decreases steps
  {
    steps == [] || (Enabled(s, steps[0]) && Runs(Next(s, steps[0]), steps[1..]))
  }

  ghost function Run(s: State, steps: seq<Step>): State
    requires Runs(s, steps)
    decreases steps
  {
    if steps == [] then s else Run(Next(s, steps[0]), steps[1..])
  }
}
