/** What holds in every reachable state of the process table. */
module ProcTheorems {
  import opened Proc
  import opened ProcInvariant

  /** Each running process is on exactly one CPU, and a CPU's process is running. */
  lemma RunningOnOneCpu(s: State, steps: seq<Step>)
    requires Init(s) && Runs(s, steps)
    ensures var t := Run(s, steps);
            && (forall p | 0 <= p < |t.procs| && t.procs[p].status.Running? :: OnCpu(t, p))
            && (forall b, c | 0 <= b < c < |t.cpus| && t.cpus[b].Some? :: t.cpus[b] != t.cpus[c])
            && (forall c | 0 <= c < |t.cpus| :: CpuOk(t, c))
  {
    InitInv(s);
    RunKeeps(s, steps);
  }

  /** Processes in use have distinct pids. */
  lemma DistinctPids(s: State, steps: seq<Step>, p: nat, q: nat)
    requires Init(s) && Runs(s, steps) && p < |Run(s, steps).procs| && q < |Run(s, steps).procs| && p != q
    requires !Run(s, steps).procs[p].status.Unused? && !Run(s, steps).procs[q].status.Unused?
    ensures Run(s, steps).procs[p].pid != Run(s, steps).procs[q].pid
  {
    InitInv(s);
    RunKeeps(s, steps);
  }

  /** No process has an exited, free or unfinished parent, and every exited process has a living one to reap it. */
  lemma ParentsAlive(s: State, steps: seq<Step>, p: nat)
    requires Init(s) && Runs(s, steps) && p < |Run(s, steps).procs|
    ensures var t := Run(s, steps);
            && (t.procs[p].parent.Some? ==> t.procs[p].parent.value < |t.procs| && Alive(t.procs[t.procs[p].parent.value]))
            && (t.procs[p].status.Zombie? ==> t.procs[p].parent.Some?)
  {
    InitInv(s);
    RunKeeps(s, steps);
    assert FamilyOk(Run(s, steps), p);
  }

  /** No process sleeps in wait while it has an exited child. */
  lemma NoLostExit(s: State, steps: seq<Step>, p: nat)
    requires Init(s) && Runs(s, steps) && p < |Run(s, steps).procs|
    requires Run(s, steps).procs[p].status.Sleeping? && Run(s, steps).procs[p].chan.WaitOn?
    ensures !HasZombie(Run(s, steps).procs, p)
  {
    InitInv(s);
    RunKeeps(s, steps);
    assert WaitOk(Run(s, steps), p);
  }

  /** wait returns each pid at most once, and only pids of processes that exited. */
  lemma ReapedOnce(s: State, steps: seq<Step>)
    requires Init(s) && Runs(s, steps)
    ensures var t := Run(s, steps);
            && (forall i, j | 0 <= i < j < |t.reaped| :: t.reaped[i] != t.reaped[j])
            && (forall i | 0 <= i < |t.reaped| :: t.reaped[i] in t.exited)
            && (forall i, j | 0 <= i < j < |t.exited| :: t.exited[i] != t.exited[j])
  {
    InitInv(s);
    RunKeeps(s, steps);
  }

  // ----- How a process changes state

  /** Step e takes entry p from status a to status b. */
  predicate Moves(s: State, e: Step, p: nat, a: Status, b: Status)
    requires p < |s.procs|
  {
    match (a, b)
    case (Unused, Embryo) => e.Alloc? && e.n == p
    case (Embryo, Unused) => e.ForkFail? && e.p in s.forking && s.forking[e.p] == p
    case (Embryo, Runnable) => e.ForkDone? && e.p in s.forking && s.forking[e.p] == p
    case (Runnable, Running) => e.Dispatch? && e.p == p
    case (Running, Runnable) => e == Yield(p)
    case (Running, Sleeping) => (e.WaitSleep? || e.Sleep?) && e.p == p
    case (Running, Zombie) => e == Exit(p)
    case (Sleeping, Runnable) => Wakes(s, e, p)
    case (Zombie, Unused) => e.Reap? && e.z == p && s.procs[p].parent == Some(e.p)
    case _ => false
  }

  /** A sleeper wakes by a wakeup on its channel, a kill of its pid, or, in wait, an exit that concerns it. */
  predicate Wakes(s: State, e: Step, p: nat)
    requires p < |s.procs|
  {
    || (e.Wakeup? && s.procs[p].chan == Other(e.c))
    || (e.Kill? && e.pid == s.procs[p].pid)
    || (e.Exit? && e.p < |s.procs|
        && ((s.procs[e.p].parent.Some? && s.procs[p].chan == WaitOn(s.procs[e.p].parent.value))
            || (s.procs[p].chan == WaitOn(s.init)
                && exists z | 0 <= z < |s.procs| :: s.procs[z].parent == Some(e.p) && s.procs[z].status == Zombie)))
  }

  lemma ExitMoves(s: State, q: nat, p: nat)
    requires Enabled(s, Exit(q)) && p < |s.procs|
    ensures var t := Next(s, Exit(q));
            && |t.procs| == |s.procs|
            && (t.procs[p].status != s.procs[p].status ==> Moves(s, Exit(q), p, s.procs[p].status, t.procs[p].status))
  {
    ExitTableIs(s, q);
    hide ExitTable;
    if Roused(s, q, p) && HasZombie(s.procs, q) {
      var z :| 0 <= z < |s.procs| && ZombieChild(s.procs, q, z);
      assert s.procs[z].parent == Some(q) && s.procs[z].status == Zombie;
    }
  }

  /** In every reachable state a step changes a process's status only along these moves. */
  lemma StatusChanges(s: State, e: Step, p: nat)
    requires Inv(s) && Enabled(s, e) && p < |s.procs|
    ensures var t := Next(s, e);
            && |t.procs| == |s.procs|
            && (t.procs[p].status != s.procs[p].status ==> Moves(s, e, p, s.procs[p].status, t.procs[p].status))
  {
    if e.Exit? {
      ExitMoves(s, e.p, p);
    } else if e.Kill? {
      assert Find(s.procs, e.pid, 0) == p || KillTable(s.procs, e.pid)[p] == s.procs[p];
    } else {
      if e.ForkFail? || e.ForkDone? || e.SetParent? { assert ForkOk(s, e.p); }
      hide Inv, HasZombie, HasChild, ExitTable;
    }
  }

  // ----- No exit is forgotten

  ghost predicate ZombieWith(procs: seq<Entry>, pid: nat) {
    exists z | 0 <= z < |procs| :: procs[z].status.Zombie? && procs[z].pid == pid
  }

  /** Every pid that exited has been returned by wait or is still in the table, exited. */
  ghost predicate Remembered(s: State) {
    forall i | 0 <= i < |s.exited| :: s.exited[i] in s.reaped || ZombieWith(s.procs, s.exited[i])
  }

  lemma ZombieKept(s: State, e: Step, z: nat)
    requires Inv(s) && Enabled(s, e) && z < |s.procs| && s.procs[z].status.Zombie?
    ensures var t := Next(s, e);
            && z < |t.procs|
            && (if e.Reap? && e.z == z then s.procs[z].pid in t.reaped
                else t.procs[z].status.Zombie? && t.procs[z].pid == s.procs[z].pid)
  {
    if e.Exit? {
      ExitTableIs(s, e.p);
    } else if e.ForkFail? || e.ForkDone? || e.SetParent? {
      assert ForkOk(s, e.p);
    }
    hide Inv, ExitTable, Roused, HasZombie, HasChild;
  }

  lemma RememberedKept(s: State, e: Step)
    requires Inv(s) && Remembered(s) && Enabled(s, e)
    ensures Remembered(Next(s, e))
  {
    var t := Next(s, e);
    if e.Exit? { ExitTableIs(s, e.p); }
    forall i | 0 <= i < |t.exited|
      ensures t.exited[i] in t.reaped || ZombieWith(t.procs, t.exited[i])
    {
      if i < |s.exited| && s.exited[i] !in s.reaped {
        var z :| 0 <= z < |s.procs| && s.procs[z].status.Zombie? && s.procs[z].pid == s.exited[i];
        ZombieKept(s, e, z);
      } else if i == |s.exited| {
        assert t.procs[e.p].status.Zombie? && t.procs[e.p].pid == t.exited[i];
      }
    }
  }

  lemma {:induction false} RunRemembers(s: State, steps: seq<Step>)
    requires Inv(s) && Remembered(s) && Runs(s, steps)
    ensures Remembered(Run(s, steps))
    decreases steps
  {
    if steps != [] {
      RememberedKept(s, steps[0]);
      StepKeeps(s, steps[0]);
      hide Inv, Remembered, Next, Enabled;
      RunRemembers(Next(s, steps[0]), steps[1..]);
    }
  }

  /** Every process that exited has been waited for, or is in the table with a living parent that can. */
  lemma NoExitForgotten(s: State, steps: seq<Step>, i: nat)
    requires Init(s) && Runs(s, steps) && i < |Run(s, steps).exited|
    ensures var t := Run(s, steps);
            || t.exited[i] in t.reaped
            || exists z | 0 <= z < |t.procs| ::
                 && t.procs[z].status.Zombie? && t.procs[z].pid == t.exited[i]
                 && t.procs[z].parent.Some? && t.procs[z].parent.value < |t.procs| && Alive(t.procs[t.procs[z].parent.value])
  {
    InitInv(s);
    RunRemembers(s, steps);
    var t := Run(s, steps);
    if t.exited[i] !in t.reaped {
      var z :| 0 <= z < |t.procs| && t.procs[z].status.Zombie? && t.procs[z].pid == t.exited[i];
      ParentsAlive(s, steps, z);
    }
  }

  // ----- What wait and kill come to

  /** wait by a running process takes one of its three ways, by the children it has. */
  lemma WaitOutcome(s: State, p: nat)
    requires p < |s.procs| && s.procs[p].status == Running && p !in s.forking
    ensures (exists z: nat :: Enabled(s, Reap(p, z)))
            <==> exists z | 0 <= z < |s.procs| :: s.procs[z].parent == Some(p) && s.procs[z].status == Zombie
    ensures Enabled(s, WaitSleep(p))
            <==> (exists z | 0 <= z < |s.procs| :: s.procs[z].parent == Some(p)) && !s.procs[p].killed
                 && forall z | 0 <= z < |s.procs| && s.procs[z].parent == Some(p) :: s.procs[z].status != Zombie
    ensures Enabled(s, WaitNone(p))
            <==> ((forall z | 0 <= z < |s.procs| :: s.procs[z].parent != Some(p)) || s.procs[p].killed)
                 && forall z | 0 <= z < |s.procs| && s.procs[z].parent == Some(p) :: s.procs[z].status != Zombie
  {
    if z: nat :| z < |s.procs| && s.procs[z].parent == Some(p) && s.procs[z].status == Zombie {
      assert ZombieChild(s.procs, p, z);
      var first := FirstZombieOf(s.procs, p, z);
      assert Enabled(s, Reap(p, first));
    }
  }

  lemma FirstZombieOf(procs: seq<Entry>, p: nat, z: nat) returns (r: nat)
    requires ZombieChild(procs, p, z)
    ensures FirstZombie(procs, p, r)
  {
    r := 0;
    while !ZombieChild(procs, p, r)
      invariant r <= z && forall i | 0 <= i < r :: !ZombieChild(procs, p, i)
      decreases z - r
    {
      r := r + 1;
    }
  }

  /** No pid but 0 stands in two entries, free ones included. */
  ghost predicate PidsApart(s: State) {
    && (forall p | 0 <= p < |s.procs| :: s.procs[p].pid < s.nextpid)
    && (forall p, q | 0 <= p < q < |s.procs| && s.procs[p].pid == s.procs[q].pid :: s.procs[p].pid == 0)
  }

  lemma PidsStay(s: State, e: Step)
    requires Inv(s) && Enabled(s, e) && !e.Alloc? && !e.Reap?
    ensures var t := Next(s, e);
            t.nextpid == s.nextpid && |t.procs| == |s.procs| && forall p | 0 <= p < |s.procs| :: t.procs[p].pid == s.procs[p].pid
  {
    if e.Exit? { ExitTableIs(s, e.p); }
    if e.Kill? { KillIs(s.procs, e.pid); }
    hide Inv, ExitTable, Roused, HasZombie, HasChild, KillTable;
  }

  lemma PidsApartKept(s: State, e: Step)
    requires PidsApart(s) && 0 < s.nextpid && Inv(s) && Enabled(s, e)
    ensures PidsApart(Next(s, e)) && 0 < Next(s, e).nextpid
  {
    if !e.Alloc? && !e.Reap? {
      PidsStay(s, e);
      hide Inv, Next, Enabled;
    } else {
      hide Inv, HasZombie, HasChild;
    }
  }

  lemma {:induction false} RunPidsApart(s: State, steps: seq<Step>)
    requires PidsApart(s) && 0 < s.nextpid && Inv(s) && Runs(s, steps)
    ensures PidsApart(Run(s, steps))
    decreases steps
  {
    if steps != [] {
      PidsApartKept(s, steps[0]);
      StepKeeps(s, steps[0]);
      hide Inv, PidsApart, Next, Enabled;
      RunPidsApart(Next(s, steps[0]), steps[1..]);
    }
  }

  /** kill marks the process with the pid and makes it runnable if it sleeps, whatever on; nobody else changes. */
  lemma KillReaches(s: State, steps: seq<Step>, p: nat)
    requires Init(s) && Runs(s, steps) && p < |Run(s, steps).procs| && !Run(s, steps).procs[p].status.Unused?
    ensures var t := Run(s, steps);
            var u := Next(t, Kill(t.procs[p].pid));
            && u == t.(procs := u.procs) && |u.procs| == |t.procs|
            && u.procs[p].killed && u.procs[p].status == (if t.procs[p].status == Sleeping then Runnable else t.procs[p].status)
            && u.procs[p].pid == t.procs[p].pid && u.procs[p].parent == t.procs[p].parent
            && forall q | 0 <= q < |t.procs| && q != p :: u.procs[q] == t.procs[q]
  {
    var t := Run(s, steps);
    InitInv(s);
    RunPidsApart(s, steps);
    RunKeeps(s, steps);
    assert PidOk(t, p);
    hide Runs, Run, Inv, Init;
    assert Find(t.procs, t.procs[p].pid, 0) == p;
  }

  // ----- Processes born killed

  /** No free entry is marked killed, so that the next process made from it starts unmarked. */
  predicate Clean(s: State) {
    forall p | 0 <= p < |s.procs| && s.procs[p].status.Unused? :: !s.procs[p].killed
  }

  /** kill finds the pid in a free entry, or a fork that fails gives back an entry already killed. */
  predicate Dirties(s: State, e: Step) {
    || (e.Kill? && Find(s.procs, e.pid, 0) < |s.procs| && s.procs[Find(s.procs, e.pid, 0)].status.Unused?)
    || (e.ForkFail? && e.p in s.forking && s.forking[e.p] < |s.procs| && s.procs[s.forking[e.p]].killed)
  }

  lemma CleanIff(s: State, e: Step)
    requires Inv(s) && Clean(s) && Enabled(s, e)
    ensures Clean(Next(s, e)) <==> !Dirties(s, e)
  {
    var t := Next(s, e);
    if e.Exit? {
      ExitTableIs(s, e.p);
    } else if e.ForkFail? || e.ForkDone? || e.SetParent? {
      assert ForkOk(s, e.p);
    }
    hide Inv, ExitTable, Roused, HasZombie, HasChild;
    if Dirties(s, e) {
      var p := if e.Kill? then Find(s.procs, e.pid, 0) else s.forking[e.p];
      assert t.procs[p].status.Unused? && t.procs[p].killed;
    }
  }

  ghost predicate Careful(s: State, steps: seq<Step>)
    requires Runs(s, steps)
    decreases steps
  {
    steps == [] || (!Dirties(s, steps[0]) && Careful(Next(s, steps[0]), steps[1..]))
  }

  /** In runs without such steps every newly allocated process starts unmarked. */
  lemma {:induction false} CarefulRunsClean(s: State, steps: seq<Step>)
    requires Inv(s) && Clean(s) && Runs(s, steps) && Careful(s, steps)
    ensures Clean(Run(s, steps))
    decreases steps
  {
    if steps != [] {
      CleanIff(s, steps[0]);
      StepKeeps(s, steps[0]);
      CarefulRunsClean(Next(s, steps[0]), steps[1..]);
    }
  }

  /** kill(0) marks a free entry, and the next fork's child is born killed. */
  lemma KillZeroMarksNewborn()
    ensures var s := State([Entry(Runnable, 1, None, NoChan, false), Entry(Unused, 0, None, NoChan, false)],
                           [None], 2, 0, map[], [], []);
            var steps := [Kill(0), Dispatch(0, 0), Alloc(0, 1)];
            && Init(s) && Runs(s, steps)
            && Run(s, steps).procs[1].status.Embryo? && Run(s, steps).procs[1].killed
  {
    var s := State([Entry(Runnable, 1, None, NoChan, false), Entry(Unused, 0, None, NoChan, false)],
                   [None], 2, 0, map[], [], []);
    var steps := [Kill(0), Dispatch(0, 0), Alloc(0, 1)];
    assert Find(s.procs, 0, 0) == Find(s.procs, 0, 1) == 1;
    var s1 := Next(s, Kill(0));
    assert s1.procs == [s.procs[0], Entry(Unused, 0, None, NoChan, true)];
    var s2 := Next(s1, Dispatch(0, 0));
    assert s2.procs == [Entry(Running, 1, None, NoChan, false), s1.procs[1]];
    assert Enabled(s2, Alloc(0, 1));
    var s3 := Next(s2, Alloc(0, 1));
    assert steps[1..] == [Dispatch(0, 0), Alloc(0, 1)] && steps[1..][1..] == [Alloc(0, 1)] && [Alloc(0, 1)][1..] == [];
    assert Runs(s3, []) && Run(s3, []) == s3;
    assert Runs(s2, [Alloc(0, 1)]) && Run(s2, [Alloc(0, 1)]) == s3;
    assert Runs(s1, steps[1..]) && Run(s1, steps[1..]) == s3;
  }
}
