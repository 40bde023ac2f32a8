/** What every step of the process table keeps. */
module ProcInvariant {
  import opened Proc

  // ----- CPUs

  predicate CpuOk(s: State, c: nat)
    requires c < |s.cpus|
  {
    s.cpus[c].Some? ==> s.cpus[c].value < |s.procs| && s.procs[s.cpus[c].value].status.Running?
  }

  predicate OnCpu(s: State, p: nat) {
    exists c | 0 <= c < |s.cpus| :: s.cpus[c] == Some(p)
  }

  /** The running processes are exactly those on a CPU, each on one. */
  ghost predicate CpuInv(s: State) {
    && (forall c | 0 <= c < |s.cpus| :: CpuOk(s, c))
    && (forall b, c | 0 <= b < c < |s.cpus| && s.cpus[b].Some? :: s.cpus[b] != s.cpus[c])
    && (forall p | 0 <= p < |s.procs| && s.procs[p].status.Running? :: OnCpu(s, p))
  }

  // ----- Family

  /** Its parent is alive; every process past fork but init has one, and a free entry has none. */
  predicate FamilyOk(s: State, p: nat)
    requires p < |s.procs|
  {
    && (s.procs[p].parent.Some? ==> p != s.init && !s.procs[p].status.Unused? && s.procs[p].parent.value != p
                                    && s.procs[p].parent.value < |s.procs| && Alive(s.procs[s.procs[p].parent.value]))
    && (s.procs[p].parent.None? ==> p == s.init || s.procs[p].status.Unused? || s.procs[p].status.Embryo?)
  }

  ghost predicate FamilyInv(s: State) {
    && s.init < |s.procs| && Alive(s.procs[s.init])
    && (forall p | 0 <= p < |s.procs| :: FamilyOk(s, p))
  }

  /** The entries being filled by fork are the embryos, each by one live process that is not asleep. */
  ghost predicate ForkInv(s: State) {
    && (forall p | p in s.forking :: ForkOk(s, p))
    && (forall p, q | p in s.forking && q in s.forking && s.forking[p] == s.forking[q] :: p == q)
    && (forall n | 0 <= n < |s.procs| && s.procs[n].status.Embryo? :: exists p :: p in s.forking && s.forking[p] == n)
  }

  predicate ForkOk(s: State, p: nat)
    requires p in s.forking
  {
    && p < |s.procs| && (s.procs[p].status.Runnable? || s.procs[p].status.Running?)
    && s.forking[p] < |s.procs| && s.procs[s.forking[p]].status.Embryo?
    && (s.procs[s.forking[p]].parent.None? || s.procs[s.forking[p]].parent == Some(p))
  }

  // ----- Pids

  predicate PidOk(s: State, p: nat)
    requires p < |s.procs|
  {
    !s.procs[p].status.Unused? ==>
      0 < s.procs[p].pid < s.nextpid && s.procs[p].pid !in s.reaped && (s.procs[p].pid in s.exited <==> s.procs[p].status.Zombie?)
  }

  ghost predicate PidInv(s: State) {
    && (forall p | 0 <= p < |s.procs| :: PidOk(s, p))
    && (forall p, q | 0 <= p < q < |s.procs| && !s.procs[p].status.Unused? && !s.procs[q].status.Unused? ::
          s.procs[p].pid != s.procs[q].pid)
  }

  ghost predicate HistInv(s: State) {
    && (forall i | 0 <= i < |s.exited| :: 0 < s.exited[i] < s.nextpid)
    && (forall i, j | 0 <= i < j < |s.exited| :: s.exited[i] != s.exited[j])
    && (forall i, j | 0 <= i < j < |s.reaped| :: s.reaped[i] != s.reaped[j])
    && (forall i | 0 <= i < |s.reaped| :: s.reaped[i] in s.exited)
  }

  // ----- Waiting

  /** A process asleep in wait sleeps on itself and has no exited child. */
  predicate WaitOk(s: State, p: nat)
    requires p < |s.procs|
  {
    s.procs[p].status.Sleeping? && s.procs[p].chan.WaitOn? ==>
      s.procs[p].chan.p == p && forall z | 0 <= z < |s.procs| :: !ZombieChild(s.procs, p, z)
  }

  ghost predicate WaitInv(s: State) {
    forall p | 0 <= p < |s.procs| :: WaitOk(s, p)
  }

  ghost predicate Inv(s: State) {
    CpuInv(s) && FamilyInv(s) && ForkInv(s) && PidInv(s) && HistInv(s) && WaitInv(s)
  }

  lemma InitInv(s: State)
    requires Init(s)
    ensures Inv(s)
  {
  }

  // ----- exit, entry by entry

  /** The wakeups of exit reach the parent of p and, when it inherits an exited child, init. */
  predicate Roused(s: State, p: nat, q: nat)
    requires p < |s.procs| && q < |s.procs|
  {
    && s.procs[q].status.Sleeping?
    && ((s.procs[p].parent.Some? && s.procs[q].chan == WaitOn(s.procs[p].parent.value))
        || (HasZombie(s.procs, p) && s.procs[q].chan == WaitOn(s.init)))
  }

  lemma ExitIs(s: State, p: nat, q: nat)
    requires p < |s.procs| && q < |s.procs| && s.procs[p].status.Running?
    ensures |ExitTable(s.procs, p, s.init)| == |s.procs|
    ensures ExitTable(s.procs, p, s.init)[q] == s.procs[q].(
              status := if q == p then Zombie else if Roused(s, p, q) then Runnable else s.procs[q].status,
              parent := if s.procs[q].parent == Some(p) then Some(s.init) else s.procs[q].parent)
  {
    hide HasZombie;
  }

  /** Statuses change as exit says and no process comes to life or wakes otherwise. */
  lemma ExitTableIs(s: State, p: nat)
    requires p < |s.procs| && s.procs[p].status.Running?
    ensures var r := ExitTable(s.procs, p, s.init);
            && |r| == |s.procs|
            && (forall q | 0 <= q < |r| ::
                  r[q] == s.procs[q].(
                    status := if q == p then Zombie else if Roused(s, p, q) then Runnable else s.procs[q].status,
                    parent := if s.procs[q].parent == Some(p) then Some(s.init) else s.procs[q].parent))
  {
    hide Roused, ExitTable;
    ExitIs(s, p, p);
    forall q | 0 <= q < |s.procs|
      ensures ExitTable(s.procs, p, s.init)[q] == s.procs[q].(
                status := if q == p then Zombie else if Roused(s, p, q) then Runnable else s.procs[q].status,
                parent := if s.procs[q].parent == Some(p) then Some(s.init) else s.procs[q].parent)
    {
      ExitIs(s, p, q);
    }
  }

  lemma KillIs(procs: seq<Entry>, pid: nat)
    ensures var r := KillTable(procs, pid);
            && |r| == |procs|
            && (forall q | 0 <= q < |r| ::
                  && r[q].pid == procs[q].pid && r[q].parent == procs[q].parent && r[q].chan == procs[q].chan
                  && (r[q].status == procs[q].status || (procs[q].status.Sleeping? && r[q].status.Runnable?)))
  {
  }

  // ----- CPUs

  /** CPUs and running processes as they were, except that p may have left its CPU. */
  lemma CpuSame(s: State, t: State, p: nat)
    requires CpuInv(s) && |t.procs| == |s.procs|
    requires t.cpus == s.cpus || t.cpus == Off(s.cpus, p)
    requires forall q | 0 <= q < |s.procs| ::
               t.procs[q].status.Running? <==> s.procs[q].status.Running? && (t.cpus == s.cpus || q != p)
    ensures CpuInv(t)
  {
    forall c | 0 <= c < |t.cpus|
      ensures CpuOk(t, c)
    {
      assert CpuOk(s, c);
    }
    forall q | 0 <= q < |t.procs| && t.procs[q].status.Running?
      ensures OnCpu(t, q)
    {
      assert OnCpu(s, q);
      var c :| 0 <= c < |s.cpus| && s.cpus[c] == Some(q);
      assert t.cpus[c] == Some(q);
    }
  }

  lemma CpuDispatch(s: State, c: nat, p: nat)
    requires CpuInv(s) && Enabled(s, Dispatch(c, p))
    ensures CpuInv(Next(s, Dispatch(c, p)))
  {
    var t := Next(s, Dispatch(c, p));
    forall b | 0 <= b < |t.cpus|
      ensures CpuOk(t, b) && (b != c ==> t.cpus[b] != Some(p))
    {
      assert CpuOk(s, b);
    }
    forall q | 0 <= q < |t.procs| && t.procs[q].status.Running?
      ensures OnCpu(t, q)
    {
      if q == p {
        assert t.cpus[c] == Some(q);
      } else {
        assert OnCpu(s, q);
        var b :| 0 <= b < |s.cpus| && s.cpus[b] == Some(q);
        assert t.cpus[b] == Some(q);
      }
    }
  }

  lemma CpuKeeps(s: State, e: Step)
    requires CpuInv(s) && ForkInv(s) && Enabled(s, e)
    ensures CpuInv(Next(s, e))
  {
    if e.Dispatch? {
      CpuDispatch(s, e.c, e.p);
      return;
    }
    if e.Exit? {
      ExitTableIs(s, e.p);
    } else if e.Kill? {
      KillIs(s.procs, e.pid);
    } else if e.ForkFail? || e.SetParent? || e.ForkDone? {
      assert ForkOk(s, e.p);
    }
    hide ExitTable, KillTable, ForkInv, CpuInv, Roused, HasZombie, HasChild;
    CpuSame(s, Next(s, e), if e.Exit? || e.WaitSleep? || e.Sleep? || e.Yield? then e.p else 0);
  }

  // ----- Family and fork

  lemma FamilyExit(s: State, p: nat)
    requires FamilyInv(s) && Enabled(s, Exit(p))
    ensures FamilyInv(Next(s, Exit(p)))
  {
    ExitTableIs(s, p);
    hide ExitTable, Roused;
    var t := Next(s, Exit(p));
    forall q | 0 <= q < |t.procs|
      ensures FamilyOk(t, q)
    {
      assert FamilyOk(s, q);
    }
  }

  lemma FamilyWakes(s: State, t: State)
    requires FamilyInv(s) && t.init == s.init && |t.procs| == |s.procs|
    requires forall q | 0 <= q < |s.procs| ::
               t.procs[q].parent == s.procs[q].parent
               && (t.procs[q].status == s.procs[q].status || (Alive(s.procs[q]) && Alive(t.procs[q])))
    ensures FamilyInv(t)
  {
    forall q | 0 <= q < |t.procs|
      ensures FamilyOk(t, q)
    {
      assert FamilyOk(s, q);
    }
  }

  lemma FamilyFork(s: State, e: Step)
    requires FamilyInv(s) && ForkInv(s) && Enabled(s, e)
    requires e.Alloc? || e.ForkFail? || e.SetParent? || e.ForkDone? || e.Reap?
    ensures FamilyInv(Next(s, e))
  {
    if e.ForkFail? || e.SetParent? || e.ForkDone? {
      assert ForkOk(s, e.p);
    }
    hide ForkInv;
    var t := Next(s, e);
    forall q | 0 <= q < |t.procs|
      ensures FamilyOk(t, q)
    {
      assert FamilyOk(s, q);
    }
  }

  lemma FamilyKeeps(s: State, e: Step)
    requires FamilyInv(s) && ForkInv(s) && Enabled(s, e)
    ensures FamilyInv(Next(s, e))
  {
    if e.Exit? {
      FamilyExit(s, e.p);
    } else if e.Alloc? || e.ForkFail? || e.SetParent? || e.ForkDone? || e.Reap? {
      FamilyFork(s, e);
    } else {
      if e.Kill? {
        KillIs(s.procs, e.pid);
      }
      hide FamilyInv, ForkInv, KillTable;
      FamilyWakes(s, Next(s, e));
    }
  }

  /** Steps that leave embryos and the processes inside fork alone. */
  lemma ForkSame(s: State, t: State)
    requires ForkInv(s) && t.forking == s.forking && |t.procs| == |s.procs|
    requires forall q | 0 <= q < |s.procs| :: Quiet(s.procs[q], t.procs[q], q in s.forking)
    ensures ForkInv(t)
  {
    forall p | p in t.forking
      ensures ForkOk(t, p)
    {
      assert ForkOk(s, p) && Quiet(s.procs[p], t.procs[p], true);
      assert Quiet(s.procs[s.forking[p]], t.procs[s.forking[p]], s.forking[p] in s.forking);
    }
    forall n | 0 <= n < |t.procs| && t.procs[n].status.Embryo?
      ensures exists p :: p in t.forking && t.forking[p] == n
    {
      assert Quiet(s.procs[n], t.procs[n], n in s.forking);
    }
  }

  /** An embryo stays one with its parent, and a process inside fork does not go to sleep. */
  predicate Quiet(a: Entry, b: Entry, busy: bool) {
    && (a.status.Embryo? <==> b.status.Embryo?) && (a.status.Embryo? ==> b.parent == a.parent)
    && (busy && (a.status.Runnable? || a.status.Running?) ==> b.status.Runnable? || b.status.Running?)
  }

  lemma ForkAlloc(s: State, p: nat, n: nat)
    requires ForkInv(s) && FamilyInv(s) && Enabled(s, Alloc(p, n))
    ensures ForkInv(Next(s, Alloc(p, n)))
  {
    assert FamilyOk(s, n);
    hide FamilyInv;
    var t := Next(s, Alloc(p, n));
    forall q | q in t.forking
      ensures ForkOk(t, q) && (q != p ==> t.forking[q] != n)
    {
      if q != p {
        assert ForkOk(s, q);
      }
    }
    assert p in t.forking && t.forking[p] == n;
    forall k | 0 <= k < |t.procs| && t.procs[k].status.Embryo?
      ensures exists q :: q in t.forking && t.forking[q] == k
    {
      if k != n {
        assert s.procs[k].status.Embryo?;
        var q :| q in s.forking && s.forking[q] == k;
        assert q in t.forking && t.forking[q] == k;
      }
    }
  }

  lemma ForkParent(s: State, p: nat)
    requires ForkInv(s) && Enabled(s, SetParent(p))
    ensures ForkInv(Next(s, SetParent(p)))
  {
    var t := Next(s, SetParent(p));
    assert ForkOk(s, p);
    forall q | q in t.forking
      ensures ForkOk(t, q)
    {
      assert ForkOk(s, q);
    }
    assert forall k | 0 <= k < |t.procs| && t.procs[k].status.Embryo? :: s.procs[k].status.Embryo?;
  }

  lemma ForkEnd(s: State, e: Step)
    requires ForkInv(s) && Enabled(s, e) && (e.ForkFail? || e.ForkDone?)
    ensures ForkInv(Next(s, e))
  {
    var t := Next(s, e);
    assert ForkOk(s, e.p);
    forall q | q in t.forking
      ensures ForkOk(t, q)
    {
      assert q in s.forking && q != e.p && ForkOk(s, q);
    }
    forall k | 0 <= k < |t.procs| && t.procs[k].status.Embryo?
      ensures exists q :: q in t.forking && t.forking[q] == k
    {
      assert s.procs[k].status.Embryo?;
      var q :| q in s.forking && s.forking[q] == k;
      assert q in t.forking && t.forking[q] == k;
    }
  }

  lemma EmbryosOfOthers(s: State, p: nat)
    requires ForkInv(s) && p !in s.forking
    ensures forall q | 0 <= q < |s.procs| && s.procs[q].status.Embryo? :: s.procs[q].parent != Some(p)
  {
    forall q | 0 <= q < |s.procs| && s.procs[q].status.Embryo?
      ensures s.procs[q].parent != Some(p)
    {
      var r :| r in s.forking && s.forking[r] == q;
      assert ForkOk(s, r);
    }
  }

  lemma ForkKeeps(s: State, e: Step)
    requires FamilyInv(s) && ForkInv(s) && Enabled(s, e)
    ensures ForkInv(Next(s, e))
  {
    if e.Alloc? {
      ForkAlloc(s, e.p, e.n);
    } else if e.SetParent? {
      ForkParent(s, e.p);
    } else if e.ForkFail? || e.ForkDone? {
      ForkEnd(s, e);
    } else if e.Exit? {
      ForkExit(s, e.p);
    } else {
      ForkQuiet(s, e);
    }
  }

  lemma ForkExit(s: State, p: nat)
    requires ForkInv(s) && Enabled(s, Exit(p))
    ensures ForkInv(Next(s, Exit(p)))
  {
    ExitTableIs(s, p);
    EmbryosOfOthers(s, p);
    hide ForkInv, ExitTable, Roused, HasZombie;
    var t := Next(s, Exit(p));
    forall q | 0 <= q < |s.procs|
      ensures Quiet(s.procs[q], t.procs[q], q in s.forking)
    {
    }
    ForkSame(s, t);
  }

  lemma FirstIs(s: State, e: Step)
    requires Enabled(s, e)
    ensures e.Reap? ==> ZombieChild(s.procs, e.p, e.z)
  {
  }

  /** What one entry may become in a step that is not part of fork. */
  lemma QuietEntry(s: State, e: Step, q: nat)
    requires Enabled(s, e) && q < |s.procs|
    requires e.Reap? || e.WaitNone? || e.WaitSleep? || e.Sleep? || e.Wakeup? || e.Yield? || e.Dispatch?
    requires e.Reap? ==> ZombieChild(s.procs, e.p, e.z)
    ensures |Next(s, e).procs| == |s.procs| && Next(s, e).forking == s.forking
    ensures Quiet(s.procs[q], Next(s, e).procs[q], q in s.forking)
  {
    hide HasZombie, HasChild, FirstZombie;
  }

  lemma ForkKill(s: State, pid: nat)
    requires ForkInv(s)
    ensures ForkInv(Next(s, Kill(pid)))
  {
    KillIs(s.procs, pid);
    hide ForkInv, KillTable;
    ForkSame(s, Next(s, Kill(pid)));
  }

  lemma ForkQuiet(s: State, e: Step)
    requires ForkInv(s) && Enabled(s, e)
    requires e.Reap? || e.WaitNone? || e.WaitSleep? || e.Sleep? || e.Wakeup? || e.Kill? || e.Yield? || e.Dispatch?
    ensures ForkInv(Next(s, e))
  {
    if e.Kill? {
      ForkKill(s, e.pid);
    } else {
      FirstIs(s, e);
      hide ForkInv, Next, Enabled, Quiet, ZombieChild;
      forall q | 0 <= q < |s.procs|
        ensures |Next(s, e).procs| == |s.procs| && Next(s, e).forking == s.forking
        ensures Quiet(s.procs[q], Next(s, e).procs[q], q in s.forking)
      {
        QuietEntry(s, e, q);
      }
      QuietSizes(s, e);
      ForkSame(s, Next(s, e));
    }
  }

  lemma QuietSizes(s: State, e: Step)
    requires Enabled(s, e)
    requires e.Reap? || e.WaitNone? || e.WaitSleep? || e.Sleep? || e.Wakeup? || e.Yield? || e.Dispatch?
    requires e.Reap? ==> ZombieChild(s.procs, e.p, e.z)
    ensures |Next(s, e).procs| == |s.procs| && Next(s, e).forking == s.forking
  {
    hide HasZombie, HasChild, FirstZombie;
  }

  // ----- Pids

  lemma PidSame(s: State, t: State)
    requires PidInv(s) && |t.procs| == |s.procs| && t.nextpid == s.nextpid && t.exited == s.exited && t.reaped == s.reaped
    requires forall q | 0 <= q < |s.procs| ::
               t.procs[q].status.Unused? || (t.procs[q].pid == s.procs[q].pid && !s.procs[q].status.Unused?
                                              && (t.procs[q].status.Zombie? <==> s.procs[q].status.Zombie?))
    ensures PidInv(t)
  {
    forall p | 0 <= p < |t.procs|
      ensures PidOk(t, p)
    {
      assert PidOk(s, p);
    }
  }

  lemma PidAlloc(s: State, p: nat, n: nat)
    requires PidInv(s) && HistInv(s) && Enabled(s, Alloc(p, n)) && 0 < s.nextpid
    ensures PidInv(Next(s, Alloc(p, n)))
  {
    var t := Next(s, Alloc(p, n));
    assert s.nextpid !in s.exited;
    assert s.nextpid !in s.reaped;
    forall q | 0 <= q < |t.procs|
      ensures PidOk(t, q)
    {
      assert PidOk(s, q);
    }
    forall q, r | 0 <= q < r < |t.procs| && !t.procs[q].status.Unused? && !t.procs[r].status.Unused?
      ensures t.procs[q].pid != t.procs[r].pid
    {
      assert PidOk(s, q) && PidOk(s, r);
    }
  }

  lemma PidExit(s: State, p: nat)
    requires PidInv(s) && Enabled(s, Exit(p))
    ensures PidInv(Next(s, Exit(p)))
  {
    ExitTableIs(s, p);
    hide ExitTable, Roused;
    var t := Next(s, Exit(p));
    forall q | 0 <= q < |t.procs|
      ensures PidOk(t, q)
    {
      assert PidOk(s, q);
      assert q != p && !s.procs[q].status.Unused? ==> s.procs[q].pid != s.procs[p].pid;
    }
  }

  lemma PidReap(s: State, p: nat, z: nat)
    requires PidInv(s) && Enabled(s, Reap(p, z))
    ensures PidInv(Next(s, Reap(p, z)))
  {
    var t := Next(s, Reap(p, z));
    forall q | 0 <= q < |t.procs|
      ensures PidOk(t, q)
    {
      assert PidOk(s, q);
      assert q != z && !s.procs[q].status.Unused? ==> s.procs[q].pid != s.procs[z].pid;
    }
  }

  lemma PidKeeps(s: State, e: Step)
    requires PidInv(s) && ForkInv(s) && HistInv(s) && Enabled(s, e) && 0 < s.nextpid
    ensures PidInv(Next(s, e))
  {
    if e.Alloc? {
      PidAlloc(s, e.p, e.n);
    } else if e.Exit? {
      PidExit(s, e.p);
    } else if e.Reap? {
      PidReap(s, e.p, e.z);
    } else {
      if e.Kill? {
        KillIs(s.procs, e.pid);
      } else if e.ForkFail? || e.SetParent? || e.ForkDone? {
        assert ForkOk(s, e.p);
      }
      hide ForkInv, PidInv, KillTable, HistInv, HasZombie, HasChild;
      PidSame(s, Next(s, e));
    }
  }

  lemma HistKeeps(s: State, e: Step)
    requires PidInv(s) && HistInv(s) && Enabled(s, e)
    ensures HistInv(Next(s, e))
  {
    if e.Exit? {
      assert PidOk(s, e.p);
    } else if e.Reap? {
      assert PidOk(s, e.z);
    }
  }

  // ----- Waiting

  lemma WaitExit(s: State, p: nat)
    requires WaitInv(s) && FamilyInv(s) && Enabled(s, Exit(p))
    ensures WaitInv(Next(s, Exit(p)))
  {
    ExitTableIs(s, p);
    hide ExitTable;
    var t := Next(s, Exit(p));
    forall q | 0 <= q < |t.procs|
      ensures WaitOk(t, q)
    {
      assert WaitOk(s, q) && FamilyOk(s, p);
      if t.procs[q].status.Sleeping? && t.procs[q].chan.WaitOn? {
        forall z | 0 <= z < |t.procs|
          ensures !ZombieChild(t.procs, q, z)
        {
          assert !ZombieChild(s.procs, q, z);
          if z != p && ZombieChild(s.procs, p, z) {
            assert HasZombie(s.procs, p);
          }
        }
      }
    }
  }

  /** Steps that make no zombie and give no zombie a new parent. */
  lemma WaitSame(s: State, t: State)
    requires WaitInv(s) && |t.procs| == |s.procs|
    requires forall q | 0 <= q < |s.procs| :: t.procs[q].status.Zombie? ==>
               s.procs[q].status.Zombie? && t.procs[q].parent == s.procs[q].parent
    requires forall q | 0 <= q < |s.procs| && t.procs[q].status.Sleeping? && t.procs[q].chan.WaitOn? ::
               (s.procs[q].status.Sleeping? && t.procs[q].chan == s.procs[q].chan)
               || (t.procs[q].chan.p == q && !HasZombie(s.procs, q))
    ensures WaitInv(t)
  {
    forall q | 0 <= q < |t.procs|
      ensures WaitOk(t, q)
    {
      assert WaitOk(s, q);
      if t.procs[q].status.Sleeping? && t.procs[q].chan.WaitOn? {
        forall z | 0 <= z < |t.procs|
          ensures !ZombieChild(t.procs, q, z)
        {
          assert !ZombieChild(s.procs, q, z);
        }
      }
    }
  }

  lemma WaitKeeps(s: State, e: Step)
    requires WaitInv(s) && FamilyInv(s) && ForkInv(s) && Enabled(s, e)
    ensures WaitInv(Next(s, e))
  {
    if e.Exit? {
      WaitExit(s, e.p);
    } else {
      if e.Kill? {
        KillIs(s.procs, e.pid);
      } else if e.ForkFail? || e.SetParent? || e.ForkDone? {
        assert ForkOk(s, e.p);
      }
      hide WaitInv, FamilyInv, ForkInv, KillTable, HasZombie;
      WaitSame(s, Next(s, e));
    }
  }

  lemma StepKeeps(s: State, e: Step)
    requires Inv(s) && Enabled(s, e)
    ensures Inv(Next(s, e))
  {
    assert 0 < s.nextpid by { assert FamilyOk(s, s.init) && PidOk(s, s.init); }
    hide CpuInv, FamilyInv, ForkInv, PidInv, HistInv, WaitInv, Next;
    CpuKeeps(s, e);
    FamilyKeeps(s, e);
    ForkKeeps(s, e);
    PidKeeps(s, e);
    HistKeeps(s, e);
    WaitKeeps(s, e);
  }

  lemma {:induction false} RunKeeps(s: State, steps: seq<Step>)
    requires Inv(s) && Runs(s, steps)
    ensures Inv(Run(s, steps))
    decreases steps
  {
    if steps != [] {
      StepKeeps(s, steps[0]);
      RunKeeps(Next(s, steps[0]), steps[1..]);
    }
  }
}
