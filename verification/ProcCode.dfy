/**
 The scanning loops of proc.c over the process table, each shown to be one step of module Proc.
 */
module ProcCode {
  import opened Proc
  import opened ProcInvariant

  class Table {
    var procs: seq<Entry>
    var nextpid: nat
    var initproc: nat
    ghost var s: State

    ghost predicate Mirrors()
      reads this
    {
      Inv(s) && procs == s.procs && nextpid == s.nextpid && initproc == s.init
    }

    /** pinit and userinit: the first process is runnable in entry 0, and all others are free. */
    constructor (n: nat, ghost ncpu: nat)
      requires n > 0
      ensures Mirrors() && Init(s) && |procs| == n && |s.cpus| == ncpu && initproc == 0
    {
      procs := seq(n, p => if p == 0 then Entry(Runnable, 1, None, NoChan, false) else Entry(Unused, 0, None, NoChan, false));
      nextpid, initproc := 2, 0;
      s := State(seq(n, p => if p == 0 then Entry(Runnable, 1, None, NoChan, false) else Entry(Unused, 0, None, NoChan, false)),
                 seq(ncpu, _ => None), 2, 0, map[], [], []);
      new;
      InitInv(s);
    }

    /** allocproc called by p, up to the release of the lock; None when the table is full. */
    method Allocproc(p: nat) returns (r: Option<nat>)
      requires Mirrors() && Runs1(s, p) && p !in s.forking
      modifies this
      ensures Mirrors()
      ensures r.None? ==> s == old(s) && forall i | 0 <= i < |procs| :: !procs[i].status.Unused?
      ensures r.Some? ==> Enabled(old(s), Alloc(p, r.value)) && s == Next(old(s), Alloc(p, r.value))
      ensures r.Some? ==>
                && r.value < old(|procs|) && old(procs)[r.value].status == Unused
                && (forall i | 0 <= i < r.value :: old(procs)[i].status != Unused)
                && procs == old(procs)[r.value := old(procs)[r.value].(status := Embryo, pid := old(nextpid))]
                && nextpid == old(nextpid) + 1
    {
      hide Inv;
      var i := 0;
      while i < |procs|
        invariant 0 <= i <= |procs| && forall j | 0 <= j < i :: !procs[j].status.Unused?
        invariant Mirrors() && s == old(s)
      {
        if procs[i].status.Unused? {
          StepKeeps(s, Alloc(p, i));
          s := Next(s, Alloc(p, i));
          procs := procs[i := procs[i].(status := Embryo, pid := nextpid)];
          nextpid := nextpid + 1;
          return Some(i);
        }
        i := i + 1;
      }
      r := None;
    }

    /** wakeup1 on the table alone. */
    method Wakeup1(chan: Chan)
      modifies this`procs
      ensures procs == Wake(old(procs), chan)
    {
      var i := 0;
      while i < |procs|
        invariant 0 <= i <= |procs| == |old(procs)|
        invariant forall j | 0 <= j < |procs| :: procs[j] == if j < i then Wake(old(procs), chan)[j] else old(procs)[j]
      {
        if procs[i].status.Sleeping? && procs[i].chan == chan {
          procs := procs[i := procs[i].(status := Runnable)];
        }
        i := i + 1;
      }
    }

    /** exit of p, under the lock. */
    method Exit(p: nat)
      requires Mirrors() && Enabled(s, Step.Exit(p))
      modifies this
      ensures Mirrors() && s == Next(old(s), Step.Exit(p))
      ensures forall q | 0 <= q < old(|procs|) :: q < |procs|
                && procs[q].parent == (if old(procs)[q].parent == Some(p) then Some(initproc) else old(procs)[q].parent)
                && procs[q].pid == old(procs)[q].pid && procs[q].killed == old(procs)[q].killed
      ensures |procs| == old(|procs|) && procs[p].status == Zombie
      ensures forall q | 0 <= q < |procs| && q != p ::
                procs[q].status
                == if old(procs)[q].status == Sleeping
                      && ((old(procs)[p].parent.Some? && old(procs)[q].chan == WaitOn(old(procs)[p].parent.value))
                          || (old(procs)[q].chan == WaitOn(initproc)
                              && exists z | 0 <= z < old(|procs|) :: old(procs)[z].parent == Some(p) && old(procs)[z].status == Zombie))
                   then Runnable else old(procs)[q].status
    {
      hide Inv, ExitTable, HasZombie;
      StepKeeps(s, Step.Exit(p));
      ghost var s0 := s;
      var parent := procs[p].parent;
      if parent.Some? {
        Wakeup1(WaitOn(parent.value));
      }
      AdoptChildren(p, initproc);
      procs := procs[p := procs[p].(status := Zombie)];
      ExitTableOf(s0.procs, p, s0.init);
      s := Next(s, Step.Exit(p));
      ExitTableIs(s0, p);
      ScanMeans(s0.procs, p);
      assert forall q | 0 <= q < |procs| && q != p :: procs[q].status == if Roused(s0, p, q) then Runnable else s0.procs[q].status;
    }

    /** The loop of exit that hands children to init and wakes it for those that have exited. */
    method AdoptChildren(p: nat, init: nat)
      requires p < |procs|
      modifies this`procs
      ensures procs == if HasZombie(old(procs), p) then Wake(Adopt(old(procs), p, init), WaitOn(init)) else Adopt(old(procs), p, init)
    {
      hide HasZombie;
      ghost var p0 := old(procs);
      ghost var woken := false;
      var i := 0;
      while i < |procs|
        invariant 0 <= i <= |procs| == |p0|
        invariant woken <==> exists z | 0 <= z < i :: ZombieChild(p0, p, z)
        invariant forall j | 0 <= j < |procs| :: procs[j] == Partly(p0, p, init, i, woken, j)
      {
        if procs[i].parent == Some(p) {
          procs := procs[i := procs[i].(parent := Some(init))];
          assert procs[i].status.Zombie? <==> p0[i].status.Zombie?;
          if procs[i].status.Zombie? {
            Wakeup1(WaitOn(init));
            woken := true;
            assert ZombieChild(p0, p, i);
          }
        }
        i := i + 1;
      }
      AdoptedAll(p0, procs, p, init, woken);
    }

    /** The scan of wait by p: the first exited child, and whether there is any child. */
    method ScanChildren(p: nat) returns (z: Option<nat>, havekids: bool)
      ensures z.Some? ==> FirstZombie(procs, p, z.value)
      ensures z.None? ==> !HasZombie(procs, p) && (havekids <==> HasChild(procs, p))
    {
      havekids := false;
      var i := 0;
      while i < |procs|
        invariant 0 <= i <= |procs|
        invariant forall j | 0 <= j < i :: !ZombieChild(procs, p, j)
        invariant havekids <==> exists j | 0 <= j < i :: procs[j].parent == Some(p)
      {
        if procs[i].parent == Some(p) {
          havekids := true;
          if procs[i].status.Zombie? {
            return Some(i), true;
          }
        }
        i := i + 1;
      }
      z := None;
    }

    /** One round of wait by p: Some(pid) of a reaped child, Some(-1), or None when it goes to sleep. */
    method Wait(p: nat) returns (r: Option<int>)
      requires Mirrors() && Runs1(s, p) && p !in s.forking
      modifies this
      ensures Mirrors()
      ensures r.None? ==> Enabled(old(s), WaitSleep(p)) && s == Next(old(s), WaitSleep(p))
      ensures r.Some? && r.value == -1 ==> Enabled(old(s), WaitNone(p)) && s == old(s)
      ensures r.Some? && r.value != -1 ==>
                exists z: nat :: Enabled(old(s), Reap(p, z)) && s == Next(old(s), Reap(p, z)) && r.value == old(s).procs[z].pid
      ensures r.None? || r.value == -1 ==>
                forall z | 0 <= z < old(|procs|) && old(procs)[z].parent == Some(p) :: old(procs)[z].status != Zombie
      ensures r.None? ==>
                && p < old(|procs|) && !old(procs)[p].killed
                && (exists z | 0 <= z < old(|procs|) :: old(procs)[z].parent == Some(p))
                && procs == old(procs)[p := old(procs)[p].(status := Sleeping, chan := WaitOn(p))]
      ensures r.Some? && r.value == -1 ==>
                && procs == old(procs) && p < old(|procs|)
                && (old(procs)[p].killed || forall z | 0 <= z < old(|procs|) :: old(procs)[z].parent != Some(p))
      ensures r.Some? && r.value != -1 ==>
                exists z: nat | z < old(|procs|) && r.value == old(procs)[z].pid ::
                  && old(procs)[z].parent == Some(p) && old(procs)[z].status == Zombie
                  && (forall i | 0 <= i < z && old(procs)[i].parent == Some(p) :: old(procs)[i].status != Zombie)
                  && procs == old(procs)[z := old(procs)[z].(status := Unused, pid := 0, parent := None, killed := false)]
    {
      hide Inv, HasZombie, HasChild, FirstZombie;
      var z, havekids := ScanChildren(p);
      ScanMeans(procs, p);
      if z.Some? {
        FirstIs(s, Reap(p, z.value));
        var pid := procs[z.value].pid;
        StepKeeps(s, Reap(p, z.value));
        s := Next(s, Reap(p, z.value));
        procs := procs[z.value := procs[z.value].(pid := 0, parent := None, killed := false, status := Unused)];
        assert pid == old(s).procs[z.value].pid;
        return Some(pid);
      }
      if !havekids || procs[p].killed {
        return Some(-1);
      }
      StepKeeps(s, WaitSleep(p));
      s := Next(s, WaitSleep(p));
      procs := procs[p := procs[p].(chan := WaitOn(p), status := Sleeping)];
      r := None;
    }

    /** kill: the first entry with the pid is marked and, if asleep, made runnable. */
    method Kill(pid: nat) returns (ok: bool)
      requires Mirrors()
      modifies this
      ensures Mirrors() && s == Next(old(s), Step.Kill(pid))
      ensures ok <==> exists i | 0 <= i < |old(s).procs| :: old(s).procs[i].pid == pid
      ensures !ok ==> procs == old(procs)
      ensures ok ==> exists i: nat | i < old(|procs|) && old(procs)[i].pid == pid ::
                && (forall j | 0 <= j < i :: old(procs)[j].pid != pid)
                && procs == old(procs)[i := old(procs)[i].(
                     killed := true, status := if old(procs)[i].status == Sleeping then Runnable else old(procs)[i].status)]
    {
      hide Inv;
      StepKeeps(s, Step.Kill(pid));
      var i := 0;
      while i < |procs|
        invariant 0 <= i <= |procs| && forall j | 0 <= j < i :: procs[j].pid != pid
        invariant Find(procs, pid, 0) == Find(procs, pid, i)
        invariant Mirrors() && s == old(s)
      {
        if procs[i].pid == pid {
          s := Next(s, Step.Kill(pid));
          procs := procs[i := procs[i].(killed := true)];
          if procs[i].status.Sleeping? {
            procs := procs[i := procs[i].(status := Runnable)];
          }
          return true;
        }
        i := i + 1;
      }
      s := Next(s, Step.Kill(pid));
      ok := false;
    }
  }

  /** The scan's answers in terms of the table. */
  lemma ScanMeans(procs: seq<Entry>, p: nat)
    ensures HasZombie(procs, p) <==> exists z | 0 <= z < |procs| :: procs[z].parent == Some(p) && procs[z].status == Zombie
    ensures HasChild(procs, p) <==> exists z | 0 <= z < |procs| :: procs[z].parent == Some(p)
    ensures forall z: nat :: FirstZombie(procs, p, z) <==>
              && z < |procs| && procs[z].parent == Some(p) && procs[z].status == Zombie
              && forall i | 0 <= i < z && procs[i].parent == Some(p) :: procs[i].status != Zombie
  {
    if z: nat :| z < |procs| && procs[z].parent == Some(p) && procs[z].status == Zombie {
      assert ZombieChild(procs, p, z);
    }
    forall z: nat | z < |procs|
      ensures FirstZombie(procs, p, z) <==>
                && procs[z].parent == Some(p) && procs[z].status == Zombie
                && forall i | 0 <= i < z && procs[i].parent == Some(p) :: procs[i].status != Zombie
    {
      if FirstZombie(procs, p, z) {
        forall i | 0 <= i < z && procs[i].parent == Some(p)
          ensures procs[i].status != Zombie
        {
          assert !ZombieChild(procs, p, i);
        }
      }
    }
  }

  /** Entry j after i rounds of exit's loop. */
  function Partly(procs: seq<Entry>, p: nat, init: nat, i: nat, woken: bool, j: nat): Entry
    requires j < |procs|
  {
    var e := procs[j];
    e.(parent := if j < i && e.parent == Some(p) then Some(init) else e.parent,
       status := if woken && e.status.Sleeping? && e.chan == WaitOn(init) then Runnable else e.status)
  }

  lemma AdoptedAll(procs: seq<Entry>, r: seq<Entry>, p: nat, init: nat, woken: bool)
    requires |r| == |procs| && (woken <==> exists z | 0 <= z < |procs| :: ZombieChild(procs, p, z))
    requires forall j | 0 <= j < |procs| :: r[j] == Partly(procs, p, init, |procs|, woken, j)
    ensures r == if HasZombie(procs, p) then Wake(Adopt(procs, p, init), WaitOn(init)) else Adopt(procs, p, init)
  {
  }

  /** ExitTable in the order of the code. */
  lemma ExitTableOf(procs: seq<Entry>, p: nat, init: nat)
    requires p < |procs|
    ensures var w := WakeParent(procs, p);
            var b := if HasZombie(w, p) then Wake(Adopt(w, p, init), WaitOn(init)) else Adopt(w, p, init);
            |b| == |procs| && ExitTable(procs, p, init) == b[p := b[p].(status := Zombie)]
  {
    ExitOrder(procs, p, init);
  }

  /** Waking the parent first does not change which children have exited. */
  lemma ExitOrder(procs: seq<Entry>, p: nat, init: nat)
    requires p < |procs|
    ensures HasZombie(WakeParent(procs, p), p) <==> HasZombie(procs, p)
  {
    var w := WakeParent(procs, p);
    forall z | 0 <= z < |procs|
      ensures ZombieChild(w, p, z) <==> ZombieChild(procs, p, z)
    {
    }
    if HasZombie(w, p) {
      var z :| 0 <= z < |w| && ZombieChild(w, p, z);
      assert ZombieChild(procs, p, z);
    }
    if HasZombie(procs, p) {
      var z :| 0 <= z < |procs| && ZombieChild(procs, p, z);
      assert ZombieChild(w, p, z);
    }
  }
}
