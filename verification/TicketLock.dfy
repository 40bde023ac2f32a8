/**
 ticket_lock.c with the sleep, wakeup and kill of proc.c: processes interleave at every
 acquisition and release of the two spinlocks involved, lk->lk and ptable.lock.
 */
module TicketLock {

  const WORD: nat := 0x1_0000_0000

  datatype Option<+T> = None | Some(value: T)

  /** Where a process is in ticket_acquire, sleep, or ticket_release. */
  datatype PC =
    | Out           // outside, not holding the ticket lock
    | Enter         // in ticket_acquire, waiting for lk->lk
    | Test          // has lk->lk and a ticket, about to compare it with turn
    | SleepWant     // in sleep, has lk->lk, waiting for ptable.lock
    | SleepBoth     // has both locks
    | SleepDrop     // released lk->lk, still has ptable.lock
    | Asleep        // SLEEPING on lk
    | Woken         // runnable again, waiting for lk->lk
    | Critical      // between ticket_acquire and ticket_release
    | RelEnter      // in ticket_release, waiting for lk->lk
    | RelHave       // has lk->lk
    | WakeWant      // advanced turn, in wakeup, waiting for ptable.lock
    | WakeBoth      // has both locks
    | RelDone       // woke the sleepers, about to release lk->lk

  /** me is the ticket a process drew, as the code stores it. */
  datatype Proc = Proc(pc: PC, me: nat)

  /**
   ticket, turn and pid are the fields of struct ticket_lock; lk and pt say who has the two
   spinlocks.  The rest is history: releases so far, the processes holding tickets in ticket
   order, all processes that ever drew a ticket, and all that ever entered, in order.
   */
  datatype State = State(
    procs: seq<Proc>, lk: Option<nat>, pt: Option<nat>,
    ticket: nat, turn: nat, pid: nat,
    served: nat, queue: seq<nat>, takers: seq<nat>, entries: seq<nat>)

  datatype Step =
    | Acquire(p: nat) | TakeTicket(p: nat) | TestTurn(p: nat)
    | GetPtable(p: nat) | DropLk(p: nat) | FallAsleep(p: nat) | Retake(p: nat)
    | Release(p: nat) | GetLk(p: nat) | Advance(p: nat) | WakeLock(p: nat) | WakeAll(p: nat) | Leave(p: nat)
    | Kill(p: nat)

  /** myproc()->pid; no process has pid 0. */
  function Pid(p: nat): nat { p + 1 }

  predicate Holding(s: State, p: nat) {
    s.ticket != s.turn && s.pid == Pid(p)
  }

  predicate Init(s: State) {
    && |s.procs| < WORD && (forall p | 0 <= p < |s.procs| :: s.procs[p].pc == Out)
    && s.lk == None && s.pt == None && s.ticket == 0 && s.turn == 0 && s.pid == 0
    && s.served == 0 && s.queue == [] && s.takers == [] && s.entries == []
  }

  predicate Enabled(s: State, st: Step) {
    st.p < |s.procs| &&
    var pc := s.procs[st.p].pc;
    match st
    case Acquire(p) => pc == Out
    case TakeTicket(p) => pc == Enter && s.lk == None
    case TestTurn(p) => pc == Test
    case GetPtable(p) => pc == SleepWant && s.pt == None
    case DropLk(p) => pc == SleepBoth
    case FallAsleep(p) => pc == SleepDrop
    case Retake(p) => pc == Woken && s.lk == None
    case Release(p) => pc == Critical
    case GetLk(p) => pc == RelEnter && s.lk == None
    case Advance(p) => pc == RelHave
    case WakeLock(p) => pc == WakeWant && s.pt == None
    case WakeAll(p) => pc == WakeBoth
    case Leave(p) => pc == RelDone
    case Kill(p) => s.pt == None
  }

  function SetPc(s: State, p: nat, pc: PC): seq<Proc>
    requires p < |s.procs|
  {
    s.procs[p := s.procs[p].(pc := pc)]
  }

  /** wakeup1: every process sleeping on the lock becomes runnable. */
  function Wake(procs: seq<Proc>): (r: seq<Proc>)
    ensures |r| == |procs|
    ensures forall i | 0 <= i < |procs| :: r[i] == if procs[i].pc == Asleep then procs[i].(pc := Woken) else procs[i]
  {
    seq(|procs|, i requires 0 <= i < |procs| => if procs[i].pc == Asleep then procs[i].(pc := Woken) else procs[i])
  }

  function Next(s: State, st: Step): State
    requires Enabled(s, st)
  {
    match st
    case Acquire(p) => s.(procs := SetPc(s, p, Enter))
    case TakeTicket(p) =>
      s.(lk := Some(p), procs := s.procs[p := Proc(Test, s.ticket)],
         ticket := (s.ticket + 1) % WORD, queue := s.queue + [p], takers := s.takers + [p])
    case TestTurn(p) =>
      if s.turn == s.procs[p].me then
        s.(lk := None, procs := SetPc(s, p, Critical), pid := Pid(p), entries := s.entries + [p])
      else
        s.(procs := SetPc(s, p, SleepWant))
    case GetPtable(p) => s.(pt := Some(p), procs := SetPc(s, p, SleepBoth))
    case DropLk(p) => s.(lk := None, procs := SetPc(s, p, SleepDrop))
    case FallAsleep(p) => s.(pt := None, procs := SetPc(s, p, Asleep))
    case Retake(p) => s.(lk := Some(p), procs := SetPc(s, p, Test))
    case Release(p) => s.(procs := SetPc(s, p, RelEnter))
    case GetLk(p) => s.(lk := Some(p), procs := SetPc(s, p, RelHave))
    case Advance(p) =>
      s.(procs := SetPc(s, p, WakeWant), pid := 0, turn := (s.turn + 1) % WORD,
         served := s.served + 1, queue := if s.queue == [] then [] else s.queue[1..])
    case WakeLock(p) => s.(pt := Some(p), procs := SetPc(s, p, WakeBoth))
    case WakeAll(p) => s.(pt := None, procs := Wake(SetPc(s, p, RelDone)))
    case Leave(p) => s.(lk := None, procs := SetPc(s, p, Out))
    case Kill(p) => if s.procs[p].pc == Asleep then s.(procs := SetPc(s, p, Woken)) else s
  }

  ghost predicate Runs(s: State, steps: seq<Step>)
    decreases |steps|
  {
    steps == [] || (Enabled(s, steps[0]) && Runs(Next(s, steps[0]), steps[1..]))
  }

  ghost function Run(s: State, steps: seq<Step>): State
    requires Runs(s, steps)
    decreases |steps|
  {
    if steps == [] then s else Run(Next(s, steps[0]), steps[1..])
  }

  // ----- The invariant

  predicate HasTicket(pc: PC) {
    pc.Test? || pc.SleepWant? || pc.SleepBoth? || pc.SleepDrop? || pc.Asleep? || pc.Woken? ||
    pc.Critical? || pc.RelEnter? || pc.RelHave?
  }

  predicate HasLk(pc: PC) {
    pc.Test? || pc.SleepWant? || pc.SleepBoth? || pc.RelHave? || pc.WakeWant? || pc.WakeBoth? || pc.RelDone?
  }

  predicate HasPt(pc: PC) {
    pc.SleepBoth? || pc.SleepDrop? || pc.WakeBoth?
  }

  predicate Owns(pc: PC) {
    pc.Critical? || pc.RelEnter? || pc.RelHave?
  }

  ghost predicate Locks(s: State) {
    && (forall p | 0 <= p < |s.procs| :: HasLk(s.procs[p].pc) <==> s.lk == Some(p))
    && (forall p | 0 <= p < |s.procs| :: HasPt(s.procs[p].pc) <==> s.pt == Some(p))
    && (s.lk.Some? ==> s.lk.value < |s.procs|) && (s.pt.Some? ==> s.pt.value < |s.procs|)
  }

  /** The outstanding tickets are served, served + 1, ..., one process each. */
  ghost predicate Tickets(s: State) {
    && s.turn == s.served % WORD && s.ticket == (s.served + |s.queue|) % WORD
    && (forall p | 0 <= p < |s.procs| :: HasTicket(s.procs[p].pc) <==> p in s.queue)
    && (forall i | 0 <= i < |s.queue| :: s.queue[i] < |s.procs| && s.procs[s.queue[i]].me == (s.served + i) % WORD)
    && (forall i, j | 0 <= i < j < |s.queue| :: s.queue[i] != s.queue[j])
  }

  /** It is process p's turn. */
  predicate First(s: State, p: nat) {
    s.queue != [] && s.queue[0] == p
  }

  /** Whoever owns the ticket lock has the oldest ticket, and pid names exactly that process. */
  ghost predicate Owner(s: State) {
    && (forall p | 0 <= p < |s.procs| :: Owns(s.procs[p].pc) <==> s.pid == Pid(p))
    && (forall p | 0 <= p < |s.procs| && Owns(s.procs[p].pc) :: First(s, p))
    && (s.pid != 0 ==> s.pid <= |s.procs|)
  }

  /** Processes entered in the order in which they drew their tickets. */
  ghost predicate Fifo(s: State) {
    && s.served <= |s.takers| && s.queue == s.takers[s.served..]
    && |s.entries| == s.served + (if s.pid != 0 then 1 else 0)
    && s.entries <= s.takers
  }

  /** A sleeper whose turn has come is about to be woken. */
  ghost predicate Waking(s: State) {
    forall p | 0 <= p < |s.procs| ::
      && (s.procs[p].pc.SleepWant? || s.procs[p].pc.SleepBoth? ==> !First(s, p))
      && (s.procs[p].pc.SleepDrop? || s.procs[p].pc.Asleep? ==>
            !First(s, p) ||
            (s.lk.Some? && s.lk.value < |s.procs| && (s.procs[s.lk.value].pc.WakeWant? || s.procs[s.lk.value].pc.WakeBoth?)))
  }

  ghost predicate Inv(s: State) {
    |s.procs| < WORD && Locks(s) && Tickets(s) && Owner(s) && Fifo(s) && Waking(s)
  }

  // ----- Facts about tickets

  /** Distinct numbers below n are at most n many. */
  lemma {:induction false} Pigeonhole(q: seq<nat>, n: nat)
    requires forall i | 0 <= i < |q| :: q[i] < n
    requires forall i, j | 0 <= i < j < |q| :: q[i] != q[j]
    ensures |q| <= n
    decreases n
  {
    if q != [] {
      assert q[0] < n;
      if exists k :: 0 <= k < |q| && q[k] == n - 1 {
        var k :| 0 <= k < |q| && q[k] == n - 1;
        Pigeonhole(q[..k] + q[k + 1..], n - 1);
      } else {
        Pigeonhole(q, n - 1);
      }
    }
  }

  lemma QueueBound(s: State)
    requires Tickets(s)
    ensures |s.queue| <= |s.procs|
  {
    Pigeonhole(s.queue, |s.procs|);
  }

  lemma ModEqual(x: nat, d: nat)
    requires d < WORD
    ensures x % WORD == (x + d) % WORD <==> d == 0
  {
  }

  lemma ModNext(x: nat)
    ensures (x % WORD + 1) % WORD == (x + 1) % WORD
  {
  }

  /** The wrapped counters agree exactly for the process whose turn it is. */
  lemma TurnIff(s: State, p: nat)
    requires |s.procs| < WORD && Tickets(s) && p < |s.procs| && HasTicket(s.procs[p].pc)
    ensures s.procs[p].me == s.turn <==> First(s, p)
    ensures s.queue != []
  {
    QueueBound(s);
    var i :| 0 <= i < |s.queue| && s.queue[i] == p;
    ModEqual(s.served, i);
  }

  /** The checks of ticket_holding never make a well-behaved caller panic. */
  lemma NoPanic(s: State, p: nat)
    requires Inv(s) && p < |s.procs|
    ensures s.procs[p].pc == Enter ==> !Holding(s, p)
    ensures s.procs[p].pc == RelHave ==> Holding(s, p)
  {
    if s.procs[p].pc == RelHave {
      TurnIff(s, p);
      QueueBound(s);
      ModEqual(s.served, |s.queue|);
    }
  }

  // ----- Every step keeps the invariant

  /** Every step but the wakeup changes one process. */
  lemma OneProcess(s: State, st: Step)
    requires Enabled(s, st)
    ensures |Next(s, st).procs| == |s.procs|
    ensures !st.WakeAll? ==> Next(s, st).procs == s.procs[st.p := Next(s, st).procs[st.p]]
    ensures st.WakeAll? ==> forall q | 0 <= q < |s.procs| && q != st.p ::
              Next(s, st).procs[q] == if s.procs[q].pc == Asleep then s.procs[q].(pc := Woken) else s.procs[q]
  {
  }

  /** A step changes which locks st.p has, and no others. */
  predicate LocksMove(s: State, s': State, p: nat)
    requires p < |s.procs| && p < |s'.procs|
  {
    && (HasLk(s'.procs[p].pc) <==> s'.lk == Some(p)) && (HasPt(s'.procs[p].pc) <==> s'.pt == Some(p))
    && (s'.lk == s.lk || (s.lk == None && s'.lk == Some(p)) || (s.lk == Some(p) && s'.lk == None))
    && (s'.pt == s.pt || (s.pt == None && s'.pt == Some(p)) || (s.pt == Some(p) && s'.pt == None))
  }

  lemma StepMovesLocks(s: State, st: Step)
    requires Locks(s) && Enabled(s, st)
    ensures st.p < |Next(s, st).procs| && LocksMove(s, Next(s, st), st.p)
  {
    assert HasLk(s.procs[st.p].pc) <==> s.lk == Some(st.p);
    assert HasPt(s.procs[st.p].pc) <==> s.pt == Some(st.p);
    hide Locks;
  }

  lemma KeepsLocks(s: State, st: Step)
    requires Inv(s) && Enabled(s, st)
    ensures Locks(Next(s, st)) && |Next(s, st).procs| == |s.procs|
  {
    OneProcess(s, st);
    StepMovesLocks(s, st);
    var s' := Next(s, st);
    hide Next, Enabled, Tickets, Owner, Fifo, Waking;
    forall q | 0 <= q < |s.procs|
      ensures (HasLk(s'.procs[q].pc) <==> s'.lk == Some(q)) && (HasPt(s'.procs[q].pc) <==> s'.pt == Some(q))
    {
      if q != st.p {
        assert s'.procs[q].pc == s.procs[q].pc || (s.procs[q].pc == Asleep && s'.procs[q].pc == Woken);
        assert HasLk(s'.procs[q].pc) == HasLk(s.procs[q].pc) && HasPt(s'.procs[q].pc) == HasPt(s.procs[q].pc);
      }
    }
  }

  lemma TakeKeepsTickets(s: State, st: Step)
    requires Inv(s) && st.TakeTicket? && Enabled(s, st)
    ensures Tickets(Next(s, st))
  {
    hide Locks, Owner, Fifo, Waking;
    var s' := Next(s, st);
    ModNext(s.served + |s.queue|);
    assert forall q :: q in s'.queue <==> q in s.queue || q == st.p;
  }

  /** The oldest ticket is returned. */
  lemma DropFirst(s: State, s': State, p: nat)
    requires Tickets(s) && First(s, p) && p < |s.procs| && |s'.procs| == |s.procs|
    requires s'.queue == s.queue[1..] && s'.served == s.served + 1 && s'.ticket == s.ticket && s'.turn == (s.turn + 1) % WORD
    requires !HasTicket(s'.procs[p].pc) && forall q | 0 <= q < |s.procs| && q != p :: s'.procs[q] == s.procs[q]
    ensures Tickets(s')
  {
    ModNext(s.served);
    RestOf(s.queue);
    assert s'.ticket == (s'.served + |s'.queue|) % WORD;
    forall i | 0 <= i < |s'.queue|
      ensures s'.queue[i] < |s'.procs| && s'.procs[s'.queue[i]].me == (s'.served + i) % WORD
    {
      assert s'.queue[i] == s.queue[i + 1];
    }
  }

  lemma RestOf(q: seq<nat>)
    requires q != [] && forall i, j | 0 <= i < j < |q| :: q[i] != q[j]
    ensures forall x :: x in q[1..] <==> x in q && x != q[0]
    ensures forall i, j | 0 <= i < j < |q[1..]| :: q[1..][i] != q[1..][j]
  {
    assert q == [q[0]] + q[1..];
    assert forall i | 0 <= i < |q| - 1 :: q[1..][i] == q[i + 1];
  }

  lemma AdvanceKeepsTickets(s: State, st: Step)
    requires Inv(s) && st.Advance? && Enabled(s, st)
    ensures Tickets(Next(s, st))
  {
    assert First(s, st.p);
    hide Locks, Owner, Fifo, Waking, Tickets;
    DropFirst(s, Next(s, st), st.p);
  }

  /** Nothing but program counters changed, and nobody drew or returned a ticket. */
  ghost predicate SameTickets(s: State, s': State) {
    && s'.queue == s.queue && s'.served == s.served && s'.turn == s.turn && s'.ticket == s.ticket
    && |s'.procs| == |s.procs|
    && forall p | 0 <= p < |s.procs| ::
         HasTicket(s'.procs[p].pc) == HasTicket(s.procs[p].pc) && s'.procs[p].me == s.procs[p].me
  }

  lemma SameKeepsTickets(s: State, s': State)
    requires Tickets(s) && SameTickets(s, s')
    ensures Tickets(s')
  {
  }

  lemma KeepsTickets(s: State, st: Step)
    requires Inv(s) && Enabled(s, st)
    ensures Tickets(Next(s, st))
  {
    if st.TakeTicket? {
      TakeKeepsTickets(s, st);
    } else if st.Advance? {
      AdvanceKeepsTickets(s, st);
    } else {
      OneProcess(s, st);
      QuietTickets(s, st);
      hide Next, Enabled, Locks, Owner, Fifo, Waking, Tickets;
      assert SameTickets(s, Next(s, st));
      SameKeepsTickets(s, Next(s, st));
    }
  }

  lemma QuietTickets(s: State, st: Step)
    requires Enabled(s, st) && !st.TakeTicket? && !st.Advance?
    ensures var s' := Next(s, st);
            && s'.queue == s.queue && s'.served == s.served && s'.turn == s.turn && s'.ticket == s.ticket
            && HasTicket(s'.procs[st.p].pc) == HasTicket(s.procs[st.p].pc) && s'.procs[st.p].me == s.procs[st.p].me
  {
  }

  lemma EnterKeepsOwner(s: State, st: Step)
    requires Inv(s) && st.TestTurn? && Enabled(s, st)
    ensures Owner(Next(s, st)) && Fifo(Next(s, st))
  {
    TurnIff(s, st.p);
    if s.pid != 0 { assert Owns(s.procs[s.pid - 1].pc) && First(s, s.pid - 1); }
    hide Locks, Waking, Tickets;
    if First(s, st.p) {
      assert s.pid == 0;
      assert s.takers[s.served] == st.p;
    }
  }

  lemma QueueKeepsOwner(s: State, st: Step)
    requires Inv(s) && (st.TakeTicket? || st.Advance?) && Enabled(s, st)
    ensures Owner(Next(s, st)) && Fifo(Next(s, st))
  {
    hide Locks, Waking, Tickets;
    if st.TakeTicket? {
      assert (s.takers + [st.p])[s.served..] == s.queue + [st.p];
    } else {
      assert First(s, st.p) && s.pid == Pid(st.p);
      assert s.takers[s.served..][1..] == s.takers[s.served + 1..];
    }
  }

  /** Nobody entered, left, or drew a ticket. */
  ghost predicate SameOwner(s: State, s': State) {
    && s'.takers == s.takers && s'.entries == s.entries && s'.queue == s.queue
    && s'.pid == s.pid && s'.served == s.served && |s'.procs| == |s.procs|
    && forall p | 0 <= p < |s.procs| :: Owns(s'.procs[p].pc) == Owns(s.procs[p].pc)
  }

  lemma SameKeepsOwner(s: State, s': State)
    requires Owner(s) && Fifo(s) && SameOwner(s, s')
    ensures Owner(s') && Fifo(s')
  {
  }

  lemma KeepsOwner(s: State, st: Step)
    requires Inv(s) && Enabled(s, st)
    ensures Owner(Next(s, st)) && Fifo(Next(s, st))
  {
    if st.TestTurn? {
      EnterKeepsOwner(s, st);
    } else if st.TakeTicket? || st.Advance? {
      QueueKeepsOwner(s, st);
    } else {
      OneProcess(s, st);
      QuietOwner(s, st);
      hide Next, Enabled, Locks, Waking, Tickets, Owner, Fifo;
      assert SameOwner(s, Next(s, st));
      SameKeepsOwner(s, Next(s, st));
    }
  }

  lemma QuietOwner(s: State, st: Step)
    requires Enabled(s, st) && !st.TakeTicket? && !st.Advance? && !st.TestTurn?
    ensures var s' := Next(s, st);
            && s'.takers == s.takers && s'.entries == s.entries && s'.queue == s.queue
            && s'.pid == s.pid && s'.served == s.served
            && Owns(s'.procs[st.p].pc) == Owns(s.procs[st.p].pc)
  {
  }

  lemma KeepsWaking(s: State, st: Step)
    requires Inv(s) && Enabled(s, st)
    ensures Waking(Next(s, st))
  {
    hide Fifo;
    var s' := Next(s, st);
    if st.TestTurn? { TurnIff(s, st.p); }
  }

  lemma StepKeeps(s: State, st: Step)
    requires Inv(s) && Enabled(s, st)
    ensures Inv(Next(s, st)) && |Next(s, st).procs| == |s.procs|
  {
    KeepsLocks(s, st);
    KeepsTickets(s, st);
    KeepsOwner(s, st);
    KeepsWaking(s, st);
    hide Next, Enabled, Locks, Tickets, Owner, Fifo, Waking;
  }

  lemma {:induction false} RunKeeps(s: State, steps: seq<Step>)
    requires Inv(s) && Runs(s, steps)
    ensures Inv(Run(s, steps)) && |Run(s, steps).procs| == |s.procs|
    decreases |steps|
  {
    hide Next, Enabled, Inv;
    if steps != [] {
      StepKeeps(s, steps[0]);
      RunKeeps(Next(s, steps[0]), steps[1..]);
    }
  }

  // ----- The ticket lock, over every run

  /** No two processes are between the end of ticket_acquire and the step of ticket_release that advances turn. */
  lemma MutualExclusion(s: State, steps: seq<Step>, p: nat, q: nat)
    requires Init(s) && Runs(s, steps) && p < |Run(s, steps).procs| && q < |Run(s, steps).procs|
    requires Run(s, steps).procs[p].pc in {Critical, RelEnter, RelHave}
    requires Run(s, steps).procs[q].pc in {Critical, RelEnter, RelHave}
    ensures p == q
  {
    RunKeeps(s, steps);
  }

  /** The processes that entered are, in order, the first ones that drew tickets. */
  lemma FirstComeFirstServed(s: State, steps: seq<Step>)
    requires Init(s) && Runs(s, steps)
    ensures Run(s, steps).entries <= Run(s, steps).takers
  {
    RunKeeps(s, steps);
  }

  /** Ticket number turn + d, as the code stores it, is held by one process. */
  ghost predicate HeldByOne(e: State, d: nat) {
    && d < |e.queue| && e.queue[d] < |e.procs| && HasTicket(e.procs[e.queue[d]].pc)
    && forall p | 0 <= p < |e.procs| && HasTicket(e.procs[p].pc) ::
         e.procs[p].me == (e.turn + d) % WORD <==> p == e.queue[d]
  }

  lemma OneHolder(e: State, d: nat)
    requires |e.procs| < WORD && Tickets(e) && d < |e.queue|
    ensures HeldByOne(e, d)
  {
    QueueBound(e);
    ModAdd(e.served, d);
    assert e.queue[d] in e.queue;
    forall p | 0 <= p < |e.procs| && HasTicket(e.procs[p].pc)
      ensures e.procs[p].me == (e.turn + d) % WORD <==> p == e.queue[d]
    {
      var i :| 0 <= i < |e.queue| && e.queue[i] == p;
      if i < d { ModEqual(e.served + i, d - i); } else { ModEqual(e.served + d, i - d); }
    }
  }

  /**
   The outstanding tickets are turn .. ticket - 1 modulo 2^32, each held by exactly one process,
   and no more of them than there are processes.
   */
  lemma OutstandingTickets(s: State, steps: seq<Step>)
    requires Init(s) && Runs(s, steps)
    ensures var e := Run(s, steps);
            && |e.queue| <= |e.procs| && e.ticket == (e.turn + |e.queue|) % WORD
            && forall d: nat | d < |e.queue| :: HeldByOne(e, d)
  {
    RunKeeps(s, steps);
    hide HeldByOne, Locks, Owner, Fifo, Waking, Tickets, Next, Enabled, Run, Runs;
    TicketsHeld(Run(s, steps));
  }

  lemma TicketsHeld(e: State)
    requires |e.procs| < WORD && Tickets(e)
    ensures |e.queue| <= |e.procs| && e.ticket == (e.turn + |e.queue|) % WORD
    ensures forall d: nat | d < |e.queue| :: HeldByOne(e, d)
  {
    TicketCount(e);
    hide HeldByOne, Tickets;
    QueueBound(e);
    forall d: nat | d < |e.queue| ensures HeldByOne(e, d) { OneHolder(e, d); }
  }

  lemma TicketCount(e: State)
    requires Tickets(e)
    ensures e.ticket == (e.turn + |e.queue|) % WORD
  {
    ModAdd(e.served, |e.queue|);
  }

  lemma ModAdd(x: nat, d: nat)
    ensures (x % WORD + d) % WORD == (x + d) % WORD
  {
  }

  /** When lk->lk is free, nobody whose turn it is sleeps: no wakeup is lost, kill or not. */
  lemma NoLostWakeup(s: State, steps: seq<Step>, p: nat)
    requires Init(s) && Runs(s, steps) && Run(s, steps).lk == None
    requires p < |Run(s, steps).procs| && Run(s, steps).procs[p].pc == Asleep
    ensures Run(s, steps).procs[p].me != Run(s, steps).turn
  {
    RunKeeps(s, steps);
    TurnIff(Run(s, steps), p);
  }
}
