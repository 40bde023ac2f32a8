/** The critical sections of ticket_lock.c and the wakeup1 loop of proc.c, as code. */
module TicketLockCode {
  import opened TicketLock

  class Lock {
    var ticket: nat
    var turn: nat
    var pid: nat
    const procs: array<Proc>  // the process table
    ghost var s: State

    ghost predicate Mirrors()
      reads this, procs
    {
      s.procs == procs[..] && s.ticket == ticket && s.turn == turn && s.pid == pid
    }

    /** init_ticket_lock, before any process uses the lock. */
    constructor (procs: array<Proc>)
      requires procs.Length < WORD && forall p | 0 <= p < procs.Length :: procs[p].pc == Out
      ensures Mirrors() && Init(s) && this.procs == procs
    {
      this.procs := procs;
      ticket, turn, pid := 0, 0, 0;
      s := State(procs[..], None, None, 0, 0, 0, 0, [], [], []);
    }

    method Holding(p: nat) returns (r: bool)
      requires Mirrors()
      ensures r == TicketLock.Holding(s, p)
      ensures r <==> ticket != turn && pid == p + 1
    {
      r := ticket != turn && pid == Pid(p);
    }

    /** ticket_acquire up to its loop; it does not panic. */
    method AcquireStart(p: nat)
      requires Mirrors() && Inv(s) && Enabled(s, TakeTicket(p))
      modifies this, procs
      ensures Mirrors() && s == Next(old(s), TakeTicket(p))
      ensures p < procs.Length && procs[p] == Proc(Test, old(ticket)) && ticket == (old(ticket) + 1) % 0x1_0000_0000
    {
      NoPanic(s, p);
      var panics := Holding(p);
      assert !panics;
      procs[p] := Proc(Test, ticket);
      ticket := (ticket + 1) % WORD;
      s := Next(s, TakeTicket(p));
    }

    /** One test of the loop in ticket_acquire: enter, or go to sleep. */
    method AcquireTest(p: nat) returns (entered: bool)
      requires Mirrors() && Inv(s) && Enabled(s, TestTurn(p))
      modifies this, procs
      ensures Mirrors() && s == Next(old(s), TestTurn(p))
      ensures entered <==> First(old(s), p)
      ensures p < procs.Length && (entered <==> turn == old(procs[p]).me)
      ensures if entered then procs[p].pc == Critical && pid == p + 1 else procs[p].pc == SleepWant && pid == old(pid)
    {
      TurnIff(s, p);
      entered := turn == procs[p].me;
      if entered {
        procs[p] := procs[p].(pc := Critical);
        pid := Pid(p);
      } else {
        procs[p] := procs[p].(pc := SleepWant);
      }
      s := Next(s, TestTurn(p));
    }

    /** ticket_release up to its wakeup; it does not panic. */
    method ReleaseStart(p: nat)
      requires Mirrors() && Inv(s) && Enabled(s, Advance(p))
      modifies this, procs
      ensures Mirrors() && s == Next(old(s), Advance(p))
      ensures p < procs.Length && procs[p].pc == WakeWant && pid == 0 && turn == (old(turn) + 1) % 0x1_0000_0000
    {
      NoPanic(s, p);
      var held := Holding(p);
      assert held;
      if pid == Pid(p) {
        procs[p] := procs[p].(pc := WakeWant);
        pid := 0;
        turn := (turn + 1) % WORD;
      }
      s := Next(s, Advance(p));
    }

    /** wakeup(lk), with ptable.lock held: afterwards nobody sleeps on the lock. */
    method Wakeup1(p: nat)
      requires Mirrors() && Enabled(s, WakeAll(p))
      modifies this, procs
      ensures Mirrors() && s == Next(old(s), WakeAll(p))
      ensures forall q | 0 <= q < procs.Length :: procs[q].pc != Asleep
    {
      procs[p] := procs[p].(pc := RelDone);
      ghost var before := procs[..];
      assert before == SetPc(s, p, RelDone);
      var i := 0;
      while i < procs.Length
        modifies procs
        invariant 0 <= i <= procs.Length
        invariant forall q | 0 <= q < i :: procs[q] == Wake(before)[q]
        invariant forall q | i <= q < procs.Length :: procs[q] == before[q]
      {
        if procs[i].pc == Asleep {
          procs[i] := procs[i].(pc := Woken);
        }
        i := i + 1;
      }
      assert procs[..] == Wake(before);
      s := Next(s, WakeAll(p));
    }
  }
}
