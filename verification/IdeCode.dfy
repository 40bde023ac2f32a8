/**
 The request queue of ide.c in the source's form: idequeue and the qnext links of the buffers.
 Buffers are numbered from 1 and 0 is the null pointer; each method is a step of module Ide.
 */
module IdeCode {
  import opened Ide

  /** list is what following qnext from head visits. */
  predicate Chain(qnext: seq<nat>, head: nat, list: seq<nat>)
    decreases list
  {
    if list == [] then head == 0
    else head == list[0] != 0 && head < |qnext| && Chain(qnext, qnext[head], list[1..])
  }

  lemma {:induction false} ChainKept(qnext: seq<nat>, head: nat, list: seq<nat>, b: nat, q: nat)
    requires Chain(qnext, head, list) && b < |qnext| && b !in list
    ensures Chain(qnext[b := q], head, list)
    decreases list
  {
    if list != [] {
      ChainKept(qnext, qnext[head], list[1..], b, q);
    }
  }

  lemma {:induction false} ChainAt(qnext: seq<nat>, head: nat, list: seq<nat>, k: nat)
    requires Chain(qnext, head, list) && k < |list|
    ensures list[k] < |qnext| && list[k] != 0 && qnext[list[k]] == if k + 1 < |list| then list[k + 1] else 0
    decreases list
  {
    if k > 0 {
      ChainAt(qnext, qnext[head], list[1..], k - 1);
    }
  }

  /** Writing b into the last link of a chain of distinct buffers appends it. */
  lemma {:induction false} ChainAppend(qnext: seq<nat>, head: nat, list: seq<nat>, b: nat)
    requires Chain(qnext, head, list) && list != [] && 0 < b < |qnext| && qnext[b] == 0 && b !in list
    requires forall j, k | 0 <= j < k < |list| :: list[j] != list[k]
    ensures list[|list| - 1] < |qnext| && Chain(qnext[list[|list| - 1] := b], head, list + [b])
    decreases list
  {
    var last := list[|list| - 1];
    if |list| == 1 {
      var q := qnext[last := b];
      assert list + [b] == [head, b] && (list + [b])[1..] == [b] && [b][1..] == [];
      assert Chain(q, q[b], []);
      assert Chain(q, b, [b]);
    } else {
      ChainAppend(qnext, qnext[head], list[1..], b);
      assert list[1..][|list| - 2] == last && head != last;
      assert (list + [b])[1..] == list[1..] + [b];
    }
  }

  lemma ChainEnd(qnext: seq<nat>, head: nat, list: seq<nat>, k: nat)
    requires Chain(qnext, head, list) && k < |list| && list[k] < |qnext| && qnext[list[k]] == 0
    ensures k == |list| - 1
  {
    ChainAt(qnext, head, list, k);
    if k + 1 < |list| {
      ChainAt(qnext, head, list, k + 1);
    }
  }

  lemma ChainOne(qnext: seq<nat>, b: nat)
    requires 0 < b < |qnext| && qnext[b] == 0
    ensures Chain(qnext, b, [b])
  {
    assert Chain(qnext, qnext[b], []);
    assert [b][1..] == [];
  }

  lemma ChainStart(qnext: seq<nat>, head: nat, list: seq<nat>)
    requires Chain(qnext, head, list)
    ensures head == 0 <==> list == []
    ensures list != [] ==> head == list[0]
  {
  }

  lemma QueueDistinct(s: State)
    requires Inv(s)
    ensures forall j, k | 0 <= j < k < |s.queue| :: s.queue[j] != s.queue[k]
  {
  }

  class Driver {
    var idequeue: nat
    var qnext: seq<nat>
    var bufs: seq<Buf>
    ghost var s: State

    ghost predicate Mirrors()
      reads this
    {
      Inv(s) && |qnext| == |bufs| && bufs == s.bufs && Chain(qnext, idequeue, s.queue)
    }

    /** No request has been made. */
    constructor (bufs: seq<Buf>, ghost disk: seq<Data>)
      requires forall b | 0 <= b < |bufs| :: bufs[b].blockno < |disk|
      ensures Mirrors() && Init(s) && this.bufs == bufs && s.disk == disk
    {
      idequeue, qnext, this.bufs := 0, seq(|bufs|, _ => 0), bufs;
      s := State([], bufs, disk, None, None, {}, [], []);
      new;
      InitInv(s);
    }

    /** The queueing part of iderw; true when the disk must be started. */
    method Enqueue(b: nat) returns (start: bool)
      requires Mirrors() && 0 < b && Enabled(s, Request(b))
      modifies this
      ensures Mirrors() && s == Next(old(s), Request(b))
      ensures start <==> old(s).queue == []
    {
      ghost var q := s.queue;
      assert b !in q;
      ChainKept(qnext, idequeue, q, b, 0);
      RequestKeeps(s, b);
      QueueDistinct(s);
      hide Inv, Chain;
      qnext := qnext[b := 0];
      Append(b);
      s := Next(s, Request(b));
      start := idequeue == b;
    }

    /** Following the links to the end of the queue and writing the last one. */
    method Append(b: nat)
      requires Chain(qnext, idequeue, s.queue) && 0 < b < |qnext| && qnext[b] == 0 && b !in s.queue
      requires forall j, k | 0 <= j < k < |s.queue| :: s.queue[j] != s.queue[k]
      modifies this`idequeue, this`qnext
      ensures |qnext| == |old(qnext)| && Chain(qnext, idequeue, s.queue + [b]) && (idequeue == b <==> s.queue == [])
    {
      hide Chain;
      ghost var q := s.queue;
      var pp := 0;
      ghost var k := 0;
      while (if pp == 0 then idequeue else qnext[pp]) != 0
        invariant 0 <= k <= |q| && pp < |qnext| && (pp == 0 <==> k == 0) && (k > 0 ==> pp == q[k - 1])
        invariant Chain(qnext, idequeue, q)
        modifies {}
        decreases |q| - k
      {
        pp := Link(pp, k);
        k := k + 1;
      }
      ChainStart(qnext, idequeue, q);
      if pp == 0 {
        idequeue := b;
        ChainOne(qnext, b);
        assert q + [b] == [b];
      } else {
        ChainEnd(qnext, idequeue, q, k - 1);
        ChainAppend(qnext, idequeue, q, b);
        qnext := qnext[pp := b];
      }
    }

    /** Following one link of the queue. */
    method Link(pp: nat, ghost k: nat) returns (n: nat)
      requires Chain(qnext, idequeue, s.queue) && k <= |s.queue| && pp < |qnext|
      requires (pp == 0 <==> k == 0) && (k > 0 ==> pp == s.queue[k - 1])
      requires (if pp == 0 then idequeue else qnext[pp]) != 0
      ensures k < |s.queue| && n == s.queue[k] && 0 < n < |qnext|
    {
      if k > 0 {
        ChainAt(qnext, idequeue, s.queue, k - 1);
      }
      n := if pp == 0 then idequeue else qnext[pp];
      ChainAt(qnext, idequeue, s.queue, k);
    }

    /** ideintr on a finished command whose data, for a read, is read; next is the buffer to start, or 0. */
    method Intr(read: Data) returns (next: nat)
      requires Mirrors() && Enabled(s, Interrupt) && s.done == Some(read)
      modifies this
      ensures Mirrors() && s == Next(old(s), Interrupt)
      ensures next == if |old(s).queue| == 1 then 0 else old(s).queue[1]
      ensures 0 < old(idequeue) < old(|bufs|) && |bufs| == old(|bufs|) && idequeue == next
      ensures forall c | 0 <= c < |bufs| && c != old(idequeue) :: bufs[c] == old(bufs)[c]
      ensures var f, g := old(bufs)[old(idequeue)], bufs[old(idequeue)];
              g.valid && !g.dirty && g.blockno == f.blockno && g.data == if f.dirty then f.data else read
    {
      HandleKeeps(s);
      var b := idequeue;
      assert s.queue != [];
      idequeue := qnext[b];
      bufs := bufs[b := Complete(bufs[b], read)];
      next := idequeue;
      s := Next(s, Interrupt);
    }
  }
}
