/**
 The page allocator of kalloc.c with its free list threaded through the free pages themselves.
 Addresses are page numbers and 0 ends the list; the list is shown to be a stack.
 */
module KallocCode {

  /** list is what following the links from head visits. */
  predicate Chain(next: seq<nat>, head: nat, list: seq<nat>)
    decreases list
  {
    if list == [] then head == 0
    else head == list[0] != 0 && head < |next| && Chain(next, next[head], list[1..])
  }

  lemma {:induction false} ChainKept(next: seq<nat>, head: nat, list: seq<nat>, p: nat, q: nat)
    requires Chain(next, head, list) && p < |next| && p !in list
    ensures Chain(next[p := q], head, list)
    decreases list
  {
    if list != [] {
      ChainKept(next, next[head], list[1..], p, q);
    }
  }

  /** The pages lo..hi, last first: the order freerange leaves them in. */
  function Down(lo: nat, hi: nat): (r: seq<nat>)
    ensures lo <= hi ==> |r| == hi - lo
    ensures forall j | 0 <= j < |r| :: r[j] == hi - 1 - j
    decreases hi
  {
    if lo >= hi then [] else [hi - 1] + Down(lo, hi - 1)
  }

  class Allocator {
    const lo: nat
    const hi: nat
    var next: seq<nat>
    var freelist: nat
    ghost var free: seq<nat>

    ghost predicate Valid()
      reads this
    {
      && 0 < lo <= hi <= |next| && Chain(next, freelist, free)
      && (forall p | p in free :: lo <= p < hi) && (forall j, k | 0 <= j < k < |free| :: free[j] != free[k])
    }

    /** kinit1 and kinit2: every page of the range is put on the free list. */
    constructor (lo: nat, hi: nat, memory: nat)
      requires 0 < lo <= hi <= memory
      ensures Valid() && this.lo == lo && this.hi == hi && free == Down(lo, hi)
    {
      this.lo, this.hi := lo, hi;
      next, freelist, free := seq(memory, _ => 0), 0, [];
      new;
      Freerange(lo, hi);
    }

    /** kfree: a panic outside the allocator's memory, else a push. */
    method Kfree(p: nat) returns (ok: bool)
      requires Valid() && p !in free
      modifies this
      ensures Valid() && |next| == old(|next|) && (ok <==> lo <= p < hi)
      ensures free == if ok then [p] + old(free) else old(free)
    {
      if p < lo || p >= hi {
        return false;
      }
      ChainKept(next, freelist, free, p, freelist);
      next := next[p := freelist];
      freelist := p;
      free := [p] + free;
      assert free[1..] == old(free);
      ok := true;
    }

    /** kalloc: a pop, or 0 when the list is empty. */
    method Kalloc() returns (p: nat)
      requires Valid()
      modifies this`freelist, this`free
      ensures Valid()
      ensures old(free) == [] ==> p == 0 && free == []
      ensures old(free) != [] ==> lo <= p < hi && old(free) == [p] + free && p !in free
    {
      p := freelist;
      if p != 0 {
        assert free[0] in free && forall q | q in free[1..] :: q in free;
        freelist := next[p];
        free := free[1..];
      }
    }

    /** freerange over the pages from..to, each not yet free. */
    method Freerange(from: nat, to: nat)
      requires Valid() && lo <= from <= to <= hi && forall p | from <= p < to :: p !in free
      modifies this
      ensures Valid() && |next| == old(|next|) && free == Down(from, to) + old(free)
    {
      hide Chain, Down;
      var p := from;
      assert Down(from, from) + free == free;
      while p < to
        invariant from <= p <= to && Valid() && |next| == old(|next|) && free == Down(from, p) + old(free)
      {
        assert p !in Down(from, p) && p !in old(free);
        var _ := Kfree(p);
        assert [p] + Down(from, p) == Down(from, p + 1);
        assert [p] + (Down(from, p) + old(free)) == Down(from, p + 1) + old(free);
        p := p + 1;
      }
    }
  }
}
