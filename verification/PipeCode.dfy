/** pipewrite and piperead of pipe.c between two sleeps, byte by byte. */
module PipeCode {
  import opened Pipe

  datatype Outcome = Done | Failed | Sleeps

  lemma PutAllStep(r: Ring, bytes: seq<Byte>)
    requires |r.data| == PIPESIZE
    ensures bytes == [] || r.Full() ==> PutAll(r, bytes) == (r, bytes)
    ensures bytes != [] && !r.Full() ==> PutAll(r, bytes) == PutAll(Put(r, bytes[0]), bytes[1..])
  {
  }

  class Buffer {
    const data: array<Byte>
    var nread: nat
    var nwrite: nat
    var readopen: bool
    var writeopen: bool

    ghost predicate Valid()
      reads this, data
    {
      data.Length == PIPESIZE && nread < WORD && nwrite < WORD
    }

    function AsRing(): Ring
      reads this, data
    {
      Ring(data[..], nread, nwrite)
    }

    /** pipealloc. */
    constructor ()
      ensures Valid() && fresh(data) && AsRing().Empty() && readopen && writeopen && nread == 0
    {
      data := new Byte[PIPESIZE](_ => 0);
      nread, nwrite, readopen, writeopen := 0, 0, true, true;
    }

    /** Store one byte in the next cell. */
    method Store(c: Byte)
      requires Valid()
      modifies this`nwrite, data
      ensures Valid() && AsRing() == Put(old(AsRing()), c)
    {
      data[nwrite % PIPESIZE] := c;
      nwrite := (nwrite + 1) % WORD;
    }

    /** Write addr[start..] until it is all stored, the call fails, or the caller has to sleep. */
    method Write(addr: seq<Byte>, start: nat, killed: bool) returns (i: nat, outcome: Outcome)
      requires Valid() && start <= |addr|
      modifies this`nwrite, data
      ensures Valid() && start <= i <= |addr|
      ensures (AsRing(), addr[i..]) == PutAll(old(AsRing()), addr[start..])
      ensures outcome == if i == |addr| then Done else if !readopen || killed then Failed else Sleeps
    {
      hide PutAll, Put;
      i := start;
      ghost var all := PutAll(AsRing(), addr[start..]);
      while i < |addr| && nwrite != (nread + PIPESIZE) % WORD
        invariant Valid() && start <= i <= |addr|
        invariant PutAll(AsRing(), addr[i..]) == all
      {
        PutAllStep(AsRing(), addr[i..]);
        Store(addr[i]);
        assert addr[i..][1..] == addr[i + 1..];
        i := i + 1;
      }
      PutAllStep(AsRing(), addr[i..]);
      if i == |addr| {
        outcome := Done;
      } else if !readopen || killed {
        outcome := Failed;
      } else {
        outcome := Sleeps;
      }
    }

    /** Read up to n bytes, unless the pipe is empty and still open for writing. */
    method Read(n: nat, killed: bool) returns (got: seq<Byte>, outcome: Outcome)
      requires Valid()
      modifies this`nread
      ensures Valid()
      ensures outcome == if old(AsRing()).Empty() && writeopen then (if killed then Failed else Sleeps) else Done
      ensures outcome != Done ==> got == [] && AsRing() == old(AsRing())
      ensures outcome == Done ==> (AsRing(), got) == GetAll(old(AsRing()), n)
    {
      got := [];
      if nread == nwrite && writeopen {
        return [], if killed then Failed else Sleeps;
      }
      var i := 0;
      assert [] + GetAll(AsRing(), n).1 == GetAll(AsRing(), n).1;
      while i < n
        invariant Valid() && 0 <= i <= n && |got| == i
        invariant var rest := GetAll(AsRing(), n - i); (rest.0, got + rest.1) == GetAll(old(AsRing()), n)
      {
        if nread == nwrite {
          assert got + [] == got;
          return got, Done;
        }
        ghost var rest := GetAll(AsRing(), n - i);
        ghost var more := GetAll(AsRing().(nread := (nread + 1) % WORD), n - i - 1);
        assert got + ([data[nread % PIPESIZE]] + more.1) == got + [data[nread % PIPESIZE]] + more.1;
        got := got + [data[nread % PIPESIZE]];
        nread := (nread + 1) % WORD;
        i := i + 1;
      }
      assert got + [] == got;
      outcome := Done;
    }

    /** The buffer is the one of state s. */
    ghost predicate Shows(s: State)
      reads this, data
    {
      AsRing() == s.ring && readopen == s.readopen && writeopen == s.writeopen
    }

    /**
     The stretch of a write in progress is the step RunWrite of its process p, and its outcome tells
     which way the step went: the call has returned its count or -1, or p sleeps with the rest left.
     */
    method WriteStretch(addr: seq<Byte>, start: nat, killed: bool, ghost s: State, ghost p: Pid) returns (i: nat, outcome: Outcome)
      requires Valid() && start <= |addr| && Shows(s) && Enabled(s, RunWrite(p))
      requires s.writers[p].left == addr[start..] && (killed <==> p in s.killed)
      modifies this`nwrite, data
      ensures Valid() && Shows(Next(s, RunWrite(p))) && start <= i <= |addr|
      ensures Next(s, RunWrite(p)).stored == s.stored + addr[start..i]
      ensures var t, c := Next(s, RunWrite(p)), s.writers[p].call;
              match outcome
              case Done => i == |addr| && p !in t.writers && t.results == s.results + [Wrote(c, GivenTo(s, c))]
              case Failed => i < |addr| && p !in t.writers && t.results == s.results + [WriteFailed(c)]
              case Sleeps => i < |addr| && p in t.asleep && p in t.writers && t.writers[p] == Writing(c, addr[i..])
    {
      hide PutAll;
      i, outcome := Write(addr, start, killed);
      assert addr[start..][..i - start] == addr[start..i];
    }

    /** A stretch of a read in progress is the step RunRead of its process. */
    method ReadStretch(n: nat, killed: bool, ghost s: State, ghost p: Pid) returns (got: seq<Byte>, outcome: Outcome)
      requires Valid() && Shows(s) && Enabled(s, RunRead(p)) && s.readers[p] == n && (killed <==> p in s.killed)
      modifies this`nread
      ensures Valid() && Shows(Next(s, RunRead(p)))
      ensures Next(s, RunRead(p)).delivered == s.delivered + got
      ensures var t := Next(s, RunRead(p));
              match outcome
              case Done => p !in t.readers && t.results == s.results + [Got(p, n, got)]
              case Failed => p !in t.readers && t.results == s.results + [ReadFailed(p)]
              case Sleeps => p in t.asleep && p in t.readers && t.readers[p] == n
    {
      hide GetAll;
      got, outcome := Read(n, killed);
      assert outcome != Done ==> s.delivered + got == s.delivered;
    }
  }
}
