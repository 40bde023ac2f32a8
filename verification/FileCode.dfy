/**
 Reads and writes of an open inode file in file.c: a write is cut into chunks, each its own log
 transaction, and advances the file offset as it goes.
 */
module FileCode {
  import opened Fs
  import opened FsEffects
  import opened FsCode

  /** How many of n bytes written at off are accepted before a chunk would pass the largest file. */
  function Accepted(size: nat, off: nat, n: int): (w: nat)
    ensures n > 0 ==> w <= n && (w == n <==> off <= size && off <= MAXBYTES && off + n <= MAXBYTES)
  {
    if off > size || off > MAXBYTES || n <= 0 then 0
    else if off + n <= MAXBYTES then n
    else (MAXBYTES - off) / MAXWRITE * MAXWRITE
  }

  lemma AcceptedStops(size: nat, off: nat, n: int, i: nat, n1: nat)
    requires size <= MAXBYTES && i < n && n1 == (if n - i > MAXWRITE then MAXWRITE else n - i) && i % MAXWRITE == 0
    requires i > 0 ==> off <= size && off + i <= MAXBYTES
    requires off + i > (if i == 0 then size else Max(size, off + i)) || off + i + n1 > MAXBYTES
    ensures Accepted(size, off, n) == i != n
  {
    if off <= size {
      var q := i / MAXWRITE;
      assert i == q * MAXWRITE;
      assert MAXBYTES - off < i + MAXWRITE;
      assert (MAXBYTES - off) / MAXWRITE == q;
    }
  }

  lemma AcceptedAll(size: nat, off: nat, n: int, i: nat)
    requires size <= MAXBYTES && i >= n && (i == 0 || (i == n && off <= size && off + n <= MAXBYTES))
    ensures Accepted(size, off, n) == i
  {
  }

  class File {
    const ip: nat
    const readable: bool
    const writable: bool
    var off: nat

    constructor (ip: nat, readable: bool, writable: bool)
      ensures this.ip == ip && this.readable == readable && this.writable == writable && off == 0
    {
      this.ip, this.readable, this.writable := ip, readable, writable;
      off := 0;
    }

    /**
     fileread of n bytes: the file's bytes at the offset, which moves past them.  It starts no operation: with
     none in progress it panics exactly when a block it needs is missing.
     */
    method Read(fs: FileSystem, n: nat) returns (r: Outcome, dst: seq<byte>)
      requires fs.Valid() && ip < |fs.inodes| && off < UINT && n < UINT
      modifies this, fs`bits, fs`blocks, fs`inodes, fs`logged
      ensures r.Driver? <==> readable && old(fs.inodes[ip].kind) == T_DEV
      ensures !r.Done? ==> off == old(off)
      ensures !readable ==> r == Done(-1) && dst == [] && off == old(off) && fs.S() == old(fs.S()) && fs.logged == old(fs.logged)
      ensures readable && r.Done? && (old(off) > old(fs.inodes[ip].size) || old(off) + n >= UINT) ==>
                r == Done(-1) && off == old(off)
      ensures readable && r.Done? && !(old(off) > old(fs.inodes[ip].size) || old(off) + n >= UINT) ==>
                && off == old(off) + |dst| && r.ret == |dst| == Min(n, old(fs.inodes[ip].size) - old(off))
                && dst == old(Content(fs.S(), ip))[old(off)..off]
                && (fs.S() == old(fs.S()) && fs.logged == old(fs.logged)
                    <==> AllThere(fs.l, old(fs.S()), ip, old(off), |dst|))
      ensures old(NoHoles(fs.l, fs.S(), ip)) ==> fs.S() == old(fs.S()) && fs.logged == old(fs.logged)
      ensures readable && fs.outstanding == 0 && !r.Driver? ==>
                (r.Panic? <==> && old(off) <= old(fs.inodes[ip].size) && old(off) + n < UINT
                               && !AllThere(fs.l, old(fs.S()), ip, old(off), Min(n, old(fs.inodes[ip].size) - old(off))))
    {
      if !readable {
        return Done(-1), [];
      }
      r, dst := fs.Readi(ip, off, n);
      if r.Done? && r.ret > 0 {
        off := off + r.ret;
      }
    }

    /** One transaction of filewrite. */
    method WriteChunk(fs: FileSystem, src: seq<byte>) returns (r: Outcome, ghost op: set<nat>)
      requires fs.Valid() && ip < |fs.inodes| && off < UINT && 0 < |src| <= MAXWRITE
      modifies this`off, fs
      ensures r.Driver? <==> old(fs.inodes[ip].kind) == T_DEV
      ensures r.Panic? ==> forall b | 0 <= b < |fs.bits| :: fs.bits[b]
      ensures !r.Driver? ==> (r == Done(-1) <==> old(off) > old(fs.inodes[ip].size) || old(off) + |src| > MAXBYTES)
      ensures |op| <= BitmapCount(fs.l) + 6 && fs.outstanding == old(fs.outstanding)
      ensures r == Done(-1) ==> off == old(off) && fs.S() == old(fs.S()) && fs.dinodes == old(fs.dinodes)
      ensures r.Done? ==> fs.Valid() && AllLogged(fs.l, old(fs.S()), old(fs.dinodes), fs.S(), fs.dinodes, op)
      ensures r.Done? && r.ret != -1 ==>
                && r.ret == |src| && off == old(off) + |src| && fs.Valid() && Shape(fs.l, fs.S())
                && Wrote(fs.l, old(fs.S()), fs.S(), ip, old(off), src)
                && fs.dinodes == (if off > old(fs.inodes[ip].size) then old(fs.dinodes)[ip := fs.inodes[ip]]
                                  else old(fs.dinodes))
    {
      hide Owned, Wrote, NoHoles, Touched, AllLogged;
      op := {};
      NothingLogged(fs.l, fs.S(), fs.dinodes);
      fs.BeginOp();
      r := fs.Writei(ip, src, off);
      fs.EndOp();
      if r.Done? && r.ret > 0 {
        OwnedShape(fs.l, fs.S());
        ChunkBound(fs.l, fs.S(), ip, off, |src|);
        SubsetSize(fs.logged, Touched(fs.l, fs.S(), ip, off, off + |src|));
        op := fs.logged;
        off := off + r.ret;
      }
    }

    /**
     filewrite: the accepted bytes are spliced in at the offset as if by one write, each chunk's
     transaction logs a bounded set of blocks, and the disk inode of a file without holes is current.
     trace is the file system before the first chunk and after each one.
     */
    method Write(fs: FileSystem, src: seq<byte>, n: int) returns (r: Outcome, ghost ops: seq<set<nat>>, ghost trace: seq<Snapshot>)
      requires fs.Valid() && ip < |fs.inodes| && off < UINT && n < UINT / 2 && n <= |src|
      modifies this`off, fs
      ensures !writable ==> r == Done(-1) && ops == [] && off == old(off) && fs.S() == old(fs.S())
      ensures r.Panic? ==> forall b | 0 <= b < |fs.bits| :: fs.bits[b]
      ensures forall op <- ops :: |op| <= BitmapCount(fs.l) + 6
      ensures r.Driver? <==> writable && n > 0 && old(fs.inodes[ip].kind) == T_DEV
      ensures writable && r.Done? ==>
                var w := Accepted(old(fs.inodes[ip].size), old(off), n);
                && w <= |src| && fs.Valid() && off == old(off) + w && r.ret == (if w == n then w else -1)
                && SoFar(fs.l, old(fs.S()), fs.S(), ip, old(off), src[..w])
                && WriteTrace(fs.l, Snapshot(old(fs.S()), old(fs.dinodes)), ip, old(off), src[..w], ops, trace)
                && trace[|trace| - 1] == Snapshot(fs.S(), fs.dinodes)
                && (old(NoHoles(fs.l, fs.S(), ip) && fs.dinodes == fs.inodes) ==> fs.dinodes == fs.inodes)
      ensures writable && r.Done? && n > 0 ==>
                && (r.ret == n <==> old(off) <= old(fs.inodes[ip].size) && old(off) + n <= 71680) && (r.ret == n || r.ret == -1)
                && old(off) <= off <= old(off) + |src|
      ensures writable && r.Done? && old(off) > old(fs.inodes[ip].size) ==> fs.S() == old(fs.S()) && off == old(off)
    {
      if !writable {
        return Done(-1), [], [];
      }
      hide Owned, Wrote, NoHoles, SoFar, Accepted, Touched, BitmapCount, Stage, AllLogged, StageAt, Content, ByteAt, Traced, WriteTrace;
      ghost var s0, d0, off0 := fs.S(), fs.dinodes, off;
      StageStart(fs.l, s0, d0, ip, off);
      var i;
      r, i, ops, trace := WriteChunks(fs, src, n);
      if r.Done? {
        StageIs(fs.l, s0, d0, fs.S(), fs.dinodes, ip, off0, src[..i]);
        SoFarNone(fs.l, s0, fs.S(), ip, off0, src[..i]);
        r := Done(if i == n then i else -1);
      }
    }

    /** The loop of filewrite. */
    method WriteChunks(fs: FileSystem, src: seq<byte>, n: int)
      returns (r: Outcome, i: nat, ghost ops: seq<set<nat>>, ghost trace: seq<Snapshot>)
      requires fs.Valid() && ip < |fs.inodes| && off < UINT && n < UINT / 2 && n <= |src|
      modifies this`off, fs
      ensures r.Panic? ==> forall b | 0 <= b < |fs.bits| :: fs.bits[b]
      ensures forall op <- ops :: |op| <= BitmapCount(fs.l) + 6
      ensures r.Driver? <==> n > 0 && old(fs.inodes[ip].kind) == T_DEV
      ensures r.Done? ==>
                && fs.Valid() && i == Accepted(old(fs.inodes[ip].size), old(off), n) <= |src| && off == old(off) + i
                && Stage(fs.l, old(fs.S()), old(fs.dinodes), fs.S(), fs.dinodes, ip, old(off), src[..i])
                && WriteTrace(fs.l, Snapshot(old(fs.S()), old(fs.dinodes)), ip, old(off), src[..i], ops, trace)
                && trace[|trace| - 1] == Snapshot(fs.S(), fs.dinodes)
    {
      hide Owned, Wrote, NoHoles, SoFar, Accepted, Touched, BitmapCount, Stage, AllLogged, Traced;
      ghost var s0, d0, off0 := fs.S(), fs.dinodes, off;
      StageStart(fs.l, s0, d0, ip, off);
      assert src[..0] == [];
      i, r, ops := 0, Done(0), [];
      trace := [Snapshot(s0, d0)];
      TraceStart(fs.l, trace[0], ip, off0, src);
      while i < n
        invariant 0 <= i <= |src| && off == off0 + i < UINT && (i == 0 || i == n || (i < n && i % MAXWRITE == 0))
        invariant fs.Valid() && r.Done? && Stage(fs.l, s0, d0, fs.S(), fs.dinodes, ip, off0, src[..i])
        invariant forall op <- ops :: |op| <= BitmapCount(fs.l) + 6
        invariant Traced(fs.l, Snapshot(s0, d0), ip, off0, src, i, ops, trace) && |trace| == |ops| + 1 && trace[|trace| - 1] == Snapshot(fs.S(), fs.dinodes)
        invariant i == |ops| * MAXWRITE || (i == n && i <= |ops| * MAXWRITE)
      {
        ghost var s1, d1 := fs.S(), fs.dinodes;
        StageIs(fs.l, s0, d0, s1, d1, ip, off0, src[..i]);
        var n1 := if n - i > MAXWRITE then MAXWRITE else n - i;
        ghost var op;
        r, op := WriteChunk(fs, src[i..i + n1]);
        ghost var ops0, trace0 := ops, trace;
        ops := ops + [op];
        if !r.Done? {
          return;
        }
        trace := trace + [Snapshot(fs.S(), fs.dinodes)];
        if r.ret < 0 {
          AcceptedStops(s0.inodes[ip].size, off0, n, i, n1);
          TraceFailed(fs.l, Snapshot(s0, d0), ip, off0, src, i, ops0, trace0, op, Snapshot(fs.S(), fs.dinodes));
          TracedAll(fs.l, Snapshot(s0, d0), ip, off0, src, i, ops, trace);
          return;
        }
        assert src[..i + n1] == src[..i] + src[i..i + n1];
        StageThen(fs.l, s0, d0, s1, d1, fs.S(), fs.dinodes, ip, off0, src[..i], src[i..i + n1]);
        TraceMore(fs.l, Snapshot(s0, d0), ip, off0, src, i, n1, ops0, trace0, op, Snapshot(fs.S(), fs.dinodes));
        i := i + r.ret;
      }
      TracedAll(fs.l, Snapshot(s0, d0), ip, off0, src, i, ops, trace);
      StageIs(fs.l, s0, d0, fs.S(), fs.dinodes, ip, off0, src[..i]);
      AcceptedAll(s0.inodes[ip].size, off0, n, i);
    }
  }

  // ----- The file system after each chunk

  /** The file system in memory and its disk inodes. */
  datatype Snapshot = Snapshot(s: State, d: seq<Inode>)

  /** How many of the w bytes written are there after j chunks. */
  function After(w: nat, j: nat): nat {
    if j * MAXWRITE <= w then j * MAXWRITE else w
  }

  ghost predicate StageAt(l: Layout, z0: Snapshot, z: Snapshot, i: nat, off: nat, done: seq<byte>) {
    Stage(l, z0.s, z0.d, z.s, z.d, i, off, done)
  }

  ghost predicate LoggedAt(l: Layout, z: Snapshot, z': Snapshot, op: set<nat>) {
    AllLogged(l, z.s, z.d, z'.s, z'.d, op)
  }

  /** Each chunk logs every block it changes, and j chunks have written the first bytes. */
  ghost predicate Traced(l: Layout, z0: Snapshot, i: nat, off: nat, src: seq<byte>, w: nat, ops: seq<set<nat>>, trace: seq<Snapshot>)
    requires w <= |src|
  {
    && |trace| == |ops| + 1 && trace[0] == z0
    && (forall j | 0 <= j < |ops| :: LoggedAt(l, trace[j], trace[j + 1], ops[j]))
    && (forall j | 0 <= j < |trace| :: StageAt(l, z0, trace[j], i, off, src[..After(w, j)]))
  }

  ghost predicate WriteTrace(l: Layout, z0: Snapshot, i: nat, off: nat, src: seq<byte>, ops: seq<set<nat>>, trace: seq<Snapshot>) {
    Traced(l, z0, i, off, src, |src|, ops, trace)
  }

  lemma TraceStart(l: Layout, z: Snapshot, i: nat, off: nat, src: seq<byte>)
    requires Stage(l, z.s, z.d, z.s, z.d, i, off, [])
    ensures Traced(l, z, i, off, src, 0, [], [z])
  {
    hide Stage;
    assert src[..0] == [];
  }

  lemma TracedAll(l: Layout, z0: Snapshot, i: nat, off: nat, src: seq<byte>, w: nat, ops: seq<set<nat>>, trace: seq<Snapshot>)
    requires w <= |src| && Traced(l, z0, i, off, src, w, ops, trace)
    ensures WriteTrace(l, z0, i, off, src[..w], ops, trace)
  {
    hide StageAt, LoggedAt;
    forall j | 0 <= j < |trace|
      ensures StageAt(l, z0, trace[j], i, off, src[..w][..After(w, j)])
    {
      assert src[..w][..After(w, j)] == src[..After(w, j)];
    }
  }

  /** A chunk that is refused changes nothing and logs nothing. */
  lemma TraceFailed(l: Layout, z0: Snapshot, i: nat, off: nat, src: seq<byte>, w: nat, ops: seq<set<nat>>, trace: seq<Snapshot>,
                    op: set<nat>, z: Snapshot)
    requires w <= |src| && Traced(l, z0, i, off, src, w, ops, trace) && w == |ops| * MAXWRITE
    requires trace[|trace| - 1] == z && LoggedAt(l, z, z, op)
    ensures Traced(l, z0, i, off, src, w, ops + [op], trace + [z])
  {
    hide StageAt, LoggedAt;
    forall j | 0 <= j < |trace| + 1
      ensures StageAt(l, z0, (trace + [z])[j], i, off, src[..After(w, j)])
    {
      if j == |trace| {
        assert StageAt(l, z0, trace[j - 1], i, off, src[..After(w, j - 1)]);
        assert After(w, j) == After(w, j - 1) == w;
      }
    }
  }

  lemma TraceMore(l: Layout, z0: Snapshot, i: nat, off: nat, src: seq<byte>, w: nat, n1: nat, ops: seq<set<nat>>, trace: seq<Snapshot>,
                  op: set<nat>, z: Snapshot)
    requires w + n1 <= |src| && Traced(l, z0, i, off, src, w, ops, trace) && w == |ops| * MAXWRITE && 0 < n1 <= MAXWRITE
    requires LoggedAt(l, trace[|trace| - 1], z, op) && StageAt(l, z0, z, i, off, src[..w + n1])
    ensures Traced(l, z0, i, off, src, w + n1, ops + [op], trace + [z])
  {
    hide StageAt, LoggedAt;
    forall j | 0 <= j < |trace| + 1
      ensures StageAt(l, z0, (trace + [z])[j], i, off, src[..After(w + n1, j)])
    {
      if j < |trace| {
        assert j * MAXWRITE <= |ops| * MAXWRITE;
        assert StageAt(l, z0, trace[j], i, off, src[..After(w, j)]);
      } else {
        assert After(w + n1, j) == w + n1;
      }
    }
  }

  /** filewrite's progress once done has been written: the effect so far, and a current disk inode. */
  ghost predicate Stage(l: Layout, s0: State, d0: seq<Inode>, s: State, d: seq<Inode>, i: nat, off: nat, done: seq<byte>)
  {
    && Shape(l, s0) && Owned(l, s) && |d| == |s.inodes| == |s0.inodes| && i < |s.inodes|
    && SoFar(l, s0, s, i, off, done)
    && s.inodes[i].kind == s0.inodes[i].kind
    && (done == [] ==> s.inodes[i].size == s0.inodes[i].size)
    && (done != [] ==> off <= s0.inodes[i].size && off + |done| <= MAXBYTES && s0.inodes[i].kind != T_DEV
                       && s.inodes[i].size == Max(s0.inodes[i].size, off + |done|))
    && (NoHoles(l, s0, i) && d0 == s0.inodes ==> d == s.inodes)
  }

  lemma StageStart(l: Layout, s: State, d: seq<Inode>, i: nat, off: nat)
    requires Owned(l, s) && |d| == |s.inodes| && i < |s.inodes|
    ensures Stage(l, s, d, s, d, i, off, [])
  {
    hide Owned;
    OwnedShape(l, s);
    SoFarNothing(l, s, i, off);
  }

  lemma StageIs(l: Layout, s0: State, d0: seq<Inode>, s: State, d: seq<Inode>, i: nat, off: nat, done: seq<byte>)
    requires Stage(l, s0, d0, s, d, i, off, done)
    ensures Shape(l, s0) && Owned(l, s) && Shape(l, s) && |d| == |s.inodes| == |s0.inodes| && i < |s.inodes|
    ensures s0.inodes[i].size <= MAXBYTES && SoFar(l, s0, s, i, off, done)
    ensures s.inodes[i].kind == s0.inodes[i].kind
    ensures done == [] ==> s.inodes[i].size == s0.inodes[i].size
    ensures done != [] ==> off <= s0.inodes[i].size && off + |done| <= MAXBYTES && s0.inodes[i].kind != T_DEV
                           && s.inodes[i].size == Max(s0.inodes[i].size, off + |done|)
    ensures NoHoles(l, s0, i) && d0 == s0.inodes ==> d == s.inodes
  {
    hide SoFar, NoHoles;
  }

  lemma StageThen(l: Layout, s0: State, d0: seq<Inode>, s1: State, d1: seq<Inode>, s2: State, d2: seq<Inode>,
                  i: nat, off: nat, done: seq<byte>, src: seq<byte>)
    requires Stage(l, s0, d0, s1, d1, i, off, done) && src != [] && Shape(l, s1)
    requires s1.inodes[i].kind != T_DEV && Owned(l, s2)
    requires off + |done| <= s1.inodes[i].size && off + |done| + |src| <= MAXBYTES
    requires Wrote(l, s1, s2, i, off + |done|, src)
    requires d2 == if off + |done| + |src| > s1.inodes[i].size then d1[i := s2.inodes[i]] else d1
    ensures Stage(l, s0, d0, s2, d2, i, off, done + src)
  {
    hide Owned, SoFar, NoHoles, Wrote;
    SoFarThen(l, s0, s1, s2, i, off, done, src, d1, d2);
  }

  /** The effect of writing done at off, or none when off is past the end. */
  ghost predicate SoFar(l: Layout, s: State, t: State, i: nat, off: nat, done: seq<byte>)
    requires Shape(l, s) && i < |s.inodes|
  {
    if off <= s.inodes[i].size then Wrote(l, s, t, i, off, done) else t == s && done == []
  }

  lemma SoFarNone(l: Layout, s: State, t: State, i: nat, off: nat, done: seq<byte>)
    requires Shape(l, s) && i < |s.inodes| && SoFar(l, s, t, i, off, done)
    ensures off > s.inodes[i].size ==> t == s && done == []
  {
  }

  lemma SoFarNothing(l: Layout, s: State, i: nat, off: nat)
    requires Owned(l, s) && i < |s.inodes|
    ensures SoFar(l, s, s, i, off, [])
  {
    if off <= s.inodes[i].size {
      WroteNothing(l, s, i, off);
    }
  }

  lemma SoFarThen(l: Layout, s0: State, s1: State, s2: State, i: nat, off0: nat, done: seq<byte>, src: seq<byte>,
                  d1: seq<Inode>, d2: seq<Inode>)
    requires Shape(l, s0) && Shape(l, s1) && i < |s0.inodes| && SoFar(l, s0, s1, i, off0, done)
    requires i < |s1.inodes| && off0 + |done| <= s1.inodes[i].size && Wrote(l, s1, s2, i, off0 + |done|, src)
    requires |d1| == |s1.inodes|
    requires d2 == if off0 + |done| + |src| > s1.inodes[i].size then d1[i := s2.inodes[i]] else d1
    ensures off0 <= s0.inodes[i].size && SoFar(l, s0, s2, i, off0, done + src)
    ensures |s1.inodes| == |s2.inodes| && s2.inodes[i].size == Max(s1.inodes[i].size, off0 + |done| + |src|)
    ensures s2.inodes[i].kind == s1.inodes[i].kind
    ensures NoHoles(l, s0, i) && d1 == s1.inodes ==> d2 == s2.inodes
  {
    hide Wrote, NoHoles;
    WroteThen(l, s0, s1, s2, i, off0, done, src);
    WroteCurrent(l, s0, s1, s2, i, off0, done, src, d1, d2);
  }

  /** Inside a file without holes no address changes, and a file that grows is written through. */
  lemma WroteCurrent(l: Layout, s0: State, s1: State, s2: State, i: nat, off0: nat, done: seq<byte>, src: seq<byte>,
                     d1: seq<Inode>, d2: seq<Inode>)
    requires Shape(l, s0) && Shape(l, s1) && i < |s0.inodes| && off0 <= s0.inodes[i].size && Wrote(l, s0, s1, i, off0, done)
    requires i < |s1.inodes| && off0 + |done| <= s1.inodes[i].size && Wrote(l, s1, s2, i, off0 + |done|, src)
    requires |d1| == |s1.inodes|
    requires d2 == if off0 + |done| + |src| > s1.inodes[i].size then d1[i := s2.inodes[i]] else d1
    ensures |s1.inodes| == |s2.inodes| && s2.inodes[i].size == Max(s1.inodes[i].size, off0 + |done| + |src|)
    ensures s2.inodes[i].kind == s1.inodes[i].kind
    ensures NoHoles(l, s0, i) && d1 == s1.inodes ==> d2 == s2.inodes
  {
    hide Owned, Mapped, NoHoles, Content;
    if NoHoles(l, s0, i) && d1 == s1.inodes {
      WroteNoHoles(l, s0, s1, i, off0, done, i);
      DiskInodeCurrentIff(l, s1, s2, i, off0 + |done|, src, d2);
    }
  }

  /** With at most four free map blocks, as FSSIZE gives, every chunk fits the log's reservation. */
  lemma ChunkFitsReservation(l: Layout, s: State, i: nat, off: nat, n: nat)
    requires Shape(l, s) && i < |s.inodes| && off + n <= MAXBYTES && n <= MAXWRITE && l.size <= 4 * BPB
    ensures |Touched(l, s, i, off, off + n)| <= MAXOPBLOCKS
  {
    ChunkBound(l, s, i, off, n);
  }
}
