/**
 The file system on the log: what the disk holds after a crash in the middle of filewrite.  A
 snapshot of the file system is laid out as disk blocks, each chunk's log_writes turn the layout of
 one snapshot into that of the next, and the log makes each chunk happen entirely or not at all.
 */
module FileCrash {
  import L = Log
  import LogInvariant
  import LogTrace
  import opened Fs
  import opened FsEffects
  import opened FsCode
  import opened FileCode

  // ----- Snapshots as disk blocks

  function EncInode(ip: Inode): seq<int> {
    [ip.kind, ip.major, ip.minor, ip.nlink, ip.size] + ip.addrs
  }

  /** The inodes from..from+n in a row; those past the table are left out. */
  function EncInodes(d: seq<Inode>, from: nat, n: nat): seq<int>
    decreases n
  {
    if n == 0 || from >= |d| then [] else EncInode(d[from]) + EncInodes(d, from + 1, n - 1)
  }

  function Bit(bits: seq<bool>, x: nat): int {
    if x < |bits| && bits[x] then 1 else 0
  }

  function EncBits(bits: seq<bool>, from: nat): (r: seq<int>)
    ensures |r| == BPB && forall k | 0 <= k < BPB :: r[k] == Bit(bits, from + k)
  {
    seq(BPB, k requires 0 <= k < BPB => Bit(bits, from + k))
  }

  /** Block b of the disk: free map, disk inodes, or the block itself. */
  function EncBlock(l: Layout, z: Snapshot, b: nat): L.Data
    requires b < |z.s.blocks|
  {
    if l.bmapStart <= b < l.dataStart then EncBits(z.s.bits, (b - l.bmapStart) * BPB)
    else if l.inodeStart <= b < l.bmapStart then EncInodes(z.d, (b - l.inodeStart) * IPB, IPB)
    else z.s.blocks[b]
  }

  function Enc(l: Layout, z: Snapshot): (r: seq<L.Data>)
    ensures |r| == |z.s.blocks| && forall b | 0 <= b < |r| :: r[b] == EncBlock(l, z, b)
  {
    seq(|z.s.blocks|, b requires 0 <= b < |z.s.blocks| => EncBlock(l, z, b))
  }

  lemma {:induction false} EncInodesSame(d: seq<Inode>, e: seq<Inode>, from: nat, n: nat)
    requires |d| == |e| && forall j | from <= j < from + n && j < |d| :: d[j] == e[j]
    ensures EncInodes(d, from, n) == EncInodes(e, from, n)
    decreases n
  {
    if n > 0 && from < |d| { EncInodesSame(d, e, from + 1, n - 1); }
  }

  lemma InMapBlock(q: nat, x: nat)
    requires q * BPB <= x < q * BPB + BPB
    ensures x / BPB == q
  {
  }

  lemma InInodeBlock(q: nat, j: nat)
    requires q * IPB <= j < q * IPB + IPB
    ensures j / IPB == q
  {
  }

  /** A block that is not logged is on disk as it was. */
  lemma EncSame(l: Layout, z: Snapshot, z': Snapshot, log: set<nat>, b: nat)
    requires AllLogged(l, z.s, z.d, z'.s, z'.d, log) && b < |z.s.blocks| && b !in log
    ensures b < |z'.s.blocks| && EncBlock(l, z', b) == EncBlock(l, z, b)
  {
    if l.bmapStart <= b < l.dataStart {
      var q := b - l.bmapStart;
      forall x | q * BPB <= x < q * BPB + BPB
        ensures Bit(z'.s.bits, x) == Bit(z.s.bits, x)
      {
        InMapBlock(q, x);
        assert BitmapBlock(l, x) == b;
      }
    } else if l.inodeStart <= b < l.bmapStart {
      var q := b - l.inodeStart;
      forall j | q * IPB <= j < q * IPB + IPB && j < |z.d|
        ensures z'.d[j] == z.d[j]
      {
        InInodeBlock(q, j);
        assert InodeBlock(l, j) == b;
      }
      EncInodesSame(z'.d, z.d, q * IPB, IPB);
    }
  }

  // ----- One operation

  predicate LastAt(es: seq<L.Entry>, i: nat)
    requires i < |es|
  {
    forall j | i < j < |es| :: es[j].block != es[i].block
  }

  /** The operation's log_writes name every block of log, and the last one of each block has the contents of img. */
  ghost predicate Records(es: seq<L.Entry>, log: set<nat>, img: seq<L.Data>) {
    && (forall b | b in log :: exists i | 0 <= i < |es| :: es[i].block == b)
    && (forall i | 0 <= i < |es| && LastAt(es, i) :: es[i].block < |img| && es[i].data == img[es[i].block])
  }

  lemma {:induction false} FindLast(es: seq<L.Entry>, b: nat, n: nat) returns (i: nat)
    requires n <= |es| && (forall j | n <= j < |es| :: es[j].block != b) && exists j | 0 <= j < n :: es[j].block == b
    ensures i < |es| && es[i].block == b && LastAt(es, i)
    decreases n
  {
    if es[n - 1].block == b { return n - 1; }
    i := FindLast(es, b, n - 1);
  }

  lemma {:induction false} ApplyLast(img: seq<L.Data>, es: seq<L.Entry>, i: nat)
    requires i < |es| && LastAt(es, i) && es[i].block < |img|
    ensures |L.ApplyEntries(img, es)| == |img| && L.ApplyEntries(img, es)[es[i].block] == es[i].data
    decreases |es|
  {
    var n := |es| - 1;
    LogInvariant.ApplyKeepsLength(img, es[..n]);
    if i < n {
      assert forall j | i < j < n :: es[..n][j] == es[j];
      ApplyLast(img, es[..n], i);
    }
  }

  /** The log_writes of one operation turn the disk before it into the disk after it. */
  lemma OperationApplied(l: Layout, z: Snapshot, z': Snapshot, log: set<nat>, es: seq<L.Entry>)
    requires AllLogged(l, z.s, z.d, z'.s, z'.d, log) && Records(es, log, Enc(l, z'))
    ensures L.ApplyEntries(Enc(l, z), es) == Enc(l, z')
  {
    hide EncBlock;
    var img, img' := Enc(l, z), Enc(l, z');
    LogInvariant.ApplyKeepsLength(img, es);
    forall b | 0 <= b < |img|
      ensures L.ApplyEntries(img, es)[b] == img'[b]
    {
      if exists i | 0 <= i < |es| :: es[i].block == b {
        var i := FindLast(es, b, |es|);
        ApplyLast(img, es, i);
      } else {
        LogInvariant.ApplyFrame(img, es, b);
        EncSame(l, z, z', log, b);
      }
    }
  }

  // ----- Operations one after the other

  /** The calls in prog log the operations that lead through the snapshots of trace. */
  ghost predicate Performs(l: Layout, ops: seq<set<nat>>, trace: seq<Snapshot>, prog: seq<LogTrace.Operation>) {
    && |trace| == |ops| + 1 == |prog| + 1
    && (forall j | 0 <= j < |ops| :: LoggedAt(l, trace[j], trace[j + 1], ops[j]))
    && (forall j | 0 <= j < |ops| :: Records(prog[j].entries, ops[j], Enc(l, trace[j + 1])))
  }

  lemma {:induction false} OperationsApplied(l: Layout, ops: seq<set<nat>>, trace: seq<Snapshot>, prog: seq<LogTrace.Operation>, m: nat)
    requires Performs(l, ops, trace, prog) && m <= |ops|
    ensures L.ApplyEntries(Enc(l, trace[0]), LogTrace.AllEntries(prog[..m])) == Enc(l, trace[m])
  {
    hide Enc, Records, AllLogged;
    if m > 0 {
      OperationsApplied(l, ops, trace, prog, m - 1);
      assert prog[..m][..m - 1] == prog[..m - 1];
      LogTrace.ApplyConcat(Enc(l, trace[0]), LogTrace.AllEntries(prog[..m - 1]), prog[m - 1].entries);
      assert LoggedAt(l, trace[m - 1], trace[m], ops[m - 1]);
      assert Records(prog[m - 1].entries, ops[m - 1], Enc(l, trace[m - 1 + 1]));
      OperationApplied(l, trace[m - 1], trace[m], ops[m - 1], prog[m - 1].entries);
    }
  }

  /** The state s of the log was reached from a disk with snapshot z0 by a run, without a crash yet, of the calls in prog. */
  ghost predicate Reached(c: L.Config, s: L.State, steps: seq<L.Step>, l: Layout, z0: Snapshot, prog: seq<LogTrace.Operation>) {
    && L.Init(c, s) && s.disk == Enc(l, z0) && L.Runs(c, s, steps)
    && (forall i | 0 <= i < |steps| :: steps[i] != L.Crash)
    && LogTrace.Trace(c, s, steps) <= LogTrace.Program(prog)
  }

  /** What the disk shows after a crash in the last state of the run and the recovery from it. */
  ghost function AfterCrash(c: L.Config, s: L.State, steps: seq<L.Step>): seq<L.Data>
    requires L.Runs(c, s, steps)
  {
    var e := L.Run(c, s, steps);
    L.Recovered(c, e.disk, e.header, |e.header|)
  }

  /**
   A crash at any point of the operations leaves the file system as it was after the first m of them,
   operation m being the last one to have begun.
   */
  lemma CrashedOperations(c: L.Config, s: L.State, steps: seq<L.Step>, l: Layout,
                          ops: seq<set<nat>>, trace: seq<Snapshot>, prog: seq<LogTrace.Operation>) returns (m: nat)
    requires Performs(l, ops, trace, prog) && Reached(c, s, steps, l, trace[0], prog)
    ensures m < |trace| && L.HomeEqual(c, AfterCrash(c, s, steps), Enc(l, trace[m]))
    ensures L.Runs(c, s, steps) && m <= |prog| && LogTrace.Program(prog[..m]) <= LogTrace.Trace(c, s, steps)
    ensures m < |prog| ==> LogTrace.Trace(c, s, steps) <= LogTrace.Program(prog[..m + 1])
  {
    hide Enc, Records, AllLogged;
    m := LogTrace.CrashBetweenOperations(c, s, steps, prog);
    OperationsApplied(l, ops, trace, prog, m);
  }

  /**
   A crash at any point of a filewrite to a file without holes: the disk is that of the file system
   after the first m chunks, of which at most one more had begun.  The file holds its old contents with a whole number of chunks written,
   the disk inodes are current, and no other file has changed.
   */
  lemma CrashedWrite(c: L.Config, s: L.State, steps: seq<L.Step>, l: Layout, z0: Snapshot, ip: nat, off: nat, src: seq<byte>,
                     ops: seq<set<nat>>, trace: seq<Snapshot>, prog: seq<LogTrace.Operation>) returns (m: nat)
    requires Shape(l, z0.s) && ip < |z0.s.inodes| && NoHoles(l, z0.s, ip) && z0.d == z0.s.inodes && off <= z0.s.inodes[ip].size
    requires WriteTrace(l, z0, ip, off, src, ops, trace) && Performs(l, ops, trace, prog) && Reached(c, s, steps, l, z0, prog)
    ensures m < |trace| && L.HomeEqual(c, AfterCrash(c, s, steps), Enc(l, trace[m]))
    ensures L.Runs(c, s, steps) && m <= |prog| && LogTrace.Program(prog[..m]) <= LogTrace.Trace(c, s, steps)
    ensures m < |prog| ==> LogTrace.Trace(c, s, steps) <= LogTrace.Program(prog[..m + 1])
    ensures var t := trace[m].s;
            && Owned(l, t) && Shape(l, t) && |t.inodes| == |z0.s.inodes| && trace[m].d == t.inodes
            && Content(t, ip) == Splice(Content(z0.s, ip), off, src[..After(|src|, m)])
            && forall j | 0 <= j < |t.inodes| && j != ip :: Content(t, j) == Content(z0.s, j)
  {
    hide Enc, Records, AllLogged, Reached, AfterCrash, L.HomeEqual;
    m := CrashedOperations(c, s, steps, l, ops, trace, prog);
    var done := src[..After(|src|, m)];
    assert StageAt(l, z0, trace[m], ip, off, done);
    hide Stage;
    StageIs(l, z0.s, z0.d, trace[m].s, trace[m].d, ip, off, done);
    OwnedShape(l, trace[m].s);
  }

  // ----- The disk determines the files

  /** The file system as the next boot finds it on disk. */
  function FromDisk(z: Snapshot): State {
    State(z.s.bits, z.s.blocks, z.d)
  }

  lemma {:induction false} EncInodesDetermine(d: seq<Inode>, e: seq<Inode>, from: nat, n: nat, j: nat)
    requires |d| == |e| && EncInodes(d, from, n) == EncInodes(e, from, n) && from <= j < from + n && j < |d|
    requires forall i | 0 <= i < |d| :: InodeOk(d[i]) && InodeOk(e[i])
    ensures d[j] == e[j]
    decreases n
  {
    var a, b := EncInode(d[from]), EncInode(e[from]);
    var x, y := EncInodes(d, from + 1, n - 1), EncInodes(e, from + 1, n - 1);
    assert |a| == |b| == NDIRECT + 6;
    assert a == (a + x)[..|a|] && b == (b + y)[..|b|] && x == (a + x)[|a|..] && y == (b + y)[|b|..];
    if j == from {
      assert a[0] == d[j].kind && a[1] == d[j].major && a[2] == d[j].minor && a[3] == d[j].nlink && a[4] == d[j].size;
      assert d[j].addrs == a[5..] && e[j].addrs == b[5..];
    } else {
      EncInodesDetermine(d, e, from + 1, n - 1, j);
    }
  }

  /** The log lies before the inodes, the inodes before the free map, and both have room for all there is. */
  ghost predicate Sound(c: L.Config, l: Layout, z: Snapshot) {
    && c.nblocks == l.size == |z.s.blocks| == |z.s.bits| && c.logStart + c.logSize <= l.inodeStart <= l.bmapStart <= l.dataStart <= l.size
    && |z.d| <= (l.bmapStart - l.inodeStart) * IPB && l.size <= (l.dataStart - l.bmapStart) * BPB
    && forall i | 0 <= i < |z.d| :: InodeOk(z.d[i])
  }

  /** Two snapshots with the same home blocks on disk have the same free map, disk inodes and data blocks. */
  lemma EncDetermines(c: L.Config, l: Layout, z: Snapshot, z': Snapshot)
    requires Sound(c, l, z) && Sound(c, l, z') && |z.d| == |z'.d| && L.HomeEqual(c, Enc(l, z), Enc(l, z'))
    ensures z.s.bits == z'.s.bits && z.d == z'.d && forall b | l.dataStart <= b < l.size :: z.s.blocks[b] == z'.s.blocks[b]
  {
    hide Enc, EncBits, EncInodes, Bit;
    forall x | 0 <= x < l.size
      ensures z.s.bits[x] == z'.s.bits[x]
    {
      SameBit(c, l, z, z', x);
    }
    forall j | 0 <= j < |z.d|
      ensures z.d[j] == z'.d[j]
    {
      SameInode(c, l, z, z', j);
    }
    forall b | l.dataStart <= b < l.size
      ensures z.s.blocks[b] == z'.s.blocks[b]
    {
      assert Enc(l, z)[b] == Enc(l, z')[b];
    }
  }

  lemma SameBit(c: L.Config, l: Layout, z: Snapshot, z': Snapshot, x: nat)
    requires Sound(c, l, z) && Sound(c, l, z') && L.HomeEqual(c, Enc(l, z), Enc(l, z')) && x < l.size
    ensures z.s.bits[x] == z'.s.bits[x]
  {
    hide Enc, EncInodes;
    var b, k := l.bmapStart + x / BPB, x % BPB;
    assert Enc(l, z)[b] == Enc(l, z')[b];
    var from := (b - l.bmapStart) * BPB;
    assert EncBits(z.s.bits, from)[k] == EncBits(z'.s.bits, from)[k] && from + k == x;
  }

  lemma SameInode(c: L.Config, l: Layout, z: Snapshot, z': Snapshot, j: nat)
    requires Sound(c, l, z) && Sound(c, l, z') && |z.d| == |z'.d| && L.HomeEqual(c, Enc(l, z), Enc(l, z')) && j < |z.d|
    ensures z.d[j] == z'.d[j]
  {
    hide Enc, EncBits, EncInodes;
    var b := l.inodeStart + j / IPB;
    assert Enc(l, z)[b] == Enc(l, z')[b];
    EncInodesDetermine(z.d, z'.d, (b - l.inodeStart) * IPB, IPB, j);
  }

  /** So the contents of every file are read off the disk. */
  lemma DiskDeterminesFiles(c: L.Config, l: Layout, z: Snapshot, z': Snapshot, i: nat)
    requires Sound(c, l, z) && Sound(c, l, z') && |z.d| == |z'.d| && L.HomeEqual(c, Enc(l, z), Enc(l, z'))
    requires Owned(l, FromDisk(z)) && Shape(l, FromDisk(z')) && i < |z.d|
    ensures InodeOk(z.d[i]) && InodeOk(z'.d[i]) && Content(FromDisk(z), i) == Content(FromDisk(z'), i)
  {
    EncDetermines(c, l, z, z');
    hide Enc, Word, L.HomeEqual;
    var s, t := FromDisk(z), FromDisk(z');
    forall k | 0 <= k < MAXFILE
      ensures Ptr(t, Data(i, k)) == Ptr(s, Data(i, k)) && (Ptr(s, Data(i, k)) != 0 ==> l.dataStart <= Ptr(s, Data(i, k)) < l.size)
    {
      assert Slot(s, Data(i, k)) && Slot(s, Index(i)) && PtrOk(l, s, Index(i)) && PtrOk(l, s, Data(i, k));
    }
    forall q | 0 <= q < s.inodes[i].size
      ensures ByteAt(t, i, q) == ByteAt(s, i, q)
    {
      var k := q / BSIZE;
      assert Ptr(t, Data(i, k)) == Ptr(s, Data(i, k));
    }
  }
}
