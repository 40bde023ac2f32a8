/**
 What the operations of fs.c do to files: the blocks they log, the effect of writei and of itrunc
 on contents, holes and ownership, and how the loops of the source build these effects up.
 */
module FsEffects {
  import opened Fs

  // ----- Blocks given to log_write

  function Range(lo: nat, n: nat): (r: set<nat>)
    ensures forall x: nat :: x in r <==> lo <= x < lo + n
    ensures |r| == n
  {
    if n == 0 then {} else Range(lo, n - 1) + {lo + n - 1}
  }

  function BitmapBlock(l: Layout, b: nat): nat {
    l.bmapStart + b / BPB
  }

  function BitmapCount(l: Layout): nat {
    (l.size + BPB - 1) / BPB
  }

  function InodeBlock(l: Layout, i: nat): nat {
    l.inodeStart + i / IPB
  }

  /** Blocks of the slots lo..hi of inode i that are there. */
  function BlocksOf(l: Layout, s: State, i: nat, lo: nat, hi: nat): set<nat>
    requires Shape(l, s) && i < |s.inodes| && hi <= MAXFILE
    decreases hi
  {
    if lo >= hi then {} else BlocksOf(l, s, i, lo, hi - 1) + NonZero(Ptr(s, Data(i, hi - 1)))
  }

  function NonZero(b: nat): set<nat> {
    if b == 0 then {} else {b}
  }

  lemma {:induction false} BlocksOfHas(l: Layout, s: State, i: nat, lo: nat, hi: nat, b: nat)
    requires Shape(l, s) && i < |s.inodes| && hi <= MAXFILE
    ensures b in BlocksOf(l, s, i, lo, hi) <==> b != 0 && exists k | lo <= k < hi :: Ptr(s, Data(i, k)) == b
    decreases hi
  {
    hide Ptr;
    if lo < hi {
      BlocksOfHas(l, s, i, lo, hi - 1, b);
      assert b == Ptr(s, Data(i, hi - 1)) || b != Ptr(s, Data(i, hi - 1));
    }
  }

  lemma {:induction false} BlocksOfSize(l: Layout, s: State, i: nat, lo: nat, hi: nat)
    requires Shape(l, s) && i < |s.inodes| && lo <= hi <= MAXFILE
    ensures |BlocksOf(l, s, i, lo, hi)| <= hi - lo
    decreases hi
  {
    hide Ptr;
    if lo < hi {
      BlocksOfSize(l, s, i, lo, hi - 1);
      UnionSize(BlocksOf(l, s, i, lo, hi - 1), NonZero(Ptr(s, Data(i, hi - 1))));
    }
  }

  function IndexOf(l: Layout, s: State, i: nat): set<nat>
    requires Shape(l, s) && i < |s.inodes|
  {
    NonZero(Ptr(s, Index(i)))
  }

  /** The disk blocks that a write of bytes off..end of inode i may pass to log_write. */
  function Touched(l: Layout, s: State, i: nat, off: nat, end: nat): set<nat>
    requires Shape(l, s) && i < |s.inodes| && off <= end <= MAXBYTES
  {
    Range(l.bmapStart, BitmapCount(l)) + {InodeBlock(l, i)} + IndexOf(l, s, i)
    + BlocksOf(l, s, i, off / BSIZE, Blocks(end))
  }

  /** Inodes differ at most in the block addresses of inode i. */
  predicate SameButAddrs(a: seq<Inode>, b: seq<Inode>, i: nat) {
    && |a| == |b|
    && forall j | 0 <= j < |a| :: if j == i then b[j] == a[j].(addrs := b[j].addrs) else b[j] == a[j]
  }

  // ----- Truncation

  ghost predicate DirectFreed(l: Layout, s: State, t: State, i: nat, k: nat)
    requires Shape(l, s) && Shape(l, t) && i < |s.inodes| && k <= NDIRECT
  {
    && t.blocks == s.blocks && SameButAddrs(s.inodes, t.inodes, i)
    && (forall p | Slot(s, p) :: Ptr(t, p) == if p.i == i && p.Data? && p.k < k then 0 else Ptr(s, p))
    && (forall b | 0 <= b < l.size ::
          t.bits[b] <==> s.bits[b] && !(b != 0 && exists n | 0 <= n < k :: Ptr(s, Data(i, n)) == b))
  }

  lemma DirectFreedStart(l: Layout, s: State, i: nat)
    requires Shape(l, s) && i < |s.inodes|
    ensures DirectFreed(l, s, s, i, 0)
  {
    hide Ptr;
  }

  lemma DirectFreedSkip(l: Layout, s: State, t: State, i: nat, k: nat)
    requires Shape(l, s) && Shape(l, t) && i < |s.inodes| && k < NDIRECT && DirectFreed(l, s, t, i, k)
    requires t.inodes[i].addrs[k] == 0
    ensures DirectFreed(l, s, t, i, k + 1)
  {
    assert Slot(s, Data(i, k)) && Ptr(t, Data(i, k)) == 0;
    hide Ptr;
    assert Ptr(s, Data(i, k)) == 0;
  }

  lemma DirectFreedStep(l: Layout, s: State, t: State, i: nat, k: nat)
    requires Shape(l, s) && Owned(l, t) && i < |s.inodes| && k < NDIRECT && DirectFreed(l, s, t, i, k)
    requires t.inodes[i].addrs[k] != 0
    ensures t.inodes[i].addrs[k] < l.size && t.bits[t.inodes[i].addrs[k]]
    ensures BitmapBlock(l, t.inodes[i].addrs[k]) in Range(l.bmapStart, BitmapCount(l))
    ensures Shape(l, Detach(l, t, i, k)) && DirectFreed(l, s, Detach(l, t, i, k), i, k + 1)
  {
    DetachKeeps(l, t, i, k);
    assert Slot(s, Data(i, k)) && Ptr(t, Data(i, k)) == t.inodes[i].addrs[k];
    hide Ptr;
    var b := t.inodes[i].addrs[k];
    assert Ptr(s, Data(i, k)) == b;
  }

  ghost predicate EntriesFreed(l: Layout, s: State, bits: seq<bool>, i: nat, j: nat)
    requires Shape(l, s) && i < |s.inodes| && j <= NINDIRECT
  {
    && |bits| == l.size
    && forall b | 0 <= b < l.size ::
         bits[b] <==> s.bits[b] && !(b != 0 && exists n | NDIRECT <= n < NDIRECT + j :: Ptr(s, Data(i, n)) == b)
  }

  lemma NoIndex(l: Layout, s: State, i: nat)
    requires Shape(l, s) && i < |s.inodes| && s.inodes[i].addrs[NDIRECT] == 0
    ensures IndexFreed(l, s, State(s.bits, s.blocks, s.inodes[i := SetAddr(s.inodes[i], NDIRECT, 0)]), i)
  {
    hide Word;
    assert forall j | NDIRECT <= j < MAXFILE :: Ptr(s, Data(i, j)) == 0;
  }

  lemma IndexThere(l: Layout, s: State, i: nat)
    requires Owned(l, s) && i < |s.inodes| && s.inodes[i].addrs[NDIRECT] != 0
    ensures s.inodes[i].addrs[NDIRECT] < |s.blocks| && EntriesFreed(l, s, s.bits, i, 0)
  {
    hide Word;
    assert PtrOk(l, s, Index(i));
  }

  lemma EntryStep(l: Layout, s: State, bits: seq<bool>, i: nat, j: nat)
    requires Owned(l, s) && i < |s.inodes| && j < NINDIRECT && 0 < s.inodes[i].addrs[NDIRECT] < |s.blocks|
    requires EntriesFreed(l, s, bits, i, j)
    ensures var w := Word(s.blocks[s.inodes[i].addrs[NDIRECT]], j);
            if w == 0 then EntriesFreed(l, s, bits, i, j + 1)
            else w < l.size && bits[w] && EntriesFreed(l, s, bits[w := false], i, j + 1)
                 && BitmapBlock(l, w) in Range(l.bmapStart, BitmapCount(l))
  {
    hide Word;
    var p := Data(i, NDIRECT + j);
    var w := Word(s.blocks[s.inodes[i].addrs[NDIRECT]], j);
    assert Ptr(s, p) == w && PtrOk(l, s, p);
    hide Ptr;
    assert forall n | NDIRECT <= n < NDIRECT + j :: Slot(s, Data(i, n)) && Data(i, n) != p;
  }

  lemma IndexStep(l: Layout, s: State, bits: seq<bool>, i: nat)
    requires Owned(l, s) && i < |s.inodes| && s.inodes[i].addrs[NDIRECT] != 0 && EntriesFreed(l, s, bits, i, NINDIRECT)
    ensures var x := s.inodes[i].addrs[NDIRECT];
            && x < l.size && bits[x] && BitmapBlock(l, x) in Range(l.bmapStart, BitmapCount(l))
            && IndexFreed(l, s, State(bits[x := false], s.blocks, s.inodes[i := SetAddr(s.inodes[i], NDIRECT, 0)]), i)
  {
    hide Word;
    var x := s.inodes[i].addrs[NDIRECT];
    assert Ptr(s, Index(i)) == x && PtrOk(l, s, Index(i));
    hide Ptr;
    assert forall n | NDIRECT <= n < NDIRECT + NINDIRECT :: Slot(s, Data(i, n));
  }

  /** Inode i is empty, exactly its blocks are free, and all else is as it was. */
  ghost predicate Truncated(l: Layout, s: State, t: State, i: nat)
    requires Shape(l, s) && i < |s.inodes|
  {
    && Owned(l, t) && |t.inodes| == |s.inodes| && t.blocks == s.blocks
    && t.inodes[i] == s.inodes[i].(size := 0, addrs := seq(NDIRECT + 1, _ => 0))
    && Content(t, i) == [] && NoHoles(l, t, i)
    && (forall b | 0 <= b < l.size :: t.bits[b] <==> s.bits[b] && !OwnedBy(l, s, i, b))
    && (forall j | 0 <= j < |s.inodes| && j != i :: t.inodes[j] == s.inodes[j] && Content(t, j) == Content(s, j)
                                                    && (NoHoles(l, s, j) ==> NoHoles(l, t, j)))
  }

  lemma TruncatedAll(l: Layout, s0: State, s1: State, s2: State, t: State, i: nat)
    requires Owned(l, s0) && Owned(l, s1) && Owned(l, s2) && i < |s0.inodes|
    requires DirectFreed(l, s0, s1, i, NDIRECT) && IndexFreed(l, s1, s2, i)
    requires t == State(s2.bits, s2.blocks, SetSize(s2.inodes, i, 0))
    ensures Owned(l, t) && Truncated(l, s0, t, i)
  {
    assert |s2.inodes| == |s0.inodes| && s2.blocks == s0.blocks;
    assert forall j | 0 <= j < |s0.inodes| && j != i :: t.inodes[j] == s0.inodes[j];
    assert t.inodes[i] == s0.inodes[i].(size := 0, addrs := t.inodes[i].addrs);
    hide Ptr, Owned, DirectFreed, IndexFreed;
    Resized(l, s2, t, i, 0, 0);
    OwnedShape(l, s0);
    OwnedShape(l, t);
    forall p | Slot(s0, p)
      ensures Ptr(t, p) == if p.i == i then 0 else Ptr(s0, p)
    {
      DirectFreedPtr(l, s0, s1, i, p);
      IndexFreedPtr(l, s1, s2, i, p);
      SizedPtr(l, s2, t, i, p);
    }
    TruncatedBits(l, s0, s1, s2, i);
    TruncatedOthers(l, s0, t, i);
    AllZero(l, s0, t, i);
  }

  lemma DirectFreedPtr(l: Layout, s: State, t: State, i: nat, p: Owner)
    requires Shape(l, s) && Shape(l, t) && i < |s.inodes| && DirectFreed(l, s, t, i, NDIRECT) && Slot(s, p)
    ensures Slot(t, p) && Ptr(t, p) == if p.i == i && p.Data? && p.k < NDIRECT then 0 else Ptr(s, p)
  {
  }

  lemma SizedPtr(l: Layout, s: State, t: State, i: nat, p: Owner)
    requires Shape(l, s) && i < |s.inodes| && Slot(s, p) && t == State(s.bits, s.blocks, SetSize(s.inodes, i, 0))
    ensures Slot(t, p) && InodeOk(t.inodes[p.i]) && Ptr(t, p) == Ptr(s, p)
  {
  }

  lemma AllZero(l: Layout, s: State, t: State, i: nat)
    requires Shape(l, s) && Shape(l, t) && i < |s.inodes| == |t.inodes|
    requires forall p | Slot(s, p) :: Ptr(t, p) == if p.i == i then 0 else Ptr(s, p)
    ensures t.inodes[i].addrs == seq(NDIRECT + 1, _ => 0)
  {
    forall k | 0 <= k <= NDIRECT
      ensures t.inodes[i].addrs[k] == 0
    {
      var p := if k == NDIRECT then Index(i) else Data(i, k);
      assert Slot(s, p) && Ptr(t, p) == t.inodes[i].addrs[k];
    }
  }

  lemma TruncatedBits(l: Layout, s0: State, s1: State, s2: State, i: nat)
    requires Shape(l, s0) && Shape(l, s1) && i < |s0.inodes|
    requires DirectFreed(l, s0, s1, i, NDIRECT) && IndexFreed(l, s1, s2, i)
    ensures forall b | 0 <= b < l.size :: s2.bits[b] <==> s0.bits[b] && !OwnedBy(l, s0, i, b)
  {
    hide Ptr;
    forall b | 0 <= b < l.size
      ensures s2.bits[b] <==> s0.bits[b] && !OwnedBy(l, s0, i, b)
    {
      assert Slot(s0, Index(i));
      if b != 0 && s0.bits[b] && !s2.bits[b] {
        if s1.bits[b] {
          if Ptr(s1, Index(i)) == b {
            assert Ptr(s0, Index(i)) == b;
          } else {
            var j :| NDIRECT <= j < MAXFILE && Ptr(s1, Data(i, j)) == b;
            assert Slot(s0, Data(i, j)) && Ptr(s0, Data(i, j)) == b;
          }
        } else {
          var n :| 0 <= n < NDIRECT && Ptr(s0, Data(i, n)) == b;
          assert Slot(s0, Data(i, n));
        }
      }
      if OwnedBy(l, s0, i, b) {
        var o :| Slot(s0, o) && o.i == i && Ptr(s0, o) == b;
        if o.Data? {
          assert o == Data(i, o.k);
        } else {
          assert o == Index(i);
        }
      }
    }
  }

  lemma TruncatedOthers(l: Layout, s: State, t: State, i: nat)
    requires Shape(l, s) && Shape(l, t) && i < |s.inodes| == |t.inodes| && t.blocks == s.blocks
    requires forall p | Slot(s, p) :: Ptr(t, p) == if p.i == i then 0 else Ptr(s, p)
    requires t.inodes[i].size == 0 && forall j | 0 <= j < |s.inodes| && j != i :: t.inodes[j] == s.inodes[j]
    ensures Content(t, i) == [] && NoHoles(l, t, i)
    ensures forall j | 0 <= j < |s.inodes| && j != i :: Content(t, j) == Content(s, j)
                                                         && (NoHoles(l, s, j) ==> NoHoles(l, t, j))
  {
    hide Ptr;
    assert NoHoles(l, t, i) by {
      assert Slot(s, Index(i));
      assert forall k | 0 <= k < MAXFILE :: Slot(s, Data(i, k));
    }
    forall j | 0 <= j < |s.inodes| && j != i
      ensures Content(t, j) == Content(s, j) && (NoHoles(l, s, j) ==> NoHoles(l, t, j))
    {
      SamePtrsSameBytes(l, s, t, j);
      assert Slot(s, Index(j));
      assert forall k | 0 <= k < MAXFILE :: Slot(s, Data(j, k));
    }
  }

  lemma OwnedShape(l: Layout, s: State)
    requires Owned(l, s)
    ensures Shape(l, s)
  {
  }

  function Min(a: nat, b: nat): nat {
    if a < b then a else b
  }

  function Max(a: nat, b: nat): nat {
    if a < b then b else a
  }

  function SetSize(inodes: seq<Inode>, i: nat, size: nat): seq<Inode>
    requires i < |inodes|
  {
    inodes[i := inodes[i].(size := size)]
  }

  /**
   What the writes of writei up to src have done: the bytes, nothing but block addresses in the
   inode table, and exactly the missing blocks of the written range added.
   */
  ghost predicate Progress(l: Layout, s: State, t: State, i: nat, off: nat, src: seq<byte>)
    requires Shape(l, s)
  {
    && i < |s.inodes| && Shape(l, t) && SameButAddrs(s.inodes, t.inodes, i)
    && off <= s.inodes[i].size && off + |src| <= MAXBYTES
    && Written(l, s, t, i, off, src)
    && Mapped(l, s, t, i, off / BSIZE, EndBlock(off, |src|))
  }

  /** One past the last block slot that bytes off..off+n fall into. */
  function EndBlock(off: nat, n: nat): nat {
    if n == 0 then off / BSIZE else Blocks(off + n)
  }

  function Splice(c: seq<byte>, off: nat, src: seq<byte>): seq<byte>
    requires off <= |c|
  {
    c[..off] + src + (if off + |src| < |c| then c[off + |src|..] else [])
  }

  lemma SpliceThen(c: seq<byte>, off: nat, src1: seq<byte>, src2: seq<byte>)
    requires off <= |c|
    ensures off + |src1| <= |Splice(c, off, src1)|
    ensures Splice(Splice(c, off, src1), off + |src1|, src2) == Splice(c, off, src1 + src2)
  {
  }

  /**
   The effect of a successful writei on files: src spliced into file i, all other files as they
   were, and exactly the missing blocks of the written range added.
   */
  ghost predicate Wrote(l: Layout, s: State, t: State, i: nat, off: nat, src: seq<byte>)
    requires Shape(l, s) && i < |s.inodes| && off <= s.inodes[i].size
  {
    && Owned(l, t) && |t.inodes| == |s.inodes|
    && t.inodes[i] == s.inodes[i].(size := Max(s.inodes[i].size, off + |src|), addrs := t.inodes[i].addrs)
    && Content(t, i) == Splice(Content(s, i), off, src)
    && (forall j | 0 <= j < |s.inodes| && j != i :: t.inodes[j] == s.inodes[j] && Content(t, j) == Content(s, j))
    && Mapped(l, s, t, i, off / BSIZE, EndBlock(off, |src|))
  }

  /** The effect of writei byte by byte. */
  lemma WroteBytes(l: Layout, s: State, t: State, i: nat, off: nat, src: seq<byte>)
    requires Shape(l, s) && i < |s.inodes| && off <= s.inodes[i].size && Wrote(l, s, t, i, off, src)
    ensures Shape(l, t) && |t.inodes| == |s.inodes|
    ensures |Content(t, i)| == if off + |src| > |Content(s, i)| then off + |src| else |Content(s, i)|
    ensures forall k | 0 <= k < |Content(t, i)| ::
              Content(t, i)[k] == if off <= k < off + |src| then src[k - off] else Content(s, i)[k]
    ensures forall j | 0 <= j < |s.inodes| && j != i :: Content(t, j) == Content(s, j)
  {
    OwnedShape(l, t);
    hide Content, Owned, Mapped;
  }

  /** Setting the size after the writes gives the effect of writei. */
  lemma ProgressWrote(l: Layout, s: State, t: State, u: State, i: nat, off: nat, src: seq<byte>)
    requires Shape(l, s) && Progress(l, s, t, i, off, src) && Owned(l, u)
    requires u == State(t.bits, t.blocks, SetSize(t.inodes, i, Max(s.inodes[i].size, off + |src|)))
    ensures Wrote(l, s, u, i, off, src)
  {
    assert forall p | Slot(t, p) :: Slot(u, p) && Ptr(u, p) == Ptr(t, p);
    hide Ptr, Owned;
    assert Written(l, s, u, i, off, src) by { WrittenSized(l, s, t, u, i, off, src); }
    ContentWritten(l, s, u, i, off, src);
    forall j | 0 <= j < |s.inodes| && j != i
      ensures Content(u, j) == Content(s, j)
    {
      ContentKept(l, s, u, i, off, src, j);
    }
    assert Mapped(l, s, u, i, off / BSIZE, EndBlock(off, |src|)) by { hide EndBlock; }
  }

  /** writei leaves files without holes without holes. */
  lemma WroteNoHoles(l: Layout, s: State, t: State, i: nat, off: nat, src: seq<byte>, j: nat)
    requires Shape(l, s) && i < |s.inodes| && off <= s.inodes[i].size && Wrote(l, s, t, i, off, src)
    requires j < |s.inodes| && NoHoles(l, s, j)
    ensures Shape(l, t) && j < |t.inodes| && NoHoles(l, t, j)
  {
    hide Ptr, Content, Filled, Mapped;
    MappedFills(l, s, t, i, off / BSIZE, EndBlock(off, |src|), j, Blocks(s.inodes[j].size));
  }

  /** Every block address that a write of n bytes at off needs in the inode itself is there. */
  predicate Covered(ip: Inode, off: nat, n: nat)
    requires InodeOk(ip)
  {
    && (forall k | off / BSIZE <= k < EndBlock(off, n) && k < NDIRECT :: ip.addrs[k] != 0)
    && (off / BSIZE < EndBlock(off, n) && EndBlock(off, n) > NDIRECT ==> ip.addrs[NDIRECT] != 0)
  }

  /** bmap over the blocks of a range changes the inode's addresses exactly when one of those it needs is missing. */
  lemma MappedAddrs(l: Layout, s: State, t: State, i: nat, off: nat, n: nat)
    requires Shape(l, s) && Shape(l, t) && i < |s.inodes| && Mapped(l, s, t, i, off / BSIZE, EndBlock(off, n))
    ensures i < |t.inodes| && (t.inodes[i].addrs == s.inodes[i].addrs <==> Covered(s.inodes[i], off, n))
  {
    hide Content, EndBlock, Word;
    var (a, b) := (s.inodes[i].addrs, t.inodes[i].addrs);
    var (lo, hi) := (off / BSIZE, EndBlock(off, n));
    forall k | 0 <= k <= NDIRECT
      ensures a[k] != 0 ==> b[k] == a[k]
      ensures a[k] == 0 ==> (b[k] != 0 <==> InReach(if k == NDIRECT then Index(i) else Data(i, k), i, lo, hi))
    {
      var p := if k == NDIRECT then Index(i) else Data(i, k);
      assert Slot(s, p) && Ptr(s, p) == a[k] && Ptr(t, p) == b[k];
    }
    if Covered(s.inodes[i], off, n) {
      assert forall k | 0 <= k <= NDIRECT :: b[k] == a[k];
    }
  }

  /** writei changes the inode's addresses exactly when one of those it needs is missing. */
  lemma WroteAddrs(l: Layout, s: State, t: State, i: nat, off: nat, src: seq<byte>)
    requires Shape(l, s) && i < |s.inodes| && off <= s.inodes[i].size && Wrote(l, s, t, i, off, src)
    ensures t.inodes[i].addrs == s.inodes[i].addrs <==> Covered(s.inodes[i], off, |src|)
  {
    hide Content, Covered, Mapped;
    MappedAddrs(l, s, t, i, off, |src|);
  }

  lemma NoHolesCovered(l: Layout, s: State, i: nat, off: nat, n: nat)
    requires Shape(l, s) && i < |s.inodes| && NoHoles(l, s, i) && off + n <= s.inodes[i].size
    ensures Covered(s.inodes[i], off, n)
  {
    hide Word;
    assert forall k | 0 <= k < NDIRECT :: Ptr(s, Data(i, k)) == s.inodes[i].addrs[k];
  }

  /**
   When the disk inode is current before writei, it is current after exactly when the file grew
   or no address was missing; a file without holes meets this.
   */
  lemma DiskInodeCurrentIff(l: Layout, s: State, t: State, i: nat, off: nat, src: seq<byte>, d: seq<Inode>)
    requires Shape(l, s) && i < |s.inodes| && off <= s.inodes[i].size && Wrote(l, s, t, i, off, src)
    requires d == if off + |src| > s.inodes[i].size then s.inodes[i := t.inodes[i]] else s.inodes
    ensures d == t.inodes <==> off + |src| > s.inodes[i].size || Covered(s.inodes[i], off, |src|)
    ensures NoHoles(l, s, i) ==> d == t.inodes
  {
    hide Owned, Content, Covered, Mapped, NoHoles;
    WroteAddrs(l, s, t, i, off, src);
    if NoHoles(l, s, i) && off + |src| <= s.inodes[i].size {
      NoHolesCovered(l, s, i, off, |src|);
    }
    if off + |src| <= s.inodes[i].size {
      assert s.inodes[i].(size := s.inodes[i].size, addrs := s.inodes[i].addrs) == s.inodes[i];
    }
    assert d == t.inodes <==> d[i] == t.inodes[i];
  }

  lemma WrittenSized(l: Layout, s: State, t: State, u: State, i: nat, off: nat, src: seq<byte>)
    requires Shape(l, s) && Shape(l, t) && Shape(l, u) && Written(l, s, t, i, off, src)
    requires |u.inodes| == |t.inodes| && u.blocks == t.blocks
    requires forall p | Slot(t, p) :: Slot(u, p) && Ptr(u, p) == Ptr(t, p)
    ensures Written(l, s, u, i, off, src)
  {
    hide Ptr;
    forall j, q | 0 <= j < |s.inodes| && 0 <= q < MAXBYTES
      ensures ByteAt(u, j, q) == ByteAt(t, j, q)
    {
      assert Slot(t, Data(j, q / BSIZE));
    }
  }

  lemma ProgressStart(l: Layout, s: State, i: nat, off: nat)
    requires Shape(l, s) && i < |s.inodes| && off <= s.inodes[i].size
    ensures Progress(l, s, s, i, off, [])
  {
    hide Ptr, ByteAt;
    MappedNone(l, s, i, off / BSIZE);
  }

  lemma ProgressSizes(l: Layout, s: State, t: State, i: nat, off: nat, src: seq<byte>)
    requires Shape(l, s) && Progress(l, s, t, i, off, src)
    ensures |t.inodes| == |s.inodes| && t.inodes[i].size == s.inodes[i].size
  {
  }

  /** Every block that bytes off..off+n fall into is there. */
  ghost predicate AllThere(l: Layout, s: State, i: nat, off: nat, n: nat)
    requires Shape(l, s) && i < |s.inodes| && off + n <= MAXBYTES
  {
    forall k | off / BSIZE <= k < EndBlock(off, n) :: Ptr(s, Data(i, k)) != 0
  }

  lemma ThereAt(l: Layout, s: State, i: nat, off: nat, n: nat, k: nat)
    requires Shape(l, s) && i < |s.inodes| && off + n <= MAXBYTES && AllThere(l, s, i, off, n)
    requires off / BSIZE <= k < EndBlock(off, n)
    ensures Ptr(s, Data(i, k)) != 0
  {
  }

  lemma NoneThere(l: Layout, s: State, i: nat, off: nat)
    requires Shape(l, s) && i < |s.inodes| && off <= MAXBYTES
    ensures AllThere(l, s, i, off, 0) && EndBlock(off, 0) == off / BSIZE
  {
  }

  /** A round of the loops of readi and writei stays in one block, and ends at its end or with the last byte. */
  lemma Round(off0: nat, tot: nat, n: nat, m: nat)
    requires tot < n && m == Min(n - tot, BSIZE - (off0 + tot) % BSIZE)
    ensures 0 < m <= n - tot && (off0 + tot) % BSIZE + m <= BSIZE
    ensures tot + m == n || (off0 + tot + m) % BSIZE == 0
    ensures off0 / BSIZE <= (off0 + tot) / BSIZE < EndBlock(off0, n)
  {
    var off := off0 + tot;
    if tot + m < n {
      assert off + m == (off / BSIZE + 1) * BSIZE;
    }
  }

  /** What reading may change: the missing ones of the blocks lo..hi of inode i are allocated, and read as zeros as before. */
  ghost predicate ReadKept(l: Layout, s: State, t: State, i: nat, lo: nat, hi: nat) {
    && Shape(l, s) && Shape(l, t) && SameButAddrs(s.inodes, t.inodes, i)
    && Written(l, s, t, i, 0, []) && Mapped(l, s, t, i, lo, hi)
  }

  lemma ReadKeptSelf(l: Layout, s: State, i: nat, lo: nat)
    requires Shape(l, s)
    ensures ReadKept(l, s, s, i, lo, lo)
  {
    WrittenNothing(l, s, i);
    MappedNone(l, s, i, lo);
  }

  lemma ReadKeptIs(l: Layout, s: State, t: State, i: nat, lo: nat, hi: nat)
    requires ReadKept(l, s, t, i, lo, hi)
    ensures Shape(l, s) && Shape(l, t) && SameButAddrs(s.inodes, t.inodes, i) && Written(l, s, t, i, 0, [])
    ensures Mapped(l, s, t, i, lo, hi)
  {
    hide Shape, Written, Mapped;
  }

  /** A read leaves everything as it was exactly when every block it needs is there. */
  lemma ReadChangesIff(l: Layout, s: State, t: State, i: nat, off: nat, n: nat)
    requires ReadKept(l, s, t, i, off / BSIZE, EndBlock(off, n)) && i < |s.inodes| && off + n <= MAXBYTES
    ensures t == s ==> AllThere(l, s, i, off, n)
  {
    hide Ptr, Written;
    if !AllThere(l, s, i, off, n) {
      var k :| off / BSIZE <= k < EndBlock(off, n) && Ptr(s, Data(i, k)) == 0;
      assert Slot(s, Data(i, k)) && InReach(Data(i, k), i, off / BSIZE, EndBlock(off, n));
    }
  }

  /** readi never writes the inode through: the disk inode stays current exactly when no address it needs in the inode was missing. */
  lemma ReadCurrentIff(l: Layout, s: State, t: State, i: nat, off: nat, n: nat)
    requires ReadKept(l, s, t, i, off / BSIZE, EndBlock(off, n)) && i < |s.inodes| && off + n <= MAXBYTES
    ensures t.inodes == s.inodes <==> Covered(s.inodes[i], off, n)
  {
    hide Covered, Written, Mapped;
    MappedAddrs(l, s, t, i, off, n);
    assert t.inodes == s.inodes <==> t.inodes[i] == s.inodes[i];
    assert s.inodes[i].(addrs := s.inodes[i].addrs) == s.inodes[i];
  }

  lemma NoHolesThere(l: Layout, s: State, i: nat, off: nat, n: nat)
    requires Shape(l, s) && i < |s.inodes| && NoHoles(l, s, i) && off + n <= s.inodes[i].size
    ensures AllThere(l, s, i, off, n)
  {
    hide Ptr;
  }

  /** One more round of a read that began at off0 and has reached off. */
  lemma ReadKeptThen(l: Layout, s: State, t: State, u: State, i: nat, off0: nat, off: nat, m: nat)
    requires off0 <= off && ReadKept(l, s, t, i, off0 / BSIZE, EndBlock(off0, off - off0))
    requires ReadKept(l, t, u, i, off / BSIZE, off / BSIZE + 1)
    requires i < |s.inodes| && off + m <= MAXBYTES && 0 < m && off % BSIZE + m <= BSIZE
    requires off > off0 ==> off % BSIZE == 0
    ensures ReadKept(l, s, u, i, off0 / BSIZE, EndBlock(off0, off - off0 + m))
    ensures i < |t.inodes| && Slice(t, i, off, m) == Slice(s, i, off, m)
  {
    SliceKept(l, s, t, i, off, m) by { hide Mapped; }
    hide Ptr, ByteAt, Mapped, Written, Slice;
    WrittenSame(l, s, t, u, i);
    var k := off / BSIZE;
    assert EndBlock(off0, off - off0) == k && EndBlock(off0, off - off0 + m) == k + 1;
    MappedJoin(l, s, t, u, i, off0 / BSIZE, k, k, k + 1);
  }

  lemma SliceKept(l: Layout, s: State, t: State, i: nat, off: nat, m: nat)
    requires Shape(l, s) && Shape(l, t) && SameButAddrs(s.inodes, t.inodes, i) && Written(l, s, t, i, 0, [])
    requires i < |s.inodes| && off + m <= MAXBYTES
    ensures i < |t.inodes| && Slice(t, i, off, m) == Slice(s, i, off, m)
  {
    hide ByteAt;
  }

  lemma SliceNone(s: State, i: nat, off: nat)
    requires i < |s.inodes| && InodeOk(s.inodes[i]) && off <= MAXBYTES
    ensures Slice(s, i, off, 0) == []
  {
  }

  lemma WrittenNothing(l: Layout, s: State, i: nat)
    requires Shape(l, s)
    ensures Written(l, s, s, i, 0, [])
  {
  }

  lemma WrittenSame(l: Layout, s: State, t: State, u: State, i: nat)
    requires Shape(l, s) && Shape(l, t) && Shape(l, u)
    requires Written(l, s, t, i, 0, []) && Written(l, t, u, i, 0, [])
    ensures Written(l, s, u, i, 0, [])
  {
    hide Written;
    WrittenThen(l, s, t, u, i, 0, [], []);
    var none: seq<byte> := [];
    assert none + none == none;
  }

  lemma MappedThere(l: Layout, s: State, t: State, i: nat, k: nat)
    requires Shape(l, s) && Shape(l, t) && i < |s.inodes| && k < MAXFILE && Mapped(l, s, t, i, k, k + 1)
    ensures Ptr(t, Data(i, k)) != 0
  {
    assert Slot(s, Data(i, k));
  }

  function Slice(s: State, i: nat, off: nat, m: nat): (r: seq<byte>)
    requires i < |s.inodes| && InodeOk(s.inodes[i]) && off + m <= MAXBYTES
    ensures |r| == m
  {
    seq<byte>(m, q requires 0 <= q < m => ByteAt(s, i, off + q))
  }

  lemma SliceThen(s: State, i: nat, off: nat, m1: nat, m2: nat)
    requires i < |s.inodes| && InodeOk(s.inodes[i]) && off + m1 + m2 <= MAXBYTES
    ensures Slice(s, i, off, m1) + Slice(s, i, off + m1, m2) == Slice(s, i, off, m1 + m2)
  {
    hide ByteAt;
  }

  lemma SliceIs(s: State, i: nat, off: nat, m: nat)
    requires i < |s.inodes| && InodeOk(s.inodes[i]) && off + m <= s.inodes[i].size
    ensures Slice(s, i, off, m) == Content(s, i)[off..off + m]
  {
    hide ByteAt;
  }

  lemma ChunkReads(l: Layout, s: State, t: State, i: nat, off: nat, m: nat)
    requires Shape(l, s) && Shape(l, t) && i < |s.inodes| && Written(l, s, t, i, 0, [])
    requires off + m <= MAXBYTES && 0 < m && off % BSIZE + m <= BSIZE
    requires 0 < Ptr(t, Data(i, off / BSIZE)) < |t.blocks|
    ensures t.blocks[Ptr(t, Data(i, off / BSIZE))][off % BSIZE..off % BSIZE + m] == Slice(s, i, off, m)
  {
    hide Ptr;
    var b := t.blocks[Ptr(t, Data(i, off / BSIZE))][off % BSIZE..off % BSIZE + m];
    forall q | 0 <= q < m
      ensures b[q] == Slice(s, i, off, m)[q]
    {
      assert (off + q) / BSIZE == off / BSIZE && (off + q) % BSIZE == off % BSIZE + q;
      assert ByteAt(t, i, off + q) == ByteAt(s, i, off + q);
    }
  }

  /** The effect of bmap and a copy into its block. */
  ghost predicate OneBlock(l: Layout, s: State, t: State, i: nat, off: nat, src: seq<byte>)
    requires Shape(l, s)
  {
    && Shape(l, t) && SameButAddrs(s.inodes, t.inodes, i)
    && Written(l, s, t, i, off, src) && Mapped(l, s, t, i, off / BSIZE, off / BSIZE + 1)
  }

  lemma OneBlockThere(l: Layout, s: State, t: State, i: nat, off: nat, src: seq<byte>)
    requires Shape(l, s) && Owned(l, t) && i < |s.inodes|
    requires off + |src| <= MAXBYTES && src != [] && off % BSIZE + |src| <= BSIZE
    requires SameButAddrs(s.inodes, t.inodes, i) && Written(l, s, t, i, 0, [])
    requires Mapped(l, s, t, i, off / BSIZE, off / BSIZE + 1)
    ensures Slot(t, Data(i, off / BSIZE)) && Ptr(t, Data(i, off / BSIZE)) < |t.blocks|
    ensures var u := Poked(l, t, i, off, src);
            Owned(l, u) && OneBlock(l, s, u, i, off, src)
            && Ptr(u, Data(i, off / BSIZE)) == Ptr(t, Data(i, off / BSIZE)) && Ptr(u, Index(i)) == Ptr(t, Index(i))
  {
    var k := off / BSIZE;
    MappedThere(l, s, t, i, k);
    ChunkWrites(l, t, i, off, src);
    var a := Ptr(t, Data(i, k));
    SamePtrs(l, t, i, k, Overlay(t.blocks[a], off % BSIZE, src));
    var u := Poked(l, t, i, off, src);
    hide Ptr, ByteAt, Owned;
    OwnedShape(l, t);
    OwnedShape(l, u);
    assert u.inodes == t.inodes;
    WrittenShift(l, s, t, i, off);
    WrittenThen(l, s, t, u, i, off, [], src);
    assert [] + src == src;
    MappedSame(l, s, t, u, i, k, k + 1);
    assert Slot(t, Index(i)) && Slot(t, Data(i, k));
  }

  function Poked(l: Layout, s: State, i: nat, off: nat, src: seq<byte>): State
    requires Shape(l, s) && i < |s.inodes| && off < MAXBYTES && off % BSIZE + |src| <= BSIZE
    requires Ptr(s, Data(i, off / BSIZE)) < |s.blocks|
  {
    Poke(s, Ptr(s, Data(i, off / BSIZE)), Overlay(s.blocks[Ptr(s, Data(i, off / BSIZE))], off % BSIZE, src))
  }

  lemma ProgressStep(l: Layout, s0: State, s1: State, s2: State, i: nat, off0: nat, done: seq<byte>, src: seq<byte>)
    requires Shape(l, s0) && Shape(l, s1) && Progress(l, s0, s1, i, off0, done)
    requires off0 + |done| + |src| <= MAXBYTES && src != [] && (off0 + |done|) % BSIZE + |src| <= BSIZE
    requires done != [] ==> (off0 + |done|) % BSIZE == 0
    requires OneBlock(l, s1, s2, i, off0 + |done|, src)
    ensures Progress(l, s0, s2, i, off0, done + src)
  {
    hide Ptr, ByteAt, Mapped, Written;
    var k := (off0 + |done|) / BSIZE;
    WrittenThen(l, s0, s1, s2, i, off0, done, src);
    assert EndBlock(off0, |done|) == k && EndBlock(off0, |done + src|) == k + 1;
    MappedJoin(l, s0, s1, s2, i, off0 / BSIZE, k, k, k + 1);
  }

  lemma MappedSame(l: Layout, s: State, t: State, u: State, i: nat, lo: nat, hi: nat)
    requires Shape(l, s) && Shape(l, t) && Shape(l, u) && Mapped(l, s, t, i, lo, hi) && |u.inodes| == |t.inodes|
    requires forall p | Slot(t, p) :: Ptr(u, p) == Ptr(t, p)
    ensures Mapped(l, s, u, i, lo, hi)
  {
    hide Ptr;
    assert forall p | Slot(s, p) :: Slot(t, p);
  }

  lemma WrittenShift(l: Layout, s: State, t: State, i: nat, off: nat)
    requires Shape(l, s) && Shape(l, t) && Written(l, s, t, i, 0, [])
    ensures Written(l, s, t, i, off, [])
  {
    hide ByteAt;
  }

  /** Every block number held in s is held in the same place in t. */
  ghost predicate Keeps(l: Layout, s: State, t: State)
    requires Shape(l, s) && Shape(l, t)
  {
    |s.inodes| == |t.inodes| && forall p | Slot(s, p) && Ptr(s, p) != 0 :: Ptr(t, p) == Ptr(s, p)
  }

  lemma TouchedGrows(l: Layout, s: State, t: State, i: nat, off: nat, end: nat, end': nat)
    requires Shape(l, s) && Shape(l, t) && i < |s.inodes| && off <= end <= end' <= MAXBYTES && Keeps(l, s, t)
    ensures Touched(l, s, i, off, end) <= Touched(l, t, i, off, end')
  {
    hide Ptr, BlocksOf;
    assert Slot(s, Index(i));
    forall b | b in BlocksOf(l, s, i, off / BSIZE, Blocks(end))
      ensures b in BlocksOf(l, t, i, off / BSIZE, Blocks(end'))
    {
      BlocksOfHas(l, s, i, off / BSIZE, Blocks(end), b);
      BlocksOfHas(l, t, i, off / BSIZE, Blocks(end'), b);
      var k :| off / BSIZE <= k < Blocks(end) && Ptr(s, Data(i, k)) == b;
      assert Slot(s, Data(i, k));
      assert Ptr(t, Data(i, k)) == b;
    }
  }

  lemma MappedKeeps(l: Layout, s: State, t: State, i: nat, k: nat)
    requires Shape(l, s) && Shape(l, t) && Mapped(l, s, t, i, k, k + 1)
    ensures Keeps(l, s, t)
  {
    hide Ptr;
  }

  lemma BlockTouched(l: Layout, s: State, i: nat, off0: nat, off: nat, m: nat)
    requires Shape(l, s) && i < |s.inodes| && off0 <= off && 0 < m && off + m <= MAXBYTES
    requires Ptr(s, Data(i, off / BSIZE)) != 0
    ensures Ptr(s, Data(i, off / BSIZE)) in Touched(l, s, i, off0, off + m)
    ensures Range(l.bmapStart, BitmapCount(l)) + IndexOf(l, s, i) <= Touched(l, s, i, off0, off + m)
  {
    hide Ptr, BlocksOf;
    var k := off / BSIZE;
    assert off0 / BSIZE <= k < Blocks(off + m);
    BlocksOfHas(l, s, i, off0 / BSIZE, Blocks(off + m), Ptr(s, Data(i, k)));
  }

  /** One round of writei's loop: what it logs is among the blocks touched so far. */
  lemma TouchedStep(l: Layout, s: State, t: State, i: nat, off0: nat, off: nat, src: seq<byte>)
    requires Shape(l, s) && Shape(l, t) && OneBlock(l, s, t, i, off, src)
    requires i < |s.inodes| && i < |t.inodes| && off0 <= off && src != [] && off + |src| <= MAXBYTES
    ensures Touched(l, s, i, off0, off) <= Touched(l, t, i, off0, off + |src|)
    ensures Range(l.bmapStart, BitmapCount(l)) + IndexOf(l, t, i) <= Touched(l, t, i, off0, off + |src|)
    ensures Ptr(t, Data(i, off / BSIZE)) in Touched(l, t, i, off0, off + |src|)
  {
    hide Ptr, Touched, IndexOf, BlocksOf, Keeps, Shape, Mapped, Written, SameButAddrs;
    MappedThere(l, s, t, i, off / BSIZE);
    MappedKeeps(l, s, t, i, off / BSIZE);
    BlockTouched(l, t, i, off0, off, |src|);
    TouchedGrows(l, s, t, i, off0, off, off + |src|);
  }

  lemma InodeBlockTouched(l: Layout, s: State, i: nat, off: nat, end: nat)
    requires Shape(l, s) && i < |s.inodes| && off <= end <= MAXBYTES
    ensures InodeBlock(l, i) in Touched(l, s, i, off, end)
  {
  }

  /** A change of size keeps ownership and the touched blocks. */
  lemma Resized(l: Layout, s: State, t: State, i: nat, off: nat, size: nat)
    requires Owned(l, s) && i < |s.inodes| && off <= size <= MAXBYTES
    requires t == State(s.bits, s.blocks, SetSize(s.inodes, i, size))
    ensures Owned(l, t) && Touched(l, s, i, off, size) <= Touched(l, t, i, off, size)
  {
    assert Shape(l, t);
    assert forall p | Slot(s, p) :: Slot(t, p) && Ptr(t, p) == Ptr(s, p);
    hide Ptr;
    forall o | Slot(t, o)
      ensures PtrOk(l, t, o)
    {
      assert Slot(s, o) && PtrOk(l, s, o);
    }
    forall b | l.dataStart <= b < l.size && t.bits[b]
      ensures HasOwner(l, t, b)
    {
      assert HasOwner(l, s, b);
      var p :| Slot(s, p) && Ptr(s, p) == b;
      assert Slot(t, p) && Ptr(t, p) == b;
    }
    TouchedGrows(l, s, t, i, off, size, size);
  }

  lemma AttachLogs(l: Layout, s: State, o: Owner, b: nat)
    requires Attachable(l, s, o, b)
    ensures BitmapBlock(l, b) in Range(l.bmapStart, BitmapCount(l))
  {
  }

  lemma WroteNothing(l: Layout, s: State, i: nat, off: nat)
    requires Owned(l, s) && i < |s.inodes| && off <= s.inodes[i].size
    ensures Wrote(l, s, s, i, off, [])
  {
    hide Owned, ByteAt;
    OwnedShape(l, s);
    MappedNone(l, s, i, off / BSIZE);
    assert Content(s, i) == Splice(Content(s, i), off, []);
  }

  /** Two writes in a row are one write of both pieces. */
  lemma WroteThen(l: Layout, s: State, t: State, u: State, i: nat, off: nat, src1: seq<byte>, src2: seq<byte>)
    requires Shape(l, s) && Shape(l, t) && i < |s.inodes| && off <= s.inodes[i].size && Wrote(l, s, t, i, off, src1)
    requires i < |t.inodes| && off + |src1| <= t.inodes[i].size && Wrote(l, t, u, i, off + |src1|, src2)
    ensures Wrote(l, s, u, i, off, src1 + src2)
  {
    hide Owned, ByteAt, Mapped, Content;
    OwnedShape(l, u);
    SpliceThen(Content(s, i), off, src1, src2);
    if src2 == [] {
      assert src1 + src2 == src1;
      MappedEmpty(l, t, u, i, (off + |src1|) / BSIZE, EndBlock(off, |src1|));
      MappedJoin(l, s, t, u, i, off / BSIZE, EndBlock(off, |src1|), EndBlock(off, |src1|), EndBlock(off, |src1|));
    } else {
      MappedJoin(l, s, t, u, i, off / BSIZE, (off + |src1|) / BSIZE, EndBlock(off, |src1|), EndBlock(off, |src1 + src2|));
    }
  }

  // ----- Transactions

  const MAXOPBLOCKS: nat := 10
  const MAXWRITE: nat := 1536

  /** A write of at most one chunk logs at most four data blocks, the indirect block, the inode and the free map. */
  lemma ChunkBound(l: Layout, s: State, i: nat, off: nat, n: nat)
    requires Shape(l, s) && i < |s.inodes| && off + n <= MAXBYTES && n <= MAXWRITE
    ensures |Touched(l, s, i, off, off + n)| <= BitmapCount(l) + 6
  {
    hide Ptr;
    var a := Range(l.bmapStart, BitmapCount(l));
    var b := {InodeBlock(l, i)};
    var c := IndexOf(l, s, i);
    var d := BlocksOf(l, s, i, off / BSIZE, Blocks(off + n));
    assert off / BSIZE <= Blocks(off + n) <= off / BSIZE + 4;
    BlocksOfSize(l, s, i, off / BSIZE, Blocks(off + n));
    UnionSize(a, b);
    UnionSize(a + b, c);
    UnionSize(a + b + c, d);
  }

  lemma UnionSize(a: set<nat>, b: set<nat>)
    ensures |a + b| <= |a| + |b|
  {
    assert a + b == a + (b - a);
    assert |b - a| <= |b| by { assert b == (b - a) + (b * a); }
  }

  lemma SubsetSize(a: set<nat>, b: set<nat>)
    requires a <= b
    ensures |a| <= |b|
  {
    assert b == a + (b - a);
  }
}
