/**
 mkfs.c: blocks and inodes are handed out by counters, files are appended chunk by chunk, and the
 free map is written last as a run of ones.  The image starts out as zeros.
 */
module Mkfs {
  import opened Fs
  import opened FsEffects
  import Directory

  const T_DIR: int := 1
  const T_FILE: int := 2
  const ROOTINO: nat := 1

  // ----- Layout

  function Layout0(fssize: nat, nlog: nat, ninodes: nat): Layout {
    var inodeStart := 2 + nlog;
    var bmapStart := inodeStart + ninodes / IPB + 1;
    Layout(fssize, inodeStart, bmapStart, bmapStart + fssize / BPB + 1)
  }

  /** The superblock's regions do not overlap: log, inode blocks, free map, data. */
  lemma RegionsApart(fssize: nat, nlog: nat, ninodes: nat, i: nat, b: nat)
    requires i < ninodes && b < fssize
    ensures var l := Layout0(fssize, nlog, ninodes);
            2 + nlog <= InodeBlock(l, i) < l.bmapStart <= BitmapBlock(l, b) < l.dataStart
  {
  }

  // ----- The image while it is built

  /** The free map balloc would write now. */
  function Bits(size: nat, used: nat): (r: seq<bool>)
    ensures |r| == size && forall b | 0 <= b < size :: r[b] <==> b < used
  {
    seq(size, b => b < used)
  }

  /** Past its end a file's last block holds zeros. */
  ghost predicate TailZero(s: State, i: nat)
    requires i < |s.inodes| && InodeOk(s.inodes[i])
  {
    forall q | s.inodes[i].size <= q < MAXBYTES :: ByteAt(s, i, q) == 0
  }

  ghost predicate Tidy(l: Layout, s: State, used: nat) {
    && Owned(l, s) && used <= l.size && s.bits == Bits(l.size, used)
    && (forall b | used <= b < l.size :: s.blocks[b] == ZERO)
  }

  lemma NextBit(size: nat, used: nat)
    requires used < size
    ensures Bits(size, used)[used := true] == Bits(size, used + 1)
  {
  }

  lemma WipeZero(blocks: seq<Block>, b: nat)
    requires b < |blocks| && blocks[b] == ZERO
    ensures Wipe(blocks, b) == blocks
  {
  }

  /** The blocks past the one taken stay zero. */
  lemma TailStaysZero(l: Layout, s: State, used: nat, o: Owner, b: nat)
    requires Tidy(l, s, used) && AttachOk(l, s, o, used) && used < b < l.size
    requires o.Data? && o.k >= NDIRECT ==> 0 < s.inodes[o.i].addrs[NDIRECT] < used
    ensures Attach(l, s, o, used).blocks[b] == ZERO
  {
    hide Owned, Attach, Ptr, Word, SetWord;
    AttachBlock(l, s, o, used, b);
  }

  /** An index block in use lies below the next free block. */
  lemma IndexBelow(l: Layout, s: State, used: nat, i: nat)
    requires Tidy(l, s, used) && i < |s.inodes| && Shape(l, s)
    ensures s.inodes[i].addrs[NDIRECT] != 0 ==> s.inodes[i].addrs[NDIRECT] < used
  {
    hide Word;
    assert Slot(s, Index(i)) && Ptr(s, Index(i)) == s.inodes[i].addrs[NDIRECT];
    assert PtrOk(l, s, Index(i));
  }

  lemma NextIsFree(l: Layout, s: State, used: nat)
    requires Tidy(l, s, used) && used < l.size
    ensures !s.bits[used] && used >= l.dataStart > 0 && s.blocks[used] == ZERO
  {
    hide Ptr;
  }

  /** Taking the next block for an empty pointer; the block is zero already. */
  lemma TakeNext(l: Layout, s: State, used: nat, o: Owner)
    requires Tidy(l, s, used) && used < l.size && Slot(s, o) && Ptr(s, o) == 0
    requires o.Data? && o.k >= NDIRECT ==> s.inodes[o.i].addrs[NDIRECT] != 0
    ensures Attachable(l, s, o, used) && AttachOk(l, s, o, used) && Tidy(l, Attach(l, s, o, used), used + 1)
    ensures Attach(l, s, o, used).bits == Bits(l.size, used + 1) && Wipe(s.blocks, used) == s.blocks && used > 0
  {
    NextIsFree(l, s, used);
    hide Owned, Attach, Ptr, Word, SetWord;
    OwnedShape(l, s);
    AttachShape(l, s, o, used);
    AttachKeeps(l, s, o, used);
    AttachBits(l, s, o, used);
    NextBit(l.size, used);
    WipeZero(s.blocks, used);
    IndexBelow(l, s, used, o.i);
    forall b | used + 1 <= b < l.size
      ensures Attach(l, s, o, used).blocks[b] == ZERO
    {
      TailStaysZero(l, s, used, o, b);
    }
  }

  lemma PokeTidy(l: Layout, s: State, used: nat, i: nat, k: nat, blk: Block)
    requires Tidy(l, s, used) && DataBlock(l, s, i, k)
    ensures Ptr(s, Data(i, k)) < |s.blocks| && Tidy(l, Poke(s, Ptr(s, Data(i, k)), blk), used)
  {
    PokeKeeps(l, s, i, k, blk);
    assert PtrOk(l, s, Data(i, k));
  }

  class Image {
    const l: Layout
    var freeblock: nat
    var freeinode: nat
    var blocks: seq<Block>
    var inodes: seq<Inode>
    var bits: seq<bool>    // the free map on the image, written last

    /** The image with the free map its counter stands for. */
    ghost function S(): State
      reads this
    {
      State(Bits(l.size, freeblock), blocks, inodes)
    }

    /** The image as it is. */
    ghost function Disk(): State
      reads this
    {
      State(bits, blocks, inodes)
    }

    ghost predicate Valid()
      reads this
    {
      && Tidy(l, S(), freeblock)
      && (forall i | 0 <= i < |inodes| :: NoHoles(l, S(), i) && TailZero(S(), i))
      && 0 < freeinode <= |inodes| && (forall i | freeinode <= i < |inodes| :: inodes[i] == Empty(0, 0))
    }

    /** The zeroed image. */
    constructor (l: Layout, ninodes: nat)
      requires 0 < l.dataStart <= l.size < UINT && 0 < ninodes
      ensures Valid() && this.l == l && |inodes| == ninodes && freeinode == 1 && freeblock == l.dataStart
    {
      this.l := l;
      freeblock, freeinode := l.dataStart, 1;
      blocks := seq(l.size, _ => Zeros(BSIZE));
      inodes := seq(ninodes, _ => Empty(0, 0));
      bits := Bits(l.size, 0);
      new;
      EmptyImage(l, S());
    }

    /** ialloc of mkfs: the next inode; false when the inode blocks are full, which mkfs does not check. */
    method Ialloc(kind: int) returns (ok: bool, i: nat)
      requires Valid()
      modifies this`freeinode, this`inodes
      ensures ok <==> old(freeinode) < |old(inodes)|
      ensures ok ==> Valid() && i == old(freeinode) && freeinode == i + 1 && inodes == old(inodes)[i := Empty(kind, 1)]
      ensures ok ==> SameContents(l, old(S()), S()) && Content(S(), i) == []
    {
      i := freeinode;
      if freeinode >= |inodes| {
        return false, i;
      }
      InodeNamed(l, S(), freeblock, i, kind);
      inodes := inodes[i := Empty(kind, 1)];
      freeinode := freeinode + 1;
      ok := true;
    }

    /** The block of slot k of inode i in iappend; false when the image is full, which mkfs does not check. */
    method BlockFor(i: nat, k: nat) returns (ok: bool, x: nat)
      requires Tidy(l, S(), freeblock) && i < |inodes| && k < MAXFILE
      modifies this`freeblock, this`blocks, this`inodes
      ensures ok ==> Tidy(l, S(), freeblock) && SameButAddrs(old(inodes), inodes, i) && x == Ptr(S(), Data(i, k))
      ensures ok ==> Mapped(l, old(S()), S(), i, k, k + 1) && Written(l, old(S()), S(), i, 0, [])
      ensures !ok ==> freeblock == l.size
    {
      hide Word, SetWord, Attach, Owned;
      ghost var s0 := S();
      OwnedShape(l, s0);
      if k >= NDIRECT && inodes[i].addrs[NDIRECT] == 0 {
        if freeblock == l.size {
          return false, 0;
        }
        ghost var b := freeblock;
        TakeNext(l, s0, b, Index(i));
        AttachMaps(l, s0, Index(i), b);
        AttachIs(l, s0, Index(i), b);
        inodes := inodes[i := SetAddr(inodes[i], NDIRECT, freeblock)];
        freeblock := freeblock + 1;
        ghost var s1 := S();
        OwnedShape(l, s1);
        ok, x := SlotBlock(i, k);
        if ok {
          OwnedShape(l, S());
          MappedThen(l, s0, i, k, b, S());
          WrittenSame(l, s0, s1, S(), i);
        }
        return;
      }
      ok, x := SlotBlock(i, k);
    }

    method SlotBlock(i: nat, k: nat) returns (ok: bool, x: nat)
      requires Tidy(l, S(), freeblock) && i < |inodes| && k < MAXFILE
      requires k >= NDIRECT ==> inodes[i].addrs[NDIRECT] != 0
      modifies this`freeblock, this`blocks, this`inodes
      ensures ok ==> Tidy(l, S(), freeblock) && SameButAddrs(old(inodes), inodes, i) && x == Ptr(S(), Data(i, k))
      ensures ok ==> Mapped(l, old(S()), S(), i, k, k + 1) && Written(l, old(S()), S(), i, 0, [])
      ensures !ok ==> freeblock == l.size
    {
      hide Word, SetWord, Attach, Owned, Mapped, Written, Tidy;
      ghost var s0 := S();
      SlotThere(l, s0, freeblock, i, k);
      x := if k < NDIRECT then inodes[i].addrs[k] else Word(blocks[inodes[i].addrs[NDIRECT]], k - NDIRECT);
      if x != 0 {
        MappedAlready(l, s0, i, k);
        WrittenNothing(l, s0, i);
        return true, x;
      }
      if freeblock == l.size {
        return false, 0;
      }
      SlotTaken(l, s0, freeblock, i, k);
      x := freeblock;
      if k < NDIRECT {
        inodes := inodes[i := SetAddr(inodes[i], k, x)];
      } else {
        blocks := PutWord(blocks, inodes[i].addrs[NDIRECT], k - NDIRECT, x);
      }
      freeblock := freeblock + 1;
      ok := true;
    }

    /**
     iappend: the bytes go to the end of file i, every other file stays, and nothing is left
     unallocated below the new size; false when the file or the image is full.
     */
    method Iappend(i: nat, src: seq<byte>) returns (ok: bool)
      requires Valid() && i < freeinode
      modifies this`freeblock, this`blocks, this`inodes
      ensures ok ==> Valid() && Appended(l, old(S()), S(), i, src)
      ensures !ok ==> freeblock == l.size || old(inodes[i].size) + |src| > MAXBYTES
    {
      hide Owned, Tidy, NoHoles, TailZero, Progress, Wrote, Appended, OneBlock;
      ghost var s0, off0 := S(), inodes[i].size;
      TidyIs(l, s0, freeblock);
      ProgressStart(l, s0, i, off0);
      assert src[..0] == [];
      var off, tot := inodes[i].size, 0;
      while tot < |src|
        invariant tot <= |src| && off == off0 + tot && (tot == 0 || tot == |src| || off % BSIZE == 0) && off <= MAXBYTES
        invariant Tidy(l, S(), freeblock) && i < |inodes| && Progress(l, s0, S(), i, off0, src[..tot])
      {
        ghost var s1 := S();
        TidyIs(l, s1, freeblock);
        if off / BSIZE >= MAXFILE {
          return false;
        }
        var m := if |src| - tot < (off / BSIZE + 1) * BSIZE - off then |src| - tot else (off / BSIZE + 1) * BSIZE - off;
        ok := PutChunk(i, src[tot..tot + m], off);
        if !ok {
          return;
        }
        assert src[..tot + m] == src[..tot] + src[tot..tot + m];
        ProgressStep(l, s0, s1, S(), i, off0, src[..tot], src[tot..tot + m]);
        tot, off := tot + m, off + m;
      }
      assert src[..tot] == src;
      ghost var s2 := S();
      TidyIs(l, s2, freeblock);
      ProgressSizes(l, s0, s2, i, off0, src);
      inodes := SetSize(inodes, i, off);
      SizedTidy(l, s2, S(), freeblock, i, off);
      ProgressWrote(l, s0, s2, S(), i, off0, src);
      WroteAppends(l, s0, s2, S(), i, src);
      AppendedIs(l, s0, S(), i, src);
      ok := true;
    }

    /** One round of iappend's loop. */
    method PutChunk(i: nat, src: seq<byte>, off: nat) returns (ok: bool)
      requires Tidy(l, S(), freeblock) && i < |inodes| && src != [] && off + |src| <= MAXBYTES && off % BSIZE + |src| <= BSIZE
      modifies this`freeblock, this`blocks, this`inodes
      ensures !ok ==> freeblock == l.size
      ensures ok ==> Tidy(l, S(), freeblock) && Shape(l, old(S())) && OneBlock(l, old(S()), S(), i, off, src)
      ensures ok ==> |inodes| == |old(inodes)| && Shape(l, S())
    {
      hide Ptr, Owned, Mapped, Written, Overlay, Tidy;
      ghost var s0 := S();
      TidyIs(l, s0, freeblock);
      var x;
      ok, x := BlockFor(i, off / BSIZE);
      if !ok {
        return;
      }
      ghost var s1 := S();
      TidyIs(l, s1, freeblock);
      OneBlockThere(l, s0, s1, i, off, src);
      MappedThere(l, s0, s1, i, off / BSIZE);
      PokeTidy(l, s1, freeblock, i, off / BSIZE, Overlay(blocks[x], off % BSIZE, src));
      blocks := blocks[x := Overlay(blocks[x], off % BSIZE, src)];
      TidyIs(l, S(), freeblock);
    }

    /** The rounding of the root directory's size at the end of mkfs, and the image it leaves. */
    method RoundRoot() returns (ok: bool)
      requires Valid() && freeinode > ROOTINO
      modifies this`inodes
      ensures ok <==> old(inodes[ROOTINO].size) < MAXBYTES
      ensures ok ==> Tidy(l, S(), freeblock) && Rounded(l, old(S()), S())
      ensures !ok ==> S() == old(S())
    {
      var off := inodes[ROOTINO].size;
      off := (off / BSIZE + 1) * BSIZE;
      if off > MAXBYTES {
        return false;
      }
      RoundKeeps(l, S(), freeblock, off);
      inodes := SetSize(inodes, ROOTINO, off);
      ok := true;
    }

    /** balloc of mkfs: the free map as a run of ones; false is its failed assertion that one map block is enough. */
    method Balloc() returns (ok: bool)
      requires freeblock <= l.size
      modifies this`bits
      ensures ok <==> freeblock < BPB
      ensures ok ==> bits == Bits(l.size, freeblock)
    {
      if freeblock >= BPB {
        return false;
      }
      bits := Bits(l.size, 0);
      var i := 0;
      while i < freeblock
        invariant i <= freeblock <= l.size && bits == Bits(l.size, i)
      {
        NextBit(l.size, i);
        bits := bits[i := true];
        i := i + 1;
      }
      ok := true;
    }

    /** The loop body of mkfs's main for one file: inode, directory entry, contents in blocks. */
    method AddFile(name: seq<byte>, data: seq<byte>) returns (ok: bool)
      requires Valid() && ROOTINO < freeinode && |inodes| <= 0x1_0000
      modifies this`freeblock, this`freeinode, this`blocks, this`inodes
      ensures ok ==> Valid() && freeinode == old(freeinode) + 1 && |inodes| == |old(inodes)|
      ensures ok ==> Added(l, old(S()), S(), old(freeinode), name, data)
      ensures !ok ==> old(freeinode) == |old(inodes)| || freeblock == l.size || |data| > MAXBYTES
                      || old(inodes[ROOTINO].size) + Directory.DIRENT > MAXBYTES
    {
      hide Owned, Tidy, NoHoles, TailZero, Appended, Content, Added;
      ghost var s0 := S();
      var i;
      ok, i := Ialloc(T_FILE);
      if !ok {
        return;
      }
      ghost var s1 := S();
      ok := Iappend(ROOTINO, Directory.Encode(i, name));
      if !ok {
        return;
      }
      ghost var s2 := S();
      AppendedSizes(l, s1, s2, ROOTINO, Directory.Encode(i, name));
      AppendedIs(l, s1, s2, ROOTINO, Directory.Encode(i, name));
      ok := Copy(i, data);
      if ok {
        AddedAll(l, s0, s1, s2, S(), i, name, data);
      }
    }

    /** The read loop of mkfs: one iappend for each buffer of at most BSIZE bytes. */
    method Copy(i: nat, data: seq<byte>) returns (ok: bool)
      requires Valid() && i < freeinode
      modifies this`freeblock, this`blocks, this`inodes
      ensures ok ==> Valid() && |inodes| == |old(inodes)| && Appended(l, old(S()), S(), i, data)
      ensures !ok ==> freeblock == l.size || old(inodes[i].size) + |data| > MAXBYTES
    {
      hide Owned, Tidy, NoHoles, TailZero, Appended, Content;
      ghost var s0 := S();
      TidyIs(l, s0, freeblock);
      AppendedNothing(l, s0, i);
      var j := 0;
      assert data[..0] == [];
      while j < |data|
        invariant j <= |data| && Valid() && |inodes| == |s0.inodes| && Appended(l, s0, S(), i, data[..j])
      {
        ghost var s1 := S();
        AppendedLength(l, s0, s1, i, data[..j]);
        var cc := if |data| - j < BSIZE then |data| - j else BSIZE;
        ok := Iappend(i, data[j..j + cc]);
        if !ok {
          return;
        }
        assert data[..j + cc] == data[..j] + data[j..j + cc];
        AppendedThen(l, s0, s1, S(), i, data[..j], data[j..j + cc]);
        AppendedSizes(l, s1, S(), i, data[j..j + cc]);
        j := j + cc;
      }
      assert data[..j] == data;
      ok := true;
    }
  }

  lemma AppendedNothing(l: Layout, s: State, i: nat)
    requires Shape(l, s) && i < |s.inodes|
    ensures Appended(l, s, s, i, [])
  {
    hide NoHoles, TailZero, Content;
  }

  lemma AppendedThen(l: Layout, s: State, t: State, u: State, i: nat, a: seq<byte>, b: seq<byte>)
    requires Appended(l, s, t, i, a) && Appended(l, t, u, i, b)
    ensures Appended(l, s, u, i, a + b)
  {
    hide NoHoles, TailZero, Content;
    assert Content(s, i) + (a + b) == Content(s, i) + a + b;
  }

  lemma AppendedLength(l: Layout, s: State, t: State, i: nat, src: seq<byte>)
    requires Appended(l, s, t, i, src)
    ensures i < |s.inodes| == |t.inodes| && t.inodes[i].size == s.inodes[i].size + |src|
  {
  }

  lemma {:induction false} RootLength(files: seq<File>, n: nat)
    requires n <= |files| && n + 2 <= 0x1_0000
    ensures |RootBytes(files, n)| == Directory.DIRENT * (n + 2)
  {
    if n > 0 {
      RootLength(files, n - 1);
    }
  }

  lemma HoldsLength(l: Layout, s: State, files: seq<File>, n: nat)
    requires Holds(l, s, files, n)
    ensures n + 2 <= |s.inodes| && s.inodes[ROOTINO].size == Directory.DIRENT * (n + 2)
  {
    RootLength(files, n);
    hide RootBytes;
  }

  /** Why mkfs can fail: too many files for the inodes or the root directory, a file too long, a full image or a full map block. */
  ghost predicate Overfull(l: Layout, ninodes: nat, files: seq<File>, used: nat) {
    || |files| + 2 > ninodes || used == l.size || used >= BPB || Directory.DIRENT * (|files| + 2) >= MAXBYTES
    || exists k | 0 <= k < |files| :: |files[k].data| > MAXBYTES
  }

  lemma AppendedSizes(l: Layout, s: State, t: State, i: nat, src: seq<byte>)
    requires Appended(l, s, t, i, src)
    ensures |t.inodes| == |s.inodes|
  {
  }

  /** A new file i with the data, and a new entry for it at the end of the root directory. */
  ghost predicate Added(l: Layout, s: State, t: State, i: nat, name: seq<byte>, data: seq<byte>) {
    && Shape(l, s) && Shape(l, t) && ROOTINO < i < |s.inodes| == |t.inodes| && i < 0x1_0000
    && Content(t, ROOTINO) == Content(s, ROOTINO) + Directory.Encode(i, name)
    && t.inodes[ROOTINO].kind == s.inodes[ROOTINO].kind
    && Content(t, i) == data && t.inodes[i].kind == T_FILE
    && (forall j | 0 <= j < |s.inodes| && j != i && j != ROOTINO :: t.inodes[j] == s.inodes[j] && Content(t, j) == Content(s, j))
  }

  lemma AddedAll(l: Layout, s0: State, s1: State, s2: State, s3: State, i: nat, name: seq<byte>, data: seq<byte>)
    requires SameContents(l, s0, s1) && ROOTINO < i < |s0.inodes| && i < 0x1_0000 && s1.inodes == s0.inodes[i := Empty(T_FILE, 1)]
    requires Content(s1, i) == [] && Appended(l, s1, s2, ROOTINO, Directory.Encode(i, name)) && Appended(l, s2, s3, i, data)
    ensures Added(l, s0, s3, i, name, data)
  {
    hide NoHoles, TailZero, Content, Directory.Encode;
    assert [] + data == data;
  }

  /** The root directory is longer by zeros; it has a hole in the end exactly when its last block was full. */
  ghost predicate Rounded(l: Layout, s: State, t: State) {
    && Owned(l, t) && Shape(l, s) && |t.inodes| == |s.inodes| && ROOTINO < |s.inodes|
    && t.inodes[ROOTINO].size == (s.inodes[ROOTINO].size / BSIZE + 1) * BSIZE
    && Content(t, ROOTINO) == Content(s, ROOTINO) + Zeros(t.inodes[ROOTINO].size - s.inodes[ROOTINO].size)
    && (NoHoles(l, t, ROOTINO) <==> s.inodes[ROOTINO].size % BSIZE != 0)
    && (forall j | 0 <= j < |s.inodes| && j != ROOTINO ::
          t.inodes[j] == s.inodes[j] && Content(t, j) == Content(s, j) && NoHoles(l, t, j))
  }

  lemma RoundKeeps(l: Layout, s: State, used: nat, size: nat)
    requires Tidy(l, s, used) && ROOTINO < |s.inodes| && (forall j | 0 <= j < |s.inodes| :: NoHoles(l, s, j) && TailZero(s, j))
    requires size == (s.inodes[ROOTINO].size / BSIZE + 1) * BSIZE <= MAXBYTES
    ensures var t := State(s.bits, s.blocks, SetSize(s.inodes, ROOTINO, size)); Tidy(l, t, used) && Rounded(l, s, t)
  {
    var t := State(s.bits, s.blocks, SetSize(s.inodes, ROOTINO, size));
    SizedTidy(l, s, t, used, ROOTINO, size);
    assert forall p | Slot(s, p) :: Slot(t, p) && Ptr(t, p) == Ptr(s, p);
    hide Ptr, Owned, Tidy, ByteAt, NoHoles, TailZero, Filled, Content;
    TidyIs(l, s, used);
    TidyIs(l, t, used);
    assert NoHoles(l, s, ROOTINO) && TailZero(s, ROOTINO);
    ResizedReads(l, s, t, ROOTINO);
    RootHole(l, t, s.inodes[ROOTINO].size);
    RootTail(l, s, t, size);
    forall j | 0 <= j < |s.inodes| && j != ROOTINO
      ensures Content(t, j) == Content(s, j) && NoHoles(l, t, j)
    {
      assert NoHoles(l, s, j);
      ResizedReads(l, s, t, j);
      SameReadsSameContent(l, s, t, j);
    }
  }

  lemma ResizedReads(l: Layout, s: State, t: State, j: nat)
    requires Shape(l, s) && Shape(l, t) && j < |s.inodes| == |t.inodes| && t.blocks == s.blocks && NoHoles(l, s, j)
    requires forall p | Slot(s, p) :: Slot(t, p) && Ptr(t, p) == Ptr(s, p)
    ensures Filled(l, t, j, Blocks(s.inodes[j].size))
    ensures forall q | 0 <= q < MAXBYTES :: ByteAt(t, j, q) == ByteAt(s, j, q)
  {
    hide Ptr;
    FilledSame(l, s, t, j, Blocks(s.inodes[j].size));
    SamePtrsSameBytes(l, s, t, j);
  }

  lemma SameReadsSameContent(l: Layout, s: State, t: State, j: nat)
    requires Shape(l, s) && Shape(l, t) && j < |s.inodes| == |t.inodes| && t.inodes[j].size == s.inodes[j].size
    requires forall q | 0 <= q < MAXBYTES :: ByteAt(t, j, q) == ByteAt(s, j, q)
    requires Filled(l, t, j, Blocks(s.inodes[j].size))
    ensures Content(t, j) == Content(s, j) && NoHoles(l, t, j)
  {
    hide ByteAt, Filled;
  }

  lemma RootHole(l: Layout, t: State, was: nat)
    requires Shape(l, t) && ROOTINO < |t.inodes| && t.inodes[ROOTINO].size == (was / BSIZE + 1) * BSIZE <= MAXBYTES
    requires Filled(l, t, ROOTINO, Blocks(was))
    ensures NoHoles(l, t, ROOTINO) <==> was % BSIZE != 0
  {
    hide Ptr;
    var c := was / BSIZE + 1;
    assert Blocks(c * BSIZE) == c;
    if was % BSIZE == 0 {
      assert Blocks(was) == c - 1;
      assert Ptr(t, Data(ROOTINO, c - 1)) == 0;
    } else {
      assert Blocks(was) == c;
    }
  }

  lemma RootTail(l: Layout, s: State, t: State, size: nat)
    requires Shape(l, s) && Shape(l, t) && ROOTINO < |s.inodes| == |t.inodes| && TailZero(s, ROOTINO)
    requires t.inodes[ROOTINO].size == size >= s.inodes[ROOTINO].size
    requires forall q | 0 <= q < MAXBYTES :: ByteAt(t, ROOTINO, q) == ByteAt(s, ROOTINO, q)
    ensures Content(t, ROOTINO) == Content(s, ROOTINO) + Zeros(size - s.inodes[ROOTINO].size)
  {
    hide ByteAt;
    var c := Content(s, ROOTINO) + Zeros(size - s.inodes[ROOTINO].size);
    forall q | 0 <= q < size
      ensures Content(t, ROOTINO)[q] == c[q]
    {
      assert ByteAt(t, ROOTINO, q) == ByteAt(s, ROOTINO, q);
    }
  }

  // ----- The whole image

  datatype File = File(name: seq<byte>, data: seq<byte>)

  /** The root directory's bytes once n files are in. */
  function RootBytes(files: seq<File>, n: nat): seq<byte>
    requires n <= |files| && n + 2 <= 0x1_0000
  {
    if n == 0 then Directory.Encode(ROOTINO, [46]) + Directory.Encode(ROOTINO, [46, 46])
    else RootBytes(files, n - 1) + Directory.Encode(n + 1, files[n - 1].name)
  }

  lemma SpliceEnd(c: seq<byte>, b: seq<byte>)
    ensures Splice(c, |c|, b) == c + b
  {
    assert c[..|c|] == c;
  }

  lemma WholeEntries(c: seq<byte>)
    requires |c| % Directory.DIRENT == 0
    ensures Directory.DIRENT * (|c| / Directory.DIRENT) == |c|
  {
  }

  lemma EntriesSnoc(c: seq<byte>, b: seq<byte>)
    requires |c| % Directory.DIRENT == 0 && |b| == Directory.DIRENT
    ensures Directory.Entries(c + b) == Directory.Entries(c) + [Directory.EntryAt(b, 0)]
  {
    hide Directory.Entries, Directory.EntryAt, Splice;
    WholeEntries(c);
    SpliceEnd(c, b);
    Directory.EntriesSplice(c, |c| / Directory.DIRENT, b);
  }

  /** The root directory read as entries: "." and ".." are inode 1, and the k-th file is inode k + 2. */
  ghost predicate RootRead(es: seq<Directory.Dirent>, files: seq<File>, n: nat)
    requires n <= |files|
  {
    && |es| == n + 2 && es[0] == Directory.Dirent(1, [46]) && es[1] == Directory.Dirent(1, [46, 46])
    && forall k | 0 <= k < n :: es[k + 2] == Directory.Dirent(k + 2, Directory.Key(files[k].name))
  }

  lemma {:induction false} RootEntries(files: seq<File>, n: nat)
    requires n <= |files| && n + 2 <= 0x1_0000
    ensures |RootBytes(files, n)| == 16 * (n + 2) && RootRead(Directory.Entries(RootBytes(files, n)), files, n)
  {
    hide *;
    if n == 0 {
      RootStart(files);
    } else {
      RootEntries(files, n - 1);
      var c, b := RootBytes(files, n - 1), Directory.Encode(n + 1, files[n - 1].name);
      RootNext(files, n);
      Directory.EncodeDecodes(n + 1, files[n - 1].name);
      EntriesSnoc(c, b);
      RootReadNext(Directory.Entries(c), files, n);
    }
  }

  lemma RootNext(files: seq<File>, n: nat)
    requires 0 < n <= |files| && n + 2 <= 0x1_0000
    ensures RootBytes(files, n) == RootBytes(files, n - 1) + Directory.Encode(n + 1, files[n - 1].name)
  {
  }

  lemma RootReadNext(es: seq<Directory.Dirent>, files: seq<File>, n: nat)
    requires 0 < n <= |files| && RootRead(es, files, n - 1)
    ensures RootRead(es + [Directory.Dirent(n + 1, Directory.Key(files[n - 1].name))], files, n)
  {
    hide Directory.Key;
  }

  lemma RootStart(files: seq<File>)
    ensures |RootBytes(files, 0)| == 32 && RootRead(Directory.Entries(RootBytes(files, 0)), files, 0)
  {
    var none: seq<byte> := [];
    var a, b := Directory.Encode(ROOTINO, [46]), Directory.Encode(ROOTINO, [46, 46]);
    assert RootBytes(files, 0) == a + b;
    Directory.KeyIs([46]);
    Directory.KeyIs([46, 46]);
    assert Directory.Entries(none) == [];
    hide Directory.Entries, Directory.EntryAt, Directory.Encode, Directory.Key, RootBytes;
    Directory.EncodeDecodes(ROOTINO, [46]);
    Directory.EncodeDecodes(ROOTINO, [46, 46]);
    EntriesSnoc(none, a);
    assert none + a == a;
    EntriesSnoc(a, b);
  }

  ghost predicate Holds(l: Layout, s: State, files: seq<File>, n: nat) {
    && Shape(l, s) && n <= |files| && n + 2 <= |s.inodes| <= 0x1_0000
    && s.inodes[ROOTINO].kind == T_DIR && Content(s, ROOTINO) == RootBytes(files, n)
    && (forall k | 0 <= k < n :: s.inodes[k + 2].kind == T_FILE && Content(s, k + 2) == files[k].data)
  }

  lemma HoldsNext(l: Layout, s: State, t: State, files: seq<File>, n: nat)
    requires Holds(l, s, files, n) && n < |files| && Added(l, s, t, n + 2, files[n].name, files[n].data)
    ensures Holds(l, t, files, n + 1)
  {
    hide Content, Directory.Encode;
    forall k | 0 <= k < n + 1
      ensures t.inodes[k + 2].kind == T_FILE && Content(t, k + 2) == files[k].data
    {
      var j := k + 2;
      if k < n {
        assert Content(s, k + 2) == files[k].data && s.inodes[k + 2].kind == T_FILE;
        assert t.inodes[j] == s.inodes[j] && Content(t, j) == Content(s, j);
      }
    }
  }

  /**
   mkfs: the image holds exactly the files given, each block has one owner, the free map says so, and
   no file has a hole; rounding the root directory leaves one exactly when its last block was full.
   */
  method Build(l: Layout, ninodes: nat, files: seq<File>) returns (ok: bool, im: Image)
    requires 0 < l.dataStart <= l.size < UINT && 2 <= ninodes <= 0x1_0000
    ensures ok ==> exists s :: Holds(l, s, files, |files|) && Rounded(l, s, im.Disk()) && im.l == l && Owned(l, im.Disk())
    ensures ok ==> im.freeblock < BPB && im.bits == Bits(l.size, im.freeblock)
    ensures !ok ==> Overfull(l, ninodes, files, im.freeblock)
  {
    hide Owned, Tidy, NoHoles, TailZero, Appended, Added, Content, Holds, Rounded, Directory.Encode;
    im := new Image(l, ninodes);
    var root;
    ok, root := im.Ialloc(T_DIR);
    ghost var s0 := im.S();
    ok := im.Iappend(ROOTINO, Directory.Encode(ROOTINO, [46]));
    if !ok {
      return;
    }
    ghost var s1 := im.S();
    AppendedLength(l, s0, s1, ROOTINO, Directory.Encode(ROOTINO, [46]));
    ok := im.Iappend(ROOTINO, Directory.Encode(ROOTINO, [46, 46]));
    if !ok {
      return;
    }
    AppendedSizes(l, s1, im.S(), ROOTINO, Directory.Encode(ROOTINO, [46, 46]));
    HoldsRoot(l, s0, s1, im.S(), files);
    var k := 0;
    while k < |files|
      invariant k <= |files| && im.Valid() && im.l == l && im.freeinode == k + 2 && |im.inodes| == ninodes
      invariant Holds(l, im.S(), files, k)
    {
      ghost var s := im.S();
      HoldsLength(l, s, files, k);
      ok := im.AddFile(files[k].name, files[k].data);
      if !ok {
        return;
      }
      HoldsNext(l, s, im.S(), files, k);
      k := k + 1;
    }
    ghost var s := im.S();
    HoldsLength(l, s, files, k);
    ok := im.RoundRoot();
    if ok {
      TidyIs(l, im.S(), im.freeblock);
      assert im.freeblock <= l.size by { TidyBound(l, im.S(), im.freeblock); }
      ok := im.Balloc();
    }
  }

  lemma HoldsRoot(l: Layout, s0: State, s1: State, s2: State, files: seq<File>)
    requires Shape(l, s0) && 2 <= |s0.inodes| <= 0x1_0000 && s0.inodes[ROOTINO].kind == T_DIR && Content(s0, ROOTINO) == []
    requires Appended(l, s0, s1, ROOTINO, Directory.Encode(ROOTINO, [46]))
    requires Appended(l, s1, s2, ROOTINO, Directory.Encode(ROOTINO, [46, 46]))
    ensures Holds(l, s2, files, 0)
  {
    hide Content, NoHoles, TailZero, Directory.Encode;
    var dot := Directory.Encode(ROOTINO, [46]);
    assert [] + dot == dot;
  }

  lemma TidyBound(l: Layout, s: State, used: nat)
    requires Tidy(l, s, used)
    ensures used <= l.size
  {
    hide Owned;
  }

  lemma TidyIs(l: Layout, s: State, used: nat)
    requires Tidy(l, s, used)
    ensures Owned(l, s) && Shape(l, s)
  {
  }

  lemma SizedTidy(l: Layout, s: State, t: State, used: nat, i: nat, size: nat)
    requires Tidy(l, s, used) && i < |s.inodes| && size <= MAXBYTES
    requires t == State(s.bits, s.blocks, SetSize(s.inodes, i, size))
    ensures Tidy(l, t, used)
  {
    assert Shape(l, t);
    assert forall p | Slot(s, p) :: Slot(t, p) && Ptr(t, p) == Ptr(s, p);
    SamePtrsOwned(l, s, t);
  }

  /** src has been appended to file i; nothing else about any file has changed. */
  ghost predicate Appended(l: Layout, s: State, t: State, i: nat, src: seq<byte>) {
    && Shape(l, s) && Shape(l, t) && i < |s.inodes| && |t.inodes| == |s.inodes|
    && Content(t, i) == Content(s, i) + src && t.inodes[i].kind == s.inodes[i].kind
    && (forall j | 0 <= j < |s.inodes| && j != i :: t.inodes[j] == s.inodes[j] && Content(t, j) == Content(s, j))
    && (forall j | 0 <= j < |s.inodes| && NoHoles(l, s, j) :: NoHoles(l, t, j))
    && (forall j | 0 <= j < |s.inodes| && TailZero(s, j) :: TailZero(t, j))
  }

  lemma AppendedIs(l: Layout, s: State, t: State, i: nat, src: seq<byte>)
    requires Appended(l, s, t, i, src) && forall j | 0 <= j < |s.inodes| :: NoHoles(l, s, j) && TailZero(s, j)
    ensures |t.inodes| == |s.inodes| && forall j | 0 <= j < |t.inodes| :: NoHoles(l, t, j) && TailZero(t, j)
    ensures forall j | 0 <= j < |s.inodes| && j != i :: t.inodes[j] == s.inodes[j]
  {
    hide NoHoles, TailZero;
  }

  lemma WroteAppends(l: Layout, s: State, w: State, t: State, i: nat, src: seq<byte>)
    requires Shape(l, s) && i < |s.inodes| && Progress(l, s, w, i, s.inodes[i].size, src) && Wrote(l, s, t, i, s.inodes[i].size, src)
    requires t == State(w.bits, w.blocks, SetSize(w.inodes, i, s.inodes[i].size + |src|))
    ensures Shape(l, t) && Appended(l, s, t, i, src)
  {
    OwnedShape(l, t);
    AppendWritten(l, s, w, t, i, src);
    hide Ptr, Owned, Content, Mapped, NoHoles, TailZero, Written, Progress;
    AppendSplice(Content(s, i), src);
    forall j | 0 <= j < |s.inodes| && NoHoles(l, s, j)
      ensures NoHoles(l, t, j)
    {
      WroteNoHoles(l, s, t, i, s.inodes[i].size, src, j);
    }
    forall j | 0 <= j < |s.inodes| && TailZero(s, j)
      ensures TailZero(t, j)
    {
      TailStays(l, s, t, i, src, j);
    }
  }

  lemma AppendSplice(c: seq<byte>, src: seq<byte>)
    ensures Splice(c, |c|, src) == c + src
  {
  }

  lemma AppendWritten(l: Layout, s: State, w: State, t: State, i: nat, src: seq<byte>)
    requires Shape(l, s) && i < |s.inodes| && Progress(l, s, w, i, s.inodes[i].size, src) && Shape(l, t)
    requires t == State(w.bits, w.blocks, SetSize(w.inodes, i, s.inodes[i].size + |src|))
    ensures Written(l, s, t, i, s.inodes[i].size, src)
  {
    assert forall p | Slot(w, p) :: Slot(t, p) && Ptr(t, p) == Ptr(w, p);
    hide Ptr, Mapped, Written;
    WrittenSized(l, s, w, t, i, s.inodes[i].size, src);
  }

  lemma TailStays(l: Layout, s: State, t: State, i: nat, src: seq<byte>, j: nat)
    requires Shape(l, s) && Shape(l, t) && i < |s.inodes| && j < |s.inodes| && TailZero(s, j)
    requires Written(l, s, t, i, s.inodes[i].size, src)
    requires t.inodes[j].size == if j == i then s.inodes[i].size + |src| else s.inodes[j].size
    ensures TailZero(t, j)
  {
    hide ByteAt;
    forall q | t.inodes[j].size <= q < MAXBYTES
      ensures ByteAt(t, j, q) == 0
    {
      assert ByteAt(s, j, q) == 0;
    }
  }

  lemma SlotThere(l: Layout, s: State, used: nat, i: nat, k: nat)
    requires Tidy(l, s, used) && i < |s.inodes| && k < MAXFILE
    ensures Owned(l, s) && Shape(l, s) && s.inodes[i].addrs[NDIRECT] < |s.blocks| && used <= l.size
  {
    hide Word;
    assert PtrOk(l, s, Index(i));
  }

  /** iappend's allocation of a missing block, field by field. */
  function Took(l: Layout, s: State, used: nat, i: nat, k: nat): State
    requires i < |s.inodes| && InodeOk(s.inodes[i]) && k < MAXFILE && used < UINT
    requires k >= NDIRECT ==> s.inodes[i].addrs[NDIRECT] < |s.blocks|
  {
    State(Bits(l.size, used + 1),
          if k < NDIRECT then s.blocks else PutWord(s.blocks, s.inodes[i].addrs[NDIRECT], k - NDIRECT, used),
          if k < NDIRECT then s.inodes[i := SetAddr(s.inodes[i], k, used)] else s.inodes)
  }

  lemma TookIs(l: Layout, s: State, used: nat, i: nat, k: nat)
    requires Tidy(l, s, used) && i < |s.inodes| && k < MAXFILE && used < l.size && Ptr(s, Data(i, k)) == 0
    requires k >= NDIRECT ==> s.inodes[i].addrs[NDIRECT] != 0
    ensures InodeOk(s.inodes[i]) && (k >= NDIRECT ==> s.inodes[i].addrs[NDIRECT] < |s.blocks|) && used < UINT
    ensures Attachable(l, s, Data(i, k), used) && AttachOk(l, s, Data(i, k), used)
    ensures Took(l, s, used, i, k) == Attach(l, s, Data(i, k), used) && Tidy(l, Took(l, s, used, i, k), used + 1)
  {
    hide Word, SetWord, Attach, Owned, Ptr, Tidy, Attachable, PutWord, Wipe, SetAddr;
    SlotThere(l, s, used, i, k);
    assert Slot(s, Data(i, k));
    TakeNext(l, s, used, Data(i, k));
    AttachIs(l, s, Data(i, k), used);
  }

  lemma SlotTaken(l: Layout, s: State, used: nat, i: nat, k: nat)
    requires Tidy(l, s, used) && i < |s.inodes| && k < MAXFILE && used < l.size && Ptr(s, Data(i, k)) == 0
    requires k >= NDIRECT ==> s.inodes[i].addrs[NDIRECT] != 0
    ensures InodeOk(s.inodes[i]) && (k >= NDIRECT ==> s.inodes[i].addrs[NDIRECT] < |s.blocks|) && used < UINT
    ensures var t := Took(l, s, used, i, k);
            && Tidy(l, t, used + 1) && Slot(t, Data(i, k)) && Shape(l, t) && Ptr(t, Data(i, k)) == used
            && Mapped(l, s, t, i, k, k + 1) && Written(l, s, t, i, 0, [])
  {
    hide Word, SetWord, Attach, Owned, Mapped, Written, Ptr, Tidy, Attachable, Took;
    TookIs(l, s, used, i, k);
    AttachMaps(l, s, Data(i, k), used);
    MappedDirectly(l, s, i, k, used);
    OwnedShape(l, Took(l, s, used, i, k));
    assert Slot(s, Data(i, k));
  }

  function Empty(kind: int, nlink: int): (r: Inode)
    ensures InodeOk(r)
  {
    Inode(kind, 0, 0, nlink, 0, seq(NDIRECT + 1, _ => 0))
  }

  lemma AttachIs(l: Layout, s: State, o: Owner, b: nat)
    requires AttachOk(l, s, o, b) && Wipe(s.blocks, b) == s.blocks
    ensures Attach(l, s, o, b).blocks
         == if o.Data? && o.k >= NDIRECT then PutWord(s.blocks, s.inodes[o.i].addrs[NDIRECT], o.k - NDIRECT, b) else s.blocks
    ensures Attach(l, s, o, b).inodes
         == if o.Data? && o.k >= NDIRECT then s.inodes
            else s.inodes[o.i := SetAddr(s.inodes[o.i], if o.Data? then o.k else NDIRECT, b)]
  {
  }

  ghost predicate SameContents(l: Layout, s: State, t: State) {
    && Shape(l, s) && Shape(l, t) && |s.inodes| == |t.inodes|
    && forall j | 0 <= j < |s.inodes| :: Content(t, j) == Content(s, j)
  }

  lemma EmptyPtrs(s: State, i: nat)
    requires i < |s.inodes| && InodeOk(s.inodes[i]) && s.inodes[i].addrs == seq(NDIRECT + 1, _ => 0)
    ensures forall p | Slot(s, p) && p.i == i :: Ptr(s, p) == 0
  {
  }

  lemma EmptyImage(l: Layout, s: State)
    requires 0 < l.dataStart <= l.size < UINT && s.bits == Bits(l.size, l.dataStart) && |s.blocks| == l.size
    requires forall b | 0 <= b < l.size :: s.blocks[b] == ZERO
    requires forall i | 0 <= i < |s.inodes| :: s.inodes[i] == Empty(0, 0)
    ensures Tidy(l, s, l.dataStart) && forall i | 0 <= i < |s.inodes| :: NoHoles(l, s, i) && TailZero(s, i)
  {
    assert Shape(l, s);
    forall p | Slot(s, p)
      ensures Ptr(s, p) == 0
    {
      EmptyPtrs(s, p.i);
    }
  }

  /** Naming a free inode gives it no blocks. */
  lemma InodeNamed(l: Layout, s: State, used: nat, i: nat, kind: int)
    requires Tidy(l, s, used) && i < |s.inodes| && s.inodes[i] == Empty(0, 0)
    requires forall j | 0 <= j < |s.inodes| :: NoHoles(l, s, j) && TailZero(s, j)
    ensures var t := State(s.bits, s.blocks, s.inodes[i := Empty(kind, 1)]);
            && Tidy(l, t, used) && SameContents(l, s, t) && Content(t, i) == []
            && forall j | 0 <= j < |t.inodes| :: NoHoles(l, t, j) && TailZero(t, j)
  {
    var t := State(s.bits, s.blocks, s.inodes[i := Empty(kind, 1)]);
    assert Shape(l, t);
    assert forall p | Slot(s, p) :: Slot(t, p) && Ptr(t, p) == Ptr(s, p);
    hide Ptr;
    SamePtrsOwned(l, s, t);
    forall j | 0 <= j < |s.inodes|
      ensures Content(t, j) == Content(s, j) && NoHoles(l, t, j) && TailZero(t, j)
    {
      SamePtrsSameBytes(l, s, t, j);
      assert NoHoles(l, s, j) && TailZero(s, j);
      FilledSame(l, s, t, j, Blocks(s.inodes[j].size));
    }
  }

  lemma FilledSame(l: Layout, s: State, t: State, j: nat, c: nat)
    requires Shape(l, s) && Shape(l, t) && |s.inodes| == |t.inodes| && j < |s.inodes| && Filled(l, s, j, c)
    requires forall p | Slot(s, p) :: Slot(t, p) && Ptr(t, p) == Ptr(s, p)
    ensures Filled(l, t, j, c)
  {
    hide Ptr;
    forall k | 0 <= k < MAXFILE
      ensures Ptr(t, Data(j, k)) != 0 <==> k < c
    {
      assert Slot(s, Data(j, k));
    }
    assert Slot(s, Index(j));
  }

  lemma SamePtrsOwned(l: Layout, s: State, t: State)
    requires Owned(l, s) && Shape(l, t) && t.bits == s.bits && |t.inodes| == |s.inodes|
    requires forall p | Slot(s, p) :: Slot(t, p) && Ptr(t, p) == Ptr(s, p)
    ensures Owned(l, t)
  {
    hide Ptr;
    forall o | Slot(t, o)
      ensures PtrOk(l, t, o)
    {
      assert Slot(s, o) && PtrOk(l, s, o);
    }
    forall b | l.dataStart <= b < l.size && t.bits[b]
      ensures HasOwner(l, t, b)
    {
      assert HasOwner(l, s, b);
      var p :| Slot(s, p) && Ptr(s, p) == b;
      assert Slot(t, p) && Ptr(t, p) == b;
    }
  }

  // ----- A root directory of 32 entries

  function RootInode(b: nat): Inode {
    Inode(T_DIR, 0, 0, 1, BSIZE, seq(NDIRECT + 1, k => if k == 0 then b else 0))
  }

  function FullRootInode(l: Layout, i: nat): (r: Inode)
    ensures InodeOk(r) && r.addrs[NDIRECT] == 0
    ensures forall k | 0 <= k < NDIRECT :: r.addrs[k] == if i == ROOTINO && k == 0 then l.dataStart else 0
  {
    if i == ROOTINO then RootInode(l.dataStart) else if 2 <= i < 32 then Empty(T_FILE, 1) else Empty(0, 0)
  }

  /** An image with 30 empty files, whose root directory fills its one block. */
  function FullRoot(l: Layout, root: Block, ninodes: nat): (s: State)
    ensures |s.bits| == |s.blocks| == l.size && |s.inodes| == ninodes
    ensures forall b | 0 <= b < l.size :: s.blocks[b] == if b == l.dataStart then root else ZERO
    ensures forall i | 0 <= i < ninodes :: s.inodes[i] == FullRootInode(l, i)
    ensures forall b | 0 <= b < l.size :: s.bits[b] <==> b < l.dataStart + 1
  {
    State(Bits(l.size, l.dataStart + 1), seq(l.size, b => if b == l.dataStart then root else ZERO),
          seq(ninodes, i requires 0 <= i < ninodes => FullRootInode(l, i)))
  }

  ghost predicate RoomForRoot(l: Layout, ninodes: nat) {
    0 < l.dataStart && l.dataStart + 1 < l.size < UINT && 32 <= ninodes <= 0x1_0000
  }

  lemma FullRootPtrs(l: Layout, root: Block, ninodes: nat)
    requires RoomForRoot(l, ninodes)
    ensures Shape(l, FullRoot(l, root, ninodes))
    ensures var s := FullRoot(l, root, ninodes);
            forall p | Slot(s, p) :: Ptr(s, p) == if p == Data(ROOTINO, 0) then l.dataStart else 0
  {
    hide FullRoot, FullRootInode, Word;
  }

  lemma FullRootTidy(l: Layout, root: Block, ninodes: nat)
    requires RoomForRoot(l, ninodes)
    ensures Tidy(l, FullRoot(l, root, ninodes), l.dataStart + 1)
  {
    FullRootPtrs(l, root, ninodes);
    hide FullRoot, FullRootInode, Ptr;
    var s := FullRoot(l, root, ninodes);
    assert Slot(s, Data(ROOTINO, 0)) && HasOwner(l, s, l.dataStart);
    assert s.bits == Bits(l.size, l.dataStart + 1);
  }

  lemma FullRootReads(l: Layout, root: Block, ninodes: nat, j: nat)
    requires RoomForRoot(l, ninodes) && j < ninodes
    ensures Shape(l, FullRoot(l, root, ninodes))
    ensures forall q | 0 <= q < MAXBYTES ::
              ByteAt(FullRoot(l, root, ninodes), j, q) == if j == ROOTINO && q < BSIZE then root[q] else 0
  {
    FullRootPtrs(l, root, ninodes);
    hide FullRoot, FullRootInode, Ptr;
    var s := FullRoot(l, root, ninodes);
    forall q | 0 <= q < MAXBYTES
      ensures ByteAt(s, j, q) == if j == ROOTINO && q < BSIZE then root[q] else 0
    {
      assert Slot(s, Data(j, q / BSIZE));
    }
  }

  lemma FullRootFilled(l: Layout, root: Block, ninodes: nat, j: nat)
    requires RoomForRoot(l, ninodes) && j < ninodes
    ensures Shape(l, FullRoot(l, root, ninodes))
    ensures NoHoles(l, FullRoot(l, root, ninodes), j) && TailZero(FullRoot(l, root, ninodes), j)
  {
    FullRootPtrs(l, root, ninodes);
    FullRootReads(l, root, ninodes, j);
    var s := FullRoot(l, root, ninodes);
    assert s.inodes[j].size == if j == ROOTINO then BSIZE else 0;
    hide FullRoot, FullRootInode, Ptr, ByteAt;
    assert Slot(s, Index(j)) && forall k | 0 <= k < MAXFILE :: Slot(s, Data(j, k));
  }

  lemma FullRootHolds(l: Layout, files: seq<File>, ninodes: nat)
    requires RoomForRoot(l, ninodes) && |files| == 30 && forall k | 0 <= k < 30 :: files[k].data == []
    ensures |RootBytes(files, 30)| == BSIZE && Holds(l, FullRoot(l, RootBytes(files, 30), ninodes), files, 30)
  {
    RootLength(files, 30);
    var root: Block := RootBytes(files, 30);
    FullRootReads(l, root, ninodes, ROOTINO);
    hide RootBytes, Ptr, ByteAt, FullRoot;
    var s := FullRoot(l, root, ninodes);
    forall q | 0 <= q < BSIZE
      ensures Content(s, ROOTINO)[q] == root[q]
    {
      assert ByteAt(s, ROOTINO, q) == root[q];
    }
    assert Content(s, ROOTINO) == root;
    forall k | 0 <= k < 30
      ensures s.inodes[k + 2].kind == T_FILE && Content(s, k + 2) == files[k].data
    {
      assert s.inodes[k + 2] == FullRootInode(l, k + 2);
    }
  }

  /** That image after mkfs has rounded the root directory up to two blocks, the second of which is missing. */
  function RoundedRoot(l: Layout, root: Block, ninodes: nat): State
    requires ninodes > ROOTINO
  {
    var s := FullRoot(l, root, ninodes);
    State(s.bits, s.blocks, SetSize(s.inodes, ROOTINO, 2 * BSIZE))
  }

  lemma RoundedRootIs(l: Layout, root: Block, ninodes: nat)
    requires RoomForRoot(l, ninodes)
    ensures var t := RoundedRoot(l, root, ninodes);
            && Tidy(l, t, l.dataStart + 1) && Rounded(l, FullRoot(l, root, ninodes), t) && Shape(l, t)
            && ROOTINO < |t.inodes| && t.inodes[ROOTINO].size == 2 * BSIZE && t.inodes[ROOTINO].addrs[1] == 0
  {
    FullRootTidy(l, root, ninodes);
    var s := FullRoot(l, root, ninodes);
    forall j | 0 <= j < ninodes
      ensures Shape(l, s) && NoHoles(l, s, j) && TailZero(s, j)
    {
      FullRootFilled(l, root, ninodes, j);
    }
    assert s.inodes[ROOTINO].size == BSIZE;
    hide FullRoot, Tidy, Owned, NoHoles, TailZero, Content, Rounded;
    RoundKeeps(l, s, l.dataStart + 1, 2 * BSIZE);
    TidyIs(l, RoundedRoot(l, root, ninodes), l.dataStart + 1);
  }

  /**
   mkfs rounds a root directory of 32 entries up to two blocks and leaves the second one out.  From
   that image every read and every write of an entry in it allocates the block in memory only, and
   the disk inode of the root is out of date.
   */
  lemma RootGoesStale(l: Layout, files: seq<File>, ninodes: nat)
    requires RoomForRoot(l, ninodes) && |files| == 30 && forall k | 0 <= k < 30 :: files[k].data == []
    ensures |RootBytes(files, 30)| == BSIZE && Holds(l, FullRoot(l, RootBytes(files, 30), ninodes), files, 30)
    ensures var t := RoundedRoot(l, RootBytes(files, 30), ninodes);
            && Rounded(l, FullRoot(l, RootBytes(files, 30), ninodes), t)
            && (exists u :: ReadKept(l, t, u, ROOTINO, 1, 2) && Owned(l, u))
            && (forall u | ReadKept(l, t, u, ROOTINO, 1, 2) :: u.inodes != t.inodes)
            && Shape(l, t) && t.inodes[ROOTINO].size == 2 * BSIZE
            && (forall u, src | |src| == Directory.DIRENT && Wrote(l, t, u, ROOTINO, BSIZE, src) :: u.inodes != t.inodes)
  {
    FullRootHolds(l, files, ninodes);
    var root: Block := RootBytes(files, 30);
    RoundedRootIs(l, root, ninodes);
    hide RootBytes, FullRoot, RoundedRoot, Holds, Rounded, Tidy, Owned, ReadKept, Wrote;
    var t := RoundedRoot(l, root, ninodes);
    assert !Covered(t.inodes[ROOTINO], BSIZE, Directory.DIRENT);
    HoleFilled(l, t, l.dataStart + 1);
    forall u | ReadKept(l, t, u, ROOTINO, 1, 2)
      ensures u.inodes != t.inodes
    {
      ReadCurrentIff(l, t, u, ROOTINO, BSIZE, Directory.DIRENT);
    }
    forall u, src | |src| == Directory.DIRENT && Wrote(l, t, u, ROOTINO, BSIZE, src)
      ensures u.inodes != t.inodes
    {
      DiskInodeCurrentIff(l, t, u, ROOTINO, BSIZE, src, t.inodes);
    }
  }

  /** A read of the missing block can take the next free one. */
  lemma HoleFilled(l: Layout, t: State, used: nat)
    requires Tidy(l, t, used) && used < l.size && Shape(l, t) && ROOTINO < |t.inodes| && t.inodes[ROOTINO].addrs[1] == 0
    ensures exists u :: ReadKept(l, t, u, ROOTINO, 1, 2) && Owned(l, u)
  {
    var o := Data(ROOTINO, 1);
    assert Ptr(t, o) == 0;
    TakeNext(l, t, used, o);
    AttachMaps(l, t, o, used);
    MappedDirectly(l, t, ROOTINO, 1, used);
    var u := Attach(l, t, o, used);
    assert SameButAddrs(t.inodes, u.inodes, ROOTINO);
    assert ReadKept(l, t, u, ROOTINO, 1, 2);
  }

  /** The layout of this file system: 1000 blocks, a log of 30 and 200 inodes. */
  lemma OwnLayoutGoesStale(files: seq<File>)
    requires |files| == 30 && forall k | 0 <= k < 30 :: files[k].data == []
    ensures |RootBytes(files, 30)| == BSIZE
    ensures var t := RoundedRoot(Layout0(1000, 30, 200), RootBytes(files, 30), 200);
            forall u | ReadKept(Layout0(1000, 30, 200), t, u, ROOTINO, 1, 2) :: u.inodes != t.inodes
  {
    RootGoesStale(Layout0(1000, 30, 200), files, 200);
  }
}
