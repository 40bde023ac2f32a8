/**
 The block and inode layer of fs.c: the free map, disk blocks and inodes, who owns which block,
 and the bytes an inode's block map gives it.  Free map bits and inode records are kept decoded;
 an indirect block is an ordinary disk block whose bytes are read as little-endian words.
 */
module Fs {

  const BSIZE: nat := 512
  const NDIRECT: nat := 12
  const NINDIRECT: nat := 128
  const MAXFILE: nat := 140
  const MAXBYTES: nat := 71680
  const BPB: nat := 4096
  const IPB: nat := 8
  const UINT: nat := 0x1_0000_0000

  type byte = x: int | 0 <= x < 256
  type Block = b: seq<byte> | |b| == BSIZE witness Zeros(BSIZE)

  const ZERO: Block := Zeros(BSIZE)

  function Zeros(n: nat): (r: seq<byte>)
    ensures |r| == n && forall i | 0 <= i < n :: r[i] == 0
  {
    seq(n, _ => 0)
  }

  datatype Inode = Inode(kind: int, major: int, minor: int, nlink: int, size: nat, addrs: seq<nat>)

  /** Block numbers from the superblock; blocks below dataStart are boot block, superblock, log, inodes and free map. */
  datatype Layout = Layout(size: nat, inodeStart: nat, bmapStart: nat, dataStart: nat)

  datatype State = State(bits: seq<bool>, blocks: seq<Block>, inodes: seq<Inode>)

  // ----- Words in a block

  function Value(d0: int, d1: int, d2: int, d3: int): int {
    d0 + 0x100 * (d1 + 0x100 * (d2 + 0x100 * d3))
  }

  function Digit(v: nat, d: nat): byte
    requires d < 4
  {
    if d == 0 then v % 0x100 else Digit(v / 0x100, d - 1)
  }

  lemma Digits(v: nat)
    requires v < UINT
    ensures Value(Digit(v, 0), Digit(v, 1), Digit(v, 2), Digit(v, 3)) == v
  {
    var w := v / 0x100;
    var x := w / 0x100;
    var y := x / 0x100;
    DigitsOf(v, w, x, y);
    hide Digit;
    assert v == 0x100 * w + v % 0x100 && w == 0x100 * x + w % 0x100 && x == 0x100 * y + x % 0x100 && y < 0x100;
  }

  lemma DigitsOf(v: nat, w: nat, x: nat, y: nat)
    requires w == v / 0x100 && x == w / 0x100 && y == x / 0x100 && y < 0x100
    ensures Digit(v, 0) == v % 0x100 && Digit(v, 1) == w % 0x100 && Digit(v, 2) == x % 0x100 && Digit(v, 3) == y
  {
    assert Digit(v, 1) == Digit(w, 0);
    assert Digit(v, 2) == Digit(w, 1) == Digit(x, 0);
    assert Digit(v, 3) == Digit(w, 2) == Digit(x, 1) == Digit(y, 0);
  }

  function Word(b: Block, j: nat): nat
    requires j < NINDIRECT
  {
    Value(b[4 * j] as int, b[4 * j + 1] as int, b[4 * j + 2] as int, b[4 * j + 3] as int)
  }

  function SetWord(b: Block, j: nat, v: nat): Block
    requires j < NINDIRECT && v < UINT
  {
    b[4 * j := Digit(v, 0)][4 * j + 1 := Digit(v, 1)][4 * j + 2 := Digit(v, 2)][4 * j + 3 := Digit(v, 3)]
  }

  lemma WordBytes(b: Block, k: nat)
    requires k < NINDIRECT
    ensures Word(b, k) == b[4 * k] as int + 0x100 * b[4 * k + 1] as int + 0x1_0000 * b[4 * k + 2] as int + 0x100_0000 * b[4 * k + 3] as int
  {
  }

  /** Storing a word changes that word of the block and no other. */
  lemma WordSet(b: Block, j: nat, v: nat, k: nat)
    requires j < NINDIRECT && k < NINDIRECT && v < UINT
    ensures Word(SetWord(b, j, v), k) == if k == j then v else Word(b, k)
    ensures Word(b, k) == b[4 * k] as int + 0x100 * b[4 * k + 1] as int + 0x1_0000 * b[4 * k + 2] as int + 0x100_0000 * b[4 * k + 3] as int
  {
    WordBytes(b, k);
    var c := SetWord(b, j, v);
    hide Digit, Value;
    if k == j {
      assert c[4 * j] == Digit(v, 0) && c[4 * j + 1] == Digit(v, 1);
      assert c[4 * j + 2] == Digit(v, 2) && c[4 * j + 3] == Digit(v, 3);
      Digits(v);
    } else {
      assert c[4 * k] == b[4 * k] && c[4 * k + 1] == b[4 * k + 1];
      assert c[4 * k + 2] == b[4 * k + 2] && c[4 * k + 3] == b[4 * k + 3];
    }
  }

  // ----- Pointers to blocks

  /** The places that can hold a block number: a block slot of an inode, and its indirect pointer. */
  datatype Owner = Data(i: nat, k: nat) | Index(i: nat)

  predicate Slot(s: State, o: Owner) {
    o.i < |s.inodes| && (o.Data? ==> o.k < MAXFILE)
  }

  predicate InodeOk(ip: Inode) {
    |ip.addrs| == NDIRECT + 1 && ip.size <= MAXBYTES
  }

  predicate Shape(l: Layout, s: State) {
    && |s.bits| == |s.blocks| == l.size < UINT
    && 0 < l.dataStart <= l.size
    && forall i | 0 <= i < |s.inodes| :: InodeOk(s.inodes[i])
  }

  /** Entry j of the indirect block x, or 0 when there is none. */
  function WordAt(s: State, x: nat, j: nat): nat
    requires j < NINDIRECT
  {
    if 0 < x < |s.blocks| then Word(s.blocks[x], j) else 0
  }

  /** The block number held at o, or 0. */
  function Ptr(s: State, o: Owner): nat
    requires Slot(s, o) && InodeOk(s.inodes[o.i])
  {
    if o.Index? then s.inodes[o.i].addrs[NDIRECT]
    else if o.k < NDIRECT then s.inodes[o.i].addrs[o.k]
    else WordAt(s, s.inodes[o.i].addrs[NDIRECT], o.k - NDIRECT)
  }

  // ----- Ownership

  predicate PtrOk(l: Layout, s: State, o: Owner)
    requires Shape(l, s) && Slot(s, o)
  {
    Ptr(s, o) != 0 ==> l.dataStart <= Ptr(s, o) < l.size && s.bits[Ptr(s, o)]
  }

  ghost predicate HasOwner(l: Layout, s: State, b: nat)
    requires Shape(l, s)
  {
    exists o :: Slot(s, o) && Ptr(s, o) == b
  }

  ghost predicate Distinct(l: Layout, s: State)
    requires Shape(l, s)
  {
    forall o1, o2 | Slot(s, o1) && Slot(s, o2) && Ptr(s, o1) == Ptr(s, o2) && Ptr(s, o1) != 0 :: o1 == o2
  }

  /** A bit is set exactly for the metadata blocks and the blocks with one owner. */
  ghost predicate Owned(l: Layout, s: State) {
    && Shape(l, s)
    && (forall o | Slot(s, o) :: PtrOk(l, s, o))
    && Distinct(l, s)
    && (forall b | 0 <= b < l.dataStart :: s.bits[b])
    && (forall b | l.dataStart <= b < l.size && s.bits[b] :: HasOwner(l, s, b))
  }

  /** Byte off of inode i through its block map; a missing block reads as zeros. */
  function ByteAt(s: State, i: nat, off: nat): byte
    requires i < |s.inodes| && InodeOk(s.inodes[i]) && off < MAXBYTES
  {
    var a := Ptr(s, Data(i, off / BSIZE));
    if 0 < a < |s.blocks| then s.blocks[a][off % BSIZE] else 0
  }

  function Content(s: State, i: nat): (r: seq<byte>)
    requires i < |s.inodes| && InodeOk(s.inodes[i])
    ensures |r| == s.inodes[i].size
  {
    seq(s.inodes[i].size, off requires 0 <= off < s.inodes[i].size => ByteAt(s, i, off))
  }

  /**
   Where byte off of a file is: in the first 12 blocks of 512 bytes through the inode's own addresses, and
   behind them through the words of the block the 13th address names.  Address 0 is a hole of zeros.
   */
  lemma FileLayout(l: Layout, s: State, i: nat, off: nat)
    requires Owned(l, s) && i < |s.inodes| && off < 140 * 512
    ensures off < 12 * 512 ==>
              var a := s.inodes[i].addrs[off / 512];
              a < |s.blocks| && ByteAt(s, i, off) == if a == 0 then 0 else s.blocks[a][off % 512]
    ensures off >= 12 * 512 && s.inodes[i].addrs[12] == 0 ==> ByteAt(s, i, off) == 0
    ensures off >= 12 * 512 && s.inodes[i].addrs[12] != 0 ==>
              && s.inodes[i].addrs[12] < |s.blocks|
              && var a := Word(s.blocks[s.inodes[i].addrs[12]], off / 512 - 12);
                 a < |s.blocks| && ByteAt(s, i, off) == if a == 0 then 0 else s.blocks[a][off % 512]
  {
    hide Word;
    assert PtrOk(l, s, Data(i, off / 512)) && PtrOk(l, s, Index(i));
  }

  // ----- Giving a free block to an owner

  function PutWord(blocks: seq<Block>, x: nat, j: nat, v: nat): seq<Block>
    requires x < |blocks| && j < NINDIRECT && v < UINT
  {
    blocks[x := SetWord(blocks[x], j, v)]
  }

  function Wipe(blocks: seq<Block>, b: nat): seq<Block>
    requires b < |blocks|
  {
    blocks[b := ZERO]
  }

  function SetAddr(ip: Inode, k: nat, b: nat): Inode
    requires k < |ip.addrs|
  {
    ip.(addrs := ip.addrs[k := b])
  }

  function AttachBlocks(s: State, o: Owner, b: nat): seq<Block>
    requires Slot(s, o) && InodeOk(s.inodes[o.i]) && b < |s.blocks| && b < UINT
    requires o.Data? && o.k >= NDIRECT ==> s.inodes[o.i].addrs[NDIRECT] < |s.blocks|
  {
    if o.Data? && o.k >= NDIRECT then
      PutWord(Wipe(s.blocks, b), s.inodes[o.i].addrs[NDIRECT], o.k - NDIRECT, b)
    else
      Wipe(s.blocks, b)
  }

  function AttachInodes(s: State, o: Owner, b: nat): seq<Inode>
    requires Slot(s, o) && InodeOk(s.inodes[o.i])
  {
    if o.Data? && o.k >= NDIRECT then s.inodes
    else s.inodes[o.i := SetAddr(s.inodes[o.i], if o.Data? then o.k else NDIRECT, b)]
  }

  predicate AttachOk(l: Layout, s: State, o: Owner, b: nat) {
    && Shape(l, s) && Slot(s, o) && b < l.size
    && (o.Data? && o.k >= NDIRECT ==> s.inodes[o.i].addrs[NDIRECT] < l.size)
  }

  /** A zeroed block b becomes the block of o. */
  function Attach(l: Layout, s: State, o: Owner, b: nat): State
    requires AttachOk(l, s, o, b)
  {
    State(s.bits[b := true], AttachBlocks(s, o, b), AttachInodes(s, o, b))
  }

  ghost predicate Attachable(l: Layout, s: State, o: Owner, b: nat) {
    && Owned(l, s) && Slot(s, o) && b < l.size && !s.bits[b]
    && Ptr(s, o) == 0
    && (o.Data? && o.k >= NDIRECT ==> s.inodes[o.i].addrs[NDIRECT] != 0)
  }

  lemma AttachShape(l: Layout, s: State, o: Owner, b: nat)
    requires Attachable(l, s, o, b)
    ensures b >= l.dataStart && AttachOk(l, s, o, b)
    ensures Shape(l, Attach(l, s, o, b)) && |Attach(l, s, o, b).inodes| == |s.inodes|
  {
    hide Word, SetWord;
    assert PtrOk(l, s, Index(o.i));
  }

  lemma AttachPtr(l: Layout, s: State, o: Owner, b: nat, p: Owner)
    requires Attachable(l, s, o, b) && Slot(s, p)
    ensures AttachOk(l, s, o, b) && Slot(Attach(l, s, o, b), p) && Shape(l, Attach(l, s, o, b))
    ensures Ptr(Attach(l, s, o, b), p) == if p == o then b else Ptr(s, p)
  {
    hide Word, SetWord;
    AttachShape(l, s, o, b);
    assert PtrOk(l, s, Index(p.i));
    assert PtrOk(l, s, Index(o.i));
    if p.Data? && p.k >= NDIRECT {
      if o == Index(p.i) {
        assert Word(ZERO, p.k - NDIRECT) == 0 by { WordZero(p.k - NDIRECT); }
      } else if o.Data? && o.k >= NDIRECT {
        assert Ptr(s, Index(p.i)) == Ptr(s, Index(o.i)) != 0 ==> p.i == o.i;
        WordSet(s.blocks[s.inodes[o.i].addrs[NDIRECT]], o.k - NDIRECT, b, p.k - NDIRECT);
      }
    }
  }

  lemma WordZero(j: nat)
    requires j < NINDIRECT
    ensures Word(ZERO, j) == 0
  {
  }

  lemma AttachKeeps(l: Layout, s: State, o: Owner, b: nat)
    requires Attachable(l, s, o, b)
    ensures AttachOk(l, s, o, b) && Owned(l, Attach(l, s, o, b))
  {
    hide Word, SetWord, Attach, Ptr;
    AttachShape(l, s, o, b);
    var t := Attach(l, s, o, b);
    AttachBits(l, s, o, b);
    forall p: Owner | Slot(s, p)
      ensures Slot(t, p) && Ptr(t, p) == (if p == o then b else Ptr(s, p)) && PtrOk(l, s, p)
    {
      AttachPtr(l, s, o, b, p);
    }
    forall c | l.dataStart <= c < l.size && t.bits[c]
      ensures HasOwner(l, t, c)
    {
      if c == b {
        assert Slot(t, o) && Ptr(t, o) == c;
      } else {
        assert HasOwner(l, s, c);
        var p :| Slot(s, p) && Ptr(s, p) == c;
        assert Slot(t, p) && Ptr(t, p) == c;
      }
    }
  }

  lemma AttachBits(l: Layout, s: State, o: Owner, b: nat)
    requires AttachOk(l, s, o, b)
    ensures Attach(l, s, o, b).bits == s.bits[b := true] && |Attach(l, s, o, b).inodes| == |s.inodes|
  {
  }

  /** Allocation never changes what any inode reads: the new block is zero, as the hole was. */
  lemma AttachBytes(l: Layout, s: State, o: Owner, b: nat)
    requires Attachable(l, s, o, b)
    ensures AttachOk(l, s, o, b) && Shape(l, Attach(l, s, o, b)) && Written(l, s, Attach(l, s, o, b), o.i, 0, [])
  {
    AttachShape(l, s, o, b);
    var t := Attach(l, s, o, b);
    AttachBits(l, s, o, b);
    forall i, off | 0 <= i < |s.inodes| && 0 <= off < MAXBYTES
      ensures ByteAt(t, i, off) == ByteAt(s, i, off)
    {
      hide Word, SetWord;
      var p := Data(i, off / BSIZE);
      AttachPtr(l, s, o, b, p);
      assert PtrOk(l, s, p) && PtrOk(l, s, Index(o.i));
      hide Ptr;
      if p != o && Ptr(s, p) != 0 {
        assert o.Data? && o.k >= NDIRECT ==> Ptr(s, p) != Ptr(s, Index(o.i));
        AttachBlock(l, s, o, b, Ptr(s, p));
      } else if p == o {
        AttachFresh(l, s, o, b);
      }
    }
  }

  lemma AttachBlock(l: Layout, s: State, o: Owner, b: nat, a: nat)
    requires AttachOk(l, s, o, b) && a < l.size && a != b
    requires o.Data? && o.k >= NDIRECT ==> a != s.inodes[o.i].addrs[NDIRECT] && b != s.inodes[o.i].addrs[NDIRECT]
    ensures Attach(l, s, o, b).blocks[a] == s.blocks[a]
  {
  }

  lemma AttachFresh(l: Layout, s: State, o: Owner, b: nat)
    requires AttachOk(l, s, o, b)
    requires o.Data? && o.k >= NDIRECT ==> b != s.inodes[o.i].addrs[NDIRECT]
    ensures Attach(l, s, o, b).blocks[b] == ZERO
  {
  }

  // ----- Writing into a data block

  function Poke(s: State, a: nat, blk: Block): State
    requires a < |s.blocks|
  {
    State(s.bits, s.blocks[a := blk], s.inodes)
  }

  /** b with src in place of its bytes from r on. */
  function Overlay(b: Block, r: nat, src: seq<byte>): (c: Block)
    requires r + |src| <= BSIZE
    ensures forall q | 0 <= q < BSIZE :: c[q] == if r <= q < r + |src| then src[q - r] else b[q]
  {
    b[..r] + src + b[r + |src|..]
  }

  ghost predicate DataBlock(l: Layout, s: State, i: nat, k: nat) {
    Owned(l, s) && Slot(s, Data(i, k)) && Ptr(s, Data(i, k)) != 0
  }

  lemma PokePtr(l: Layout, s: State, i: nat, k: nat, blk: Block, p: Owner)
    requires DataBlock(l, s, i, k) && Slot(s, p)
    ensures Ptr(s, Data(i, k)) < |s.blocks|
    ensures Ptr(Poke(s, Ptr(s, Data(i, k)), blk), p) == Ptr(s, p)
  {
    hide Word;
    assert PtrOk(l, s, Data(i, k));
    assert Ptr(s, Index(p.i)) != Ptr(s, Data(i, k));
  }

  lemma PokeKeeps(l: Layout, s: State, i: nat, k: nat, blk: Block)
    requires DataBlock(l, s, i, k)
    ensures Ptr(s, Data(i, k)) < |s.blocks| && Owned(l, Poke(s, Ptr(s, Data(i, k)), blk))
  {
    assert PtrOk(l, s, Data(i, k));
    var t := Poke(s, Ptr(s, Data(i, k)), blk);
    SamePtrs(l, s, i, k, blk);
    hide Ptr;
    forall o | Slot(t, o)
      ensures PtrOk(l, t, o)
    {
      assert PtrOk(l, s, o);
    }
    forall b | l.dataStart <= b < l.size && t.bits[b]
      ensures HasOwner(l, t, b)
    {
      assert HasOwner(l, s, b);
      var p :| Slot(s, p) && Ptr(s, p) == b;
      assert Slot(t, p) && Ptr(t, p) == b;
    }
  }

  lemma SamePtrs(l: Layout, s: State, i: nat, k: nat, blk: Block)
    requires DataBlock(l, s, i, k)
    ensures Ptr(s, Data(i, k)) < |s.blocks|
    ensures forall p | Slot(s, p) :: Ptr(Poke(s, Ptr(s, Data(i, k)), blk), p) == Ptr(s, p)
  {
    assert PtrOk(l, s, Data(i, k));
    forall p | Slot(s, p)
      ensures Ptr(Poke(s, Ptr(s, Data(i, k)), blk), p) == Ptr(s, p)
    {
      PokePtr(l, s, i, k, blk, p);
    }
  }

  /** From s to t, bytes off.. of inode i became src and every other byte of every inode kept its value. */
  ghost predicate Written(l: Layout, s: State, t: State, i: nat, off: nat, src: seq<byte>)
    requires Shape(l, s) && Shape(l, t)
  {
    && |s.inodes| == |t.inodes|
    && forall j, q | 0 <= j < |s.inodes| && 0 <= q < MAXBYTES ::
         ByteAt(t, j, q) == if j == i && off <= q < off + |src| then src[q - off] else ByteAt(s, j, q)
  }

  lemma WrittenThen(l: Layout, s: State, t: State, u: State, i: nat, off: nat, src1: seq<byte>, src2: seq<byte>)
    requires Shape(l, s) && Shape(l, t) && Shape(l, u)
    requires Written(l, s, t, i, off, src1) && Written(l, t, u, i, off + |src1|, src2)
    ensures Written(l, s, u, i, off, src1 + src2)
  {
    hide ByteAt;
    forall j, q | 0 <= j < |s.inodes| && 0 <= q < MAXBYTES
      ensures ByteAt(u, j, q)
           == if j == i && off <= q < off + |src1 + src2| then (src1 + src2)[q - off] else ByteAt(s, j, q)
    {
      assert ByteAt(t, j, q) == if j == i && off <= q < off + |src1| then src1[q - off] else ByteAt(s, j, q);
    }
  }

  /** memmove into one block of the file changes exactly the bytes it covers. */
  lemma ChunkWrites(l: Layout, s: State, i: nat, off: nat, src: seq<byte>)
    requires off < MAXBYTES && off % BSIZE + |src| <= BSIZE && DataBlock(l, s, i, off / BSIZE)
    ensures var a := Ptr(s, Data(i, off / BSIZE));
            && a < |s.blocks|
            && Owned(l, Poke(s, a, Overlay(s.blocks[a], off % BSIZE, src)))
            && Written(l, s, Poke(s, a, Overlay(s.blocks[a], off % BSIZE, src)), i, off, src)
  {
    var k := off / BSIZE;
    assert PtrOk(l, s, Data(i, k));
    var a := Ptr(s, Data(i, k));
    var blk := Overlay(s.blocks[a], off % BSIZE, src);
    PokeKeeps(l, s, i, k, blk);
    SamePtrs(l, s, i, k, blk);
    var t := Poke(s, a, blk);
    forall j, q | 0 <= j < |s.inodes| && 0 <= q < MAXBYTES
      ensures ByteAt(t, j, q) == if j == i && off <= q < off + |src| then src[q - off] else ByteAt(s, j, q)
    {
      hide Ptr;
      var p := Data(j, q / BSIZE);
      assert Slot(s, p) && Ptr(t, p) == Ptr(s, p);
      assert PtrOk(l, s, p);
      if p == Data(i, k) {
        assert q == BSIZE * k + q % BSIZE && off == BSIZE * k + off % BSIZE;
        assert t.blocks[a] == blk;
      } else {
        assert Ptr(s, p) != a;
        assert !(j == i && off <= q < off + |src|);
      }
    }
  }

  /** What writei does to contents: old bytes, then src, then the old tail. */
  lemma ContentWritten(l: Layout, s: State, t: State, i: nat, off: nat, src: seq<byte>)
    requires Shape(l, s) && Shape(l, t) && Written(l, s, t, i, off, src) && i < |s.inodes|
    requires off <= s.inodes[i].size && off + |src| <= MAXBYTES
    requires t.inodes[i].size == if off + |src| > s.inodes[i].size then off + |src| else s.inodes[i].size
    ensures Content(t, i) == Content(s, i)[..off] + src
                             + (if off + |src| < s.inodes[i].size then Content(s, i)[off + |src|..] else [])
  {
    hide ByteAt;
    var c := Content(s, i)[..off] + src
             + (if off + |src| < s.inodes[i].size then Content(s, i)[off + |src|..] else []);
    assert |c| == t.inodes[i].size;
    forall q | 0 <= q < |c|
      ensures Content(t, i)[q] == c[q]
    {
      assert ByteAt(t, i, q) == if off <= q < off + |src| then src[q - off] else ByteAt(s, i, q);
    }
  }

  lemma ContentKept(l: Layout, s: State, t: State, i: nat, off: nat, src: seq<byte>, j: nat)
    requires Shape(l, s) && Shape(l, t) && Written(l, s, t, i, off, src) && j < |s.inodes|
    requires t.inodes[j].size == s.inodes[j].size && (j != i || src == [])
    ensures Content(t, j) == Content(s, j)
  {
    hide ByteAt;
    forall q | 0 <= q < s.inodes[j].size
      ensures Content(t, j)[q] == Content(s, j)[q]
    {
      assert ByteAt(t, j, q) == ByteAt(s, j, q);
    }
  }

  // ----- Holes

  /** Slots lo..hi of inode i and, past the direct ones, its indirect pointer. */
  predicate InReach(p: Owner, i: nat, lo: nat, hi: nat) {
    p.i == i && if p.Data? then lo <= p.k < hi else lo < hi && hi > NDIRECT
  }

  /** bmap's effect on pointers, over slots lo..hi: pointers there stay, and exactly the missing ones in reach appear. */
  ghost predicate Mapped(l: Layout, s: State, t: State, i: nat, lo: nat, hi: nat)
    requires Shape(l, s) && Shape(l, t)
  {
    && |s.inodes| == |t.inodes|
    && (forall p | Slot(s, p) && Ptr(s, p) != 0 :: Ptr(t, p) == Ptr(s, p))
    && (forall p | Slot(s, p) && Ptr(s, p) == 0 :: Ptr(t, p) != 0 <==> InReach(p, i, lo, hi))
  }

  lemma MappedNone(l: Layout, s: State, i: nat, lo: nat)
    requires Shape(l, s)
    ensures Mapped(l, s, s, i, lo, lo)
  {
  }

  lemma MappedEmpty(l: Layout, s: State, t: State, i: nat, lo: nat, hi: nat)
    requires Shape(l, s) && Shape(l, t) && Mapped(l, s, t, i, lo, lo)
    ensures Mapped(l, s, t, i, hi, hi)
  {
    hide Ptr;
  }

  lemma MappedJoin(l: Layout, s: State, t: State, u: State, i: nat, lo: nat, mid: nat, hi: nat, top: nat)
    requires Shape(l, s) && Shape(l, t) && Shape(l, u) && lo <= mid <= hi <= top
    requires Mapped(l, s, t, i, lo, hi) && Mapped(l, t, u, i, mid, top)
    ensures Mapped(l, s, u, i, lo, top)
  {
    hide Ptr;
    assert forall p | Slot(s, p) :: Slot(t, p);
  }

  /** The first c blocks of inode i are allocated and no others. */
  ghost predicate Filled(l: Layout, s: State, i: nat, c: nat)
    requires Shape(l, s) && i < |s.inodes|
  {
    && (forall k | 0 <= k < MAXFILE :: Ptr(s, Data(i, k)) != 0 <==> k < c)
    && (Ptr(s, Index(i)) != 0 <==> c > NDIRECT)
  }

  function Blocks(size: nat): nat {
    (size + BSIZE - 1) / BSIZE
  }

  ghost predicate NoHoles(l: Layout, s: State, i: nat)
    requires Shape(l, s) && i < |s.inodes|
  {
    Filled(l, s, i, Blocks(s.inodes[i].size))
  }

  lemma MappedFills(l: Layout, s: State, t: State, i: nat, lo: nat, hi: nat, j: nat, c: nat)
    requires Shape(l, s) && Shape(l, t) && lo <= hi <= MAXFILE && Mapped(l, s, t, i, lo, hi)
    requires j < |s.inodes| && Filled(l, s, j, c) && (j == i ==> lo <= c)
    ensures Filled(l, t, j, if j == i && lo < hi && hi > c then hi else c)
  {
    hide Ptr;
    forall n | 0 <= n < MAXFILE
      ensures Ptr(t, Data(j, n)) != 0 <==> n < if j == i && lo < hi && hi > c then hi else c
    {
      assert Slot(s, Data(j, n));
    }
    assert Slot(s, Index(j));
  }

  /** One allocation: its pointer appears, all else stays. */
  lemma AttachMaps(l: Layout, s: State, o: Owner, b: nat)
    requires Attachable(l, s, o, b)
    ensures AttachOk(l, s, o, b)
    ensures Owned(l, Attach(l, s, o, b)) && |Attach(l, s, o, b).inodes| == |s.inodes|
    ensures Written(l, s, Attach(l, s, o, b), o.i, 0, [])
    ensures forall p | Slot(s, p) :: Ptr(Attach(l, s, o, b), p) == if p == o then b else Ptr(s, p)
  {
    AttachShape(l, s, o, b);
    AttachKeeps(l, s, o, b);
    AttachBytes(l, s, o, b);
    AttachBits(l, s, o, b);
    forall p | Slot(s, p)
      ensures Ptr(Attach(l, s, o, b), p) == if p == o then b else Ptr(s, p)
    {
      AttachPtr(l, s, o, b, p);
    }
  }

  lemma MappedDirectly(l: Layout, s: State, i: nat, k: nat, b: nat)
    requires Attachable(l, s, Data(i, k), b)
    ensures AttachOk(l, s, Data(i, k), b) && Shape(l, Attach(l, s, Data(i, k), b))
    ensures Mapped(l, s, Attach(l, s, Data(i, k), b), i, k, k + 1)
  {
    AttachShape(l, s, Data(i, k), b);
    AttachMaps(l, s, Data(i, k), b);
    hide Attach;
    assert Slot(s, Index(i));
  }

  /** Allocating the indirect block first does not show in the result. */
  lemma MappedThen(l: Layout, s: State, i: nat, k: nat, x: nat, u: State)
    requires Attachable(l, s, Index(i), x) && NDIRECT <= k < MAXFILE && AttachOk(l, s, Index(i), x) && Shape(l, u)
    requires Shape(l, Attach(l, s, Index(i), x)) && Mapped(l, Attach(l, s, Index(i), x), u, i, k, k + 1)
    ensures Mapped(l, s, u, i, k, k + 1)
  {
    AttachMaps(l, s, Index(i), x);
    hide Attach, Ptr;
    var t := Attach(l, s, Index(i), x);
    assert forall p | Slot(s, p) :: Slot(t, p);
  }

  lemma MappedAlready(l: Layout, s: State, i: nat, k: nat)
    requires Owned(l, s) && i < |s.inodes| && k < MAXFILE && Ptr(s, Data(i, k)) != 0
    ensures Mapped(l, s, s, i, k, k + 1)
  {
  }

  // ----- Giving blocks back

  /** A direct block is freed and its slot cleared. */
  function Detach(l: Layout, s: State, i: nat, k: nat): State
    requires Shape(l, s) && i < |s.inodes| && k < NDIRECT && s.inodes[i].addrs[k] < l.size
  {
    State(s.bits[s.inodes[i].addrs[k] := false], s.blocks, s.inodes[i := SetAddr(s.inodes[i], k, 0)])
  }

  lemma DetachKeeps(l: Layout, s: State, i: nat, k: nat)
    requires Owned(l, s) && i < |s.inodes| && k < NDIRECT && s.inodes[i].addrs[k] != 0
    ensures s.inodes[i].addrs[k] < l.size && s.bits[s.inodes[i].addrs[k]] && Owned(l, Detach(l, s, i, k))
    ensures forall p | Slot(s, p) :: Ptr(Detach(l, s, i, k), p) == if p == Data(i, k) then 0 else Ptr(s, p)
  {
    hide Word;
    assert PtrOk(l, s, Data(i, k));
    var t := Detach(l, s, i, k);
    assert forall p | Slot(s, p) :: Ptr(t, p) == if p == Data(i, k) then 0 else Ptr(s, p);
    DetachOwned(l, s, i, k, t);
  }

  lemma DetachOwned(l: Layout, s: State, i: nat, k: nat, t: State)
    requires Owned(l, s) && Shape(l, t) && |t.inodes| == |s.inodes| && Slot(s, Data(i, k)) && Ptr(s, Data(i, k)) != 0
    requires Ptr(s, Data(i, k)) < l.size && t.bits == s.bits[Ptr(s, Data(i, k)) := false]
    requires forall p | Slot(s, p) :: Ptr(t, p) == if p == Data(i, k) then 0 else Ptr(s, p)
    ensures Owned(l, t)
  {
    hide Ptr;
    assert PtrOk(l, s, Data(i, k));
    forall o | Slot(t, o)
      ensures PtrOk(l, t, o)
    {
      assert Slot(s, o) && PtrOk(l, s, o);
    }
    forall b | l.dataStart <= b < l.size && t.bits[b]
      ensures HasOwner(l, t, b)
    {
      assert HasOwner(l, s, b);
      var p :| Slot(s, p) && Ptr(s, p) == b;
      assert Slot(t, p) && Ptr(t, p) == b;
    }
  }

  /** b is held by a slot or the indirect pointer of inode i. */
  ghost predicate OwnedBy(l: Layout, s: State, i: nat, b: nat)
    requires Shape(l, s)
  {
    b != 0 && exists o :: Slot(s, o) && o.i == i && Ptr(s, o) == b
  }

  /** The state after the indirect block of i and all it lists are freed. */
  ghost predicate IndexFreed(l: Layout, s: State, t: State, i: nat)
    requires Shape(l, s) && i < |s.inodes|
  {
    && |t.bits| == |s.bits| && t.blocks == s.blocks && t.inodes == s.inodes[i := SetAddr(s.inodes[i], NDIRECT, 0)]
    && forall b | 0 <= b < l.size ::
         t.bits[b] <==> s.bits[b] && !(b != 0 && (b == Ptr(s, Index(i)) || exists j | NDIRECT <= j < MAXFILE :: Ptr(s, Data(i, j)) == b))
  }

  lemma IndexFreedPtr(l: Layout, s: State, t: State, i: nat, p: Owner)
    requires Owned(l, s) && i < |s.inodes| && IndexFreed(l, s, t, i) && Slot(s, p)
    ensures Shape(l, t) && Slot(t, p)
    ensures Ptr(t, p) == if p == Index(i) || (p.i == i && p.Data? && p.k >= NDIRECT) then 0 else Ptr(s, p)
  {
    hide Word;
  }

  lemma IndexFreedKeeps(l: Layout, s: State, t: State, i: nat)
    requires Owned(l, s) && i < |s.inodes| && IndexFreed(l, s, t, i)
    ensures Owned(l, t)
  {
    assert |t.inodes| == |s.inodes| && Shape(l, t);
    hide Ptr, IndexFreed;
    forall p: Owner | Slot(s, p)
      ensures Slot(t, p) && Shape(l, t) && PtrOk(l, s, p)
      ensures Ptr(t, p) == if p == Index(i) || (p.i == i && p.Data? && p.k >= NDIRECT) then 0 else Ptr(s, p)
    {
      IndexFreedPtr(l, s, t, i, p);
    }
    assert Slot(s, Index(i));
    IndexFreedBits(l, s, t, i);
    forall b | l.dataStart <= b < l.size && t.bits[b]
      ensures HasOwner(l, t, b)
    {
      assert HasOwner(l, s, b);
      var p :| Slot(s, p) && Ptr(s, p) == b;
      assert Slot(t, p) && Ptr(t, p) == b;
    }
  }

  lemma IndexFreedBits(l: Layout, s: State, t: State, i: nat)
    requires Owned(l, s) && i < |s.inodes| && IndexFreed(l, s, t, i) && Shape(l, t) && |t.inodes| == |s.inodes|
    ensures forall b | 0 <= b < l.dataStart :: t.bits[b]
    ensures forall b | 0 <= b < l.size && t.bits[b] :: s.bits[b]
    ensures forall p | Slot(s, p) && Ptr(s, p) != 0 && !(p == Index(i) || (p.i == i && p.Data? && p.k >= NDIRECT)) ::
              Ptr(s, p) < l.size && t.bits[Ptr(s, p)]
    ensures forall p | Slot(s, p) && (p == Index(i) || (p.i == i && p.Data? && p.k >= NDIRECT)) && Ptr(s, p) != 0 ::
              Ptr(s, p) < l.size && !t.bits[Ptr(s, p)]
  {
    hide Ptr;
    forall b | 0 <= b < l.dataStart
      ensures t.bits[b]
    {
      assert PtrOk(l, s, Index(i));
      assert forall j | NDIRECT <= j < MAXFILE :: PtrOk(l, s, Data(i, j));
    }
    forall p | Slot(s, p) && Ptr(s, p) != 0
      ensures Ptr(s, p) < l.size
      ensures t.bits[Ptr(s, p)] <==> !(p == Index(i) || (p.i == i && p.Data? && p.k >= NDIRECT))
    {
      assert PtrOk(l, s, p);
      var b := Ptr(s, p);
      assert Slot(s, Index(i));
      if exists j | NDIRECT <= j < MAXFILE :: Ptr(s, Data(i, j)) == b {
        var j :| NDIRECT <= j < MAXFILE && Ptr(s, Data(i, j)) == b;
        assert Slot(s, Data(i, j));
        assert p == Data(i, j);
      }
    }
  }

  /** Pointers of an inode and the blocks decide what it reads. */
  lemma SamePtrsSameBytes(l: Layout, s: State, t: State, j: nat)
    requires Shape(l, s) && Shape(l, t) && j < |s.inodes| == |t.inodes| && t.blocks == s.blocks
    requires forall p | Slot(s, p) && p.i == j :: Ptr(t, p) == Ptr(s, p)
    ensures forall q | 0 <= q < MAXBYTES :: ByteAt(t, j, q) == ByteAt(s, j, q)
  {
    hide Ptr;
    forall q | 0 <= q < MAXBYTES
      ensures ByteAt(t, j, q) == ByteAt(s, j, q)
    {
      assert Slot(s, Data(j, q / BSIZE));
    }
  }
}
