/**
 The block and inode layer of fs.c in the source's form: the allocator's scan, bmap, itrunc and
 the read and write loops, as methods that update the free map, the disk blocks and the inodes.
 */
module FsCode {
  import opened Fs
  import opened FsEffects

  datatype Option<+T> = None | Some(value: T)

  /** The value returned, a call handed to a device driver, or a panic (no return). */
  datatype Outcome = Done(ret: int) | Driver | Panic

  const T_DEV: int := 3

  /**
   Every disk block in which the file system (s with disk inodes d) differs from what it was when
   the operation began (s0 with d0) is in log.
   */
  ghost predicate AllLogged(l: Layout, s0: State, d0: seq<Inode>, s: State, d: seq<Inode>, log: set<nat>) {
    && |s.blocks| == |s0.blocks| && |s.bits| == |s0.bits| && |d| == |d0|
    && (forall b | 0 <= b < |s.blocks| && s.blocks[b] != s0.blocks[b] :: b in log)
    && (forall b | 0 <= b < |s.bits| && s.bits[b] != s0.bits[b] :: BitmapBlock(l, b) in log)
    && (forall j | 0 <= j < |d| && d[j] != d0[j] :: InodeBlock(l, j) in log)
  }

  lemma PutLogged(l: Layout, s0: State, d0: seq<Inode>, s: State, d: seq<Inode>, log: set<nat>, a: nat, blk: Block)
    requires AllLogged(l, s0, d0, s, d, log) && a < |s.blocks|
    ensures AllLogged(l, s0, d0, State(s.bits, s.blocks[a := blk], s.inodes), d, log + {a})
  {
  }

  lemma BitLogged(l: Layout, s0: State, d0: seq<Inode>, s: State, d: seq<Inode>, log: set<nat>, b: nat, v: bool)
    requires AllLogged(l, s0, d0, s, d, log) && b < |s.bits|
    ensures AllLogged(l, s0, d0, State(s.bits[b := v], s.blocks, s.inodes), d, log + {BitmapBlock(l, b)})
  {
  }

  lemma InodeLogged(l: Layout, s0: State, d0: seq<Inode>, s: State, d: seq<Inode>, log: set<nat>, i: nat, ip: Inode)
    requires AllLogged(l, s0, d0, s, d, log) && i < |d|
    ensures AllLogged(l, s0, d0, s, d[i := ip], log + {InodeBlock(l, i)})
  {
  }

  /** The inodes in memory are not on the disk. */
  lemma MemoryInodes(l: Layout, s0: State, d0: seq<Inode>, s: State, d: seq<Inode>, log: set<nat>, inodes: seq<Inode>)
    requires AllLogged(l, s0, d0, s, d, log)
    ensures AllLogged(l, s0, d0, State(s.bits, s.blocks, inodes), d, log)
  {
  }

  lemma NothingLogged(l: Layout, s: State, d: seq<Inode>)
    ensures AllLogged(l, s, d, s, d, {})
  {
  }

  class FileSystem {
    const l: Layout
    var bits: seq<bool>
    var blocks: seq<Block>
    var inodes: seq<Inode>
    var dinodes: seq<Inode>
    var outstanding: nat         // operations in progress; log_write panics without one
    ghost var logged: set<nat>   // the blocks the operation has logged
    ghost var base: State        // the file system and the disk inodes when the operation began
    ghost var dbase: seq<Inode>

    constructor (l: Layout, s: State)
      requires Owned(l, s)
      ensures this.l == l && S() == s && dinodes == s.inodes && logged == {} && Valid()
    {
      this.l := l;
      bits, blocks, inodes, dinodes := s.bits, s.blocks, s.inodes, s.inodes;
      logged, base, dbase := {}, s, s.inodes;
      outstanding := 0;
    }

    /** begin_op: the operation starts with nothing logged. */
    method BeginOp()
      requires Valid()
      modifies this`logged, this`base, this`dbase, this`outstanding
      ensures Valid() && logged == {} && base == S() && dbase == dinodes && outstanding == old(outstanding) + 1
    {
      outstanding := outstanding + 1;
      logged, base, dbase := {}, S(), dinodes;
    }

    /** end_op, as far as the count goes. */
    method EndOp()
      requires outstanding > 0
      modifies this`outstanding
      ensures outstanding == old(outstanding) - 1
    {
      outstanding := outstanding - 1;
    }

    ghost function S(): State
      reads this
    {
      State(bits, blocks, inodes)
    }

    ghost predicate Valid()
      reads this
    {
      Owned(l, S()) && |dinodes| == |inodes| && WriteAhead()
    }

    ghost predicate WriteAhead()
      reads this
    {
      AllLogged(l, base, dbase, S(), dinodes, logged)
    }

    /** balloc: the first free block, marked and zeroed; None is the panic when every bit is set, or outside an operation. */
    method Balloc() returns (r: Option<nat>)
      requires Shape(l, S())
      modifies this`bits, this`blocks, this`logged
      ensures r.None? <==> outstanding == 0 || forall b | 0 <= b < l.size :: old(bits[b])
      ensures r.None? ==> bits == old(bits) && blocks == old(blocks) && logged == old(logged)
      ensures r.Some? ==> r.value < l.size && !old(bits[r.value]) && (forall b | 0 <= b < r.value :: old(bits[b]))
                          && bits == old(bits)[r.value := true] && blocks == Wipe(old(blocks), r.value)
                          && logged == old(logged) + {BitmapBlock(l, r.value), r.value}
                          && logged == old(logged) + {l.bmapStart + r.value / 4096, r.value}
                          && (forall j | 0 <= j < 512 :: blocks[r.value][j] == 0)
    {
      var b := 0;
      while b < l.size
        invariant forall c | 0 <= c < b && c < l.size :: bits[c]
        invariant bits == old(bits) && blocks == old(blocks) && logged == old(logged)
        invariant b % BPB == 0
      {
        var bi := 0;
        while bi < BPB && b + bi < l.size
          invariant 0 <= bi <= BPB
          invariant forall c | 0 <= c < b + bi && c < l.size :: bits[c]
          invariant bits == old(bits) && blocks == old(blocks) && logged == old(logged)
        {
          if !bits[b + bi] {
            if outstanding < 1 {
              return None;
            }
            bits := bits[b + bi := true];
            blocks := Wipe(blocks, b + bi);
            logged := logged + {BitmapBlock(l, b), b + bi};
            assert (b + bi) / BPB == b / BPB;
            return Some(b + bi);
          }
          bi := bi + 1;
        }
        b := b + BPB;
      }
      r := None;
    }

    /** bfree: clears the bit of a block in use; false is the panic on a free one. */
    method Bfree(b: nat) returns (ok: bool)
      requires b < |bits| && WriteAhead() && outstanding > 0
      modifies this`bits, this`logged
      ensures ok == old(bits[b]) && WriteAhead()
      ensures ok ==> bits == old(bits)[b := false] && logged == old(logged) + {BitmapBlock(l, b)}
      ensures ok ==> logged == old(logged) + {l.bmapStart + b / 4096}
      ensures !ok ==> bits == old(bits) && logged == old(logged)
    {
      if !bits[b] {
        return false;
      }
      BitLogged(l, base, dbase, S(), dinodes, logged, b, false);
      bits := bits[b := false];
      logged := logged + {BitmapBlock(l, b)};
      ok := true;
    }

    method Iupdate(i: nat)
      requires i < |inodes| == |dinodes| && WriteAhead() && outstanding > 0
      modifies this`dinodes, this`logged
      ensures dinodes == old(dinodes)[i := inodes[i]] && WriteAhead()
      ensures logged == old(logged) + {InodeBlock(l, i)} && logged == old(logged) + {l.inodeStart + i / 8}
    {
      InodeLogged(l, base, dbase, S(), dinodes, logged, i, inodes[i]);
      dinodes := dinodes[i := inodes[i]];
      logged := logged + {InodeBlock(l, i)};
    }

    lemma BallocLogged(s0: State, log0: set<nat>, b: nat)
      requires AllLogged(l, base, dbase, s0, dinodes, log0) && b < |s0.bits| && b < |s0.blocks|
      requires bits == s0.bits[b := true] && blocks == Wipe(s0.blocks, b) && inodes == s0.inodes
      requires logged == log0 + {BitmapBlock(l, b), b}
      ensures WriteAhead()
    {
      hide AllLogged;
      var s1 := State(s0.bits[b := true], s0.blocks, s0.inodes);
      BitLogged(l, base, dbase, s0, dinodes, log0, b, true);
      PutLogged(l, base, dbase, s1, dinodes, log0 + {BitmapBlock(l, b)}, b, ZERO);
      assert logged == log0 + {BitmapBlock(l, b)} + {b};
    }

    /** Allocates a block for the empty pointer o. */
    method Grow(o: Owner) returns (r: Option<nat>)
      requires Valid() && Slot(S(), o) && Ptr(S(), o) == 0
      requires o.Data? && o.k >= NDIRECT ==> inodes[o.i].addrs[NDIRECT] != 0
      modifies this`bits, this`blocks, this`inodes, this`logged
      ensures r.None? && outstanding > 0 ==> forall b | 0 <= b < |bits| :: bits[b]
      ensures r.Some? ==>
                && Attachable(l, old(S()), o, r.value) && AttachOk(l, old(S()), o, r.value)
                && S() == Attach(l, old(S()), o, r.value)
                && logged <= old(logged) + {BitmapBlock(l, r.value), r.value}
                             + (if o.Data? && o.k >= NDIRECT then {inodes[o.i].addrs[NDIRECT]} else {})
                && SameButAddrs(old(inodes), inodes, o.i) && WriteAhead() && outstanding > 0
    {
      hide Word, SetWord, AllLogged;
      ghost var s0, log0 := S(), logged;
      assert PtrOk(l, S(), Index(o.i));
      r := Balloc();
      if r.None? {
        return;
      }
      BallocLogged(s0, log0, r.value);
      if o.Data? && o.k >= NDIRECT {
        var x := inodes[o.i].addrs[NDIRECT];
        PutLogged(l, base, dbase, S(), dinodes, logged, x, SetWord(blocks[x], o.k - NDIRECT, r.value));
        blocks := PutWord(blocks, x, o.k - NDIRECT, r.value);
        logged := logged + {x};
      } else {
        MemoryInodes(l, base, dbase, S(), dinodes, logged,
                     inodes[o.i := SetAddr(inodes[o.i], if o.Data? then o.k else NDIRECT, r.value)]);
        inodes := inodes[o.i := SetAddr(inodes[o.i], if o.Data? then o.k else NDIRECT, r.value)];
      }
    }

    /** bmap: the block of slot k, allocated if missing; None is a panic. */
    method Bmap(i: nat, k: nat) returns (r: Option<nat>)
      requires Valid() && i < |inodes|
      modifies this`bits, this`blocks, this`inodes, this`logged
      ensures r.None? && outstanding > 0 ==> k >= MAXFILE || forall b | 0 <= b < |bits| :: bits[b]
      ensures r.Some? ==>
                && k < MAXFILE && Valid() && SameButAddrs(old(inodes), inodes, i)
                && r.value == Ptr(S(), Data(i, k)) < |blocks|
                && Mapped(l, old(S()), S(), i, k, k + 1) && Written(l, old(S()), S(), i, 0, [])
                && logged <= old(logged) + Range(l.bmapStart, BitmapCount(l)) + IndexOf(l, S(), i) + {r.value}
      ensures k < MAXFILE && old(Ptr(S(), Data(i, k))) != 0 ==> r.Some? && S() == old(S()) && logged == old(logged)
      ensures k < MAXFILE && old(Ptr(S(), Data(i, k))) == 0 && outstanding == 0 ==> r.None?
    {
      hide Word, SetWord, Attach, AllLogged;
      ghost var s0 := S();
      if k >= MAXFILE {
        return None;
      }
      if k >= NDIRECT && inodes[i].addrs[NDIRECT] == 0 {
        r := Grow(Index(i));
        if r.None? {
          return;
        }
        AttachMaps(l, s0, Index(i), r.value);
        AttachLogs(l, s0, Index(i), r.value);
        assert logged <= old(logged) + Range(l.bmapStart, BitmapCount(l)) + IndexOf(l, S(), i);
        ghost var x, s1 := r.value, S();
        r := Lookup(i, k);
        if r.None? {
          return;
        }
        MappedThen(l, s0, i, k, x, S());
        WrittenSame(l, s0, s1, S(), i);
        return;
      }
      r := Lookup(i, k);
    }

    /** bmap once any indirect block it needs is there. */
    method Lookup(i: nat, k: nat) returns (r: Option<nat>)
      requires Valid() && i < |inodes| && k < MAXFILE
      requires k >= NDIRECT ==> inodes[i].addrs[NDIRECT] != 0
      modifies this`bits, this`blocks, this`inodes, this`logged
      ensures r.None? && outstanding > 0 ==> forall b | 0 <= b < |bits| :: bits[b]
      ensures r.Some? ==>
                && Valid() && SameButAddrs(old(inodes), inodes, i)
                && r.value == Ptr(S(), Data(i, k)) < |blocks| && Ptr(S(), Index(i)) == old(Ptr(S(), Index(i)))
                && Mapped(l, old(S()), S(), i, k, k + 1) && Written(l, old(S()), S(), i, 0, [])
                && logged <= old(logged) + Range(l.bmapStart, BitmapCount(l)) + IndexOf(l, S(), i) + {r.value}
      ensures old(Ptr(S(), Data(i, k))) != 0 ==> r.Some? && S() == old(S()) && logged == old(logged)
      ensures old(Ptr(S(), Data(i, k))) == 0 && outstanding == 0 ==> r.None?
    {
      hide Word, SetWord, Attach, AllLogged;
      ghost var s0 := S();
      assert PtrOk(l, s0, Index(i)) && PtrOk(l, s0, Data(i, k));
      var addr := if k < NDIRECT then inodes[i].addrs[k] else Word(blocks[inodes[i].addrs[NDIRECT]], k - NDIRECT);
      if addr != 0 {
        MappedAlready(l, s0, i, k);
        return Some(addr);
      }
      r := Grow(Data(i, k));
      if r.Some? {
        AttachMaps(l, s0, Data(i, k), r.value);
        AttachLogs(l, s0, Data(i, k), r.value);
        MappedDirectly(l, s0, i, k, r.value);
        assert Slot(s0, Index(i)) && Slot(s0, Data(i, k));
      }
    }

    /**
     readi: -1, with nothing changed, past the end or when off + n wraps in 32 bits; else the file's
     bytes from off on, clipped at its end.  Exactly the missing blocks among those read are
     allocated, which no content shows, so nothing changes exactly when they are all there.
     */
    method Readi(i: nat, off0: nat, n0: nat) returns (r: Outcome, dst: seq<byte>)
      requires Valid() && i < |inodes| && off0 < UINT && n0 < UINT
      modifies this`bits, this`blocks, this`inodes, this`logged
      ensures r.Driver? <==> old(inodes[i].kind) == 3
      ensures r.Panic? && outstanding > 0 ==> forall b | 0 <= b < |bits| :: bits[b]
      ensures r.Done? ==> Valid() && SameButAddrs(old(inodes), inodes, i) && Written(l, old(S()), S(), i, 0, [])
      ensures !r.Driver? && (off0 > old(inodes[i].size) || off0 + n0 >= UINT) ==>
                r == Done(-1) && dst == [] && S() == old(S()) && logged == old(logged)
      ensures r.Done? && !(off0 > old(inodes[i].size) || off0 + n0 >= UINT) ==>
                && r.ret == |dst| == (if n0 <= inodes[i].size - off0 then n0 else inodes[i].size - off0)
                && dst == old(Content(S(), i))[off0..off0 + |dst|]
                && ReadKept(l, old(S()), S(), i, off0 / BSIZE, EndBlock(off0, |dst|))
                && (S() == old(S()) && logged == old(logged) <==> AllThere(l, old(S()), i, off0, |dst|))
                && (inodes == old(inodes) <==> Covered(old(inodes)[i], off0, |dst|))
      ensures !r.Driver? && off0 <= old(inodes[i].size) && off0 + n0 < UINT ==>
                && (AllThere(l, old(S()), i, off0, Min(n0, old(inodes[i].size) - off0)) ==> r.Done?)
                && (outstanding == 0 && r.Done? ==> AllThere(l, old(S()), i, off0, Min(n0, old(inodes[i].size) - off0)))
      ensures old(NoHoles(l, S(), i)) ==> !r.Panic? && S() == old(S()) && logged == old(logged)
    {
      hide Owned, Written, NoHoles, ByteAt, Slice, Content, AllLogged, AllThere, ReadKept, Covered, EndBlock;
      OwnedShape(l, S());
      ReadKeptSelf(l, S(), i, 0);
      ReadKeptIs(l, S(), S(), i, 0, 0);
      dst := [];
      if inodes[i].kind == T_DEV {
        return Driver, [];
      }
      if off0 > inodes[i].size || (off0 + n0) % UINT < off0 {
        return Done(-1), [];
      }
      var n := n0;
      if (off0 + n) % UINT > inodes[i].size {
        n := inodes[i].size - off0;
      }
      if NoHoles(l, S(), i) { NoHolesThere(l, S(), i, off0, n); }
      var ok;
      ok, dst := ReadLoop(i, off0, n);
      SliceIs(old(S()), i, off0, n);
      if ok {
        ReadKeptIs(l, old(S()), S(), i, off0 / BSIZE, EndBlock(off0, n));
        ReadChangesIff(l, old(S()), S(), i, off0, n);
        ReadCurrentIff(l, old(S()), S(), i, off0, n);
      }
      r := if ok then Done(n) else Panic;
    }

    method ReadLoop(i: nat, off0: nat, n: nat) returns (ok: bool, dst: seq<byte>)
      requires Valid() && i < |inodes| && off0 + n <= inodes[i].size
      modifies this`bits, this`blocks, this`inodes, this`logged
      ensures !ok && outstanding > 0 ==> forall b | 0 <= b < |bits| :: bits[b]
      ensures ok ==> Valid() && ReadKept(l, old(S()), S(), i, off0 / BSIZE, EndBlock(off0, n))
      ensures ok ==> dst == Slice(old(S()), i, off0, n)
      ensures AllThere(l, old(S()), i, off0, n) ==> ok && S() == old(S()) && logged == old(logged)
      ensures outstanding == 0 && ok ==> AllThere(l, old(S()), i, off0, n)
    {
      hide Ptr, Owned, ReadKept, ByteAt, Slice, AllLogged, EndBlock, AllThere;
      ghost var s0 := S();
      OwnedShape(l, s0);
      ReadKeptSelf(l, s0, i, off0 / BSIZE);
      NoneThere(l, s0, i, off0);
      var tot, off := 0, off0;
      dst := [];
      SliceNone(s0, i, off0);
      while tot < n
        invariant tot <= n && off == off0 + tot && i < |inodes| && (tot == 0 || tot == n || off % BSIZE == 0)
        invariant Valid() && ReadKept(l, s0, S(), i, off0 / BSIZE, EndBlock(off0, tot))
        invariant dst == Slice(s0, i, off0, tot)
        invariant AllThere(l, s0, i, off0, n) ==> S() == s0 && logged == old(logged)
        invariant outstanding == 0 ==> S() == s0 && AllThere(l, s0, i, off0, tot)
      {
        ghost var s1 := S();
        var m := Min(n - tot, BSIZE - off % BSIZE);
        Round(off0, tot, n, m);
        if AllThere(l, s0, i, off0, n) { ThereAt(l, s0, i, off0, n, off / BSIZE); }
        var bytes;
        ok, bytes := ReadBlock(i, off, m);
        if !ok {
          return;
        }
        ReadKeptThen(l, s0, s1, S(), i, off0, off, m);
        if outstanding == 0 { ReadChangesIff(l, s0, S(), i, off0, tot + m); }
        SliceThen(s0, i, off0, tot, m);
        dst := dst + bytes;
        tot, off := tot + m, off + m;
      }
      ok := true;
    }

    /** One round of readi's loop. */
    method ReadBlock(i: nat, off: nat, m: nat) returns (ok: bool, bytes: seq<byte>)
      requires Valid() && i < |inodes| && 0 < m && off + m <= MAXBYTES && off % BSIZE + m <= BSIZE
      modifies this`bits, this`blocks, this`inodes, this`logged
      ensures !ok && outstanding > 0 ==> forall b | 0 <= b < |bits| :: bits[b]
      ensures ok ==> Valid() && ReadKept(l, old(S()), S(), i, off / BSIZE, off / BSIZE + 1) && |inodes| == |old(inodes)|
      ensures ok ==> bytes == Slice(old(S()), i, off, m)
      ensures old(Ptr(S(), Data(i, off / BSIZE))) != 0 ==> ok && S() == old(S()) && logged == old(logged)
      ensures outstanding == 0 && ok ==> S() == old(S())
    {
      hide Ptr, Owned, Mapped, Written, NoHoles, ByteAt, AllLogged;
      ghost var s0 := S();
      OwnedShape(l, s0);
      bytes := [];
      var a := Bmap(i, off / BSIZE);
      if a.None? {
        return false, [];
      }
      OwnedShape(l, S());
      MappedThere(l, s0, S(), i, off / BSIZE);
      ChunkReads(l, s0, S(), i, off, m);
      bytes := blocks[a.value][off % BSIZE..off % BSIZE + m];
      ok := true;
    }

    /**
     writei: -1, with nothing changed, when off is past the end or the result would exceed the
     largest file; else the bytes from off on become src, every other byte of every file keeps its
     value, and a file that grew is written through to its disk inode.
     */
    method Writei(i: nat, src: seq<byte>, off: nat) returns (r: Outcome)
      requires Valid() && i < |inodes| && off < UINT && |src| < UINT && outstanding > 0
      modifies this`bits, this`blocks, this`inodes, this`dinodes, this`logged
      ensures r.Driver? <==> old(inodes[i].kind) == 3
      ensures r.Panic? ==> forall b | 0 <= b < |bits| :: bits[b]
      ensures !r.Driver? ==> (r == Done(-1) <==> off > old(inodes[i].size) || off + |src| > MAXBYTES)
      ensures r.Driver? || r == Done(-1) ==> S() == old(S()) && dinodes == old(dinodes) && logged == old(logged)
      ensures r.Done? && r.ret != -1 ==>
                && r.ret == |src| && Valid() && Wrote(l, old(S()), S(), i, off, src)
                && dinodes == (if off + |src| > old(inodes[i].size) then old(dinodes)[i := inodes[i]] else old(dinodes))
                && logged <= old(logged) + Touched(l, S(), i, off, off + |src|)
      ensures r.Done? && r.ret != -1 ==>
                && i < |inodes| && InodeOk(inodes[i]) && off <= old(inodes[i].size)
                && inodes[i].size == (if off + |src| > old(inodes[i].size) then off + |src| else old(inodes[i].size))
                && forall k | 0 <= k < inodes[i].size ::
                     Content(S(), i)[k] == if off <= k < off + |src| then src[k - off] else old(Content(S(), i))[k]
      ensures r.Done? && r.ret != -1 ==>
                |inodes| == old(|inodes|) && forall j | 0 <= j < |inodes| && j != i :: Content(S(), j) == old(Content(S(), j))
    {
      hide Owned, Progress, Touched, Wrote, AllLogged;
      ghost var s0 := S();
      OwnedShape(l, s0);
      if inodes[i].kind == T_DEV {
        return Driver;
      }
      if off > inodes[i].size || (off + |src|) % UINT < off {
        return Done(-1);
      }
      if (off + |src|) % UINT > MAXBYTES {
        return Done(-1);
      }
      var ok := WriteLoop(i, src, off);
      if !ok {
        return Panic;
      }
      ghost var s1 := S();
      OwnedShape(l, s1);
      assert |inodes| == |s0.inodes| && inodes[i].size == s0.inodes[i].size by { ProgressSizes(l, s0, s1, i, off, src); }
      if |src| > 0 && off + |src| > inodes[i].size {
        MemoryInodes(l, base, dbase, s1, dinodes, logged, SetSize(inodes, i, off + |src|));
        inodes := SetSize(inodes, i, off + |src|);
        Resized(l, s1, S(), i, off, off + |src|);
        Iupdate(i);
        InodeBlockTouched(l, S(), i, off, off + |src|);
      } else {
        assert SetSize(inodes, i, inodes[i].size) == inodes;
      }
      ProgressWrote(l, s0, s1, S(), i, off, src);
      WroteBytes(l, s0, S(), i, off, src);
      r := Done(|src|);
    }

    method WriteLoop(i: nat, src: seq<byte>, off0: nat) returns (ok: bool)
      requires Valid() && i < |inodes| && off0 <= inodes[i].size && off0 + |src| <= MAXBYTES && outstanding > 0
      modifies this`bits, this`blocks, this`inodes, this`logged
      ensures !ok ==> forall b | 0 <= b < |bits| :: bits[b]
      ensures ok ==> Valid() && Progress(l, old(S()), S(), i, off0, src)
      ensures ok ==> logged <= old(logged) + Touched(l, S(), i, off0, off0 + |src|)
    {
      hide Ptr, Owned, OneBlock, Progress, Touched, IndexOf, AllLogged;
      ghost var s0 := S();
      OwnedShape(l, s0);
      var tot, off := 0, off0;
      ProgressStart(l, s0, i, off0);
      assert src[..0] == [];
      while tot < |src|
        invariant tot <= |src| && off == off0 + tot && (tot == 0 || tot == |src| || off % BSIZE == 0)
        invariant Valid() && Shape(l, S()) && i < |inodes| && Progress(l, s0, S(), i, off0, src[..tot])
        invariant logged <= old(logged) + Touched(l, S(), i, off0, off)
      {
        ghost var s1 := S();
        var m := Min(|src| - tot, BSIZE - off % BSIZE);
        ok := WriteBlock(i, src[tot..tot + m], off);
        if !ok {
          return;
        }
        OwnedShape(l, S());
        assert src[..tot + m] == src[..tot] + src[tot..tot + m];
        ProgressStep(l, s0, s1, S(), i, off0, src[..tot], src[tot..tot + m]);
        TouchedStep(l, s1, S(), i, off0, off, src[tot..tot + m]);
        tot, off := tot + m, off + m;
      }
      assert src[..tot] == src;
      ok := true;
    }

    /** One round of writei's loop. */
    method WriteBlock(i: nat, src: seq<byte>, off: nat) returns (ok: bool)
      requires Valid() && i < |inodes| && src != [] && off + |src| <= MAXBYTES && off % BSIZE + |src| <= BSIZE && outstanding > 0
      modifies this`bits, this`blocks, this`inodes, this`logged
      ensures !ok ==> forall b | 0 <= b < |bits| :: bits[b]
      ensures ok ==> Valid() && OneBlock(l, old(S()), S(), i, off, src)
      ensures ok ==> i < |inodes| && Shape(l, S())
      ensures ok ==> logged <= old(logged) + Range(l.bmapStart, BitmapCount(l)) + IndexOf(l, S(), i)
                               + {Ptr(S(), Data(i, off / BSIZE))}
    {
      hide Ptr, Owned, Mapped, Written, Overlay, AllLogged;
      ghost var s0 := S();
      OwnedShape(l, s0);
      var a := Bmap(i, off / BSIZE);
      if a.None? {
        return false;
      }
      ghost var s1 := S();
      OwnedShape(l, s1);
      OneBlockThere(l, s0, s1, i, off, src);
      PutLogged(l, base, dbase, s1, dinodes, logged, a.value, Overlay(blocks[a.value], off % BSIZE, src));
      blocks := blocks[a.value := Overlay(blocks[a.value], off % BSIZE, src)];
      logged := logged + {a.value};
      ok := true;
    }

    /**
     itrunc: no block is freed twice, exactly the blocks of inode i become free, the inode is empty
     and written through, and no other file changes.
     */
    method Itrunc(i: nat) returns (ok: bool)
      requires Valid() && i < |inodes| && outstanding > 0
      modifies this`bits, this`inodes, this`dinodes, this`logged
      ensures ok && Valid() && Truncated(l, old(S()), S(), i)
      ensures dinodes == old(dinodes)[i := inodes[i]]
      ensures logged <= old(logged) + Range(l.bmapStart, BitmapCount(l)) + {InodeBlock(l, i)}
    {
      hide Owned, Truncated, AllLogged;
      ghost var s0 := S();
      FreeDirect(i);
      ghost var s1 := S();
      FreeIndirect(i);
      ghost var s2 := S();
      MemoryInodes(l, base, dbase, s2, dinodes, logged, SetSize(inodes, i, 0));
      inodes := SetSize(inodes, i, 0);
      TruncatedAll(l, s0, s1, s2, S(), i);
      Iupdate(i);
      ok := true;
    }

    /** The loop of itrunc over the direct addresses. */
    method FreeDirect(i: nat)
      requires Valid() && i < |inodes| && outstanding > 0
      modifies this`bits, this`inodes, this`logged
      ensures Valid() && DirectFreed(l, old(S()), S(), i, NDIRECT)
      ensures logged <= old(logged) + Range(l.bmapStart, BitmapCount(l))
    {
      hide Word, Ptr, Owned, DirectFreed, AllLogged;
      ghost var s0 := S();
      OwnedShape(l, s0);
      DirectFreedStart(l, s0, i);
      var k := 0;
      while k < NDIRECT
        invariant k <= NDIRECT && Valid() && i < |inodes| && Shape(l, S()) && DirectFreed(l, s0, S(), i, k)
        invariant logged <= old(logged) + Range(l.bmapStart, BitmapCount(l))
      {
        ghost var s := S();
        if inodes[i].addrs[k] != 0 {
          DetachKeeps(l, s, i, k);
          DirectFreedStep(l, s0, s, i, k);
          var ok := Bfree(inodes[i].addrs[k]);
          assert ok;
          MemoryInodes(l, base, dbase, S(), dinodes, logged, inodes[i := SetAddr(inodes[i], k, 0)]);
          inodes := inodes[i := SetAddr(inodes[i], k, 0)];
        } else {
          DirectFreedSkip(l, s0, s, i, k);
        }
        OwnedShape(l, S());
        k := k + 1;
      }
    }

    /** itrunc's walk over the indirect block, which is freed without being cleared. */
    method FreeIndirect(i: nat)
      requires Valid() && i < |inodes| && outstanding > 0
      modifies this`bits, this`inodes, this`logged
      ensures Valid() && IndexFreed(l, old(S()), S(), i)
      ensures logged <= old(logged) + Range(l.bmapStart, BitmapCount(l))
    {
      hide Word, Ptr, Owned, IndexFreed, AllLogged;
      ghost var s0 := S();
      OwnedShape(l, s0);
      var x := inodes[i].addrs[NDIRECT];
      if x == 0 {
        NoIndex(l, s0, i);
        assert inodes[i].addrs[NDIRECT := 0] == inodes[i].addrs;
        assert inodes[i := SetAddr(inodes[i], NDIRECT, 0)] == inodes;
      } else {
        IndexThere(l, s0, i);
        var j := 0;
        while j < NINDIRECT
          invariant j <= NINDIRECT && blocks == s0.blocks && inodes == s0.inodes && EntriesFreed(l, s0, bits, i, j) && WriteAhead()
          invariant logged <= old(logged) + Range(l.bmapStart, BitmapCount(l))
        {
          EntryStep(l, s0, bits, i, j);
          if Word(blocks[x], j) != 0 {
            var ok := Bfree(Word(blocks[x], j));
            assert ok;
          }
          j := j + 1;
        }
        IndexStep(l, s0, bits, i);
        var ok := Bfree(x);
        assert ok;
        MemoryInodes(l, base, dbase, S(), dinodes, logged, inodes[i := SetAddr(inodes[i], NDIRECT, 0)]);
        inodes := inodes[i := SetAddr(inodes[i], NDIRECT, 0)];
      }
      IndexFreedKeeps(l, s0, S(), i);
    }
  }
}
