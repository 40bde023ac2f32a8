/**
 The directory and path operations of fs.c and sysfile.c over the file layer: scanning loops that
 read one entry at a time, the writes of dirlink and unlink, and the walk of namex.
 */
module DirectoryCode {
  import opened Fs
  import opened FsEffects
  import FsCode
  import opened Directory

  const T_DIR: int := 1
  const ROOTINO: nat := 1

  /** A panic, or a result. */
  datatype Result<+T> = Panic | Done(value: T)

  /** All files read the same; at most block addresses have been added. */
  ghost predicate SameFiles(l: Layout, s: State, t: State) {
    && Shape(l, s) && Owned(l, t) && |t.inodes| == |s.inodes|
    && forall j | 0 <= j < |s.inodes| ::
         t.inodes[j] == s.inodes[j].(addrs := t.inodes[j].addrs) && Content(t, j) == Content(s, j)
  }

  lemma SameFilesThen(l: Layout, s: State, t: State, u: State)
    requires SameFiles(l, s, t) && SameFiles(l, t, u)
    ensures SameFiles(l, s, u)
  {
    hide Owned, Content;
  }

  lemma SameFilesSelf(l: Layout, s: State)
    requires Owned(l, s)
    ensures SameFiles(l, s, s)
  {
    hide Content;
  }

  lemma ReadSameFiles(l: Layout, s: State, t: State, i: nat)
    requires Owned(l, s) && Owned(l, t) && i < |s.inodes| && SameButAddrs(s.inodes, t.inodes, i) && Written(l, s, t, i, 0, [])
    ensures SameFiles(l, s, t)
  {
    forall j | 0 <= j < |s.inodes|
      ensures t.inodes[j] == s.inodes[j].(addrs := t.inodes[j].addrs) && Content(t, j) == Content(s, j)
    {
      ContentKept(l, s, t, i, 0, [], j);
    }
  }

  /** The entries of directory dp. */
  ghost function Dir(s: State, dp: nat): seq<Dirent>
    requires dp < |s.inodes| && InodeOk(s.inodes[dp])
  {
    Entries(Content(s, dp))
  }

  predicate Full(bits: seq<bool>) {
    forall b | 0 <= b < |bits| :: bits[b]
  }

  /** readi of one whole entry. */
  method ReadEntry(fs: FsCode.FileSystem, dp: nat, k: nat) returns (r: Result<Dirent>, name: seq<byte>)
    requires fs.Valid() && fs.outstanding > 0 && dp < |fs.inodes| && fs.inodes[dp].kind == T_DIR && DIRENT * k < fs.inodes[dp].size
    modifies fs`bits, fs`blocks, fs`inodes, fs`logged
    ensures r.Done? ==> SameFiles(fs.l, old(fs.S()), fs.S()) && fs.Valid()
    ensures r.Done? ==> k < |old(Dir(fs.S(), dp))| && r.value == old(Dir(fs.S(), dp))[k] && Key(name) == r.value.name
    ensures r.Done? ==> var c := old(Content(fs.S(), dp));
              && 16 * k + 16 <= |c| && r.value.inum == c[16 * k] as int + 0x100 * c[16 * k + 1] as int
              && name == c[16 * k + 2..16 * k + 16]
    ensures r.Panic? ==> old(fs.inodes[dp].size) % DIRENT != 0 || Full(fs.bits)
  {
    hide Owned, Content, Entries, ByteAt, NoHoles, SameFiles;
    ghost var s0 := fs.S();
    OwnedShape(fs.l, s0);
    var o, bytes := fs.Readi(dp, DIRENT * k, DIRENT);
    name := [];
    if o.Panic? || o.Driver? || o.ret != DIRENT {
      return Panic, [];
    }
    OwnedShape(fs.l, fs.S());
    ReadSameFiles(fs.l, s0, fs.S(), dp);
    ReadsEntry(Content(s0, dp), k, bytes);
    name := bytes[2..];
    r := Done(Decode(bytes));
  }

  lemma ReadsEntry(c: seq<byte>, k: nat, bytes: seq<byte>)
    requires DIRENT * (k + 1) <= |c| && bytes == c[DIRENT * k..DIRENT * (k + 1)]
    ensures |bytes| == DIRENT && k < |Entries(c)|
    ensures Entries(c)[k] == Decode(bytes)
  {
  }

  /** What dirlookup may do and answer: the first live entry with the name, or that there is none. */
  ghost predicate LookedUp(es: seq<Dirent>, name: seq<byte>, r: Option<(nat, nat)>) {
    && (r.Some? ==> r.value.1 % DIRENT == 0 && FirstHolds(es, r.value.1 / DIRENT, Key(name))
                    && r.value.0 == es[r.value.1 / DIRENT].inum
                    && Key(name) in MapOf(es) && r.value.0 == MapOf(es)[Key(name)])
    && (r.None? ==> Key(name) !in MapOf(es))
  }

  /** dirlookup: the inode number and byte offset of the name's entry. */
  method Dirlookup(fs: FsCode.FileSystem, dp: nat, name: seq<byte>) returns (r: Result<Option<(nat, nat)>>)
    requires fs.Valid() && fs.outstanding > 0 && dp < |fs.inodes|
    modifies fs`bits, fs`blocks, fs`inodes, fs`logged
    ensures r.Done? ==> fs.Valid() && SameFiles(fs.l, old(fs.S()), fs.S()) && old(fs.inodes[dp].kind) == T_DIR
    ensures r.Done? ==> LookedUp(old(Dir(fs.S(), dp)), name, r.value)
    ensures r.Done? && r.value.None? ==> old(fs.inodes[dp].size) % DIRENT == 0
    ensures r.Panic? ==> old(fs.inodes[dp].kind) != T_DIR || old(fs.inodes[dp].size) % DIRENT != 0 || Full(fs.bits)
  {
    hide Owned, Content, Entries, ByteAt, SameFiles, MapOf, Dir, Full, Shape, Differ;
    ghost var s0 := fs.S();
    OwnedShape(fs.l, s0);
    SameFilesSelf(fs.l, s0);
    if fs.inodes[dp].kind != T_DIR {
      return Panic;
    }
    ghost var es := Dir(s0, dp);
    var k := 0;
    while DIRENT * k < fs.inodes[dp].size
      invariant fs.Valid() && SameFiles(fs.l, s0, fs.S()) && dp < |fs.inodes|
      invariant fs.inodes[dp].kind == T_DIR && fs.inodes[dp].size == s0.inodes[dp].size
      invariant k <= |es| && forall j | 0 <= j < k :: !Holds(es, j, Key(name))
      decreases s0.inodes[dp].size - DIRENT * k
    {
      ghost var s1 := fs.S();
      SameDir(fs.l, s0, s1, dp);
      var e, field := ReadEntry(fs, dp, k);
      if e.Panic? {
        return Panic;
      }
      SameFilesThen(fs.l, s0, s1, fs.S());
      SameDir(fs.l, s0, fs.S(), dp);
      SameKeyIff(name, field, 0);
      if e.value.inum != 0 && Differ(name, field, 0) == 0 {
        assert Holds(es, k, Key(name));
        MapOfFirst(es, k, Key(name));
        assert DIRENT * k / DIRENT == k;
        return Done(Some((e.value.inum, DIRENT * k)));
      }
      assert !Holds(es, k, Key(name));
      k := k + 1;
    }
    AllScanned(s0, dp, k);
    MapOfNone(es, Key(name));
    r := Done(None);
  }

  lemma SameDir(l: Layout, s: State, t: State, dp: nat)
    requires SameFiles(l, s, t) && dp < |s.inodes|
    ensures dp < |t.inodes| && InodeOk(t.inodes[dp]) && InodeOk(s.inodes[dp])
    ensures Dir(t, dp) == Dir(s, dp) && t.inodes[dp].size == s.inodes[dp].size == |Content(s, dp)|
    ensures t.inodes[dp].kind == s.inodes[dp].kind && Content(t, dp) == Content(s, dp)
  {
  }

  lemma AllScanned(s: State, dp: nat, k: nat)
    requires dp < |s.inodes| && InodeOk(s.inodes[dp]) && DIRENT * k >= s.inodes[dp].size && k <= |Dir(s, dp)|
    ensures k == |Dir(s, dp)| && s.inodes[dp].size % DIRENT == 0
  {
  }

  /** The entry before dirlink's write: the first free slot, or the end. */
  predicate FirstFree(es: seq<Dirent>, k: nat) {
    k <= |es| && (forall j | 0 <= j < k :: es[j].inum != 0) && (k < |es| ==> es[k].inum == 0)
  }

  /** dirlink's second scan. */
  method FindFree(fs: FsCode.FileSystem, dp: nat) returns (r: Result<nat>)
    requires fs.Valid() && fs.outstanding > 0 && dp < |fs.inodes| && fs.inodes[dp].kind == T_DIR
    modifies fs`bits, fs`blocks, fs`inodes, fs`logged
    ensures r.Done? ==> fs.Valid() && SameFiles(fs.l, old(fs.S()), fs.S()) && FirstFree(old(Dir(fs.S(), dp)), r.value)
    ensures r.Done? ==> var es := old(Dir(fs.S(), dp));
              r.value <= |es| && (forall j | 0 <= j < r.value :: es[j].inum != 0) && (r.value < |es| ==> es[r.value].inum == 0)
    ensures r.Panic? ==> old(fs.inodes[dp].size) % DIRENT != 0 || Full(fs.bits)
  {
    hide Owned, Content, Entries, ByteAt, SameFiles, Dir, Full, Shape;
    ghost var s0 := fs.S();
    OwnedShape(fs.l, s0);
    SameFilesSelf(fs.l, s0);
    ghost var es := Dir(s0, dp);
    var k := 0;
    while DIRENT * k < fs.inodes[dp].size
      invariant fs.Valid() && SameFiles(fs.l, s0, fs.S()) && dp < |fs.inodes|
      invariant fs.inodes[dp].kind == T_DIR && fs.inodes[dp].size == s0.inodes[dp].size
      invariant k <= |es| && forall j | 0 <= j < k :: es[j].inum != 0
      decreases s0.inodes[dp].size - DIRENT * k
    {
      ghost var s1 := fs.S();
      SameDir(fs.l, s0, s1, dp);
      var e, _ := ReadEntry(fs, dp, k);
      if e.Panic? {
        return Panic;
      }
      SameFilesThen(fs.l, s0, s1, fs.S());
      SameDir(fs.l, s0, fs.S(), dp);
      if e.value.inum == 0 {
        return Done(k);
      }
      k := k + 1;
    }
    AllScanned(s0, dp, k);
    r := Done(k);
  }

  /** Directory dp has new entries; every other file is as it was. */
  ghost predicate Entered(l: Layout, s: State, t: State, dp: nat, es: seq<Dirent>) {
    && Shape(l, s) && Owned(l, t) && |t.inodes| == |s.inodes| && dp < |s.inodes|
    && Dir(t, dp) == es && t.inodes[dp].kind == s.inodes[dp].kind
    && (s.inodes[dp].size % DIRENT == 0 ==> t.inodes[dp].size % DIRENT == 0)
    && forall j | 0 <= j < |s.inodes| && j != dp ::
         t.inodes[j] == s.inodes[j].(addrs := t.inodes[j].addrs) && Content(t, j) == Content(s, j)
  }

  /** writei of one entry at slot k. */
  method WriteEntry(fs: FsCode.FileSystem, dp: nat, k: nat, b: seq<byte>) returns (ok: bool)
    requires fs.Valid() && fs.outstanding > 0 && dp < |fs.inodes| && fs.inodes[dp].kind == T_DIR && |b| == DIRENT
    requires k < |Dir(fs.S(), dp)| || (k == |Dir(fs.S(), dp)| && fs.inodes[dp].size % DIRENT == 0)
    modifies fs`bits, fs`blocks, fs`inodes, fs`dinodes, fs`logged
    ensures ok ==> fs.Valid()
    ensures ok ==> Entered(fs.l, old(fs.S()), fs.S(), dp,
                           if k < |old(Dir(fs.S(), dp))| then old(Dir(fs.S(), dp))[k := EntryAt(b, 0)]
                           else old(Dir(fs.S(), dp)) + [EntryAt(b, 0)])
    ensures !ok ==> Full(fs.bits) || DIRENT * k + DIRENT > MAXBYTES
  {
    hide Owned, Entries, ByteAt, Mapped, Touched, FsCode.AllLogged, EntryAt, Splice, Content;
    ghost var s0 := fs.S();
    OwnedShape(fs.l, s0);
    EntriesSplice(Content(s0, dp), k, b);
    var o := fs.Writei(dp, b, DIRENT * k);
    if !o.Done? || o.ret != DIRENT {
      return false;
    }
    OwnedShape(fs.l, fs.S());
    if s0.inodes[dp].size % DIRENT == 0 {
      SpliceLength(Content(s0, dp), DIRENT * k, b);
    }
    ok := true;
  }

  lemma SpliceLength(c: seq<byte>, off: nat, b: seq<byte>)
    requires off <= |c| && |c| % DIRENT == 0 && off % DIRENT == 0 && |b| == DIRENT
    ensures |Splice(c, off, b)| % DIRENT == 0
  {
    assert |Splice(c, off, b)| == if off + |b| < |c| then |c| else off + |b|;
  }

  /**
   dirlink: refused with nothing changed when the name is there; else the directory gains exactly
   that one binding, with the inode number cut to 16 bits, and names stay unique.
   */
  method Dirlink(fs: FsCode.FileSystem, dp: nat, name: seq<byte>, inum: nat) returns (r: Result<bool>)
    requires fs.Valid() && fs.outstanding > 0 && dp < |fs.inodes|
    modifies fs`bits, fs`blocks, fs`inodes, fs`dinodes, fs`logged
    ensures r.Done? ==> fs.Valid() && (r.value <==> Key(name) !in MapOf(old(Dir(fs.S(), dp))))
    ensures r.Done? && !r.value ==> SameFiles(fs.l, old(fs.S()), fs.S())
    ensures r.Done? && r.value ==> exists k | FirstFree(old(Dir(fs.S(), dp)), k) ::
              Entered(fs.l, old(fs.S()), fs.S(), dp, Linked(old(Dir(fs.S(), dp)), k, Dirent(inum % 0x1_0000, Key(name))))
    ensures r.Done? && r.value && Unique(old(Dir(fs.S(), dp))) ==>
              dp < |fs.inodes| && InodeOk(fs.inodes[dp]) && Unique(Dir(fs.S(), dp))
              && MapOf(Dir(fs.S(), dp)) == if inum % 0x1_0000 == 0 then MapOf(old(Dir(fs.S(), dp)))
                                           else MapOf(old(Dir(fs.S(), dp)))[Key(name) := inum % 0x1_0000]
    ensures r.Panic? ==> old(fs.inodes[dp].kind) != T_DIR || old(fs.inodes[dp].size) % DIRENT != 0 || Full(fs.bits)
                         || old(fs.inodes[dp].size) + DIRENT > MAXBYTES
  {
    hide Owned, Content, Entries, ByteAt, SameFiles, MapOf, Entered, Unique, Encode;
    ghost var s0 := fs.S();
    OwnedShape(fs.l, s0);
    var found := Dirlookup(fs, dp, name);
    if found.Panic? {
      return Panic;
    }
    if found.value.Some? {
      return Done(false);
    }
    ghost var s1 := fs.S();
    SameDir(fs.l, s0, s1, dp);
    var slot := FindFree(fs, dp);
    if slot.Panic? {
      return Panic;
    }
    ghost var s2 := fs.S();
    SameFilesThen(fs.l, s0, s1, s2);
    SameDir(fs.l, s0, s2, dp);
    var low := inum % 0x1_0000;
    EncodeDecodes(low, name);
    var ok := WriteEntry(fs, dp, slot.value, Encode(low, name));
    if !ok {
      DirLength(s0, dp);
      return Panic;
    }
    EnteredFrom(fs.l, s0, s2, fs.S(), dp, Linked(Dir(s0, dp), slot.value, Dirent(low, Key(name))));
    if Unique(Dir(s0, dp)) {
      if low == 0 {
        LinkNothing(Dir(s0, dp), slot.value, Dirent(low, Key(name)));
      } else {
        LinkAdds(Dir(s0, dp), slot.value, Dirent(low, Key(name)));
      }
    }
    r := Done(true);
  }

  ghost function Linked(es: seq<Dirent>, k: nat, e: Dirent): seq<Dirent>
    requires k <= |es|
  {
    if k < |es| then es[k := e] else es + [e]
  }

  lemma DirLength(s: State, dp: nat)
    requires dp < |s.inodes| && InodeOk(s.inodes[dp])
    ensures DIRENT * |Dir(s, dp)| <= s.inodes[dp].size
  {
  }

  lemma EnteredFrom(l: Layout, s: State, t: State, u: State, dp: nat, es: seq<Dirent>)
    requires SameFiles(l, s, t) && Entered(l, t, u, dp, es)
    ensures Entered(l, s, u, dp, es) && dp < |u.inodes| && InodeOk(u.inodes[dp]) && Dir(u, dp) == es
  {
    hide Owned, Content, Entries;
    OwnedShape(l, u);
  }

  // ----- unlink

  /** isdirempty: no live entry from the third on. */
  method Isdirempty(fs: FsCode.FileSystem, dp: nat) returns (r: Result<bool>)
    requires fs.Valid() && fs.outstanding > 0 && dp < |fs.inodes| && fs.inodes[dp].kind == T_DIR
    modifies fs`bits, fs`blocks, fs`inodes, fs`logged
    ensures r.Done? ==> fs.Valid() && SameFiles(fs.l, old(fs.S()), fs.S())
    ensures r.Done? ==> (r.value <==> forall k | 2 <= k < |old(Dir(fs.S(), dp))| :: old(Dir(fs.S(), dp))[k].inum == 0)
    ensures r.Panic? ==> old(fs.inodes[dp].size) % DIRENT != 0 || Full(fs.bits)
  {
    hide Owned, Content, Entries, ByteAt, SameFiles, Dir, Full, Shape;
    ghost var s0 := fs.S();
    OwnedShape(fs.l, s0);
    SameFilesSelf(fs.l, s0);
    DirSize(s0, dp);
    ghost var es := Dir(s0, dp);
    var k := 2;
    while DIRENT * k < fs.inodes[dp].size
      invariant fs.Valid() && SameFiles(fs.l, s0, fs.S()) && dp < |fs.inodes|
      invariant fs.inodes[dp].kind == T_DIR && fs.inodes[dp].size == s0.inodes[dp].size
      invariant 2 <= k && (k == 2 || k <= |es|) && forall j | 2 <= j < k && j < |es| :: es[j].inum == 0
      decreases s0.inodes[dp].size - DIRENT * k
    {
      ghost var s1 := fs.S();
      SameDir(fs.l, s0, s1, dp);
      var e, _ := ReadEntry(fs, dp, k);
      if e.Panic? {
        return Panic;
      }
      SameFilesThen(fs.l, s0, s1, fs.S());
      SameDir(fs.l, s0, fs.S(), dp);
      if e.value.inum != 0 {
        return Done(false);
      }
      k := k + 1;
    }
    r := Done(true);
  }

  lemma DirSize(s: State, dp: nat)
    requires dp < |s.inodes| && InodeOk(s.inodes[dp])
    ensures forall k: nat | DIRENT * k >= s.inodes[dp].size :: k >= |Dir(s, dp)|
  {
  }

  /** The path checks and the write of sys_unlink on directory dp: refused for "." and "..", an absent name, or a directory in use. */
  method UnlinkEntry(fs: FsCode.FileSystem, dp: nat, name: seq<byte>) returns (r: Result<Option<nat>>)
    requires fs.Valid() && fs.outstanding > 0 && dp < |fs.inodes|
    requires Key(name) in MapOf(Dir(fs.S(), dp)) ==> MapOf(Dir(fs.S(), dp))[Key(name)] < |fs.inodes|
    modifies fs`bits, fs`blocks, fs`inodes, fs`dinodes, fs`logged
    ensures r.Done? ==> fs.Valid() && Unlinked(fs.l, old(fs.S()), fs.S(), dp, name, r.value)
    ensures Key(name) == [46] || Key(name) == [46, 46] ==> r == Done(None)
    ensures r.Done? && r.value.Some? ==>
              && r.value.value < old(|fs.inodes|)
              && (old(fs.inodes)[r.value.value].kind == 1 ==>
                    forall k | 2 <= k < |old(Dir(fs.S(), r.value.value))| :: old(Dir(fs.S(), r.value.value))[k].inum == 0)
    ensures r.Panic? ==> old(fs.inodes[dp].kind) != T_DIR || Ragged(old(fs.S())) || Full(fs.bits)
  {
    hide Owned, Content, Entries, ByteAt, SameFiles, MapOf, Entered, Unique, Dir, Full, Shape, EntryAt;
    ghost var s0 := fs.S();
    OwnedShape(fs.l, s0);
    SameFilesSelf(fs.l, s0);
    SameKeyIff(name, [46], 0);
    SameKeyIff(name, [46, 46], 0);
    DotKeys();
    if Differ(name, [46], 0) == 0 || Differ(name, [46, 46], 0) == 0 {
      return Done(None);
    }
    var found := Dirlookup(fs, dp, name);
    if found.Panic? {
      return Panic;
    }
    if found.value.None? {
      return Done(None);
    }
    ghost var s1 := fs.S();
    SameDir(fs.l, s0, s1, dp);
    var (ip, off) := found.value.value;
    SameDir(fs.l, s0, s1, ip);
    if fs.inodes[ip].kind == T_DIR {
      var empty := Isdirempty(fs, ip);
      if empty.Panic? {
        return Panic;
      }
      SameFilesThen(fs.l, s0, s1, fs.S());
      SameDir(fs.l, s0, fs.S(), dp);
      if !empty.value {
        return Done(None);
      }
    }
    ghost var s2 := fs.S();
    ZeroEntry();
    DirLength(s0, dp);
    var ok := WriteEntry(fs, dp, off / DIRENT, Zeros(DIRENT));
    if !ok {
      return Panic;
    }
    EnteredFrom(fs.l, s0, s2, fs.S(), dp, Dir(s0, dp)[off / DIRENT := EntryAt(Zeros(DIRENT), 0)]);
    if Unique(Dir(s0, dp)) {
      UnlinkRemoves(Dir(s0, dp), off / DIRENT, Key(name));
    }
    assert FirstHolds(Dir(s0, dp), off / DIRENT, Key(name));
    r := Done(Some(ip));
  }

  /** Some directory's size is not a whole number of entries. */
  ghost predicate Ragged(s: State) {
    exists i | 0 <= i < |s.inodes| :: s.inodes[i].kind == T_DIR && s.inodes[i].size % DIRENT != 0
  }

  /** The outcome of unlink's directory work: refused with nothing changed, or exactly one binding gone. */
  ghost predicate Unlinked(l: Layout, s: State, t: State, dp: nat, name: seq<byte>, r: Option<nat>) {
    && Shape(l, s) && dp < |s.inodes|
    && (r.None? ==> SameFiles(l, s, t)
                    && (Dots(name) || Key(name) !in MapOf(Dir(s, dp)) || InUse(s, MapOf(Dir(s, dp))[Key(name)])))
    && (r.Some? ==> !Dots(name) && Key(name) in MapOf(Dir(s, dp)) && r.value == MapOf(Dir(s, dp))[Key(name)]
                    && !InUse(s, r.value) && dp < |t.inodes| && InodeOk(t.inodes[dp])
                    && Entered(l, s, t, dp, Dir(t, dp)) && Emptied(Dir(s, dp), Dir(t, dp), Key(name))
                    && (Unique(Dir(s, dp)) ==> Unique(Dir(t, dp)) && MapOf(Dir(t, dp)) == MapOf(Dir(s, dp)) - {Key(name)}))
  }

  /** The first entry with the name is free, and no other entry has changed. */
  ghost predicate Emptied(es: seq<Dirent>, fs: seq<Dirent>, name: Name) {
    exists k: nat | k < |es| && FirstHolds(es, k, name) :: fs == es[k := EntryAt(Zeros(DIRENT), 0)]
  }

  ghost predicate Dots(name: seq<byte>) {
    Key(name) == Key([46]) || Key(name) == Key([46, 46])
  }

  /** ip is a directory with a live entry besides its first two. */
  ghost predicate InUse(s: State, ip: nat) {
    ip < |s.inodes| && InodeOk(s.inodes[ip]) && s.inodes[ip].kind == T_DIR
    && exists k | 2 <= k < |Dir(s, ip)| :: Dir(s, ip)[k].inum != 0
  }

  lemma DotKeys()
    ensures Key([46]) == [46] && Key([46, 46]) == [46, 46]
  {
    KeyIs([46]);
    KeyIs([46, 46]);
  }

  lemma ZeroEntry()
    ensures EntryAt(Zeros(DIRENT), 0).inum == 0
  {
    assert Zeros(DIRENT)[0..DIRENT] == Zeros(DIRENT);
  }

  // ----- Paths

  /** The binding of a name in inode ip, if ip is a directory that has it. */
  ghost function Lookup(s: State, ip: nat, name: Name): Option<nat>
    requires ip < |s.inodes| && InodeOk(s.inodes[ip])
  {
    if s.inodes[ip].kind == T_DIR && name in MapOf(Dir(s, ip)) then Some(MapOf(Dir(s, ip))[name]) else None
  }

  /** Folding lookup over path components. */
  ghost function Walk(l: Layout, s: State, ip: nat, elems: seq<seq<byte>>): Option<nat>
    requires Shape(l, s) && ip < |s.inodes|
    decreases elems
  {
    if elems == [] then Some(ip)
    else
      var next := Lookup(s, ip, Key(elems[0]));
      if next.None? || next.value >= |s.inodes| then None else Walk(l, s, next.value, elems[1..])
  }

  /** The directory that holds, or would hold, the last component, and that component. */
  ghost function WalkParent(l: Layout, s: State, ip: nat, elems: seq<seq<byte>>): Option<(nat, Name)>
    requires Shape(l, s) && ip < |s.inodes|
    decreases elems
  {
    if elems == [] || s.inodes[ip].kind != T_DIR then None
    else if |elems| == 1 then Some((ip, Key(elems[0])))
    else
      var next := Lookup(s, ip, Key(elems[0]));
      if next.None? || next.value >= |s.inodes| then None else WalkParent(l, s, next.value, elems[1..])
  }

  /** The parent walk is the walk of all but the last component, when that ends in a directory. */
  lemma {:induction false} WalkParentIs(l: Layout, s: State, ip: nat, elems: seq<seq<byte>>)
    requires Shape(l, s) && ip < |s.inodes| && elems != []
    ensures var n := |elems| - 1;
            var d := Walk(l, s, ip, elems[..n]);
            WalkParent(l, s, ip, elems)
            == if d.Some? && d.value < |s.inodes| && s.inodes[d.value].kind == T_DIR then Some((d.value, Key(elems[n]))) else None
    decreases elems
  {
    hide MapOf, Dir;
    var n := |elems| - 1;
    if n > 0 {
      assert elems[..n][1..] == elems[1..][..n - 1] && elems[..n][0] == elems[0];
      var next := Lookup(s, ip, Key(elems[0]));
      if next.Some? && next.value < |s.inodes| {
        WalkParentIs(l, s, next.value, elems[1..]);
      }
    } else {
      assert elems[..n] == [];
    }
  }

  lemma {:induction false} WalkThen(l: Layout, s: State, ip: nat, a: seq<seq<byte>>, b: seq<seq<byte>>)
    requires Shape(l, s) && ip < |s.inodes|
    ensures Walk(l, s, ip, a).Some? ==> Walk(l, s, ip, a).value < |s.inodes|
    ensures Walk(l, s, ip, a + b)
         == if Walk(l, s, ip, a).None? then None else Walk(l, s, Walk(l, s, ip, a).value, b)
    decreases a
  {
    hide MapOf, Dir;
    if a == [] {
      assert a + b == b;
    } else {
      assert (a + b)[0] == a[0] && (a + b)[1..] == a[1..] + b;
      var next := Lookup(s, ip, Key(a[0]));
      if next.Some? && next.value < |s.inodes| {
        WalkThen(l, s, next.value, a[1..], b);
      }
    }
  }

  /** Looking up a/b is looking up a, and b from there. */
  lemma PathThen(l: Layout, s: State, ip: nat, a: seq<byte>, b: seq<byte>)
    requires Shape(l, s) && ip < |s.inodes|
    ensures var mid := Walk(l, s, ip, Components(a));
            mid.Some? ==> mid.value < |s.inodes|
                          && Walk(l, s, ip, Components(a + [47] + b)) == Walk(l, s, mid.value, Components(b))
    ensures Walk(l, s, ip, Components(a)).None? ==> Walk(l, s, ip, Components(a + [47] + b)).None?
  {
    ComponentsCat(a, b);
    WalkThen(l, s, ip, Components(a), Components(b));
  }

  lemma WalkOneIs(l: Layout, s: State, ip: nat, name: seq<byte>)
    requires Shape(l, s) && ip < |s.inodes| && name != [] && forall i | 0 <= i < |name| :: name[i] != 47
    ensures Walk(l, s, ip, Components(name))
         == var next := Lookup(s, ip, Key(name)); if next.Some? && next.value < |s.inodes| then next else None
  {
    ComponentAlone(name);
    hide Dir, MapOf, Components, Lookup;
    var elems := [name];
    assert elems[1..] == [];
  }

  /** Looking up one name in a directory (kind 1) is looking for the first entry in use that holds it. */
  lemma WalkOne(l: Layout, s: State, ip: nat, name: seq<byte>, k: nat)
    requires Shape(l, s) && ip < |s.inodes| && name != [] && forall i | 0 <= i < |name| :: name[i] != 47
    requires s.inodes[ip].kind == 1 && FirstHolds(Dir(s, ip), k, Key(name))
    ensures var n := Dir(s, ip)[k].inum; Walk(l, s, ip, Components(name)) == if n < |s.inodes| then Some(n) else None
  {
    WalkOneIs(l, s, ip, name);
    hide Dir, MapOf, Components, Walk, FirstHolds;
    MapOfFirst(Dir(s, ip), k, Key(name));
  }

  /** No entry with the name, or no directory: nothing is found. */
  lemma WalkNone(l: Layout, s: State, ip: nat, name: seq<byte>)
    requires Shape(l, s) && ip < |s.inodes| && name != [] && forall i | 0 <= i < |name| :: name[i] != 47
    requires s.inodes[ip].kind != 1 || forall k | 0 <= k < |Dir(s, ip)| :: !Holds(Dir(s, ip), k, Key(name))
    ensures Walk(l, s, ip, Components(name)).None?
  {
    WalkOneIs(l, s, ip, name);
    hide Dir, MapOf, Components, Walk;
    if s.inodes[ip].kind == 1 {
      MapOfNone(Dir(s, ip), Key(name));
    }
  }

  /** Directory entries name inodes of the table. */
  ghost predicate Sound(l: Layout, s: State) {
    Shape(l, s) && forall ip, name | 0 <= ip < |s.inodes| && Lookup(s, ip, name).Some? :: Lookup(s, ip, name).value < |s.inodes|
  }

  /**
   skipelem on the path from p on: the next component, cut to what a name can hold, and the place of
   the one after it; it fails exactly when no component is left.
   */
  method Skipelem(path: seq<byte>, p: nat) returns (name: Option<seq<byte>>, rest: nat)
    requires p <= |path|
    ensures rest <= |path|
    ensures name.None? ==> Components(path[p..]) == []
    ensures name.Some? ==>
              && Components(path[p..]) != [] && Key(name.value) == Key(Components(path[p..])[0])
              && Components(path[rest..]) == Components(path[p..])[1..] && rest > p
              && (rest == |path| <==> Components(path[rest..]) == [])
  {
    hide Components, SkipSlashes, UpToSlash, Key;
    FirstComponent(path[p..]);
    var s := SlashesFrom(path, p);
    if s == |path| {
      return None, s;
    }
    var e := ElementEnd(path, s);
    SuffixOf(path, s, e);
    name := Some(if e - s >= DIRSIZ then path[s..s + DIRSIZ] else path[s..e] + [0]);
    CutKey(path[s..e]);
    assert e - s >= DIRSIZ ==> path[s..e][..DIRSIZ] == path[s..s + DIRSIZ];
    rest := SlashesFrom(path, e);
    FirstComponent(path[rest..]);
    AgainSkipped(path[e..]);
  }

  method ElementEnd(path: seq<byte>, s: nat) returns (e: nat)
    requires s <= |path|
    ensures s <= e <= |path| && e - s == UpToSlash(path[s..])
  {
    e := s;
    while e < |path| && path[e] != SLASH
      invariant s <= e <= |path| && forall i | s <= i < e :: path[i] != SLASH
    {
      e := e + 1;
    }
    UpToSlashIs(path[s..], e - s);
  }

  lemma SuffixOf(path: seq<byte>, s: nat, e: nat)
    requires s <= e <= |path|
    ensures path[s..][..e - s] == path[s..e] && path[s..][e - s..] == path[e..]
  {
  }

  lemma AgainSkipped(q: seq<byte>)
    ensures SkipSlashes(SkipSlashes(q)) == SkipSlashes(q)
  {
    SkippedAlready(SkipSlashes(q));
  }

  lemma UpToSlashIs(q: seq<byte>, n: nat)
    requires n <= |q| && (forall i | 0 <= i < n :: q[i] != SLASH) && (n < |q| ==> q[n] == SLASH)
    ensures UpToSlash(q) == n
  {
  }

  lemma SkippedAlready(q: seq<byte>)
    requires q != [] ==> q[0] != SLASH
    ensures SkipSlashes(q) == q
  {
  }

  /** Cutting a component to DIRSIZ bytes, or ending it with NUL, keeps its meaning. */
  lemma CutKey(e: seq<byte>)
    ensures Key(if |e| >= DIRSIZ then e[..DIRSIZ] else e + [0]) == Key(e)
  {
    KeyFromSame(e, if |e| >= DIRSIZ then e[..DIRSIZ] else e + [0], 0);
  }

  lemma {:induction false} KeyFromSame(a: seq<byte>, b: seq<byte>, k: nat)
    requires k <= DIRSIZ && forall i | 0 <= i < DIRSIZ :: CharAt(a, i) == CharAt(b, i)
    ensures KeyFrom(a, k) == KeyFrom(b, k)
    decreases DIRSIZ - k
  {
    if k < DIRSIZ {
      assert CharAt(a, k) == CharAt(b, k);
      KeyFromSame(a, b, k + 1);
    }
  }

  method SlashesFrom(path: seq<byte>, p: nat) returns (s: nat)
    requires p <= |path|
    ensures p <= s <= |path| && path[s..] == SkipSlashes(path[p..])
  {
    s := p;
    while s < |path| && path[s] == SLASH
      invariant p <= s <= |path| && SkipSlashes(path[s..]) == SkipSlashes(path[p..])
    {
      assert path[s..][1..] == path[s + 1..];
      s := s + 1;
    }
    SkippedAlready(path[s..]);
  }

  /**
   namex: the fold of lookup over the path's components, from inode 1 for a path that begins with
   '/', and from the current directory for any other.
   */
  method Namex(fs: FsCode.FileSystem, path: seq<byte>, cwd: nat, parent: bool) returns (r: Result<Option<(nat, Name)>>)
    requires fs.Valid() && fs.outstanding > 0 && cwd < |fs.inodes| && ROOTINO < |fs.inodes| && Sound(fs.l, fs.S())
    modifies fs`bits, fs`blocks, fs`inodes, fs`logged
    ensures r.Done? ==> fs.Valid() && SameFiles(fs.l, old(fs.S()), fs.S())
    ensures r.Done? && path != [] && path[0] == 47 ==> Walked(fs.l, old(fs.S()), 1, Components(path), parent, r.value)
    ensures r.Done? && (path == [] || path[0] != 47) ==>
              Walked(fs.l, old(fs.S()), cwd, Components(path), parent, r.value)
    ensures r.Panic? ==> Ragged(old(fs.S())) || Full(fs.bits)
  {
    hide Owned, Content, Entries, ByteAt, SameFiles, MapOf, Dir, Full, Shape, Components, Sound;
    ghost var s0 := fs.S();
    OwnedShape(fs.l, s0);
    SameFilesSelf(fs.l, s0);
    var ip: nat := if path != [] && path[0] == SLASH then ROOTINO else cwd;
    ghost var start := ip;
    var p := 0;
    assert path[0..] == path;
    while true
      invariant p <= |path| && ip < |s0.inodes| && fs.Valid() && SameFiles(fs.l, s0, fs.S())
      invariant Walk(fs.l, s0, start, Components(path)) == Walk(fs.l, s0, ip, Components(path[p..]))
      invariant parent ==> WalkParent(fs.l, s0, start, Components(path)) == WalkParent(fs.l, s0, ip, Components(path[p..]))
      decreases |path| - p
    {
      ghost var s1 := fs.S();
      SameDir(fs.l, s0, s1, ip);
      var elem, rest := Skipelem(path, p);
      if elem.None? {
        return Done(if parent then None else Some((ip, [])));
      }
      if fs.inodes[ip].kind != T_DIR {
        return Done(None);
      }
      if parent && rest == |path| {
        return Done(Some((ip, Key(elem.value))));
      }
      var next := Dirlookup(fs, ip, elem.value);
      if next.Panic? {
        return Panic;
      }
      SameFilesThen(fs.l, s0, s1, fs.S());
      if next.value.None? {
        return Done(None);
      }
      SoundLookup(fs.l, s0, ip, Key(elem.value));
      ip := next.value.value.0;
      p := rest;
    }
  }

  /** The walk of the components from inode ip ended with r. */
  ghost predicate Walked(l: Layout, s: State, ip: nat, elems: seq<seq<byte>>, parent: bool, r: Option<(nat, Name)>)
    requires Shape(l, s) && ip < |s.inodes|
  {
    if parent then r == WalkParent(l, s, ip, elems)
    else
      var end := Walk(l, s, ip, elems);
      (r.Some? <==> end.Some?) && (r.Some? ==> r.value.0 == end.value)
  }

  lemma SoundLookup(l: Layout, s: State, ip: nat, name: Name)
    requires Sound(l, s) && ip < |s.inodes|
    ensures InodeOk(s.inodes[ip]) && (Lookup(s, ip, name).Some? ==> Lookup(s, ip, name).value < |s.inodes|)
  {
  }
}
