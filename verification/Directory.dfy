/**
 Directories and path names of fs.c: a directory's bytes as a sequence of entries, the finite map
 from names to inode numbers they stand for, and a path as its non-empty components.
 */
module Directory {
  import opened Fs
  import opened FsEffects

  const DIRSIZ: nat := 14
  const DIRENT: nat := 16
  const SLASH: byte := 47

  type Name = seq<byte>

  datatype Dirent = Dirent(inum: nat, name: Name)

  datatype Option<+T> = None | Some(value: T)

  // ----- Names

  /** What a name means: its bytes up to the first NUL, at most DIRSIZ of them. */
  function Key(n: seq<byte>): Name
    ensures |Key(n)| <= |n| && |Key(n)| <= DIRSIZ
  {
    KeyFrom(n, 0)
  }

  function KeyFrom(n: seq<byte>, k: nat): Name
    requires k <= DIRSIZ
    ensures |KeyFrom(n, k)| <= DIRSIZ - k
    ensures k <= |n| ==> |KeyFrom(n, k)| <= |n| - k
    ensures k >= |n| ==> KeyFrom(n, k) == []
    decreases DIRSIZ - k
  {
    if k == DIRSIZ || k >= |n| || n[k] == 0 then [] else [n[k]] + KeyFrom(n, k + 1)
  }

  /** The longest prefix of a name without a NUL, or its first 14 bytes if that is longer. */
  lemma {:induction false} KeyIs(n: seq<byte>)
    ensures Key(n) <= n && |Key(n)| <= 14 && (forall i | 0 <= i < |Key(n)| :: n[i] != 0)
    ensures |Key(n)| == 14 || |Key(n)| == |n| || n[|Key(n)|] == 0
  {
    KeyFromIs(n, 0);
  }

  lemma {:induction false} KeyFromIs(n: seq<byte>, k: nat)
    requires k <= DIRSIZ && k <= |n|
    ensures var m := |KeyFrom(n, k)|;
            && KeyFrom(n, k) == n[k..k + m] && (forall i | k <= i < k + m :: n[i] != 0)
            && (k + m == DIRSIZ || k + m == |n| || n[k + m] == 0)
    decreases DIRSIZ - k
  {
    if k < DIRSIZ && k < |n| && n[k] != 0 {
      KeyFromIs(n, k + 1);
    }
  }

  /** Character k of a C string, NUL at and past its end. */
  function CharAt(n: seq<byte>, k: nat): byte {
    if k < |n| then n[k] else 0
  }

  /** strncmp over DIRSIZ characters is zero exactly on names with the same meaning. */
  lemma {:induction false} SameKeyIff(a: seq<byte>, b: seq<byte>, k: nat)
    requires k <= DIRSIZ
    ensures KeyFrom(a, k) == KeyFrom(b, k) <==> Differ(a, b, k) == 0
    decreases DIRSIZ - k
  {
    if k < DIRSIZ {
      SameKeyIff(a, b, k + 1);
      if CharAt(a, k) == CharAt(b, k) != 0 {
        assert KeyFrom(a, k)[1..] == KeyFrom(a, k + 1) && KeyFrom(b, k)[1..] == KeyFrom(b, k + 1);
      } else if CharAt(a, k) != CharAt(b, k) {
        assert CharAt(a, k) != 0 ==> KeyFrom(a, k)[0] == a[k];
        assert CharAt(b, k) != 0 ==> KeyFrom(b, k)[0] == b[k];
      }
    }
  }

  /** strncmp from character k on. */
  function Differ(a: seq<byte>, b: seq<byte>, k: nat): int
    requires k <= DIRSIZ
    decreases DIRSIZ - k
  {
    if k == DIRSIZ then 0
    else if CharAt(a, k) != 0 && CharAt(a, k) == CharAt(b, k) then Differ(a, b, k + 1)
    else CharAt(a, k) - CharAt(b, k)
  }

  /** strncpy into a DIRSIZ-byte field. */
  function Field(n: seq<byte>): (f: seq<byte>)
    ensures |f| == DIRSIZ
  {
    Key(n) + Zeros(DIRSIZ - |Key(n)|)
  }

  lemma {:induction false} KeyPadded(n: seq<byte>, z: nat, k: nat)
    requires k <= DIRSIZ && k <= |n| <= DIRSIZ && forall i | 0 <= i < |n| :: n[i] != 0
    ensures KeyFrom(n + Zeros(z), k) == n[k..]
    decreases DIRSIZ - k
  {
    if k < |n| {
      KeyPadded(n, z, k + 1);
      assert n[k..] == [n[k]] + n[k + 1..];
    }
  }

  lemma {:induction false} KeyHasNoNul(n: seq<byte>, k: nat)
    requires k <= DIRSIZ
    ensures forall i | 0 <= i < |KeyFrom(n, k)| :: KeyFrom(n, k)[i] != 0
    decreases DIRSIZ - k
  {
    if k < DIRSIZ && k < |n| && n[k] != 0 {
      KeyHasNoNul(n, k + 1);
    }
  }

  lemma FieldKey(n: seq<byte>)
    ensures Key(Field(n)) == Key(n)
  {
    KeyHasNoNul(n, 0);
    KeyPadded(Key(n), DIRSIZ - |Key(n)|, 0);
  }

  // ----- Entries in a directory's bytes

  /** The entry in DIRENT bytes: a 16-bit inode number and a name. */
  function Decode(b: seq<byte>): Dirent
    requires |b| == DIRENT
  {
    Dirent(b[0] as int + 0x100 * b[1] as int, Key(b[2..]))
  }

  function EntryAt(c: seq<byte>, k: nat): Dirent
    requires DIRENT * (k + 1) <= |c|
  {
    Decode(c[DIRENT * k..DIRENT * (k + 1)])
  }

  function Entries(c: seq<byte>): (es: seq<Dirent>)
    ensures |es| == |c| / DIRENT
    ensures forall k | 0 <= k < |es| :: es[k] == EntryAt(c, k)
  {
    seq(|c| / DIRENT, k requires 0 <= k < |c| / DIRENT => EntryAt(c, k))
  }

  /** The bytes dirlink writes. */
  function Encode(inum: nat, name: seq<byte>): (r: seq<byte>)
    requires inum < 0x1_0000
    ensures |r| == DIRENT
  {
    [inum % 0x100, inum / 0x100] + Field(name)
  }

  lemma EncodeDecodes(inum: nat, name: seq<byte>)
    requires inum < 0x1_0000
    ensures var b := Encode(inum, name); b[0] as int + 0x100 * b[1] as int == inum && |b| == 16
    ensures forall i | 0 <= i < 14 :: Encode(inum, name)[2 + i] == if i < |Key(name)| then name[i] else 0
    ensures EntryAt(Encode(inum, name), 0) == Dirent(inum, Key(name))
  {
    FieldKey(name);
    KeyIs(name);
    var b := Encode(inum, name);
    assert b[2..] == Field(name) && b[0..DIRENT] == b;
  }

  lemma EntrySplice(c: seq<byte>, k: nat, b: seq<byte>, j: nat)
    requires DIRENT * k <= |c| && |b| == DIRENT && DIRENT * (j + 1) <= |Splice(c, DIRENT * k, b)|
    requires j != k ==> DIRENT * (j + 1) <= |c|
    ensures EntryAt(Splice(c, DIRENT * k, b), j) == if j == k then EntryAt(b, 0) else EntryAt(c, j)
  {
    hide Decode;
    var d := Splice(c, DIRENT * k, b);
    var lo, hi := DIRENT * j, DIRENT * (j + 1);
    if j == k {
      assert d[lo..hi] == b && b[0..DIRENT] == b;
    } else if j < k {
      assert hi <= DIRENT * k;
      assert d[lo..hi] == c[lo..hi];
    } else {
      assert lo >= DIRENT * k + DIRENT;
      assert d[lo..hi] == c[lo..hi];
    }
  }

  /** Writing one entry's bytes at a slot changes that entry and no other. */
  lemma EntriesSplice(c: seq<byte>, k: nat, b: seq<byte>)
    requires k < |c| / DIRENT || (k == |c| / DIRENT && |c| % DIRENT == 0)
    requires |b| == DIRENT
    ensures DIRENT * k <= |c|
    ensures Entries(Splice(c, DIRENT * k, b))
         == if k < |c| / DIRENT then Entries(c)[k := EntryAt(b, 0)] else Entries(c) + [EntryAt(b, 0)]
  {
    var d := Splice(c, DIRENT * k, b);
    assert |d| == if k < |c| / DIRENT then |c| else |c| + DIRENT;
    hide Splice, EntryAt;
    forall j | 0 <= j < |d| / DIRENT
      ensures EntryAt(d, j) == if j == k then EntryAt(b, 0) else EntryAt(c, j)
    {
      EntrySplice(c, k, b, j);
    }
  }

  // ----- Entries as a finite map

  /** Live entries have distinct names. */
  predicate Unique(es: seq<Dirent>) {
    forall j, k | 0 <= j < k < |es| && es[j].inum != 0 && es[k].inum != 0 :: es[j].name != es[k].name
  }

  /** The directory as a map; the first of several entries with a name would win. */
  function MapOf(es: seq<Dirent>): map<Name, nat> {
    if es == [] then map[]
    else
      var m := MapOf(es[..|es| - 1]);
      var e := es[|es| - 1];
      if e.inum == 0 || e.name in m then m else m[e.name := e.inum]
  }

  predicate Holds(es: seq<Dirent>, k: nat, name: Name) {
    k < |es| && es[k].inum != 0 && es[k].name == name
  }

  /** First entry for a name, as dirlookup scans. */
  predicate FirstHolds(es: seq<Dirent>, k: nat, name: Name) {
    Holds(es, k, name) && forall j | 0 <= j < k :: !Holds(es, j, name)
  }

  lemma {:induction false} MapOfFirst(es: seq<Dirent>, k: nat, name: Name)
    requires FirstHolds(es, k, name)
    ensures name in MapOf(es) && MapOf(es)[name] == es[k].inum
  {
    var n := |es| - 1;
    assert es[..n] + [es[n]] == es;
    if k < n {
      assert forall j | 0 <= j <= k :: Holds(es[..n], j, name) <==> Holds(es, j, name);
      MapOfFirst(es[..n], k, name);
    } else {
      assert forall j | 0 <= j < n :: !Holds(es[..n], j, name) by {
        assert forall j | 0 <= j < n :: Holds(es[..n], j, name) <==> Holds(es, j, name);
      }
      MapOfNone(es[..n], name);
    }
  }

  lemma {:induction false} MapOfNone(es: seq<Dirent>, name: Name)
    requires forall j | 0 <= j < |es| :: !Holds(es, j, name)
    ensures name !in MapOf(es)
  {
    if es != [] {
      var n := |es| - 1;
      assert forall j | 0 <= j < n :: Holds(es[..n], j, name) <==> Holds(es, j, name);
      assert !Holds(es, n, name);
      MapOfNone(es[..n], name);
    }
  }

  lemma {:induction false} MapOfHas(es: seq<Dirent>, name: Name)
    ensures name in MapOf(es) <==> exists k | 0 <= k < |es| :: Holds(es, k, name)
  {
    if exists k | 0 <= k < |es| :: Holds(es, k, name) {
      var k := FirstOf(es, name);
      MapOfFirst(es, k, name);
    } else {
      MapOfNone(es, name);
    }
  }

  lemma FirstOf(es: seq<Dirent>, name: Name) returns (k: nat)
    requires exists k | 0 <= k < |es| :: Holds(es, k, name)
    ensures k < |es| && FirstHolds(es, k, name)
  {
    k := 0;
    while !Holds(es, k, name)
      invariant k < |es| && (forall j | 0 <= j < k :: !Holds(es, j, name))
      invariant exists n | k <= n < |es| :: Holds(es, n, name)
      decreases |es| - k
    {
      k := k + 1;
    }
  }

  /** Two directories with the same live entries up to position are the same map. */
  lemma MapEqual(a: map<Name, nat>, es: seq<Dirent>)
    requires Unique(es)
    requires forall k | 0 <= k < |es| && es[k].inum != 0 :: es[k].name in a && a[es[k].name] == es[k].inum
    requires forall name | name in a :: exists k | 0 <= k < |es| :: Holds(es, k, name)
    ensures MapOf(es) == a
  {
    forall name
      ensures name in MapOf(es) <==> name in a
      ensures name in a ==> MapOf(es)[name] == a[name]
    {
      MapOfHas(es, name);
      if name in a {
        var k := FirstOf(es, name);
        MapOfFirst(es, k, name);
      }
    }
  }

  lemma UniqueValue(es: seq<Dirent>, k: nat)
    requires Unique(es) && k < |es| && es[k].inum != 0
    ensures es[k].name in MapOf(es) && MapOf(es)[es[k].name] == es[k].inum
  {
    assert Holds(es, k, es[k].name);
    assert forall j | 0 <= j < k :: !Holds(es, j, es[k].name);
    MapOfFirst(es, k, es[k].name);
  }

  /** dirlink: an absent name put into a free slot, or a new last one, is one more binding. */
  lemma LinkAdds(es: seq<Dirent>, k: nat, e: Dirent)
    requires Unique(es) && k <= |es| && (k < |es| ==> es[k].inum == 0) && e.inum != 0 && e.name !in MapOf(es)
    ensures var fs := if k < |es| then es[k := e] else es + [e];
            Unique(fs) && MapOf(fs) == MapOf(es)[e.name := e.inum]
  {
    var fs := if k < |es| then es[k := e] else es + [e];
    assert forall j | 0 <= j < |es| :: !Holds(es, j, e.name) by { MapOfHas(es, e.name); }
    forall j | 0 <= j < |fs| && j != k && fs[j].inum != 0
      ensures fs[j].name != e.name && fs[j].name in MapOf(es) && MapOf(es)[fs[j].name] == fs[j].inum
    {
      assert !Holds(es, j, e.name);
      UniqueValue(es, j);
    }
    var m := MapOf(es)[e.name := e.inum];
    forall name | name in m
      ensures exists j | 0 <= j < |fs| :: Holds(fs, j, name)
    {
      if name == e.name {
        assert Holds(fs, k, name);
      } else {
        MapOfHas(es, name);
        var j :| 0 <= j < |es| && Holds(es, j, name);
        assert Holds(fs, j, name);
      }
    }
    MapEqual(m, fs);
  }

  /** dirlink of an inode number whose low 16 bits are zero: the entry is free, and no binding changes. */
  lemma LinkNothing(es: seq<Dirent>, k: nat, e: Dirent)
    requires Unique(es) && k <= |es| && (k < |es| ==> es[k].inum == 0) && e.inum == 0
    ensures var fs := if k < |es| then es[k := e] else es + [e];
            Unique(fs) && MapOf(fs) == MapOf(es)
  {
    var fs := if k < |es| then es[k := e] else es + [e];
    hide MapOf;
    forall j | 0 <= j < |fs| && fs[j].inum != 0
      ensures fs[j].name in MapOf(es) && MapOf(es)[fs[j].name] == fs[j].inum
    {
      UniqueValue(es, j);
    }
    forall name | name in MapOf(es)
      ensures exists j | 0 <= j < |fs| :: Holds(fs, j, name)
    {
      MapOfHas(es, name);
      var j :| 0 <= j < |es| && Holds(es, j, name);
      assert Holds(fs, j, name);
    }
    MapEqual(MapOf(es), fs);
  }

  /** unlink: clearing the entry of a name removes that binding and no other. */
  lemma UnlinkRemoves(es: seq<Dirent>, k: nat, name: Name)
    requires Unique(es) && FirstHolds(es, k, name)
    ensures forall e: Dirent | e.inum == 0 :: Unique(es[k := e]) && MapOf(es[k := e]) == MapOf(es) - {name}
  {
    forall e: Dirent | e.inum == 0
      ensures Unique(es[k := e]) && MapOf(es[k := e]) == MapOf(es) - {name}
    {
      var fs := es[k := e];
      forall j | 0 <= j < |fs| && fs[j].inum != 0
        ensures fs[j].name in MapOf(es) - {name} && MapOf(es)[fs[j].name] == fs[j].inum
      {
        UniqueValue(es, j);
      }
      forall n | n in MapOf(es) - {name}
        ensures exists j | 0 <= j < |fs| :: Holds(fs, j, n)
      {
        MapOfHas(es, n);
        var j :| 0 <= j < |es| && Holds(es, j, n);
        assert Holds(fs, j, n);
      }
      MapEqual(MapOf(es) - {name}, fs);
    }
  }

  // ----- Paths

  function UpToSlash(path: seq<byte>): (n: nat)
    ensures n <= |path| && (forall i | 0 <= i < n :: path[i] != SLASH) && (n < |path| ==> path[n] == SLASH)
  {
    if path == [] || path[0] == SLASH then 0 else 1 + UpToSlash(path[1..])
  }

  /** The pieces of a path between slashes, empty ones included. */
  function Split(path: seq<byte>): seq<seq<byte>>
    decreases |path|
  {
    var n := UpToSlash(path);
    if n == |path| then [path] else [path[..n]] + Split(path[n + 1..])
  }

  function NonEmpty(parts: seq<seq<byte>>): seq<seq<byte>> {
    if parts == [] then [] else (if parts[0] == [] then [] else [parts[0]]) + NonEmpty(parts[1..])
  }

  /** The non-empty slash-separated components of a path. */
  function Components(path: seq<byte>): seq<seq<byte>> {
    NonEmpty(Split(path))
  }

  function SkipSlashes(path: seq<byte>): (r: seq<byte>)
    ensures |r| <= |path| && (r != [] ==> r[0] != SLASH)
  {
    if path != [] && path[0] == SLASH then SkipSlashes(path[1..]) else path
  }

  lemma {:induction false} SkipKeeps(path: seq<byte>)
    ensures Components(SkipSlashes(path)) == Components(path)
  {
    if path != [] && path[0] == SLASH {
      assert UpToSlash(path) == 0;
      assert path[..0] == [];
      MoreParts([], Split(path[1..]));
      SkipKeeps(path[1..]);
    }
  }

  /** skipelem takes off the first component, and fails exactly when there is none. */
  lemma FirstComponent(path: seq<byte>)
    ensures var p := SkipSlashes(path);
            if p == [] then Components(path) == []
            else 0 < UpToSlash(p) && Components(path) == [p[..UpToSlash(p)]] + Components(SkipSlashes(p[UpToSlash(p)..]))
  {
    SkipKeeps(path);
    var p := SkipSlashes(path);
    if p == [] {
      EmptyPath();
    } else {
      TakeFirst(p);
    }
  }

  lemma TakeFirst(p: seq<byte>)
    requires p != [] && p[0] != SLASH
    ensures 0 < UpToSlash(p) && Components(p) == [p[..UpToSlash(p)]] + Components(SkipSlashes(p[UpToSlash(p)..]))
  {
    var n := UpToSlash(p);
    SkipKeeps(p[n..]);
    if n == |p| {
      assert p[..n] == p && p[n..] == [];
      LastComponent(p);
    } else {
      assert p[n..] == [SLASH] + p[n + 1..];
      ComponentThen(p, n, p[n..], p[n + 1..]);
    }
  }

  lemma LastComponent(p: seq<byte>)
    requires p != [] && UpToSlash(p) == |p|
    ensures Components(p) == [p] + Components([])
  {
    OnePart(p);
    EmptyPath();
    assert Split(p) == [p];
  }

  lemma ComponentThen(p: seq<byte>, n: nat, q: seq<byte>, rest: seq<byte>)
    requires 0 < n == UpToSlash(p) < |p| && rest == p[n + 1..] && q == [SLASH] + rest
    ensures Components(p) == [p[..n]] + Components(q)
  {
    assert Split(p) == [p[..n]] + Split(rest);
    SplitSlash(q, rest);
    var first := p[..n];
    assert first != [];
    hide Split, NonEmpty, UpToSlash;
    MoreParts(first, Split(rest));
    MoreParts([], Split(rest));
  }

  lemma SplitSlash(q: seq<byte>, rest: seq<byte>)
    requires q == [SLASH] + rest
    ensures Split(q) == [[]] + Split(rest)
  {
    assert UpToSlash(q) == 0 && q[..0] == [] && q[1..] == rest;
  }

  lemma EmptyPath()
    ensures Components([]) == []
  {
    var none: seq<byte> := [];
    OnePart(none);
    assert Split(none) == [none];
  }

  lemma OnePart(p: seq<byte>)
    ensures NonEmpty([p]) == if p == [] then [] else [p]
  {
    assert [p][1..] == [];
    assert NonEmpty([p][1..]) == [];
  }

  lemma MoreParts(p: seq<byte>, rest: seq<seq<byte>>)
    ensures p == [] ==> NonEmpty([p] + rest) == NonEmpty(rest)
    ensures p != [] ==> NonEmpty([p] + rest) == [p] + NonEmpty(rest)
  {
    var all := [p] + rest;
    assert all[1..] == rest && all[0] == p;
    assert [] + NonEmpty(rest) == NonEmpty(rest);
  }

  lemma {:induction false} SplitCat(a: seq<byte>, b: seq<byte>)
    ensures Split(a + [47] + b) == Split(a) + Split(b)
    decreases |a|
  {
    var n, path := UpToSlash(a), a + [47] + b;
    UpToSlashCat(a, b);
    SplitOff(path, n);
    SplitOff(a, n);
    Parts(a, b, n);
    hide UpToSlash, Split;
    if n < |a| {
      SplitCat(a[n + 1..], b);
      CatThree([a[..n]], Split(a[n + 1..]), Split(b));
    }
  }

  lemma Parts(a: seq<byte>, b: seq<byte>, n: nat)
    requires n <= |a|
    ensures var path := a + [47] + b;
            && path[..n] == a[..n] && (n == |a| ==> a[..n] == a && path[n + 1..] == b)
            && (n < |a| ==> path[n + 1..] == a[n + 1..] + [47] + b)
  {
  }

  lemma {:induction false} SplitOff(path: seq<byte>, n: nat)
    requires n == UpToSlash(path)
    ensures Split(path) == if n == |path| then [path] else [path[..n]] + Split(path[n + 1..])
  {
  }

  lemma CatThree<T>(a: seq<T>, b: seq<T>, c: seq<T>)
    ensures a + (b + c) == a + b + c
  {
  }

  lemma {:induction false} UpToSlashCat(a: seq<byte>, b: seq<byte>)
    ensures UpToSlash(a + [47] + b) == UpToSlash(a)
    decreases |a|
  {
    if a != [] && a[0] != SLASH {
      UpToSlashCat(a[1..], b);
      assert (a + [47] + b)[1..] == a[1..] + [47] + b;
    }
  }

  lemma {:induction false} NonEmptyCat(a: seq<seq<byte>>, b: seq<seq<byte>>)
    ensures NonEmpty(a + b) == NonEmpty(a) + NonEmpty(b)
  {
    if a == [] {
      assert a + b == b;
    } else {
      NonEmptyCat(a[1..], b);
      assert a + b == [a[0]] + (a[1..] + b) && a == [a[0]] + a[1..];
      MoreParts(a[0], a[1..] + b);
      MoreParts(a[0], a[1..]);
      hide NonEmpty;
      CatThree([a[0]], NonEmpty(a[1..]), NonEmpty(b));
    }
  }

  /** Components of a path joined with '/' (47): those of the first part, then those of the second. */
  lemma ComponentsCat(a: seq<byte>, b: seq<byte>)
    ensures Components(a + [47] + b) == Components(a) + Components(b)
  {
    SplitCat(a, b);
    NonEmptyCat(Split(a), Split(b));
  }

  /** A path without '/' is its own only component, unless it is empty. */
  lemma ComponentAlone(a: seq<byte>)
    requires forall i | 0 <= i < |a| :: a[i] != 47
    ensures Components(a) == if a == [] then [] else [a]
  {
    OnePart(a);
    assert UpToSlash(a) == |a|;
  }
}
