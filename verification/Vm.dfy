/**
 Page tables and the page allocator of vm.c and kalloc.c.  Physical memory is a sequence of pages
 of 32-bit words; pages are named by page number, and NONE stands for no page.  A page directory
 entry or page table entry is a word: page number times 4096 plus flag bits, bit 0 being PTE_P.
 */
module Vm {

  const NENTRIES: nat := 1024
  const PGSIZE: nat := 4096
  const USERPAGES: nat := 0x8_0000     // KERNBASE in pages
  const ALLPAGES: nat := 0x10_0000     // the address space in pages
  const NONE: int := -1
  const PTE_W: nat := 2
  const PTE_U: nat := 4

  type Page = p: seq<nat> | |p| == NENTRIES witness Fill(0)

  function Fill(w: nat): (p: seq<nat>)
    ensures |p| == NENTRIES && forall j | 0 <= j < NENTRIES :: p[j] == w
  {
    seq(NENTRIES, _ => w)
  }

  /** The pages lo..hi belong to the allocator. */
  datatype Machine = Machine(lo: nat, hi: nat)

  /** The free list, memory, the live page directories, and pages handed out by kalloc for other uses. */
  datatype State = State(free: seq<nat>, mem: seq<Page>, dirs: set<nat>, held: set<nat>)

  // ----- Entries

  predicate Present(w: nat) {
    w % 2 == 1
  }

  function Addr(w: nat): nat {
    w / PGSIZE
  }

  function Flags(w: nat): nat {
    w % PGSIZE
  }

  /** Flag words a caller may pass to mappages: PTE_P may or may not be set. */
  predicate Perm(perm: nat) {
    perm < PGSIZE
  }

  /** pa | perm | PTE_P for a page-aligned pa. */
  function Pte(p: nat, perm: nat): nat {
    p * PGSIZE + perm + (if Present(perm) then 0 else 1)
  }

  lemma PteIs(p: nat, perm: nat)
    requires Perm(perm)
    ensures Present(Pte(p, perm)) && Addr(Pte(p, perm)) == p
    ensures Flags(Pte(p, perm)) == if Present(perm) then perm else perm + 1
    ensures perm % 2 == 0 ==> perm + 1 < PGSIZE
  {
    var flags := if Present(perm) then perm else perm + 1;
    assert Pte(p, perm) == p * PGSIZE + flags && flags < PGSIZE && flags % 2 == 1;
    PteParts(p, flags);
  }

  lemma PteParts(p: nat, flags: nat)
    requires flags < PGSIZE
    ensures (p * PGSIZE + flags) / PGSIZE == p && (p * PGSIZE + flags) % PGSIZE == flags
    ensures (p * PGSIZE + flags) % 2 == flags % 2
  {
    ModTwo(p * PGSIZE + flags, p * 2048 + flags / 2, flags % 2);
  }

  lemma ModTwo(w: nat, h: nat, r: nat)
    requires r < 2 && w == 2 * h + r
    ensures w % 2 == r
  {
  }

  // ----- Owners of pages

  datatype Owner = Dir(d: nat) | Table(d: nat, x: nat) | User(d: nat, v: nat)

  predicate Slot(s: State, o: Owner) {
    o.d in s.dirs && (o.Table? ==> o.x < NENTRIES) && (o.User? ==> o.v < USERPAGES)
  }

  predicate Shape(m: Machine, s: State) {
    && 0 < m.lo <= m.hi <= |s.mem| && m.hi <= ALLPAGES
    && forall d | d in s.dirs :: m.lo <= d < m.hi
  }

  /** Word j of page q, or 0 when there is no such page. */
  function WordAt(s: State, q: int, j: nat): nat
    requires j < NENTRIES
  {
    if 0 <= q < |s.mem| then s.mem[q][j] else 0
  }

  function Target(w: nat): (p: int)
    ensures p == NONE || p >= 0
  {
    if Present(w) then Addr(w) else NONE
  }

  function TableOf(s: State, d: nat, x: nat): int
    requires x < NENTRIES
  {
    Target(WordAt(s, d, x))
  }

  /** The two-level table read as a flat map from virtual page numbers to entries. */
  function Entry(s: State, d: nat, v: nat): nat
    requires v < ALLPAGES
  {
    WordAt(s, TableOf(s, d, v / NENTRIES), v % NENTRIES)
  }

  function Ptr(s: State, o: Owner): int
    requires Slot(s, o)
  {
    if o.Dir? then o.d else if o.Table? then TableOf(s, o.d, o.x) else Target(Entry(s, o.d, o.v))
  }

  predicate PtrOk(m: Machine, s: State, o: Owner)
    requires Slot(s, o)
  {
    Ptr(s, o) != NONE ==> m.lo <= Ptr(s, o) < m.hi && Ptr(s, o) !in s.held && Ptr(s, o) !in s.free
  }

  ghost predicate Distinct(s: State) {
    forall o1, o2 | Slot(s, o1) && Slot(s, o2) && Ptr(s, o1) == Ptr(s, o2) && Ptr(s, o1) != NONE :: o1 == o2
  }

  ghost predicate HasOwner(s: State, p: int) {
    exists o :: Slot(s, o) && Ptr(s, o) == p
  }

  predicate FreeOk(m: Machine, s: State) {
    && (forall k | 0 <= k < |s.free| :: m.lo <= s.free[k] < m.hi && s.free[k] !in s.held)
    && (forall j, k | 0 <= j < k < |s.free| :: s.free[j] != s.free[k])
    && (forall p | p in s.held :: m.lo <= p < m.hi)
  }

  /**
   Free pages, pages held elsewhere, page directories, page tables and user pages partition the
   allocator's memory, and no page has two owners.
   */
  ghost predicate Owned(m: Machine, s: State) {
    && Shape(m, s)
    && FreeOk(m, s)
    && (forall o | Slot(s, o) :: PtrOk(m, s, o))
    && Distinct(s)
    && (forall p | m.lo <= p < m.hi :: p in s.free || p in s.held || HasOwner(s, p))
  }

  /** What address space d shows at virtual page v: its entry if present and, for a user page, the page's words. */
  function View(s: State, d: nat, v: nat): (nat, seq<nat>)
    requires v < ALLPAGES
  {
    var w := Entry(s, d, v);
    if !Present(w) then (0, [])
    else if v < USERPAGES && 0 <= Target(w) < |s.mem| then (w, s.mem[Target(w)])
    else (w, [])
  }

  /** Directory d has the same page tables. */
  ghost predicate SameTables(s: State, t: State, d: nat) {
    forall x | 0 <= x < NENTRIES :: TableOf(t, d, x) == TableOf(s, d, x)
  }

  /** All address spaces show the same except d at lo..hi, and only d may have gained page tables. */
  ghost predicate Same(s: State, t: State, d: nat, lo: nat, hi: nat) {
    && t.dirs == s.dirs
    && (forall e | e in s.dirs && e != d :: SameTables(s, t, e))
    && forall e, v | e in s.dirs && 0 <= v < ALLPAGES && !(e == d && lo <= v < hi) :: View(t, e, v) == View(s, e, v)
  }

  lemma SameThen(s: State, t: State, u: State, d: nat, lo: nat, mid: nat, hi: nat)
    requires lo <= mid <= hi && Same(s, t, d, lo, mid) && Same(t, u, d, mid, hi)
    ensures Same(s, u, d, lo, hi)
  {
    hide View, TableOf;
    forall e | e in s.dirs && e != d
      ensures SameTables(s, u, e)
    {
      assert SameTables(s, t, e) && SameTables(t, u, e);
    }
  }

  // ----- Moving a page between owners, the free list and other holders

  lemma MoveIn(m: Machine, s: State, t: State, o: Owner, p: nat)
    requires Owned(m, s) && p in s.held && Slot(s, o) && Ptr(s, o) == NONE
    requires Shape(m, t) && t.dirs == s.dirs && t.free == s.free && t.held == s.held - {p}
    requires forall q | Slot(s, q) :: Ptr(t, q) == if q == o then p else Ptr(s, q)
    ensures Owned(m, t)
  {
    hide Ptr;
    forall q | Slot(t, q)
      ensures PtrOk(m, t, q)
    {
      assert Slot(s, q) && PtrOk(m, s, q);
    }
    assert forall q | Slot(s, q) && Ptr(s, q) != NONE :: PtrOk(m, s, q) && Ptr(s, q) != p;
    forall c | m.lo <= c < m.hi
      ensures c in t.free || c in t.held || HasOwner(t, c)
    {
      if c == p {
        assert Slot(t, o) && Ptr(t, o) == c;
      } else if HasOwner(s, c) {
        var q :| Slot(s, q) && Ptr(s, q) == c;
        assert Slot(t, q) && Ptr(t, q) == c;
      }
    }
  }

  lemma MoveOut(m: Machine, s: State, t: State, o: Owner, p: nat)
    requires Owned(m, s) && Slot(s, o) && Ptr(s, o) == p
    requires Shape(m, t) && t.dirs == s.dirs && t.free == s.free && t.held == s.held + {p}
    requires forall q | Slot(s, q) :: Ptr(t, q) == if q == o then NONE else Ptr(s, q)
    ensures Owned(m, t)
  {
    hide Ptr;
    assert PtrOk(m, s, o);
    forall q | Slot(t, q)
      ensures PtrOk(m, t, q)
    {
      assert Slot(s, q) && PtrOk(m, s, q);
    }
    forall c | m.lo <= c < m.hi
      ensures c in t.free || c in t.held || HasOwner(t, c)
    {
      if HasOwner(s, c) && c != p {
        var q :| Slot(s, q) && Ptr(s, q) == c;
        assert Slot(t, q) && Ptr(t, q) == c;
      }
    }
  }

  /** kalloc and kfree move a page between the free list and its holder. */
  lemma MoveFree(m: Machine, s: State, t: State)
    requires Owned(m, s) && Shape(m, t) && t.dirs == s.dirs && FreeOk(m, t)
    requires forall p | m.lo <= p < m.hi :: p in t.free || p in t.held <==> p in s.free || p in s.held
    requires forall q | Slot(s, q) :: Ptr(t, q) == Ptr(s, q)
    ensures Owned(m, t)
  {
    hide Ptr;
    forall q | Slot(t, q)
      ensures PtrOk(m, t, q)
    {
      assert Slot(s, q) && PtrOk(m, s, q);
    }
    forall c | m.lo <= c < m.hi
      ensures c in t.free || c in t.held || HasOwner(t, c)
    {
      if HasOwner(s, c) {
        var q :| Slot(s, q) && Ptr(s, q) == c;
        assert Slot(t, q) && Ptr(t, q) == c;
      }
    }
  }

  // ----- Writing to a page that no table points through

  function SetPage(s: State, q: nat, p: Page): State
    requires q < |s.mem|
  {
    s.(mem := s.mem[q := p])
  }

  /** q is neither a page directory nor a page table. */
  ghost predicate NotPaging(s: State, q: nat) {
    q !in s.dirs && forall d, x | d in s.dirs && 0 <= x < NENTRIES :: TableOf(s, d, x) != q
  }

  lemma HeldNotPaging(m: Machine, s: State, q: nat)
    requires Owned(m, s) && (q in s.held || q in s.free)
    ensures NotPaging(s, q) && m.lo <= q < m.hi
  {
    forall d | d in s.dirs
      ensures d != q
    {
      assert PtrOk(m, s, Dir(d));
    }
    forall d, x | d in s.dirs && 0 <= x < NENTRIES
      ensures TableOf(s, d, x) != q
    {
      assert PtrOk(m, s, Table(d, x)) && Ptr(s, Table(d, x)) == TableOf(s, d, x);
    }
  }

  lemma FillKeeps(s: State, q: nat, p: Page, d: nat)
    requires q < |s.mem| && NotPaging(s, q) && d in s.dirs
    ensures forall x | 0 <= x < NENTRIES :: TableOf(SetPage(s, q, p), d, x) == TableOf(s, d, x)
    ensures forall v | 0 <= v < ALLPAGES :: Entry(SetPage(s, q, p), d, v) == Entry(s, d, v)
  {
    var t := SetPage(s, q, p);
    forall x | 0 <= x < NENTRIES
      ensures TableOf(t, d, x) == TableOf(s, d, x)
    {
    }
    forall v | 0 <= v < ALLPAGES
      ensures Entry(t, d, v) == Entry(s, d, v)
    {
      assert TableOf(t, d, v / NENTRIES) == TableOf(s, d, v / NENTRIES) != q;
    }
  }

  lemma FillPtrs(s: State, q: nat, p: Page)
    requires q < |s.mem| && NotPaging(s, q)
    ensures forall o | Slot(s, o) :: Ptr(SetPage(s, q, p), o) == Ptr(s, o)
  {
    hide TableOf, Entry;
    forall o | Slot(s, o)
      ensures Ptr(SetPage(s, q, p), o) == Ptr(s, o)
    {
      FillKeeps(s, q, p, o.d);
    }
  }

  /** Writing to a page that is held or free shows in no address space. */
  lemma FillSame(m: Machine, s: State, q: nat, p: Page, d: nat, lo: nat)
    requires Owned(m, s) && (q in s.held || q in s.free)
    ensures q < |s.mem| && Same(s, SetPage(s, q, p), d, lo, lo)
    ensures forall e | e in s.dirs :: SameTables(s, SetPage(s, q, p), e)
  {
    HeldNotPaging(m, s, q);
    var t := SetPage(s, q, p);
    forall e | e in s.dirs
      ensures SameTables(s, t, e)
    {
      FillKeeps(s, q, p, e);
    }
    forall e, v | e in s.dirs && 0 <= v < ALLPAGES
      ensures View(t, e, v) == View(s, e, v)
    {
      FillKeeps(s, q, p, e);
      hide Entry;
      if v < USERPAGES {
        assert PtrOk(m, s, User(e, v)) && Ptr(s, User(e, v)) == Target(Entry(s, e, v));
      }
    }
  }

  // ----- kalloc and kfree

  function Alloc(s: State): State
    requires s.free != []
  {
    s.(free := s.free[1..], held := s.held + {s.free[0]})
  }

  lemma AllocKeeps(m: Machine, s: State, d: nat, lo: nat)
    requires Owned(m, s) && s.free != []
    ensures Owned(m, Alloc(s)) && Same(s, Alloc(s), d, lo, lo)
  {
    hide Entry, TableOf;
    var t := Alloc(s);
    assert forall c | c in s.free :: c == s.free[0] || c in s.free[1..];
    assert s.free[0] in s.free;
    assert forall o | Slot(s, o) :: PtrOk(m, s, o);
    assert forall e, x | 0 <= x < NENTRIES :: TableOf(t, e, x) == TableOf(s, e, x) by { SameMem(s, t); }
    assert forall e, v | 0 <= v < ALLPAGES :: Entry(t, e, v) == Entry(s, e, v) by { SameMem(s, t); }
    MoveFree(m, s, t);
  }

  lemma SameMem(s: State, t: State)
    requires s.mem == t.mem
    ensures forall e, x | 0 <= x < NENTRIES :: TableOf(t, e, x) == TableOf(s, e, x)
    ensures forall e, v | 0 <= v < ALLPAGES :: Entry(t, e, v) == Entry(s, e, v)
  {
  }

  /** kfree fills the page with junk and pushes it on the free list. */
  function Free(s: State, p: nat): State
    requires p < |s.mem|
  {
    s.(free := [p] + s.free, held := s.held - {p}, mem := s.mem[p := Fill(0x0101_0101)])
  }

  lemma FreeKeeps(m: Machine, s: State, p: nat, d: nat, lo: nat)
    requires Owned(m, s) && p in s.held
    ensures p < |s.mem| && Owned(m, Free(s, p)) && Same(s, Free(s, p), d, lo, lo)
    ensures forall e | e in s.dirs :: SameTables(s, Free(s, p), e)
  {
    hide Entry, TableOf;
    HeldNotPaging(m, s, p);
    var f := SetPage(s, p, Fill(0x0101_0101));
    var t := Free(s, p);
    FillPtrs(s, p, Fill(0x0101_0101));
    FillSame(m, s, p, Fill(0x0101_0101), d, lo);
    assert forall e, x | 0 <= x < NENTRIES :: TableOf(t, e, x) == TableOf(f, e, x) by { SameMem(f, t); }
    assert forall e, v | 0 <= v < ALLPAGES :: Entry(t, e, v) == Entry(f, e, v) by { SameMem(f, t); }
    MoveFree(m, s, t);
  }

  // ----- Writing an entry

  function SetWord(s: State, q: nat, j: nat, w: nat): State
    requires q < |s.mem| && j < NENTRIES
  {
    SetPage(s, q, SetIn(s.mem[q], j, w))
  }

  function SetIn(p: Page, j: nat, w: nat): Page
    requires j < NENTRIES
  {
    p[j := w]
  }

  /** Tables are pages of their own: no directory is a table, no user page is either, no table is shared. */
  lemma Apart(m: Machine, s: State, d: nat, e: nat, x: nat, y: nat)
    requires Owned(m, s) && d in s.dirs && e in s.dirs && x < NENTRIES && y < NENTRIES
    ensures TableOf(s, d, x) != e && 0 < d < |s.mem| && TableOf(s, d, x) < |s.mem|
    ensures TableOf(s, d, x) == TableOf(s, e, y) != NONE ==> d == e && x == y
  {
    assert PtrOk(m, s, Table(d, x)) && Ptr(s, Table(d, x)) == TableOf(s, d, x);
    assert PtrOk(m, s, Table(e, y)) && Ptr(s, Table(e, y)) == TableOf(s, e, y);
    assert PtrOk(m, s, Dir(e)) && Ptr(s, Dir(e)) == e;
  }

  lemma UserApart(m: Machine, s: State, e: nat, v: nat, q: nat)
    requires Owned(m, s) && e in s.dirs && v < USERPAGES && Target(Entry(s, e, v)) != NONE
    requires q in s.dirs || (exists d, x | d in s.dirs && 0 <= x < NENTRIES :: TableOf(s, d, x) == q)
    ensures Target(Entry(s, e, v)) != q
  {
    assert Ptr(s, User(e, v)) == Target(Entry(s, e, v));
    if q in s.dirs {
      assert Ptr(s, Dir(q)) == q;
    } else {
      var d, x :| d in s.dirs && 0 <= x < NENTRIES && TableOf(s, d, x) == q;
      assert Ptr(s, Table(d, x)) == q;
    }
  }

  // A fresh zeroed page table, as walkpgdir installs it.

  function LinkTable(s: State, d: nat, x: nat, p: nat): State
    requires d < |s.mem| && x < NENTRIES
  {
    SetWord(s, d, x, Pte(p, PTE_W + PTE_U)).(held := s.held - {p})
  }

  ghost predicate Linkable(m: Machine, s: State, d: nat, x: nat, p: nat) {
    && Owned(m, s) && d in s.dirs && x < NENTRIES && TableOf(s, d, x) == NONE
    && p in s.held && s.mem[p] == Fill(0)
  }

  lemma LinkTables(m: Machine, s: State, d: nat, x: nat, p: nat, e: nat, y: nat)
    requires Linkable(m, s, d, x, p) && e in s.dirs && y < NENTRIES
    ensures d < |s.mem| && TableOf(LinkTable(s, d, x, p), e, y) == if e == d && y == x then p else TableOf(s, e, y)
  {
    PteIs(p, PTE_W + PTE_U);
  }

  lemma LinkEntries(m: Machine, s: State, d: nat, x: nat, p: nat, e: nat, v: nat)
    requires Linkable(m, s, d, x, p) && e in s.dirs && v < ALLPAGES
    ensures d < |s.mem| && Entry(LinkTable(s, d, x, p), e, v) == Entry(s, e, v)
  {
    LinkTables(m, s, d, x, p, e, v / NENTRIES);
    Apart(m, s, e, d, v / NENTRIES, x);
    HeldNotPaging(m, s, p);
    hide TableOf;
    assert LinkTable(s, d, x, p).mem[p] == s.mem[p];
  }

  lemma LinkKeeps(m: Machine, s: State, d: nat, x: nat, p: nat, lo: nat)
    requires Linkable(m, s, d, x, p)
    ensures d < |s.mem| && Owned(m, LinkTable(s, d, x, p)) && Same(s, LinkTable(s, d, x, p), d, lo, lo)
  {
    var t := LinkTable(s, d, x, p);
    assert t.mem == s.mem[d := t.mem[d]];
    hide TableOf, Entry, LinkTable;
    forall o | Slot(s, o)
      ensures Ptr(t, o) == if o == Table(d, x) then p else Ptr(s, o)
    {
      if o.Table? {
        LinkTables(m, s, d, x, p, o.d, o.x);
      } else if o.User? {
        LinkEntries(m, s, d, x, p, o.d, o.v);
      }
    }
    LinkFields(s, d, x, p);
    MoveIn(m, s, t, Table(d, x), p);
    forall e | e in s.dirs && e != d
      ensures SameTables(s, t, e)
    {
      forall y | 0 <= y < NENTRIES
        ensures TableOf(t, e, y) == TableOf(s, e, y)
      {
        LinkTables(m, s, d, x, p, e, y);
      }
    }
    forall e, v | e in s.dirs && 0 <= v < ALLPAGES
      ensures View(t, e, v) == View(s, e, v)
    {
      LinkEntries(m, s, d, x, p, e, v);
      if v < USERPAGES && Target(Entry(s, e, v)) != NONE {
        UserApart(m, s, e, v, d);
      }
    }
  }

  lemma LinkFields(s: State, d: nat, x: nat, p: nat)
    requires d < |s.mem| && x < NENTRIES
    ensures var t := LinkTable(s, d, x, p);
            t.dirs == s.dirs && t.free == s.free && t.held == s.held - {p} && |t.mem| == |s.mem|
  {
  }

  // A page table entry, as mappages and deallocuvm write it.

  function SetEntry(s: State, d: nat, v: nat, w: nat): State
    requires v < ALLPAGES && 0 <= TableOf(s, d, v / NENTRIES) < |s.mem|
  {
    SetWord(s, TableOf(s, d, v / NENTRIES), v % NENTRIES, w)
  }

  ghost predicate HasTable(m: Machine, s: State, d: nat, v: nat) {
    Owned(m, s) && d in s.dirs && v < ALLPAGES && TableOf(s, d, v / NENTRIES) != NONE
  }

  lemma SetTables(m: Machine, s: State, d: nat, v: nat, w: nat, e: nat, y: nat)
    requires HasTable(m, s, d, v) && e in s.dirs && y < NENTRIES
    ensures 0 <= TableOf(s, d, v / NENTRIES) < |s.mem| && TableOf(SetEntry(s, d, v, w), e, y) == TableOf(s, e, y)
  {
    Apart(m, s, d, e, v / NENTRIES, y);
  }

  lemma SetEntries(m: Machine, s: State, d: nat, v: nat, w: nat, e: nat, u: nat)
    requires HasTable(m, s, d, v) && e in s.dirs && u < ALLPAGES
    ensures 0 <= TableOf(s, d, v / NENTRIES) < |s.mem|
    ensures Entry(SetEntry(s, d, v, w), e, u) == if e == d && u == v then w else Entry(s, e, u)
  {
    SetTables(m, s, d, v, w, e, u / NENTRIES);
    Apart(m, s, d, e, v / NENTRIES, u / NENTRIES);
    hide TableOf;
  }

  lemma SetViews(m: Machine, s: State, d: nat, v: nat, w: nat)
    requires HasTable(m, s, d, v)
    ensures 0 <= TableOf(s, d, v / NENTRIES) < |s.mem| && Same(s, SetEntry(s, d, v, w), d, v, v + 1)
    ensures forall e | e in s.dirs :: SameTables(s, SetEntry(s, d, v, w), e)
  {
    Apart(m, s, d, d, v / NENTRIES, 0);
    var q := TableOf(s, d, v / NENTRIES);
    var t := SetEntry(s, d, v, w);
    assert t.mem == s.mem[q := t.mem[q]];
    forall e | e in s.dirs
      ensures SameTables(s, t, e)
    {
      forall y | 0 <= y < NENTRIES
        ensures TableOf(t, e, y) == TableOf(s, e, y)
      {
        SetTables(m, s, d, v, w, e, y);
      }
    }
    forall e, u | e in s.dirs && 0 <= u < ALLPAGES && !(e == d && v <= u < v + 1)
      ensures View(t, e, u) == View(s, e, u)
    {
      hide TableOf, Entry, SetEntry;
      SetEntries(m, s, d, v, w, e, u);
      if u < USERPAGES && Target(Entry(s, e, u)) != NONE {
        UserApart(m, s, e, u, q);
      }
    }
  }

  lemma SetPtrs(m: Machine, s: State, d: nat, v: nat, w: nat)
    requires HasTable(m, s, d, v)
    ensures 0 <= TableOf(s, d, v / NENTRIES) < |s.mem|
    ensures forall o | Slot(s, o) :: Ptr(SetEntry(s, d, v, w), o) == if o == User(d, v) then Target(w) else Ptr(s, o)
  {
    Apart(m, s, d, d, v / NENTRIES, 0);
    forall o | Slot(s, o)
      ensures Ptr(SetEntry(s, d, v, w), o) == if o == User(d, v) then Target(w) else Ptr(s, o)
    {
      hide TableOf, Entry, SetEntry;
      if o.Table? {
        SetTables(m, s, d, v, w, o.d, o.x);
      } else if o.User? {
        SetEntries(m, s, d, v, w, o.d, o.v);
      }
    }
  }

  /** Mapping a held page at an empty user entry. */
  function MapUser(s: State, d: nat, v: nat, p: nat, perm: nat): State
    requires v < USERPAGES && 0 <= TableOf(s, d, v / NENTRIES) < |s.mem|
  {
    SetEntry(s, d, v, Pte(p, perm)).(held := s.held - {p})
  }

  lemma MapUserKeeps(m: Machine, s: State, d: nat, v: nat, p: nat, perm: nat)
    requires HasTable(m, s, d, v) && v < USERPAGES && !Present(Entry(s, d, v)) && p in s.held && Perm(perm)
    ensures 0 <= TableOf(s, d, v / NENTRIES) < |s.mem|
    ensures Owned(m, MapUser(s, d, v, p, perm)) && Same(s, MapUser(s, d, v, p, perm), d, v, v + 1)
    ensures p < |s.mem| && View(MapUser(s, d, v, p, perm), d, v) == (Pte(p, perm), s.mem[p])
  {
    PteIs(p, perm);
    HeldNotPaging(m, s, p);
    SetPtrs(m, s, d, v, Pte(p, perm));
    SetViews(m, s, d, v, Pte(p, perm));
    SetEntries(m, s, d, v, Pte(p, perm), d, v);
    var u := SetEntry(s, d, v, Pte(p, perm));
    var t := MapUser(s, d, v, p, perm);
    assert t.mem[p] == s.mem[p];
    hide TableOf, Entry, SetEntry;
    SameMem(u, t);
    MoveIn(m, s, t, User(d, v), p);
  }

  /** Clearing a mapped user entry; its page is then held. */
  function UnmapUser(s: State, d: nat, v: nat): State
    requires v < USERPAGES && 0 <= TableOf(s, d, v / NENTRIES) < |s.mem|
  {
    SetEntry(s, d, v, 0).(held := s.held + {Addr(Entry(s, d, v))})
  }

  lemma UnmapUserKeeps(m: Machine, s: State, d: nat, v: nat)
    requires HasTable(m, s, d, v) && v < USERPAGES && Present(Entry(s, d, v))
    ensures 0 <= TableOf(s, d, v / NENTRIES) < |s.mem|
    ensures Owned(m, UnmapUser(s, d, v)) && Same(s, UnmapUser(s, d, v), d, v, v + 1)
    ensures View(UnmapUser(s, d, v), d, v) == (0, [])
    ensures forall e | e in s.dirs :: SameTables(s, UnmapUser(s, d, v), e)
  {
    SetPtrs(m, s, d, v, 0);
    SetViews(m, s, d, v, 0);
    SetEntries(m, s, d, v, 0, d, v);
    var u := SetEntry(s, d, v, 0);
    var t := UnmapUser(s, d, v);
    hide TableOf, Entry, SetEntry;
    SameMem(u, t);
    MoveOut(m, s, t, User(d, v), Addr(Entry(s, d, v)));
  }

  /** Kernel entries name pages without owning them. */
  lemma MapKernelKeeps(m: Machine, s: State, d: nat, v: nat, w: nat)
    requires HasTable(m, s, d, v) && v >= USERPAGES
    ensures 0 <= TableOf(s, d, v / NENTRIES) < |s.mem|
    ensures Owned(m, SetEntry(s, d, v, w)) && Same(s, SetEntry(s, d, v, w), d, v, v + 1)
    ensures Present(w) ==> View(SetEntry(s, d, v, w), d, v) == (w, [])
  {
    SetPtrs(m, s, d, v, w);
    SetViews(m, s, d, v, w);
    SetEntries(m, s, d, v, w, d, v);
    hide TableOf, Entry;
    MoveFree(m, s, SetEntry(s, d, v, w));
  }

  // ----- Whole address spaces

  /** A zeroed held page becomes a page directory. */
  function AddDir(s: State, d: nat): State {
    s.(dirs := s.dirs + {d}, held := s.held - {d})
  }

  lemma AddDirKeeps(m: Machine, s: State, d: nat)
    requires Owned(m, s) && d in s.held && s.mem[d] == Fill(0)
    ensures Owned(m, AddDir(s, d)) && d !in s.dirs
    ensures forall e | e in s.dirs :: SameTables(s, AddDir(s, d), e)
    ensures forall e, v | e in s.dirs && 0 <= v < ALLPAGES :: View(AddDir(s, d), e, v) == View(s, e, v)
    ensures forall v | 0 <= v < ALLPAGES :: View(AddDir(s, d), d, v) == (0, [])
  {
    var t := AddDir(s, d);
    HeldNotPaging(m, s, d);
    assert forall x | 0 <= x < NENTRIES :: TableOf(t, d, x) == NONE;
    assert forall v | 0 <= v < ALLPAGES :: Entry(t, d, v) == 0;
    SameMem(s, t);
    hide TableOf, Entry;
    assert forall o | Slot(s, o) :: Slot(t, o) && Ptr(t, o) == Ptr(s, o) && PtrOk(m, s, o);
    assert forall o | Slot(t, o) && o.d == d :: Ptr(t, o) == if o.Dir? then d else NONE;
    forall o | Slot(t, o)
      ensures PtrOk(m, t, o)
    {
      if o.d != d {
        assert Slot(s, o) && PtrOk(m, s, o);
      }
    }
    AddDirOwners(m, s, t, d);
  }

  lemma AddDirOwners(m: Machine, s: State, t: State, d: nat)
    requires Owned(m, s) && d in s.held && d !in s.dirs && t.dirs == s.dirs + {d} && t.held == s.held - {d} && t.free == s.free
    requires forall o | Slot(s, o) :: Slot(t, o) && Ptr(t, o) == Ptr(s, o) && PtrOk(m, s, o)
    requires forall o | Slot(t, o) && o.d == d :: Ptr(t, o) == if o.Dir? then d else NONE
    ensures Distinct(t) && forall p | m.lo <= p < m.hi :: p in t.free || p in t.held || HasOwner(t, p)
  {
    hide Ptr;
    assert forall o | Slot(t, o) && o.d != d :: Slot(s, o);
    forall p | m.lo <= p < m.hi
      ensures p in t.free || p in t.held || HasOwner(t, p)
    {
      if p == d {
        assert Slot(t, Dir(d)) && Ptr(t, Dir(d)) == p;
      } else if HasOwner(s, p) {
        var o :| Slot(s, o) && Ptr(s, o) == p;
        assert Slot(t, o) && Ptr(t, o) == p;
      }
    }
  }

  /** The page tables of d among its first n directory entries. */
  function TablesOf(s: State, d: nat, n: nat): set<nat>
    requires n <= NENTRIES
  {
    if n == 0 then {}
    else TablesOf(s, d, n - 1) + (if TableOf(s, d, n - 1) == NONE then {} else {TableOf(s, d, n - 1)})
  }

  lemma {:induction false} TablesOfHas(s: State, d: nat, n: nat, p: nat)
    requires n <= NENTRIES
    ensures p in TablesOf(s, d, n) <==> exists x | 0 <= x < n :: TableOf(s, d, x) == p
  {
    hide TableOf;
    if n > 0 {
      TablesOfHas(s, d, n - 1, p);
    }
  }

  /** A directory with no user pages left is retired: it and its page tables become held pages. */
  function Retire(s: State, d: nat): State {
    s.(dirs := s.dirs - {d}, held := s.held + {d} + TablesOf(s, d, NENTRIES))
  }

  lemma RetireKeeps(m: Machine, s: State, d: nat)
    requires Owned(m, s) && d in s.dirs && forall v | 0 <= v < USERPAGES :: !Present(Entry(s, d, v))
    ensures Owned(m, Retire(s, d))
    ensures forall e | e in s.dirs && e != d :: SameTables(s, Retire(s, d), e)
    ensures forall e, v | e in s.dirs && e != d && 0 <= v < ALLPAGES :: View(Retire(s, d), e, v) == View(s, e, v)
  {
    var t := Retire(s, d);
    SameMem(s, t);
    hide TableOf, Entry, TablesOf;
    forall o | Slot(t, o)
      ensures Slot(s, o) && Ptr(t, o) == Ptr(s, o) && PtrOk(m, t, o)
    {
      assert Slot(s, o) && PtrOk(m, s, o);
      if Ptr(s, o) != NONE {
        TablesOfHas(s, d, NENTRIES, Ptr(s, o));
        RetiredApart(m, s, d, o);
      }
    }
    RetiredFree(m, s, d);
    forall p | m.lo <= p < m.hi
      ensures p in t.free || p in t.held || HasOwner(t, p)
    {
      if HasOwner(s, p) {
        var o :| Slot(s, o) && Ptr(s, o) == p;
        if o.d != d {
          assert Slot(t, o) && Ptr(t, o) == p;
        } else if o.Table? {
          TablesOfHas(s, d, NENTRIES, p);
        }
      }
    }
  }

  lemma RetiredApart(m: Machine, s: State, d: nat, o: Owner)
    requires Owned(m, s) && d in s.dirs && Slot(s, o) && o.d != d && Ptr(s, o) != NONE
    ensures Ptr(s, o) != d && forall x | 0 <= x < NENTRIES :: TableOf(s, d, x) != Ptr(s, o)
  {
    assert Ptr(s, Dir(d)) == d;
    assert forall x | 0 <= x < NENTRIES :: Slot(s, Table(d, x)) && Ptr(s, Table(d, x)) == TableOf(s, d, x);
    hide TableOf, Ptr;
  }

  lemma RetiredFree(m: Machine, s: State, d: nat)
    requires Owned(m, s) && d in s.dirs
    ensures FreeOk(m, Retire(s, d))
  {
    forall p | p in TablesOf(s, d, NENTRIES)
      ensures m.lo <= p < m.hi && p !in s.free
    {
      TablesOfHas(s, d, NENTRIES, p);
      var x :| 0 <= x < NENTRIES && TableOf(s, d, x) == p;
      assert PtrOk(m, s, Table(d, x)) && Ptr(s, Table(d, x)) == p;
    }
    assert PtrOk(m, s, Dir(d)) && Ptr(s, Dir(d)) == d;
    hide TablesOf;
    assert forall k | 0 <= k < |s.free| :: s.free[k] in s.free;
  }

  /** Address space e shows the same and has the same page tables. */
  ghost predicate Kept(s: State, t: State, e: nat) {
    SameTables(s, t, e) && forall v | 0 <= v < ALLPAGES :: View(t, e, v) == View(s, e, v)
  }

  lemma SameKept(s: State, t: State, d: nat, lo: nat, hi: nat, e: nat)
    requires Same(s, t, d, lo, hi) && e in s.dirs && e != d
    ensures Kept(s, t, e)
  {
    hide View, TableOf;
  }

  lemma KeptThen(s: State, t: State, u: State, e: nat)
    requires Kept(s, t, e) && Kept(t, u, e)
    ensures Kept(s, u, e)
  {
    hide View, TableOf;
  }

  lemma KeptPtrs(s: State, t: State, e: nat)
    requires e in s.dirs && e in t.dirs && Kept(s, t, e)
    ensures forall o | Slot(s, o) && o.d == e :: Ptr(t, o) == Ptr(s, o)
  {
    forall o | Slot(s, o) && o.d == e
      ensures Ptr(t, o) == Ptr(s, o)
    {
      hide TableOf, Entry;
      if o.User? {
        assert View(t, e, o.v) == View(s, e, o.v);
      }
    }
  }

  /** The same address spaces and holders leave the same pages free. */
  lemma FreeSame(m: Machine, s: State, t: State)
    requires Owned(m, s) && Owned(m, t) && t.dirs == s.dirs && t.held == s.held && forall e | e in s.dirs :: Kept(s, t, e)
    ensures forall p :: p in t.free <==> p in s.free
  {
    forall o | Slot(s, o)
      ensures Slot(t, o) && Ptr(t, o) == Ptr(s, o)
    {
      KeptPtrs(s, t, o.d);
    }
    hide Ptr, Kept;
    FreeIff(m, s);
    FreeIff(m, t);
    forall p
      ensures p in t.free <==> p in s.free
    {
      if HasOwner(s, p) {
        var o :| Slot(s, o) && Ptr(s, o) == p;
        assert Slot(t, o) && Ptr(t, o) == p;
      }
      if HasOwner(t, p) {
        var o :| Slot(t, o) && Ptr(t, o) == p;
        assert Slot(s, o) && Ptr(s, o) == p;
      }
    }
  }

  lemma FreeIff(m: Machine, s: State)
    requires Owned(m, s)
    ensures forall p :: p in s.free <==> m.lo <= p < m.hi && p !in s.held && !HasOwner(s, p)
  {
    hide Ptr;
    forall p
      ensures p in s.free <==> m.lo <= p < m.hi && p !in s.held && !HasOwner(s, p)
    {
      if HasOwner(s, p) {
        var o :| Slot(s, o) && Ptr(s, o) == p;
        assert PtrOk(m, s, o);
      }
    }
  }
}
