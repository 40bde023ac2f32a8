/** The effects of vm.c's operations on address spaces, and the lemmas their methods rely on. */
module VmEffects {
  import opened Vm

  /** p was taken from the free list and filled with pg; nothing else shows. */
  ghost predicate FreshPage(m: Machine, s: State, t: State, d: nat, lo: nat, p: int, pg: Page) {
    && s.free != [] && p == s.free[0] && t.free == s.free[1..] && m.lo <= p < m.hi
    && t.held == s.held + {s.free[0]} && p !in s.held && p !in s.dirs
    && s.free[0] < |s.mem| && t.mem == s.mem[s.free[0] := pg]
    && Same(s, t, d, lo, lo) && (forall e | e in s.dirs :: SameTables(s, t, e))
  }

  lemma AllocFillKeeps(m: Machine, s: State, d: nat, lo: nat, pg: Page)
    requires Owned(m, s) && s.free != []
    ensures s.free[0] < |s.mem|
    ensures Owned(m, SetPage(Alloc(s), s.free[0], pg))
    ensures FreshPage(m, s, SetPage(Alloc(s), s.free[0], pg), d, lo, s.free[0], pg)
  {
    var p := s.free[0];
    var a := Alloc(s);
    assert p in s.free;
    HeldNotPaging(m, s, p);
    AllocKeeps(m, s, d, lo);
    HeldNotPaging(m, a, p);
    var t := SetPage(a, p, pg);
    FillPtrs(a, p, pg);
    FillSame(m, a, p, pg, d, lo);
    SameMem(s, a);
    hide TableOf, Entry;
    MoveFree(m, a, t);
    SameThen(s, a, t, d, lo, lo, lo);
    forall e | e in s.dirs
      ensures SameTables(s, t, e)
    {
      assert SameTables(a, t, e);
    }
  }

  lemma DirThere(m: Machine, s: State, d: nat, v: nat)
    requires Owned(m, s) && d in s.dirs && v < ALLPAGES
    ensures d < |s.mem| && TableOf(s, d, v / NENTRIES) < |s.mem|
    ensures TableOf(s, d, v / NENTRIES) == Target(s.mem[d][v / NENTRIES])
  {
    Apart(m, s, d, d, v / NENTRIES, 0);
  }

  /** walkpgdir may add a page table for v and changes nothing that shows. */
  ghost predicate Walked(s: State, t: State, d: nat, v: nat) {
    Same(s, t, d, v, v) && t.held == s.held && |t.mem| == |s.mem|
    && (forall p | p in s.held && p < |s.mem| :: t.mem[p] == s.mem[p])
    && (v < ALLPAGES ==> forall x | 0 <= x < NENTRIES && x != v / NENTRIES :: TableOf(t, d, x) == TableOf(s, d, x))
  }

  lemma WalkedSame(s: State, d: nat, v: nat)
    ensures Walked(s, s, d, v)
  {
  }

  lemma LinkWalks(m: Machine, s: State, t: State, d: nat, v: nat, p: nat)
    requires Owned(m, s) && Owned(m, t) && d in s.dirs && v < ALLPAGES && TableOf(s, d, v / NENTRIES) == NONE
    requires FreshPage(m, s, t, d, v, p, Fill(0))
    ensures d < |t.mem| && Owned(m, LinkTable(t, d, v / NENTRIES, p))
    ensures Walked(s, LinkTable(t, d, v / NENTRIES, p), d, v)
    ensures TableOf(LinkTable(t, d, v / NENTRIES, p), d, v / NENTRIES) == p
  {
    assert SameTables(s, t, d);
    assert Linkable(m, t, d, v / NENTRIES, p);
    LinkKeeps(m, t, d, v / NENTRIES, p, v);
    LinkFields(t, d, v / NENTRIES, p);
    var u := LinkTable(t, d, v / NENTRIES, p);
    forall x | 0 <= x < NENTRIES
      ensures TableOf(u, d, x) == if x == v / NENTRIES then p else TableOf(s, d, x)
    {
      LinkTables(m, t, d, v / NENTRIES, p, d, x);
    }
    assert forall q | q in s.held && q < |s.mem| :: q != d by { assert PtrOk(m, s, Dir(d)); }
    assert u.mem == t.mem[d := u.mem[d]];
    hide TableOf, Entry, LinkTable;
    SameThen(s, t, u, d, v, v, v);
    assert u.held == s.held;
  }

  lemma HeldIn(m: Machine, s: State)
    requires Owned(m, s)
    ensures forall p | p in s.held :: m.lo <= p < m.hi && p < |s.mem|
  {
  }

  lemma NoTableNoEntry(s: State, d: nat, v: nat)
    requires v < ALLPAGES
    ensures TableOf(s, d, v / NENTRIES) == NONE ==> !Present(Entry(s, d, v))
  {
  }

  lemma EntryIs(m: Machine, s: State, t: State, d: nat, v: nat)
    requires Owned(m, t) && Walked(s, t, d, v) && d in s.dirs && v < ALLPAGES && TableOf(t, d, v / NENTRIES) != NONE
    ensures 0 <= TableOf(t, d, v / NENTRIES) < |t.mem|
    ensures Present(t.mem[TableOf(t, d, v / NENTRIES)][v % NENTRIES]) <==> Present(Entry(s, d, v))
  {
    Apart(m, t, d, d, v / NENTRIES, 0);
    hide TableOf;
    assert View(t, d, v) == View(s, d, v);
  }

  /** v of d shows page p with the given flags; a user page then belongs to d. */
  ghost predicate MapsPage(s: State, t: State, d: nat, v: nat, p: nat, perm: nat)
    requires v < ALLPAGES
  {
    && Same(s, t, d, v, v + 1) && |t.mem| == |s.mem|
    && t.held == (if v < USERPAGES then s.held - {p} else s.held)
    && (v < USERPAGES ==> p < |s.mem| && View(t, d, v) == (Pte(p, perm), s.mem[p]))
    && (v >= USERPAGES ==> View(t, d, v) == (Pte(p, perm), []))
    && TableAdded(s, t, d, v)
    && (forall q | q in t.held && q < |s.mem| :: t.mem[q] == s.mem[q])
  }

  /** Only the table that covers v may be new, and it is there. */
  ghost predicate TableAdded(s: State, t: State, d: nat, v: nat)
    requires v < ALLPAGES
  {
    && (forall x | 0 <= x < NENTRIES && x != v / NENTRIES :: TableOf(t, d, x) == TableOf(s, d, x))
    && TableOf(t, d, v / NENTRIES) != NONE
  }

  lemma SetMaps(m: Machine, s: State, t: State, d: nat, v: nat, p: nat, perm: nat)
    requires Owned(m, t) && Walked(s, t, d, v) && d in s.dirs && v < ALLPAGES && TableOf(t, d, v / NENTRIES) != NONE
    requires !Present(Entry(s, d, v)) && Perm(perm) && (v < USERPAGES ==> p in s.held && p < |s.mem|)
    ensures 0 <= TableOf(t, d, v / NENTRIES) < |t.mem|
    ensures var u := if v < USERPAGES then MapUser(t, d, v, p, perm) else SetEntry(t, d, v, Pte(p, perm));
            Owned(m, u) && MapsPage(s, u, d, v, p, perm)
  {
    EntryIs(m, s, t, d, v);
    PteIs(p, perm);
    var u := if v < USERPAGES then MapUser(t, d, v, p, perm) else SetEntry(t, d, v, Pte(p, perm));
    if v < USERPAGES {
      MapUserKeeps(m, t, d, v, p, perm);
    } else {
      MapKernelKeeps(m, t, d, v, Pte(p, perm));
    }
    SetMapsTables(m, s, t, u, d, v, p, perm);
    SetMapsHeld(m, t, u, d, v, p, perm);
    hide TableOf, Entry, View, SetEntry, MapUser;
    SameThen(s, t, u, d, v, v, v + 1);
  }

  lemma SetMapsTables(m: Machine, s: State, t: State, u: State, d: nat, v: nat, p: nat, perm: nat)
    requires HasTable(m, t, d, v) && Walked(s, t, d, v) && 0 <= TableOf(t, d, v / NENTRIES) < |t.mem|
    requires u == if v < USERPAGES then MapUser(t, d, v, p, perm) else SetEntry(t, d, v, Pte(p, perm))
    ensures TableAdded(s, u, d, v)
  {
    SameMem(SetEntry(t, d, v, Pte(p, perm)), u);
    forall x | 0 <= x < NENTRIES
      ensures TableOf(u, d, x) == TableOf(t, d, x)
    {
      SetTables(m, t, d, v, Pte(p, perm), d, x);
    }
  }

  lemma SetMapsHeld(m: Machine, t: State, u: State, d: nat, v: nat, p: nat, perm: nat)
    requires HasTable(m, t, d, v) && 0 <= TableOf(t, d, v / NENTRIES) < |t.mem|
    requires u == if v < USERPAGES then MapUser(t, d, v, p, perm) else SetEntry(t, d, v, Pte(p, perm))
    ensures |u.mem| == |t.mem| && u.free == t.free && u.held == if v < USERPAGES then t.held - {p} else t.held
    ensures forall q | q in t.held && q < |t.mem| :: u.mem[q] == t.mem[q]
  {
    forall q | q in t.held && q < |t.mem|
      ensures q != TableOf(t, d, v / NENTRIES)
    {
      HeldNotPaging(m, t, q);
    }
  }

  // ----- Runs of pages

  /** mappages over n pages of d from v on. */
  ghost predicate MapsRun(s: State, t: State, d: nat, v: nat, n: nat, p: nat, perm: nat)
    requires v + n <= ALLPAGES
  {
    && Same(s, t, d, v, v + n) && |t.mem| == |s.mem|
    && t.held == (if v < USERPAGES && n > 0 then s.held - {p} else s.held)
    && (v >= USERPAGES ==> forall u | v <= u < v + n :: View(t, d, u) == (Pte(p + (u - v), perm), []))
    && (v < USERPAGES && n == 1 ==> MapsPage(s, t, d, v, p, perm))
  }

  lemma MapsRunStart(s: State, d: nat, v: nat, p: nat, perm: nat)
    requires v <= ALLPAGES
    ensures MapsRun(s, s, d, v, 0, p, perm)
  {
  }

  lemma MapsRunStep(s: State, t: State, u: State, d: nat, v: nat, n: nat, p: nat, perm: nat)
    requires v + n < ALLPAGES && d in s.dirs && MapsRun(s, t, d, v, n, p, perm) && (v < USERPAGES ==> n == 0 && t == s)
    requires MapsPage(t, u, d, v + n, p + n, perm)
    ensures MapsRun(s, u, d, v, n + 1, p, perm)
  {
    hide View;
    SameThen(s, t, u, d, v, v + n, v + n + 1);
  }

  lemma MapsRunIs(s: State, t: State, d: nat, v: nat, n: nat, p: nat, perm: nat)
    requires v + n <= ALLPAGES && MapsRun(s, t, d, v, n, p, perm)
    ensures Same(s, t, d, v, v + n) && t.dirs == s.dirs && |t.mem| == |s.mem|
    ensures t.held == if v < USERPAGES && n > 0 then s.held - {p} else s.held
  {
  }

  lemma SameWider(s: State, t: State, d: nat, lo: nat, mid: nat, hi: nat)
    requires mid <= hi && Same(s, t, d, lo, mid)
    ensures Same(s, t, d, lo, hi)
  {
    hide View, TableOf;
  }

  lemma SameEntry(s: State, t: State, d: nat, lo: nat, v: nat)
    requires Same(s, t, d, lo, v) && v < ALLPAGES && d in s.dirs
    ensures Present(Entry(t, d, v)) <==> Present(Entry(s, d, v))
  {
    hide Entry;
    assert View(t, d, v) == View(s, d, v);
  }

  // ----- Sizes in bytes

  const KERNBASE: nat := 0x8000_0000

  /** PGROUNDUP, in pages: the fewest pages of 4096 bytes that hold sz bytes. */
  function Pages(sz: nat): (r: nat)
    ensures 4096 * r >= sz && (r > 0 ==> 4096 * (r - 1) < sz)
  {
    (sz + PGSIZE - 1) / PGSIZE
  }

  // ----- Dropping pages

  /** deallocuvm over the pages lo..hi of d: nothing is mapped there, and nothing else changed. */
  ghost predicate Dropped(s: State, t: State, d: nat, lo: nat, hi: nat)
    requires hi <= ALLPAGES
  {
    && Same(s, t, d, lo, hi) && SameTables(s, t, d) && t.held == s.held && |t.mem| == |s.mem|
    && (forall v | lo <= v < hi :: View(t, d, v) == (0, []))
  }

  lemma DroppedStart(s: State, d: nat, lo: nat)
    requires lo <= ALLPAGES
    ensures Dropped(s, s, d, lo, lo)
  {
  }

  /** Passing over pages that are not mapped. */
  lemma DroppedSkip(s: State, t: State, d: nat, lo: nat, v: nat, hi: nat)
    requires lo <= v <= hi <= ALLPAGES && d in s.dirs && Dropped(s, t, d, lo, v)
    requires forall u | v <= u < hi :: !Present(Entry(t, d, u))
    ensures Dropped(s, t, d, lo, hi)
  {
    hide Entry, TableOf;
  }

  /** Where there is no page table nothing is mapped, up to the next table. */
  lemma NoTable(s: State, d: nat, v: nat, hi: nat)
    requires v < ALLPAGES && hi <= ALLPAGES && hi <= (v / NENTRIES + 1) * NENTRIES
    requires TableOf(s, d, v / NENTRIES) == NONE
    ensures forall u | v <= u < hi :: !Present(Entry(s, d, u))
  {
    forall u | v <= u < hi
      ensures !Present(Entry(s, d, u))
    {
      assert u / NENTRIES == v / NENTRIES;
    }
  }

  /** kfree of the page at v and clearing of its entry, in the source's order. */
  function DropPage(s: State, d: nat, v: nat): State
    requires v < USERPAGES && 0 <= TableOf(s, d, v / NENTRIES) < |s.mem| && Addr(Entry(s, d, v)) < |s.mem|
  {
    Free(UnmapUser(s, d, v), Addr(Entry(s, d, v)))
  }

  lemma DroppedStep(m: Machine, s: State, t: State, d: nat, lo: nat, v: nat)
    requires lo <= v < USERPAGES && d in s.dirs && Dropped(s, t, d, lo, v)
    requires HasTable(m, t, d, v) && Present(Entry(t, d, v))
    ensures 0 <= TableOf(t, d, v / NENTRIES) < |t.mem| && Addr(Entry(t, d, v)) < |t.mem|
    ensures m.lo <= Addr(Entry(t, d, v)) < m.hi && TableOf(t, d, v / NENTRIES) != Addr(Entry(t, d, v))
    ensures Owned(m, DropPage(t, d, v)) && Dropped(s, DropPage(t, d, v), d, lo, v + 1)
  {
    var p := Addr(Entry(t, d, v));
    assert PtrOk(m, t, User(d, v)) && Ptr(t, User(d, v)) == p;
    UserApart(m, t, d, v, TableOf(t, d, v / NENTRIES));
    UnmapUserKeeps(m, t, d, v);
    var u := UnmapUser(t, d, v);
    FreeKeeps(m, u, p, d, v + 1);
    var w := Free(u, p);
    assert w.held == s.held;
    hide TableOf, Entry, View, UnmapUser, Free;
    SameThen(t, u, w, d, v, v + 1, v + 1);
    SameThen(s, t, w, d, lo, v, v + 1);
    assert SameTables(t, u, d) && SameTables(u, w, d);
    assert View(w, d, v) == View(u, d, v);
    forall x | lo <= x < v
      ensures View(w, d, x) == (0, [])
    {
      assert View(w, d, x) == View(t, d, x);
    }
  }

  lemma UserNotHeld(m: Machine, s: State, d: nat, v: nat)
    requires Owned(m, s) && d in s.dirs && v < USERPAGES && Present(Entry(s, d, v))
    ensures Addr(Entry(s, d, v)) !in s.held
  {
    assert PtrOk(m, s, User(d, v)) && Ptr(s, User(d, v)) == Addr(Entry(s, d, v));
  }

  lemma EntryAt(s: State, d: nat, v: nat)
    requires v < ALLPAGES && 0 <= TableOf(s, d, v / NENTRIES) < |s.mem|
    ensures Entry(s, d, v) == s.mem[TableOf(s, d, v / NENTRIES)][v % NENTRIES]
  {
  }

  /** The source frees the page before it clears the entry; the result is the same. */
  lemma DropOrder(s: State, t: State, d: nat, v: nat, q: nat, p: nat)
    requires v < USERPAGES && q == TableOf(s, d, v / NENTRIES) && q < |s.mem| && p == Addr(Entry(s, d, v)) && p < |s.mem|
    requires q != p && p !in s.held
    requires t.free == Free(s, p).free && t.dirs == s.dirs && t.held == s.held
    requires t.mem == Free(s, p).mem[q := SetIn(Free(s, p).mem[q], v % NENTRIES, 0)]
    ensures t == DropPage(s, d, v)
  {
    assert s.held + {p} - {p} == s.held;
  }

  /** The pages deallocuvm frees are exactly those that were mapped in the range. */
  lemma DroppedFrees(m: Machine, s: State, t: State, d: nat, lo: nat, hi: nat)
    requires Owned(m, s) && Owned(m, t) && d in s.dirs && hi <= USERPAGES && Dropped(s, t, d, lo, hi)
    ensures forall p :: p in t.free <==> p in s.free || exists v | lo <= v < hi :: Ptr(s, User(d, v)) == p && p != NONE
  {
    forall o | Slot(s, o)
      ensures Slot(t, o) && Ptr(t, o) == if o.User? && o.d == d && lo <= o.v < hi then NONE else Ptr(s, o)
    {
      DroppedPtr(s, t, d, lo, hi, o);
    }
    hide Ptr, Same, Dropped;
    FreeIff(m, s);
    FreeIff(m, t);
    assert t.dirs == s.dirs && t.held == s.held by { DroppedFields(s, t, d, lo, hi); }
    forall p
      ensures p in t.free <==> p in s.free || exists v | lo <= v < hi :: Ptr(s, User(d, v)) == p && p != NONE
    {
      DroppedOwner(m, s, t, d, lo, hi, p);
    }
  }

  lemma DroppedFields(s: State, t: State, d: nat, lo: nat, hi: nat)
    requires hi <= ALLPAGES && Dropped(s, t, d, lo, hi)
    ensures t.dirs == s.dirs && t.held == s.held
  {
  }

  lemma DroppedPtr(s: State, t: State, d: nat, lo: nat, hi: nat, o: Owner)
    requires d in s.dirs && hi <= USERPAGES && Dropped(s, t, d, lo, hi) && Slot(s, o)
    ensures Slot(t, o) && Ptr(t, o) == if o.User? && o.d == d && lo <= o.v < hi then NONE else Ptr(s, o)
  {
    hide TableOf, Entry;
    if o.Table? {
      assert SameTables(s, t, o.d);
    } else if o.User? {
      assert (o.d == d && lo <= o.v < hi) || View(t, o.d, o.v) == View(s, o.d, o.v);
      assert View(t, o.d, o.v) == View(t, o.d, o.v);
    }
  }

  lemma DroppedOwner(m: Machine, s: State, t: State, d: nat, lo: nat, hi: nat, p: int)
    requires Owned(m, s) && Owned(m, t) && d in s.dirs && hi <= USERPAGES && t.dirs == s.dirs && t.held == s.held
    requires forall q :: q in s.free <==> m.lo <= q < m.hi && q !in s.held && !HasOwner(s, q)
    requires forall q :: q in t.free <==> m.lo <= q < m.hi && q !in t.held && !HasOwner(t, q)
    requires forall o | Slot(s, o) ::
               Slot(t, o) && Ptr(t, o) == if o.User? && o.d == d && lo <= o.v < hi then NONE else Ptr(s, o)
    ensures p in t.free <==> p in s.free || exists v | lo <= v < hi :: Ptr(s, User(d, v)) == p && p != NONE
  {
    hide Ptr;
    if HasOwner(s, p) && p != NONE {
      var o :| Slot(s, o) && Ptr(s, o) == p;
      assert PtrOk(m, s, o);
      if o.User? && o.d == d && lo <= o.v < hi {
        assert o == User(d, o.v);
        forall o' | Slot(t, o')
          ensures Ptr(t, o') != p
        {
          assert Slot(s, o');
        }
      } else {
        assert Slot(t, o) && Ptr(t, o) == p;
        forall v | lo <= v < hi
          ensures Ptr(s, User(d, v)) != p
        {
          assert Slot(s, User(d, v));
        }
      }
    } else {
      forall v | lo <= v < hi && p != NONE
        ensures Ptr(s, User(d, v)) != p
      {
        assert Slot(s, User(d, v));
      }
    }
  }

  // ----- Taking an address space apart

  /** p is the directory, a page table or a user page of d. */
  ghost predicate OwnedBy(s: State, d: nat, p: int) {
    p != NONE && exists o :: Slot(s, o) && o.d == d && Ptr(s, o) == p
  }

  /** freevm: d is gone, and no other address space and no holder has changed. */
  ghost predicate Destroyed(s: State, t: State, d: nat) {
    && t.dirs == s.dirs - {d} && t.held == s.held && |t.mem| == |s.mem|
    && (forall e | e in t.dirs :: Kept(s, t, e))
  }

  /** Every page of the address space is free, and no other page became free. */
  lemma DestroyedFrees(m: Machine, s: State, t: State, d: nat)
    requires Owned(m, s) && Owned(m, t) && d in s.dirs && Destroyed(s, t, d)
    ensures forall p :: p in t.free <==> p in s.free || OwnedBy(s, d, p)
  {
    forall o | Slot(t, o)
      ensures Slot(s, o) && Ptr(t, o) == Ptr(s, o)
    {
      KeptPtrs(s, t, o.d);
      assert Slot(s, o);
    }
    hide Ptr, Kept;
    FreeIff(m, s);
    FreeIff(m, t);
    forall p
      ensures p in t.free <==> p in s.free || OwnedBy(s, d, p)
    {
      DestroyedOwner(m, s, t, d, p);
    }
  }

  lemma DestroyedOwner(m: Machine, s: State, t: State, d: nat, p: int)
    requires Owned(m, s) && Owned(m, t) && d in s.dirs && t.dirs == s.dirs - {d} && t.held == s.held
    requires p in s.free <==> m.lo <= p < m.hi && p !in s.held && !HasOwner(s, p)
    requires p in t.free <==> m.lo <= p < m.hi && p !in t.held && !HasOwner(t, p)
    requires forall o | Slot(t, o) :: Slot(s, o) && Ptr(t, o) == Ptr(s, o)
    ensures p in t.free <==> p in s.free || OwnedBy(s, d, p)
  {
    hide Ptr;
    if OwnedBy(s, d, p) {
      var o :| Slot(s, o) && o.d == d && Ptr(s, o) == p;
      assert PtrOk(m, s, o);
      forall o' | Slot(t, o')
        ensures Ptr(t, o') != p
      {
        assert Slot(s, o') && o' != o;
      }
    } else if HasOwner(s, p) && p != NONE {
      var o :| Slot(s, o) && Ptr(s, o) == p;
      assert Slot(t, o) && Ptr(t, o) == p;
    }
  }

  /** freevm after n directory entries: those tables are free, the rest and the directory are still held. */
  ghost predicate Freeing(m: Machine, s: State, t: State, d: nat, n: nat)
    requires n <= NENTRIES
  {
    && Owned(m, t) && t.dirs == s.dirs - {d} && |t.mem| == |s.mem| && d < |s.mem| && t.mem[d] == s.mem[d]
    && t.held == s.held + {d} + (TablesOf(s, d, NENTRIES) - TablesOf(s, d, n))
    && (forall e | e in t.dirs :: Kept(s, t, e))
  }

  lemma FreeingStart(m: Machine, s: State, d: nat)
    requires Owned(m, s) && d in s.dirs && forall v | 0 <= v < USERPAGES :: View(s, d, v) == (0, [])
    ensures Freeing(m, s, Retire(s, d), d, 0)
  {
    forall v | 0 <= v < USERPAGES
      ensures !Present(Entry(s, d, v))
    {
      hide Entry;
      assert View(s, d, v) == (0, []);
    }
    RetireKeeps(m, s, d);
    assert PtrOk(m, s, Dir(d)) && Ptr(s, Dir(d)) == d;
    hide View, TableOf, Entry, TablesOf;
    assert TablesOf(s, d, 0) == {} by { NoTablesYet(s, d); }
    assert TablesOf(s, d, NENTRIES) - {} == TablesOf(s, d, NENTRIES);
  }

  lemma NoTablesYet(s: State, d: nat)
    ensures TablesOf(s, d, 0) == {}
  {
  }

  lemma FreeingStep(m: Machine, s: State, t: State, d: nat, n: nat)
    requires Owned(m, s) && d in s.dirs && n < NENTRIES && Freeing(m, s, t, d, n)
    ensures var p := TableOf(s, d, n);
            && p == Target(t.mem[d][n])
            && if p == NONE then Freeing(m, s, t, d, n + 1)
               else m.lo <= p < m.hi && p < |t.mem| && p != d && Freeing(m, s, Free(t, p), d, n + 1)
  {
    hide View, Entry;
    var p := TableOf(s, d, n);
    assert PtrOk(m, s, Table(d, n)) && Ptr(s, Table(d, n)) == p;
    assert Ptr(s, Dir(d)) == d;
    assert p == Target(t.mem[d][n]);
    if p != NONE {
      TablesOfHas(s, d, NENTRIES, p);
      TablesOfHas(s, d, n, p);
      forall x | 0 <= x < n
        ensures TableOf(s, d, x) != p
      {
        assert Ptr(s, Table(d, x)) == TableOf(s, d, x);
      }
      hide TableOf;
      assert p in t.held;
      FreeKeeps(m, t, p, d, 0);
      FreeingSets(s, d, n, p, t.held);
      var u := Free(t, p);
      assert u.mem == t.mem[p := u.mem[p]];
      hide Free;
      assert u.dirs == t.dirs by { FreeFields(t, p); }
      assert u.held == t.held - {p} by { FreeFields(t, p); }
      forall e | e in u.dirs
        ensures Kept(s, u, e)
      {
        assert Kept(t, u, e);
        KeptThen(s, t, u, e);
      }
    } else {
      hide TableOf;
      assert TablesOf(s, d, n + 1) == TablesOf(s, d, n);
    }
  }

  lemma FreeFields(s: State, p: nat)
    requires p < |s.mem|
    ensures Free(s, p).dirs == s.dirs && Free(s, p).held == s.held - {p}
  {
  }

  lemma FreeingSets(s: State, d: nat, n: nat, p: nat, held: set<nat>)
    requires n < NENTRIES && TableOf(s, d, n) == p && p !in TablesOf(s, d, n) && p != d && p !in s.held
    requires held == s.held + {d} + (TablesOf(s, d, NENTRIES) - TablesOf(s, d, n))
    ensures held - {p} == s.held + {d} + (TablesOf(s, d, NENTRIES) - TablesOf(s, d, n + 1))
  {
    hide TableOf;
    assert TablesOf(s, d, n + 1) == TablesOf(s, d, n) + {p};
  }

  lemma FreeingEnd(m: Machine, s: State, t: State, d: nat)
    requires Owned(m, s) && d in s.dirs && Freeing(m, s, t, d, NENTRIES)
    ensures m.lo <= d < m.hi && d < |t.mem| && Owned(m, Free(t, d)) && Destroyed(s, Free(t, d), d)
  {
    hide View, Entry, TableOf, TablesOf;
    assert PtrOk(m, s, Dir(d)) && Ptr(s, Dir(d)) == d;
    assert t.held == s.held + {d};
    FreeKeeps(m, t, d, d, 0);
    var u := Free(t, d);
    assert u.held == s.held;
    forall e | e in u.dirs
      ensures Kept(s, u, e)
    {
      assert Kept(t, u, e);
      KeptThen(s, t, u, e);
    }
  }

  lemma EmptyUser(s: State, t: State, d: nat)
    requires Dropped(s, t, d, Pages(0), Pages(KERNBASE))
    ensures t.dirs == s.dirs && forall v | 0 <= v < USERPAGES :: View(t, d, v) == (0, [])
  {
    assert Pages(0) == 0 && Pages(KERNBASE) == USERPAGES;
  }

  lemma RetireFields(s: State, d: nat)
    ensures Retire(s, d) == s.(dirs := s.dirs - {d}, held := s.held + {d} + TablesOf(s, d, NENTRIES))
  {
  }

  lemma FreeingDir(m: Machine, s: State, t: State, d: nat, n: nat)
    requires n <= NENTRIES && Freeing(m, s, t, d, n)
    ensures d < |t.mem|
  {
  }

  lemma DroppedThenDestroyed(s: State, t: State, u: State, d: nat)
    requires Dropped(s, t, d, Pages(0), Pages(KERNBASE)) && Destroyed(t, u, d)
    ensures Destroyed(s, u, d)
  {
    hide View, TableOf;
    forall e | e in u.dirs
      ensures Kept(s, u, e)
    {
      SameKept(s, t, d, Pages(0), Pages(KERNBASE), e);
      KeptThen(s, t, u, e);
    }
  }

  // ----- Growing

  /** A present, writable, user page of zeros. */
  predicate ZeroUser(s: State, d: nat, v: nat)
    requires v < ALLPAGES
  {
    View(s, d, v).1 == Fill(0) && Present(View(s, d, v).0) && Flags(View(s, d, v).0) == PTE_W + PTE_U + 1
  }

  /** allocuvm's loop once the pages lo..v of d are in place. */
  ghost predicate Grown(s: State, t: State, d: nat, lo: nat, v: nat)
    requires v <= ALLPAGES
  {
    && Same(s, t, d, lo, v) && t.held == s.held && |t.mem| == |s.mem|
    && (forall u | lo <= u < v :: ZeroUser(t, d, u) && !Present(Entry(s, d, u)))
  }

  /** New pages are present, writable and the user's (flags 7), and hold zeros. */
  lemma GrownWords(s: State, t: State, d: nat, lo: nat, hi: nat)
    requires hi <= ALLPAGES && Grown(s, t, d, lo, hi)
    ensures forall v | lo <= v < hi ::
              && Entry(t, d, v) % 4096 == 7 && Entry(t, d, v) / 4096 < |t.mem|
              && forall j | 0 <= j < 1024 :: t.mem[Entry(t, d, v) / 4096][j] == 0
  {
    hide View, Entry, Same;
    forall v | lo <= v < hi
      ensures Entry(t, d, v) % 4096 == 7 && Entry(t, d, v) / 4096 < |t.mem|
      ensures forall j | 0 <= j < 1024 :: t.mem[Entry(t, d, v) / 4096][j] == 0
    {
      assert ZeroUser(t, d, v);
      ViewWord(t, d, v);
    }
  }

  /** Free pages that growing by the pages lo..hi takes: one each, and one for every missing page table. */
  function Needed(s: State, d: nat, lo: nat, hi: nat): nat
    requires hi <= ALLPAGES
    decreases hi
  {
    if lo >= hi then 0
    else
      Needed(s, d, lo, hi - 1) + 1
      + (if (hi - 1 == lo || (hi - 1) % NENTRIES == 0) && TableOf(s, d, (hi - 1) / NENTRIES) == NONE then 1 else 0)
  }

  lemma {:induction false} NeededMore(s: State, d: nat, lo: nat, v: nat, hi: nat)
    requires lo <= v <= hi <= ALLPAGES
    ensures Needed(s, d, lo, v) + (hi - v) <= Needed(s, d, lo, hi)
    decreases hi
  {
    hide TableOf;
    if v < hi {
      NeededMore(s, d, lo, v, hi - 1);
    }
  }

  /** The free list and the page tables part-way: what was needed so far is gone. */
  ghost predicate Spent(s: State, t: State, d: nat, lo: nat, v: nat)
    requires lo <= v <= ALLPAGES
  {
    && |t.free| + Needed(s, d, lo, v) == |s.free|
    && (v > lo ==> TableOf(t, d, (v - 1) / NENTRIES) != NONE)
    && (forall x | 0 <= x < NENTRIES && (v == lo || x > (v - 1) / NENTRIES) :: TableOf(t, d, x) == TableOf(s, d, x))
  }

  lemma SpentNext(s: State, t: State, d: nat, lo: nat, v: nat)
    requires lo <= v < ALLPAGES && Spent(s, t, d, lo, v)
    ensures Needed(s, d, lo, v + 1)
         == Needed(s, d, lo, v) + 1 + (if TableOf(t, d, v / NENTRIES) == NONE then 1 else 0)
  {
    if v > lo && v % NENTRIES != 0 {
      assert v / NENTRIES == (v - 1) / NENTRIES;
    } else if v > lo {
      assert v / NENTRIES > (v - 1) / NENTRIES;
    }
    hide TableOf;
  }

  lemma SpentStep(s: State, t: State, z: State, u: State, d: nat, lo: nat, v: nat)
    requires lo <= v < ALLPAGES && Spent(s, t, d, lo, v) && SameTables(t, z, d) && TableAdded(z, u, d, v)
    requires |u.free| == |t.free| - 1 - (if TableOf(t, d, v / NENTRIES) == NONE then 1 else 0)
    ensures Spent(s, u, d, lo, v + 1)
  {
    SpentNext(s, t, d, lo, v);
    hide TableOf, Needed;
    forall x | 0 <= x < NENTRIES && x > v / NENTRIES
      ensures TableOf(u, d, x) == TableOf(s, d, x)
    {
      assert TableOf(z, d, x) == TableOf(t, d, x);
      assert v > lo ==> x > (v - 1) / NENTRIES;
    }
  }

  lemma GrownStart(s: State, d: nat, lo: nat)
    requires lo <= ALLPAGES
    ensures Grown(s, s, d, lo, lo) && Spent(s, s, d, lo, lo)
  {
  }

  /** One page of allocuvm's loop: a fresh zeroed page is mapped. */
  lemma GrownStep(m: Machine, s: State, t: State, z: State, u: State, d: nat, lo: nat, v: nat, p: nat)
    requires lo <= v < USERPAGES && d in s.dirs && Grown(s, t, d, lo, v) && FreshPage(m, t, z, d, v, p, Fill(0))
    requires MapsPage(z, u, d, v, p, PTE_W + PTE_U) && !Present(Entry(z, d, v))
    ensures Grown(s, u, d, lo, v + 1)
  {
    PteIs(p, PTE_W + PTE_U);
    SameEntry(t, z, d, v, v);
    SameEntry(s, t, d, lo, v);
    hide TableOf, Entry, View;
    SameThen(s, t, z, d, lo, v, v);
    SameThen(s, z, u, d, lo, v, v + 1);
    assert z.held - {p} == t.held;
    forall w | lo <= w < v
      ensures ZeroUser(u, d, w)
    {
      assert ZeroUser(t, d, w);
      assert View(u, d, w) == View(z, d, w) == View(t, d, w);
    }
  }

  lemma GrownIs(s: State, t: State, d: nat, lo: nat, v: nat)
    requires v <= ALLPAGES && Grown(s, t, d, lo, v)
    ensures Same(s, t, d, lo, v) && t.held == s.held && |t.mem| == |s.mem| && t.dirs == s.dirs
  {
  }

  lemma SpentIs(s: State, t: State, d: nat, lo: nat, v: nat, hi: nat)
    requires lo <= v <= hi <= ALLPAGES && Spent(s, t, d, lo, v)
    ensures |t.free| + Needed(s, d, lo, v) == |s.free|
    ensures v < hi ==> Needed(s, d, lo, hi) >= Needed(s, d, lo, v) + 1 + (if TableOf(t, d, v / NENTRIES) == NONE then 1 else 0)
  {
    hide TableOf, Needed;
    if v < hi {
      SpentNext(s, t, d, lo, v);
      NeededMore(s, d, lo, v + 1, hi);
    }
  }

  /** Page u is the first of lo.. that is mapped already. */
  predicate FirstMapped(s: State, d: nat, lo: nat, u: nat)
    requires u < ALLPAGES
  {
    Present(Entry(s, d, u)) && forall v | lo <= v < u :: !Present(Entry(s, d, v))
  }

  /** Growing by lo..hi gets as far as a page that is mapped already: memory lasts up to there. */
  ghost predicate Collides(s: State, d: nat, lo: nat, hi: nat)
    requires hi <= ALLPAGES
  {
    exists u | lo <= u < hi :: FirstMapped(s, d, lo, u) && Needed(s, d, lo, u) < |s.free|
  }

  /** Growing that runs out of memory at page v meets no mapped page before. */
  lemma NoCollision(s: State, t: State, d: nat, lo: nat, v: nat, hi: nat)
    requires lo <= v < hi <= ALLPAGES && Spent(s, t, d, lo, v) && forall u | lo <= u < v :: !Present(Entry(s, d, u))
    requires |t.free| == 0 || (|t.free| == 1 && TableOf(t, d, v / NENTRIES) == NONE && !Present(Entry(s, d, v)))
    ensures !Collides(s, d, lo, hi)
  {
    hide TableOf, Entry, Needed;
    forall u | lo <= u < hi && FirstMapped(s, d, lo, u)
      ensures Needed(s, d, lo, u) >= |s.free|
    {
      assert u >= v;
      if u > v { SpentIs(s, t, d, lo, v, u); }
    }
  }

  lemma GrownAbsent(s: State, t: State, d: nat, lo: nat, v: nat)
    requires v <= ALLPAGES && Grown(s, t, d, lo, v)
    ensures forall u | lo <= u < v :: !Present(Entry(s, d, u))
  {
    hide Entry, View;
  }

  lemma NothingMapped(s: State, t: State, d: nat, lo: nat, hi: nat)
    requires hi <= ALLPAGES && Grown(s, t, d, lo, hi)
    ensures !Collides(s, d, lo, hi) && forall u | lo <= u < hi :: !Present(Entry(s, d, u))
  {
    hide Entry, Needed, View;
  }

  lemma FreshPageIs(m: Machine, s: State, t: State, d: nat, lo: nat, p: int, pg: Page)
    requires FreshPage(m, s, t, d, lo, p, pg)
    ensures p >= 0 && p in t.held && p !in s.held && t.held == s.held + {p} && |t.free| == |s.free| - 1
    ensures Same(s, t, d, lo, lo) && t.dirs == s.dirs && |t.mem| == |s.mem| && p !in s.dirs && p < |t.mem| && t.mem[p] == pg
    ensures d in s.dirs ==> SameTables(s, t, d)
  {
  }

  lemma RunIsPage(s: State, t: State, d: nat, v: nat, p: nat, perm: nat)
    requires v < USERPAGES && MapsRun(s, t, d, v, 1, p, perm)
    ensures MapsPage(s, t, d, v, p, perm) && TableAdded(s, t, d, v)
  {
  }

  /** Giving up: the pages grown so far, and any that were mapped further on, are unmapped. */
  ghost predicate Cleared(s: State, t: State, d: nat, lo: nat, hi: nat)
    requires hi <= ALLPAGES
  {
    Same(s, t, d, lo, hi) && t.held == s.held && |t.mem| == |s.mem| && forall v | lo <= v < hi :: View(t, d, v) == (0, [])
  }

  /** When growing fails there was something to grow. */
  lemma NeedsSome(s: State, d: nat, oldsz: nat, newsz: nat)
    requires oldsz <= newsz < KERNBASE
    ensures Pages(oldsz) <= Pages(newsz) <= USERPAGES
    ensures Needed(s, d, Pages(oldsz), Pages(newsz)) > 0 ==> oldsz < newsz
  {
    hide TableOf;
  }

  lemma HeldStill(s: State, t: State, d: nat, lo: nat, hi: nat)
    requires hi <= ALLPAGES && Dropped(s, t, d, lo, hi)
    ensures t.held == s.held && |t.mem| == |s.mem| && t.dirs == s.dirs
  {
  }

  /** A page that was never mapped goes back to the free list. */
  lemma GiveBack(m: Machine, s: State, t: State, d: nat, lo: nat, hi: nat, p: nat)
    requires hi <= ALLPAGES && d in s.dirs && Dropped(s, t, d, lo, hi) && Owned(m, t) && p in t.held
    ensures m.lo <= p < m.hi && p < |t.mem| && Owned(m, Free(t, p)) && GivenBack(s, Free(t, p), d, lo, hi, p)
  {
    FreeKeeps(m, t, p, d, hi);
    HeldIn(m, t);
    FreeFields(t, p);
    hide View, TableOf, Free;
    var u := Free(t, p);
    GiveBackSame(s, t, u, d, lo, hi);
    assert |u.mem| == |s.mem| by { FreeLength(t, p); }
    forall v | lo <= v < hi
      ensures View(u, d, v) == (0, [])
    {
      assert View(t, d, v) == (0, []);
      GiveBackView(s, t, u, d, lo, hi, v);
    }
  }

  lemma FreeLength(s: State, p: nat)
    requires p < |s.mem|
    ensures |Free(s, p).mem| == |s.mem|
  {
  }

  lemma GiveBackSame(s: State, t: State, u: State, d: nat, lo: nat, hi: nat)
    requires Same(s, t, d, lo, hi) && Same(t, u, d, hi, hi)
    ensures Same(s, u, d, lo, hi)
  {
    SameWider(t, u, d, hi, hi, hi);
    SameWiden(t, u, d, lo, hi);
    SameOver(s, t, u, d, lo, hi);
  }

  lemma SameWiden(s: State, t: State, d: nat, lo: nat, hi: nat)
    requires Same(s, t, d, hi, hi)
    ensures Same(s, t, d, lo, hi)
  {
    hide View, TableOf;
  }

  lemma GiveBackView(s: State, t: State, u: State, d: nat, lo: nat, hi: nat, v: nat)
    requires hi <= ALLPAGES && Same(s, t, d, lo, hi) && Same(t, u, d, hi, hi) && lo <= v < hi && View(t, d, v) == (0, [])
    ensures d in s.dirs ==> View(u, d, v) == (0, [])
  {
    hide View, TableOf;
  }

  ghost predicate GivenBack(s: State, t: State, d: nat, lo: nat, hi: nat, p: nat)
    requires hi <= ALLPAGES
  {
    && Same(s, t, d, lo, hi) && t.held == s.held - {p} && |t.mem| == |s.mem|
    && (forall v | lo <= v < hi :: View(t, d, v) == (0, []))
  }

  lemma GrownGivenUp(s: State, t: State, u: State, d: nat, lo: nat, v: nat, hi: nat)
    requires lo <= v <= hi <= ALLPAGES && Same(s, t, d, lo, v) && |t.mem| == |s.mem| && u.held == s.held
    requires Dropped(t, u, d, lo, hi) || exists p: nat :: GivenBack(t, u, d, lo, hi, p)
    ensures Cleared(s, u, d, lo, hi)
  {
    hide TableOf, View;
    SameWider(s, t, d, lo, v, hi);
    SameOver(s, t, u, d, lo, hi);
  }

  lemma SameOver(s: State, t: State, u: State, d: nat, lo: nat, hi: nat)
    requires Same(s, t, d, lo, hi) && Same(t, u, d, lo, hi)
    ensures Same(s, u, d, lo, hi)
  {
    hide TableOf, View;
    forall e | e in s.dirs && e != d
      ensures SameTables(s, u, e)
    {
      assert SameTables(s, t, e) && SameTables(t, u, e);
    }
  }

  /** The rollback restores the address space exactly when nothing was mapped in the range before. */
  lemma ClearedRestoresIff(s: State, t: State, d: nat, lo: nat, hi: nat)
    requires hi <= ALLPAGES && d in s.dirs && Cleared(s, t, d, lo, hi)
    ensures Same(s, t, d, 0, 0) <==> forall v | lo <= v < hi :: !Present(Entry(s, d, v))
  {
    hide TableOf, Entry;
    if Same(s, t, d, 0, 0) {
      forall v | lo <= v < hi
        ensures !Present(Entry(s, d, v))
      {
        assert View(t, d, v) == View(s, d, v);
      }
    }
  }

  // ----- Start of the machine

  /** Before kinit1 every page of the allocator is in the boot code's hands. */
  ghost function Booted(m: Machine, mem: seq<Page>): State
    requires m.lo <= m.hi
  {
    State([], mem, {}, Interval(m.lo, m.hi - m.lo))
  }

  lemma BootOwned(m: Machine, mem: seq<Page>)
    requires 0 < m.lo <= m.hi <= |mem| && m.hi <= ALLPAGES
    ensures Owned(m, Booted(m, mem))
  {
    var s := Booted(m, mem);
    assert forall o :: !Slot(s, o);
  }

  // ----- Counting page tables

  /** The directory entries of d that name a page table. */
  ghost function Tables(s: State, d: nat): set<nat> {
    set x: nat | x < NENTRIES && TableOf(s, d, x) != NONE
  }

  function Interval(lo: nat, n: nat): (r: set<nat>)
    ensures |r| == n && forall x: nat :: x in r <==> lo <= x < lo + n
  {
    if n == 0 then {} else Interval(lo, n - 1) + {lo + n - 1}
  }

  /** The directory entries that cover the pages lo..hi. */
  function Span(lo: nat, hi: nat): (r: set<nat>)
    ensures forall x: nat :: x in r <==> lo < hi && lo / NENTRIES <= x <= (hi - 1) / NENTRIES
  {
    if lo < hi then Interval(lo / NENTRIES, (hi - 1) / NENTRIES - lo / NENTRIES + 1) else {}
  }

  /** Every page that left the free list became a page table of d. */
  ghost predicate Paid(s: State, t: State, d: nat) {
    |t.free| + |Tables(t, d)| == |s.free| + |Tables(s, d)|
  }

  lemma TableAddedPays(s: State, t: State, d: nat, v: nat)
    requires v < ALLPAGES && TableAdded(s, t, d, v)
    requires |t.free| == |s.free| - (if TableOf(s, d, v / NENTRIES) == NONE then 1 else 0)
    ensures Tables(t, d) == Tables(s, d) + {v / NENTRIES} && Paid(s, t, d)
  {
    hide TableOf;
    var x := v / NENTRIES;
    assert Tables(t, d) == Tables(s, d) + {x};
    if x in Tables(s, d) { assert Tables(s, d) + {x} == Tables(s, d); }
  }

  lemma PaidStart(s: State, d: nat)
    ensures Paid(s, s, d)
  {
  }

  lemma SameTablesCount(s: State, t: State, d: nat)
    requires SameTables(s, t, d)
    ensures Tables(t, d) == Tables(s, d)
  {
    hide TableOf;
  }

  lemma NoTables(s: State, t: State, d: nat)
    requires t.mem == s.mem && Tables(s, d) == {}
    ensures Tables(t, d) == {}
  {
    SameMem(s, t);
    hide TableOf;
    forall x: nat | x < NENTRIES
      ensures TableOf(t, d, x) == NONE
    {
      assert x !in Tables(s, d);
    }
  }

  /** One more page of mappages. */
  lemma MapsPays(s: State, t: State, u: State, d: nat, v: nat, i: nat, p: nat, perm: nat)
    requires v + i < ALLPAGES && MapsPage(t, u, d, v + i, p, perm) && Paid(s, t, d) && Tables(t, d) == Tables(s, d) + Span(v, v + i)
    requires |u.free| == |t.free| - (if TableOf(t, d, (v + i) / NENTRIES) == NONE then 1 else 0)
    ensures Paid(s, u, d) && Tables(u, d) == Tables(s, d) + Span(v, v + i + 1)
  {
    hide TableOf, Same, View, Span, Tables;
    TableAddedPays(t, u, d, v + i);
    SpanNext(v, v + i);
  }

  lemma SpanNext(lo: nat, v: nat)
    requires lo <= v
    ensures Span(lo, lo) == {} && Span(lo, v + 1) == Span(lo, v) + {v / NENTRIES}
  {
  }

  /** A table that is still missing part-way makes the whole run too expensive. */
  lemma SpanMissing(s: State, t: State, d: nat, v: nat, i: nat, n: nat)
    requires i < n && v + n <= ALLPAGES && Tables(t, d) == Tables(s, d) + Span(v, v + i) && TableOf(t, d, (v + i) / NENTRIES) == NONE
    ensures Tables(t, d) < Tables(s, d) + Span(v, v + n)
  {
    hide TableOf;
    assert (v + i) / NENTRIES in Span(v, v + n) && (v + i) / NENTRIES !in Tables(t, d);
    assert Span(v, v + i) <= Span(v, v + n);
  }

  lemma ZeroDirectory(s: State, d: nat)
    requires d < |s.mem| && s.mem[d] == Fill(0)
    ensures Tables(s, d) == {}
  {
    assert forall x: nat | x < NENTRIES :: s.mem[d][x] == 0;
  }

  lemma SubsetSize(a: set<nat>, b: set<nat>)
    requires a < b
    ensures |a| < |b|
  {
    assert !(b <= a);
    var x :| x in b && x !in a;
    assert |a| <= |b - {x}| by { SubsetAtMost(a, b - {x}); }
  }

  lemma {:induction false} SubsetAtMost(a: set<nat>, b: set<nat>)
    requires a <= b
    ensures |a| <= |b|
    decreases a
  {
    if a != {} {
      var x :| x in a;
      SubsetAtMost(a - {x}, b - {x});
    }
  }

  // ----- Building an address space

  /** A run of the kernel map: n pages at v show the pages from p on. */
  datatype Run = Run(v: nat, n: nat, p: nat, perm: nat)

  /** The page tables the runs take in a new directory. */
  function TablesFor(runs: seq<Run>): set<nat> {
    if runs == [] then {}
    else
      var r := runs[|runs| - 1];
      TablesFor(runs[..|runs| - 1]) + Span(r.v, r.v + r.n)
  }

  predicate KmapOk(runs: seq<Run>) {
    && (forall i | 0 <= i < |runs| ::
          USERPAGES <= runs[i].v && 0 < runs[i].n && runs[i].v + runs[i].n <= ALLPAGES && Perm(runs[i].perm))
    && (forall i, j | 0 <= i < j < |runs| ::
          runs[i].v + runs[i].n <= runs[j].v || runs[j].v + runs[j].n <= runs[i].v)
  }

  const KTABLES: nat := 64

  lemma {:induction false} TablesForNext(runs: seq<Run>, i: nat)
    requires i < |runs|
    ensures TablesFor(runs[..i + 1]) == TablesFor(runs[..i]) + Span(runs[i].v, runs[i].v + runs[i].n)
    ensures |TablesFor(runs[..i + 1])| <= |TablesFor(runs)|
    decreases |runs|
  {
    hide Span;
    assert runs[..i + 1][..i] == runs[..i] && runs[..|runs|] == runs;
    if i + 1 < |runs| {
      var less := runs[..|runs| - 1];
      TablesForNext(less, i);
      assert less[..i + 1] == runs[..i + 1];
      SubsetAtMost(TablesFor(less), TablesFor(runs));
    }
  }

  lemma RunOk(runs: seq<Run>, i: nat)
    requires KmapOk(runs) && i < |runs|
    ensures USERPAGES <= runs[i].v && 0 < runs[i].n && runs[i].v + runs[i].n <= ALLPAGES && Perm(runs[i].perm)
  {
  }

  /** The kmap table of vm.c, for a page-aligned end of kernel text at page number data. */
  function Kmap(data: nat): seq<Run>
    requires 0x8_0100 < data < 0x8_E000
  {
    [Run(0x8_0000, 0x100, 0, PTE_W), Run(0x8_0100, data - 0x8_0100, 0x100, 0),
     Run(data, 0x8_E000 - data, data - 0x8_0000, PTE_W), Run(0xF_E000, 0x2000, 0xF_E000, PTE_W)]
  }

  lemma SpanJoin(lo: nat, mid: nat, hi: nat)
    requires lo < mid < hi
    ensures Span(lo, mid) + Span(mid, hi) == Span(lo, hi)
  {
  }

  /** The kernel's four ranges lie above user space and apart. */
  lemma KmapIsOk(data: nat)
    requires 0x8_0100 < data < 0x8_E000
    ensures KmapOk(Kmap(data))
  {
  }

  lemma KmapSpans(data: nat)
    requires 0x8_0100 < data < 0x8_E000
    ensures TablesFor(Kmap(data)) == Span(0x8_0000, 0x8_0100) + Span(0x8_0100, data) + Span(data, 0x8_E000) + Span(0xF_E000, 0x10_0000)
  {
    hide Span;
    var k := Kmap(data);
    assert k[..3][..2] == k[..2] && k[..2][..1] == k[..1] && k[..1][..0] == [];
    assert TablesFor(k[..1]) == {} + Span(0x8_0000, 0x8_0100);
    assert TablesFor(k[..2]) == TablesFor(k[..1]) + Span(0x8_0100, data);
    assert TablesFor(k[..3]) == TablesFor(k[..2]) + Span(data, 0x8_E000);
    assert TablesFor(k) == TablesFor(k[..3]) + Span(0xF_E000, 0x10_0000);
  }

  /** The kernel map takes 64 page tables, wherever its data begins, and none of them covers a user page. */
  lemma KmapTables(data: nat)
    requires 0x8_0100 < data < 0x8_E000
    ensures |TablesFor(Kmap(data))| == KTABLES && forall x | x in TablesFor(Kmap(data)) :: x >= 0x200
  {
    KmapSpans(data);
    SpanJoin(0x8_0000, 0x8_0100, data);
    SpanJoin(0x8_0000, data, 0x8_E000);
    hide *;
    SpanSize(0x8_0000, 0x8_E000);
    SpanSize(0xF_E000, 0x10_0000);
    var low, high := Span(0x8_0000, 0x8_E000), Span(0xF_E000, 0x10_0000);
    assert low !! high;
    assert TablesFor(Kmap(data)) == low + high && |low + high| == |low| + |high|;
  }

  lemma SpanSize(lo: nat, hi: nat)
    requires lo < hi
    ensures |Span(lo, hi)| == (hi - 1) / NENTRIES - lo / NENTRIES + 1
  {
  }

  function KernelView(runs: seq<Run>, v: nat): (nat, seq<nat>) {
    if runs == [] then (0, [])
    else
      var r := runs[|runs| - 1];
      if r.v <= v < r.v + r.n then (Pte(r.p + (v - r.v), r.perm), []) else KernelView(runs[..|runs| - 1], v)
  }

  /**
   The kernel map page by page: kernel addresses below 0x8E000000 show physical memory from 0 on,
   device addresses show themselves, all writable except text and read-only data, and nothing else
   is mapped.
   */
  lemma KernelPages(data: nat, v: nat)
    requires 0x8_0100 < data < 0x8_E000
    ensures 0x8_0000 <= v < 0x8_E000 ==>
              KernelView(Kmap(data), v) == (4096 * (v - 0x8_0000) + (if 0x8_0100 <= v < data then 1 else 3), [])
    ensures 0xF_E000 <= v < 0x10_0000 ==> KernelView(Kmap(data), v) == (4096 * v + 3, [])
    ensures v < 0x8_0000 || 0x8_E000 <= v < 0xF_E000 ==> KernelView(Kmap(data), v) == (0, [])
  {
    var k := Kmap(data);
    assert k[..3][..2] == k[..2] && k[..2][..1] == k[..1] && k[..1][..0] == [];
    assert KernelView(k[..1], v) == if 0x8_0000 <= v < 0x8_0100 then (Pte(v - 0x8_0000, 2), []) else (0, []);
    assert KernelView(k[..2], v)
        == if 0x8_0100 <= v < data then (Pte(0x100 + (v - 0x8_0100), 0), []) else KernelView(k[..1], v);
    assert KernelView(k[..3], v)
        == if data <= v < 0x8_E000 then (Pte(data - 0x8_0000 + (v - data), 2), []) else KernelView(k[..2], v);
  }

  /** What a view says of the entry's word. */
  lemma ViewWord(s: State, d: nat, v: nat)
    requires v < ALLPAGES
    ensures View(s, d, v).0 % 2 == 1 ==> Entry(s, d, v) == View(s, d, v).0
    ensures View(s, d, v).0 % 2 == 0 ==> Entry(s, d, v) % 2 == 0
    ensures View(s, d, v).1 != [] ==> Entry(s, d, v) / 4096 < |s.mem| && s.mem[Entry(s, d, v) / 4096] == View(s, d, v).1
  {
    hide Entry;
  }

  /** The words of an address space that shows the kernel map from page n on. */
  lemma KernelWords(s: State, d: nat, data: nat, n: nat)
    requires 0x8_0100 < data < 0x8_E000 && n <= 0x8_0000
    requires forall v | n <= v < ALLPAGES :: View(s, d, v) == KernelView(Kmap(data), v)
    ensures forall v | 0x8_0000 <= v < 0x8_E000 ::
              Entry(s, d, v) == 4096 * (v - 0x8_0000) + (if 0x8_0100 <= v < data then 1 else 3)
    ensures forall v | 0xF_E000 <= v < 0x10_0000 :: Entry(s, d, v) == 4096 * v + 3
    ensures forall v | n <= v < 0x8_0000 || 0x8_E000 <= v < 0xF_E000 :: Entry(s, d, v) % 2 == 0
  {
    hide View, Entry, KernelView, Kmap;
    forall v | n <= v < ALLPAGES
      ensures 0x8_0000 <= v < 0x8_E000 ==>
                Entry(s, d, v) == 4096 * (v - 0x8_0000) + (if 0x8_0100 <= v < data then 1 else 3)
      ensures 0xF_E000 <= v < 0x10_0000 ==> Entry(s, d, v) == 4096 * v + 3
      ensures v < 0x8_0000 || 0x8_E000 <= v < 0xF_E000 ==> Entry(s, d, v) % 2 == 0
    {
      ViewWord(s, d, v);
      KernelPages(data, v);
    }
  }

  lemma {:induction false} KernelOutside(runs: seq<Run>, v: nat)
    requires forall i | 0 <= i < |runs| :: !(runs[i].v <= v < runs[i].v + runs[i].n)
    ensures KernelView(runs, v) == (0, [])
  {
    if runs != [] {
      KernelOutside(runs[..|runs| - 1], v);
    }
  }

  /** d is new, and nothing else has changed. */
  ghost predicate Created(s: State, t: State, d: nat) {
    && d !in s.dirs && t.dirs == s.dirs + {d} && t.held == s.held && |t.mem| == |s.mem|
    && (forall e | e in s.dirs :: Kept(s, t, e))
  }

  /** Everything that shows is as it was, and the same pages are free. */
  ghost predicate Untouched(s: State, t: State) {
    && t.dirs == s.dirs && t.held == s.held && |t.mem| == |s.mem|
    && (forall e | e in s.dirs :: Kept(s, t, e)) && (forall p :: p in t.free <==> p in s.free)
  }

  lemma UntouchedSame(s: State)
    ensures Untouched(s, s)
  {
    hide View, TableOf;
  }

  lemma CreatedStart(m: Machine, s: State, t: State, d: nat)
    requires Owned(m, s) && Owned(m, t) && FreshPage(m, s, t, d, 0, d, Fill(0))
    ensures Owned(m, AddDir(t, d)) && Created(s, AddDir(t, d), d)
    ensures forall v | 0 <= v < ALLPAGES :: View(AddDir(t, d), d, v) == (0, [])
  {
    AddDirKeeps(m, t, d);
    hide View, TableOf;
    var u := AddDir(t, d);
    assert u.held == s.held;
    forall e | e in s.dirs
      ensures Kept(s, u, e)
    {
      assert SameTables(s, t, e) && SameTables(t, u, e);
      forall v | 0 <= v < ALLPAGES
        ensures View(u, e, v) == View(s, e, v)
      {
        assert View(u, e, v) == View(t, e, v);
      }
    }
  }

  lemma FreshIs(m: Machine, s: State, t: State, d: nat)
    requires s.free != [] && FreshPage(m, s, t, s.free[0], 0, d, Fill(0))
    ensures d == s.free[0]
  {
  }

  lemma NoRuns()
    ensures TablesFor([]) == {} && forall v :: KernelView([], v) == (0, [])
  {
  }

  lemma CreatedThen(s: State, t: State, u: State, d: nat, lo: nat, hi: nat)
    requires Created(s, t, d) && Same(t, u, d, lo, hi) && u.held == t.held && |u.mem| == |t.mem|
    ensures Created(s, u, d)
  {
    hide View, TableOf, Kept, Same;
    forall e | e in s.dirs
      ensures Kept(s, u, e)
    {
      SameKept(t, u, d, lo, hi, e);
      KeptThen(s, t, u, e);
    }
    SameDirs(t, u, d, lo, hi);
  }

  lemma SameDirs(s: State, t: State, d: nat, lo: nat, hi: nat)
    requires Same(s, t, d, lo, hi)
    ensures t.dirs == s.dirs
  {
  }

  /** A created address space that is destroyed again leaves no trace. */
  lemma CreatedDestroyed(m: Machine, s: State, t: State, u: State, d: nat)
    requires Owned(m, s) && Owned(m, u) && Created(s, t, d) && Destroyed(t, u, d)
    ensures Untouched(s, u)
  {
    hide View, TableOf, Kept, Owned;
    assert u.dirs == s.dirs;
    forall e | e in s.dirs
      ensures Kept(s, u, e)
    {
      KeptThen(s, t, u, e);
    }
    FreeSame(m, s, u);
  }

  lemma RunMapped(s: State, t: State, d: nat, runs: seq<Run>, i: nat)
    requires KmapOk(runs) && i < |runs| && d in s.dirs
    requires forall v | 0 <= v < ALLPAGES :: View(s, d, v) == KernelView(runs[..i], v)
    requires MapsRun(s, t, d, runs[i].v, runs[i].n, runs[i].p, runs[i].perm)
    ensures forall v | 0 <= v < ALLPAGES :: View(t, d, v) == KernelView(runs[..i + 1], v)
  {
    hide View, TableOf;
    assert runs[..i + 1][..i] == runs[..i];
    forall v | 0 <= v < ALLPAGES
      ensures View(t, d, v) == KernelView(runs[..i + 1], v)
    {
      assert runs[..i + 1][i] == runs[i];
    }
  }

  lemma RunFree(s: State, d: nat, runs: seq<Run>, i: nat)
    requires KmapOk(runs) && i < |runs|
    requires forall v | 0 <= v < ALLPAGES :: View(s, d, v) == KernelView(runs[..i], v)
    ensures forall v | runs[i].v <= v < runs[i].v + runs[i].n :: !Present(Entry(s, d, v))
  {
    hide Entry;
    forall v | runs[i].v <= v < runs[i].v + runs[i].n
      ensures !Present(Entry(s, d, v))
    {
      KernelOutside(runs[..i], v);
      assert View(s, d, v) == (0, []);
    }
  }

  // ----- Copying an address space

  /** The first n user pages of d hold copies of those of d0 with the same flags; the rest is as setupkvm leaves it. */
  ghost predicate Copied(s: State, t: State, d0: nat, d: nat, n: nat, runs: seq<Run>)
    requires n <= USERPAGES
  {
    && Created(s, t, d)
    && (forall v | 0 <= v < n :: CopiedPage(s, t, d0, d, v))
    && (forall v | n <= v < ALLPAGES :: View(t, d, v) == KernelView(runs, v))
  }

  predicate CopiedPage(s: State, t: State, d0: nat, d: nat, v: nat)
    requires v < ALLPAGES
  {
    && Present(View(s, d0, v).0) && Present(View(t, d, v).0)
    && Flags(View(t, d, v).0) == Flags(View(s, d0, v).0) && View(t, d, v).1 == View(s, d0, v).1
  }

  /** A copied address space has the flags and the contents of the original on every page. */
  lemma CopiedWords(m: Machine, s: State, t: State, d0: nat, d: nat, n: nat, runs: seq<Run>)
    requires Owned(m, s) && d0 in s.dirs && n <= USERPAGES && Copied(s, t, d0, d, n, runs)
    ensures forall v | 0 <= v < n ::
              && Entry(s, d0, v) / 4096 < |s.mem| && Entry(t, d, v) / 4096 < |t.mem|
              && Entry(t, d, v) % 4096 == Entry(s, d0, v) % 4096
              && t.mem[Entry(t, d, v) / 4096] == s.mem[Entry(s, d0, v) / 4096]
  {
    hide View, Entry, KernelView, Created, Owned;
    forall v | 0 <= v < n
      ensures Entry(s, d0, v) / 4096 < |s.mem| && Entry(t, d, v) / 4096 < |t.mem|
      ensures Entry(t, d, v) % 4096 == Entry(s, d0, v) % 4096
      ensures t.mem[Entry(t, d, v) / 4096] == s.mem[Entry(s, d0, v) / 4096]
    {
      assert CopiedPage(s, t, d0, d, v);
      ViewWord(s, d0, v);
      ViewWord(t, d, v);
      ViewIs(m, s, d0, v);
    }
  }

  lemma CopiedView(s: State, t: State, d0: nat, d: nat, n: nat, runs: seq<Run>)
    requires n <= USERPAGES && Copied(s, t, d0, d, n, runs)
    ensures forall v | n <= v < ALLPAGES :: View(t, d, v) == KernelView(runs, v)
  {
  }

  lemma CopiedIs(s: State, t: State, d0: nat, d: nat, n: nat, runs: seq<Run>)
    requires n < USERPAGES && Copied(s, t, d0, d, n, runs) && KmapOk(runs) && d0 in s.dirs
    ensures Created(s, t, d) && d0 in t.dirs && d in t.dirs && d != d0 && t.held == s.held && |t.mem| == |s.mem|
    ensures !Present(Entry(t, d, n)) && View(t, d0, n) == View(s, d0, n)
    ensures Present(Entry(t, d0, n)) <==> Present(Entry(s, d0, n))
  {
    KernelOutside(runs, n);
    assert View(t, d, n) == (0, []);
    assert Kept(s, t, d0);
    hide Entry, TableOf;
    assert View(t, d0, n) == View(s, d0, n);
  }

  /** Free pages that copying n pages takes: a directory, the kernel's tables, the pages and their tables. */
  function Cost(n: nat): nat {
    1 + KTABLES + n + (n + NENTRIES - 1) / NENTRIES
  }

  lemma CostOfNone(n: nat)
    ensures Cost(0) == 1 + KTABLES <= Cost(n)
  {
  }

  /** Page k is the first that is not there. */
  predicate FirstMissing(s: State, d: nat, k: nat)
    requires k < ALLPAGES
  {
    !Present(Entry(s, d, k)) && forall v | 0 <= v < k :: Present(Entry(s, d, v))
  }

  /** Copying that stops for lack of memory once v pages are known to be there. */
  lemma NeverReached(s: State, d: nat, v: nat, n: nat)
    requires v <= n <= USERPAGES && |s.free| < Cost(v) && forall u | 0 <= u < v :: Present(Entry(s, d, u))
    ensures |s.free| < Cost(n) && forall k | 0 <= k < n && FirstMissing(s, d, k) :: |s.free| < Cost(k)
  {
    hide Entry, Cost;
    CostGrows(v, n);
    forall k | 0 <= k < n && FirstMissing(s, d, k)
      ensures |s.free| < Cost(k)
    {
      CostGrows(v, k);
    }
  }

  lemma CostGrows(n: nat, k: nat)
    requires n <= k
    ensures Cost(n) <= Cost(k) && Cost(n + 1) == Cost(n) + 1 + (if n % NENTRIES == 0 then 1 else 0)
  {
  }

  /** The free list and the page tables of a copy part-way. */
  ghost predicate CopyPaid(s: State, t: State, d: nat, n: nat, data: nat)
    requires 0x8_0100 < data < 0x8_E000
  {
    && Tables(t, d) == TablesFor(Kmap(data)) + Span(0, n)
    && |t.free| + |Tables(t, d)| + n + 1 == |s.free|
  }

  lemma CopyCost(s: State, t: State, d: nat, n: nat, data: nat)
    requires 0x8_0100 < data < 0x8_E000 && n <= USERPAGES && CopyPaid(s, t, d, n, data)
    ensures |t.free| + Cost(n) == |s.free|
    ensures n < USERPAGES ==> (TableOf(t, d, n / NENTRIES) == NONE <==> n % NENTRIES == 0)
  {
    KmapTables(data);
    hide TableOf, TablesFor, Kmap, Interval;
    var kt, ut := TablesFor(Kmap(data)), Span(0, n);
    if n > 0 { SpanSize(0, n); }
    assert kt !! ut;
    assert |kt + ut| == |kt| + |ut|;
    if n < USERPAGES {
      assert n / NENTRIES in Tables(t, d) <==> n / NENTRIES in ut;
    }
  }

  lemma CopyPaidMore(s: State, t: State, u: State, d: nat, n: nat, data: nat)
    requires 0x8_0100 < data < 0x8_E000 && n < USERPAGES && CopyPaid(s, t, d, n, data)
    requires Tables(u, d) == Tables(t, d) + {n / NENTRIES} && |u.free| + |Tables(u, d)| + 1 == |t.free| + |Tables(t, d)|
    ensures CopyPaid(s, u, d, n + 1, data)
  {
    hide TableOf, TablesFor, Kmap, Interval;
    SpanNext(0, n);
  }

  /** A fresh copy of w's page is mapped at v of d with w's flags. */
  ghost predicate PageCopied(m: Machine, s: State, t: State, d: nat, v: nat, w: nat)
    requires v < USERPAGES && Addr(w) < |s.mem|
  {
    exists z: State, p: nat :: FreshPage(m, s, z, d, v, p, s.mem[Addr(w)]) && MapsPage(z, t, d, v, p, Flags(w))
  }

  lemma PageCopiedIs(m: Machine, s: State, t: State, d: nat, v: nat, w: nat)
    requires v < USERPAGES && Addr(w) < |s.mem| && Present(w) && PageCopied(m, s, t, d, v, w)
    ensures Same(s, t, d, v, v + 1) && t.held == s.held && |t.mem| == |s.mem|
    ensures Present(View(t, d, v).0) && Flags(View(t, d, v).0) == Flags(w) && View(t, d, v).1 == s.mem[Addr(w)]
  {
    hide View, Entry, TableOf, Same;
    var z, p: nat :| FreshPage(m, s, z, d, v, p, s.mem[Addr(w)]) && MapsPage(z, t, d, v, p, Flags(w));
    PteIs(p, Flags(w));
    SameThen(s, z, t, d, v, v, v + 1);
    assert z.held - {p} == s.held;
  }

  lemma CopiedStart(s: State, t: State, d0: nat, d: nat, runs: seq<Run>)
    requires Created(s, t, d) && forall v | 0 <= v < ALLPAGES :: View(t, d, v) == KernelView(runs, v)
    ensures Copied(s, t, d0, d, 0, runs)
  {
    hide View;
  }

  lemma CopiedMore(m: Machine, s: State, t: State, u: State, d0: nat, d: nat, n: nat, runs: seq<Run>, w: nat)
    requires n < USERPAGES && Copied(s, t, d0, d, n, runs) && d0 in s.dirs && Addr(w) < |t.mem| && Present(w)
    requires PageCopied(m, t, u, d, n, w) && View(s, d0, n) == (w, t.mem[Addr(w)])
    ensures Copied(s, u, d0, d, n + 1, runs)
  {
    hide View, Entry, TableOf, Kept, PageCopied, KernelView;
    PageCopiedIs(m, t, u, d, n, w);
    CreatedThen(s, t, u, d, n, n + 1);
    forall v | 0 <= v < n
      ensures CopiedPage(s, u, d0, d, v)
    {
      assert CopiedPage(s, t, d0, d, v);
      assert View(u, d, v) == View(t, d, v);
    }
  }

  lemma CreatedDir(s: State, t: State, d: nat)
    requires Created(s, t, d)
    ensures d in t.dirs
  {
  }

  lemma SameSelf(s: State, d: nat, lo: nat)
    ensures Same(s, s, d, lo, lo)
  {
  }

  lemma ViewIs(m: Machine, s: State, d: nat, v: nat)
    requires Owned(m, s) && d in s.dirs && v < USERPAGES && Present(Entry(s, d, v))
    ensures 0 <= Addr(Entry(s, d, v)) < |s.mem| && View(s, d, v) == (Entry(s, d, v), s.mem[Addr(Entry(s, d, v))])
  {
    assert PtrOk(m, s, User(d, v)) && Ptr(s, User(d, v)) == Addr(Entry(s, d, v));
  }
}
