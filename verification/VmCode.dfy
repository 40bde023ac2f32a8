/**
 vm.c and kalloc.c in the source's form: methods that walk and write page directories and page
 tables in memory, taking pages from and returning them to the free list.
 */
module VmCode {
  import opened Vm
  import opened VmEffects
  import KallocCode

  datatype Option<+T> = None | Some(value: T)

  datatype CopyResult = Copy(d: nat) | OutOfMemory | Missing

  datatype MapResult = Mapped | NoMemory | Remap

  /** One more round of freerange. */
  lemma OneMoreFreed(free: seq<nat>, held: set<nat>, from: nat, p: nat)
    requires from <= p && p in held
    ensures [p] + (KallocCode.Down(from, p) + free) == KallocCode.Down(from, p + 1) + free
    ensures held - Interval(from, p - from) - {p} == held - Interval(from, p + 1 - from)
    ensures p in held - Interval(from, p - from)
  {
    hide Interval;
    assert [p] + KallocCode.Down(from, p) == KallocCode.Down(from, p + 1);
  }

  class Memory {
    const m: Machine
    var free: seq<nat>
    var mem: seq<Page>
    ghost var dirs: set<nat>
    ghost var held: set<nat>

    /** kinit1 and kinit2: all of the allocator's pages are free, in the order freerange leaves them in. */
    constructor (m: Machine, mem: seq<Page>)
      requires 0 < m.lo <= m.hi <= |mem| && m.hi <= ALLPAGES
      ensures Valid() && this.m == m && free == KallocCode.Down(m.lo, m.hi) && dirs == {} && held == {}
      ensures |this.mem| == |mem|
    {
      this.m, this.mem := m, mem;
      free, dirs, held := [], {}, Interval(m.lo, m.hi - m.lo);
      new;
      BootOwned(m, mem);
      Freerange(m.lo, m.hi);
    }

    /** freerange over pages in other hands. */
    method Freerange(from: nat, to: nat)
      requires Valid() && from <= to && forall p | from <= p < to :: p in held
      modifies this`free, this`held, this`mem
      ensures Valid() && free == KallocCode.Down(from, to) + old(free) && |mem| == old(|mem|)
      ensures held == old(held) - Interval(from, to - from)
    {
      hide Owned, Same, SameTables, Interval, KallocCode.Down;
      var p := from;
      assert KallocCode.Down(from, from) + free == free;
      while p < to
        invariant from <= p <= to && Valid() && |mem| == old(|mem|) && free == KallocCode.Down(from, p) + old(free)
        invariant held == old(held) - Interval(from, p - from)
      {
        HeldIn(m, S());
        FreeKeeps(m, S(), p, 0, 0);
        OneMoreFreed(old(free), old(held), from, p);
        var ok := Kfree(p);
        assert ok;
        p := p + 1;
      }
    }

    ghost function S(): State
      reads this
    {
      State(free, mem, dirs, held)
    }

    ghost predicate Valid()
      reads this
    {
      Owned(m, S())
    }

    /** kalloc: the head of the free list, or NONE. */
    method Kalloc() returns (p: int)
      requires Valid()
      modifies this`free, this`held
      ensures old(free) == [] ==> p == NONE && S() == old(S())
      ensures old(free) != [] ==> p == old(free)[0] && S() == Alloc(old(S())) && Valid() && m.lo <= p < m.hi
    {
      if free == [] {
        return NONE;
      }
      AllocKeeps(m, S(), 0, 0);
      p := free[0];
      held := held + {free[0]};
      free := free[1..];
    }

    /** kalloc followed by a memset to zero. */
    method Kzalloc(ghost d: nat, ghost lo: nat) returns (p: int)
      requires Valid()
      modifies this`free, this`held, this`mem
      ensures p == NONE <==> old(free) == []
      ensures old(free) == [] ==> S() == old(S())
      ensures old(free) != [] ==> Valid() && FreshPage(m, old(S()), S(), d, lo, p, Fill(0))
    {
      hide Owned, Same;
      ghost var s0 := S();
      p := Kalloc();
      if p != NONE {
        AllocFillKeeps(m, s0, d, lo, Fill(0));
        mem := mem[p := Fill(0)];
      }
    }

    /** kfree: false is the panic on an address outside the allocator's memory. */
    method Kfree(p: nat) returns (ok: bool)
      requires p < |mem|
      modifies this`free, this`held, this`mem
      ensures ok <==> m.lo <= p < m.hi
      ensures ok ==> S() == Free(old(S()), p) && forall j | 0 <= j < 1024 :: mem[p][j] == 0x0101_0101
      ensures !ok ==> S() == old(S())
    {
      if p < m.lo || p >= m.hi {
        return false;
      }
      mem := mem[p := Fill(0x0101_0101)];
      free := [p] + free;
      held := held - {p};
      ok := true;
    }

    /** walkpgdir: the page table that covers v, or NONE; with alloc it is created if missing. */
    method Walk(d: nat, v: nat, alloc: bool) returns (q: int)
      requires Valid() && d in dirs && v < ALLPAGES
      modifies this`free, this`held, this`mem
      ensures Valid() && Walked(old(S()), S(), d, v) && q == TableOf(S(), d, v / NENTRIES) < |mem|
      ensures q == NONE || q >= 0
      ensures q == NONE ==> S() == old(S()) && (alloc ==> free == [])
      ensures !alloc || old(TableOf(S(), d, v / NENTRIES)) != NONE ==> S() == old(S())
      ensures alloc && old(TableOf(S(), d, v / NENTRIES)) == NONE ==>
                if old(free) == [] then q == NONE else q != NONE && |free| == |old(free)| - 1
      ensures d < |mem| && d < old(|mem|)
      ensures mem[d] == if q != NONE && old(mem[d][v / NENTRIES]) % 2 == 0 then old(mem[d])[v / NENTRIES := 4096 * q + 7]
                        else old(mem[d])
    {
      hide Owned, Same, View, Entry;
      ghost var s0 := S();
      DirThere(m, s0, d, v);
      WalkedSame(s0, d, v);
      var w := mem[d][v / NENTRIES];
      if Present(w) {
        return Addr(w);
      }
      if !alloc {
        return NONE;
      }
      q := Kzalloc(d, v);
      if q != NONE {
        ghost var s1 := S();
        LinkWalks(m, s0, s1, d, v, q);
        mem := mem[d := SetIn(mem[d], v / NENTRIES, Pte(q, PTE_W + PTE_U))];
        held := held - {q};
      }
    }

    /** The loop body of mappages. */
    method MapPage(d: nat, v: nat, p: nat, perm: nat) returns (r: MapResult)
      requires Valid() && d in dirs && v < ALLPAGES && Perm(perm) && (v < USERPAGES ==> p in held)
      modifies this`free, this`held, this`mem
      ensures r.Remap? <==> Present(old(Entry(S(), d, v)))
      ensures r.NoMemory? ==> S() == old(S()) && free == [] && TableOf(S(), d, v / NENTRIES) == NONE
      ensures r.Mapped? ==> Valid() && MapsPage(old(S()), S(), d, v, p, perm)
      ensures r.Mapped? ==> |free| == |old(free)| - (if old(TableOf(S(), d, v / NENTRIES)) == NONE then 1 else 0)
    {
      hide Owned, Same, View, Entry, TableOf;
      ghost var s0 := S();
      NoTableNoEntry(s0, d, v);
      var q := Walk(d, v, true);
      if q == NONE {
        return NoMemory;
      }
      ghost var s1 := S();
      EntryIs(m, s0, s1, d, v);
      if Present(mem[q][v % NENTRIES]) {
        return Remap;
      }
      HeldIn(m, s0);
      SetMaps(m, s0, s1, d, v, p, perm);
      mem := mem[q := SetIn(mem[q], v % NENTRIES, Pte(p, perm))];
      held := if v < USERPAGES then held - {p} else held;
      r := Mapped;
    }

    /**
     mappages: n pages of d from v on show the pages from p on.  NoMemory is the return of -1, with
     some prefix mapped; Remap is the panic on an entry already present.
     */
    method Mappages(d: nat, v: nat, n: nat, p: nat, perm: nat) returns (r: MapResult)
      requires Valid() && d in dirs && 0 < n && v + n <= ALLPAGES && Perm(perm)
      requires v < USERPAGES ==> n == 1 && p in held
      modifies this`free, this`held, this`mem
      ensures r.Remap? ==> exists u | v <= u < v + n :: Present(old(Entry(S(), d, u)))
      ensures r.NoMemory? ==> Valid() && free == [] && Same(old(S()), S(), d, v, v + n)
      ensures r.NoMemory? ==> held == old(held) && |mem| == old(|mem|)
      ensures n == 1 ==> (r.Remap? <==> Present(old(Entry(S(), d, v))))
      ensures r.NoMemory? && n == 1 ==> S() == old(S())
      ensures r.Mapped? ==> Valid() && MapsRun(old(S()), S(), d, v, n, p, perm)
      ensures n == 1 && r.NoMemory? ==> old(TableOf(S(), d, v / NENTRIES)) == NONE
      ensures n == 1 && r.Mapped? ==> |free| == |old(free)| - (if old(TableOf(S(), d, v / NENTRIES)) == NONE then 1 else 0)
      ensures r.Mapped? ==> Paid(old(S()), S(), d) && Tables(S(), d) == Tables(old(S()), d) + Span(v, v + n)
      ensures r.NoMemory? ==> Paid(old(S()), S(), d) && Tables(S(), d) < Tables(old(S()), d) + Span(v, v + n)
    {
      hide Owned, View, Entry, TableOf, MapsPage, MapsRun, Same, Tables, Span, Paid;
      ghost var s0 := S();
      MapsRunStart(s0, d, v, p, perm);
      PaidStart(s0, d);
      SpanNext(v, v);
      var i := 0;
      while true
        invariant 0 <= i < n && Valid() && MapsRun(s0, S(), d, v, i, p, perm) && d in dirs
        invariant i == 0 ==> S() == s0
        invariant Paid(s0, S(), d) && Tables(S(), d) == Tables(s0, d) + Span(v, v + i)
        decreases n - i
      {
        ghost var s1 := S();
        MapsRunIs(s0, s1, d, v, i, p, perm);
        r := MapPage(d, v + i, p + i, perm);
        if r.NoMemory? {
          SameWider(s0, s1, d, v, v + i, v + n);
          SpanMissing(s0, s1, d, v, i, n);
        }
        if r.Remap? {
          SameEntry(s0, s1, d, v, v + i);
          assert Present(Entry(s0, d, v + i));
        }
        if !r.Mapped? {
          return;
        }
        MapsPays(s0, s1, S(), d, v, i, p + i, perm);
        MapsRunStep(s0, s1, S(), d, v, i, p, perm);
        MapsRunIs(s0, S(), d, v, i + 1, p, perm);
        if i == n - 1 {
          break;
        }
        i := i + 1;
      }
    }

    /** deallocuvm's work on a mapped page: kfree, then the entry is cleared. */
    method Drop(d: nat, v: nat, q: nat)
      requires Valid() && d in dirs && v < USERPAGES && q == TableOf(S(), d, v / NENTRIES) && q < |mem|
      requires Present(mem[q][v % NENTRIES]) && m.lo <= Addr(mem[q][v % NENTRIES]) < m.hi && Addr(mem[q][v % NENTRIES]) < |mem|
      requires q != Addr(mem[q][v % NENTRIES])
      modifies this`free, this`held, this`mem
      ensures 0 <= old(TableOf(S(), d, v / NENTRIES)) < old(|mem|) && old(Addr(Entry(S(), d, v))) < old(|mem|)
      ensures S() == DropPage(old(S()), d, v)
    {
      ghost var s := S();
      EntryAt(s, d, v);
      UserNotHeld(m, s, d, v);
      hide Owned, View, Entry, TableOf, DropPage;
      var pa := Addr(mem[q][v % NENTRIES]);
      assert pa != 0;
      var ok := Kfree(pa);
      assert ok;
      mem := mem[q := SetIn(mem[q], v % NENTRIES, 0)];
      DropOrder(s, S(), d, v, q, pa);
    }

    /** The loop of deallocuvm, with addresses in pages. */
    method DropPages(d: nat, lo: nat, hi: nat)
      requires Valid() && d in dirs && lo <= hi <= USERPAGES
      modifies this`free, this`held, this`mem
      ensures Valid() && Dropped(old(S()), S(), d, lo, hi)
    {
      hide Owned, View, Entry, TableOf, Dropped, DropPage;
      ghost var s0 := S();
      DroppedStart(s0, d, lo);
      var v := lo;
      while v < hi
        invariant lo <= v && Valid() && Dropped(s0, S(), d, lo, if v < hi then v else hi)
      {
        ghost var s := S();
        var q := Walk(d, v, false);
        if q == NONE {
          ghost var top := (v / NENTRIES + 1) * NENTRIES;
          NoTable(s, d, v, if top < hi then top else hi);
          DroppedSkip(s0, s, d, lo, v, if top < hi then top else hi);
          v := (v / NENTRIES + 1) * NENTRIES - 1;
        } else if Present(mem[q][v % NENTRIES]) {
          EntryAt(s, d, v);
          DroppedStep(m, s0, s, d, lo, v);
          Drop(d, v, q);
        } else {
          EntryAt(s, d, v);
          DroppedSkip(s0, s, d, lo, v, v + 1);
        }
        v := v + 1;
      }
    }

    /**
     deallocuvm: no page of d is mapped between newsz and oldsz, exactly the pages that were are
     free, and nothing else changed.
     */
    method Deallocuvm(d: nat, oldsz: nat, newsz: nat) returns (r: nat)
      requires Valid() && d in dirs && oldsz <= KERNBASE
      modifies this`free, this`held, this`mem
      ensures Valid() && r == if newsz >= oldsz then oldsz else newsz
      ensures newsz >= oldsz ==> S() == old(S())
      ensures newsz < oldsz ==>
                && Dropped(old(S()), S(), d, Pages(newsz), Pages(oldsz))
                && forall p :: p in free <==>
                     p in old(free) || exists v | Pages(newsz) <= v < Pages(oldsz) :: old(Ptr(S(), User(d, v))) == p && p != NONE
    {
      if newsz >= oldsz {
        return oldsz;
      }
      hide Owned, View, Entry, TableOf, Dropped, Ptr;
      ghost var s0, lo, hi := S(), Pages(newsz), Pages(oldsz);
      DropPages(d, Pages(newsz), Pages(oldsz));
      DroppedFrees(m, s0, S(), d, lo, hi);
      r := newsz;
    }

    /** freevm: every page of the address space, its tables and its directory is free, each once. */
    method Freevm(d: nat)
      requires Valid() && d in dirs
      modifies this
      ensures Valid() && Destroyed(old(S()), S(), d)
      ensures forall p :: p in free <==> p in old(free) || OwnedBy(old(S()), d, p)
    {
      hide Owned, View, Entry, TableOf, Dropped, Freeing, Free, Ptr, Kept, Destroyed, OwnedBy, Retire, TablesOf;
      ghost var s0 := S();
      var _ := Deallocuvm(d, KERNBASE, 0);
      ghost var s1 := S();
      EmptyUser(s0, s1, d);
      FreeingStart(m, s1, d);
      RetireFields(s1, d);
      dirs, held := dirs - {d}, held + {d} + TablesOf(s1, d, NENTRIES);
      var i := 0;
      while i < NENTRIES
        invariant i <= NENTRIES && Freeing(m, s1, S(), d, i)
      {
        FreeingStep(m, s1, S(), d, i);
        FreeingDir(m, s1, S(), d, i);
        if Present(mem[d][i]) {
          var ok := Kfree(Addr(mem[d][i]));
          assert ok;
        }
        i := i + 1;
      }
      FreeingEnd(m, s1, S(), d);
      var ok := Kfree(d);
      assert ok;
      DroppedThenDestroyed(s0, s1, S(), d);
      DestroyedFrees(m, s0, S(), d);
    }

    /** The loop of allocuvm, with addresses in pages; p is a page left unmapped by a failed mappages. */
    method GrowPages(d: nat, lo: nat, hi: nat) returns (r: MapResult, p: int, v: nat)
      requires Valid() && d in dirs && lo <= hi <= USERPAGES
      modifies this`free, this`held, this`mem
      ensures r.Remap? <==> Collides(old(S()), d, lo, hi)
      ensures !r.Remap? ==> Valid() && lo <= v <= hi && |mem| == old(|mem|) && Same(old(S()), S(), d, lo, v)
      ensures r.Mapped? ==> v == hi && Grown(old(S()), S(), d, lo, hi) && Needed(old(S()), d, lo, hi) <= old(|free|)
      ensures r.NoMemory? ==> Needed(old(S()), d, lo, hi) > old(|free|)
      ensures r.NoMemory? && p == NONE ==> held == old(held)
      ensures r.NoMemory? && p != NONE ==> p >= 0 && p in held && p !in old(held) && held == old(held) + {p}
    {
      hide Owned, View, Entry, TableOf, Same, Grown, Spent, MapsPage, FreshPage, Needed, Tables, Span, Paid;
      ghost var s0 := S();
      v, p := lo, NONE;
      GrownStart(s0, d, lo);
      while v < hi
        invariant lo <= v <= hi && Valid() && Grown(s0, S(), d, lo, v) && Spent(s0, S(), d, lo, v)
      {
        ghost var s1 := S();
        GrownIs(s0, s1, d, lo, v);
        SpentIs(s0, s1, d, lo, v, hi);
        p := Kzalloc(d, v);
        if p == NONE {
          GrownAbsent(s0, s1, d, lo, v);
          NoCollision(s0, s1, d, lo, v, hi);
          return NoMemory, NONE, v;
        }
        ghost var s2 := S();
        FreshPageIs(m, s1, s2, d, v, p, Fill(0));
        r := Mappages(d, v, 1, p, PTE_W + PTE_U);
        GrownAbsent(s0, s1, d, lo, v);
        SameEntry(s0, s1, d, lo, v);
        SameEntry(s1, s2, d, v, v);
        if r.NoMemory? {
          SameThen(s0, s1, s2, d, lo, v, v);
          NoTableNoEntry(s2, d, v);
          NoCollision(s0, s1, d, lo, v, hi);
          return;
        }
        if r.Remap? {
          assert FirstMapped(s0, d, lo, v);
          return;
        }
        RunIsPage(s2, S(), d, v, p, PTE_W + PTE_U);
        GrownStep(m, s0, s1, s2, S(), d, lo, v, p);
        SpentStep(s0, s1, s2, S(), d, lo, v);
        v := v + 1;
      }
      GrownIs(s0, S(), d, lo, hi);
      SpentIs(s0, S(), d, lo, hi, hi);
      NothingMapped(s0, S(), d, lo, hi);
      r := Mapped;
    }

    /**
     allocuvm: either every page from oldsz up to newsz becomes a fresh writable user page of zeros,
     or, when the free list is too short for the pages and page tables this takes, all pages in that
     range are unmapped again.  None is the panic on a page that was already mapped.
     */
    method Allocuvm(d: nat, oldsz: nat, newsz: nat) returns (r: Option<nat>)
      requires Valid() && d in dirs
      modifies this`free, this`held, this`mem
      ensures newsz >= KERNBASE ==> r == Some(0) && S() == old(S())
      ensures newsz < KERNBASE && newsz < oldsz ==> r == Some(oldsz) && S() == old(S())
      ensures newsz < KERNBASE && newsz >= oldsz ==>
                && (r.None? <==> Collides(old(S()), d, Pages(oldsz), Pages(newsz)))
                && (r.Some? ==> Valid())
                && (r.Some? && old(|free|) >= Needed(old(S()), d, Pages(oldsz), Pages(newsz)) ==>
                      r.value == newsz && Grown(old(S()), S(), d, Pages(oldsz), Pages(newsz))
                      && forall v | Pages(oldsz) <= v < Pages(newsz) ::
                           && Entry(S(), d, v) % 4096 == 7 && Entry(S(), d, v) / 4096 < |mem|
                           && forall j | 0 <= j < 1024 :: mem[Entry(S(), d, v) / 4096][j] == 0)
                && (r.Some? && old(|free|) < Needed(old(S()), d, Pages(oldsz), Pages(newsz)) ==>
                      r.value == 0 && Cleared(old(S()), S(), d, Pages(oldsz), Pages(newsz)))
    {
      hide Owned, View, Entry, TableOf, Same, Grown, Needed, Dropped, Cleared, Ptr, Collides;
      if newsz >= KERNBASE {
        return Some(0);
      }
      if newsz < oldsz {
        return Some(oldsz);
      }
      ghost var s0 := S();
      var g, p, v := GrowPages(d, Pages(oldsz), Pages(newsz));
      match g {
        case Mapped =>
          GrownWords(s0, S(), d, Pages(oldsz), Pages(newsz));
          return Some(newsz);
        case Remap =>
          return None;
        case NoMemory =>
          ghost var s1 := S();
          NeedsSome(s0, d, oldsz, newsz);
          var _ := Deallocuvm(d, newsz, oldsz);
          HeldStill(s1, S(), d, Pages(oldsz), Pages(newsz));
          if p != NONE {
            GiveBack(m, s1, S(), d, Pages(oldsz), Pages(newsz), p);
            var ok := Kfree(p);
            assert ok && held == s0.held;
          }
          GrownGivenUp(s0, s1, S(), d, Pages(oldsz), v, Pages(newsz));
          return Some(0);
      }
    }

    /** setupkvm: a new directory that shows exactly the kernel map, or nothing at all has changed. */
    method Setupkvm(data: nat) returns (d: int)
      requires Valid() && 0x8_0100 < data < 0x8_E000
      modifies this
      ensures Valid() && (d != NONE <==> old(|free|) >= 1 + KTABLES)
      ensures d == NONE ==> Untouched(old(S()), S())
      ensures d != NONE ==> d >= 0 && Created(old(S()), S(), d)
                            && (forall v | 0 <= v < ALLPAGES :: View(S(), d, v) == KernelView(Kmap(data), v))
                            && CopyPaid(old(S()), S(), d, 0, data)
      ensures d != NONE ==> forall v | 0x8_0000 <= v < 0x8_E000 ::
                Entry(S(), d, v) == 4096 * (v - 0x8_0000) + (if 0x8_0100 <= v < data then 1 else 3)
      ensures d != NONE ==> forall v | 0xF_E000 <= v < 0x10_0000 :: Entry(S(), d, v) == 4096 * v + 3
      ensures d != NONE ==> forall v | 0 <= v < 0x8_0000 || 0x8_E000 <= v < 0xF_E000 :: Entry(S(), d, v) % 2 == 0
    {
      hide Owned, View, Entry, TableOf, Same, FreshPage, Created, Kept, KernelView, MapsRun, Untouched, Destroyed,
           Tables, Span, TablesFor, Kmap, KmapOk;
      ghost var s0 := S();
      UntouchedSame(s0);
      KmapIsOk(data);
      KmapTables(data);
      var kmap := Kmap(data);
      d := Kzalloc(if free == [] then 0 else free[0], 0);
      if d == NONE {
        return;
      }
      FreshPageIs(m, s0, S(), s0.free[0], 0, d, Fill(0));
      FreshIs(m, s0, S(), d);
      CreatedStart(m, s0, S(), d);
      ZeroDirectory(S(), d);
      NoTables(S(), AddDir(S(), d), d);
      dirs, held := dirs + {d}, held - {d};
      var i := 0;
      assert kmap[..0] == [];
      NoRuns();
      while i < |kmap|
        invariant i <= |kmap| && Valid() && Created(s0, S(), d) && d in dirs
        invariant forall v | 0 <= v < ALLPAGES :: View(S(), d, v) == KernelView(kmap[..i], v)
        invariant Tables(S(), d) == TablesFor(kmap[..i]) && |free| + |Tables(S(), d)| + 1 == |s0.free|
      {
        ghost var s1 := S();
        RunFree(s1, d, kmap, i);
        TablesForNext(kmap, i);
        RunOk(kmap, i);
        var r := Mappages(d, kmap[i].v, kmap[i].n, kmap[i].p, kmap[i].perm);
        assert !r.Remap?;
        if r.NoMemory? {
          SubsetSize(Tables(S(), d), TablesFor(kmap[..i + 1]));
          CreatedThen(s0, s1, S(), d, kmap[i].v, kmap[i].v + kmap[i].n);
          ghost var s2 := S();
          Freevm(d);
          CreatedDestroyed(m, s0, s2, S(), d);
          return NONE;
        }
        RunMapped(s1, S(), d, kmap, i);
        MapsRunIs(s1, S(), d, kmap[i].v, kmap[i].n, kmap[i].p, kmap[i].perm);
        CreatedThen(s0, s1, S(), d, kmap[i].v, kmap[i].v + kmap[i].n);
        i := i + 1;
      }
      assert kmap[..i] == kmap;
      KernelWords(S(), d, data, 0);
      SpanNext(0, 0);
    }

    /**
     copyuvm: a new address space whose first pages are copies of those of d0, on pages of their own
     and with the same flags, or nothing at all has changed.  Missing is the panic on a page of d0
     that is not there, reached when memory lasts for the pages before it.
     */
    method Copyuvm(d0: nat, sz: nat, data: nat) returns (r: CopyResult)
      requires Valid() && d0 in dirs && sz <= KERNBASE && 0x8_0100 < data < 0x8_E000
      modifies this
      ensures r.Missing? <==> exists k | 0 <= k < Pages(sz) :: FirstMissing(old(S()), d0, k) && old(|free|) >= Cost(k)
      ensures r.Copy? <==> old(|free|) >= Cost(Pages(sz)) && forall v | 0 <= v < Pages(sz) :: Present(old(Entry(S(), d0, v)))
      ensures r.OutOfMemory? ==> Valid() && Untouched(old(S()), S())
      ensures r.Copy? ==> Valid() && Copied(old(S()), S(), d0, r.d, Pages(sz), Kmap(data))
      ensures r.Copy? ==> forall v | 0 <= v < Pages(sz) ::
                && old(Entry(S(), d0, v)) / 4096 < old(|mem|) && Entry(S(), r.d, v) / 4096 < |mem|
                && Entry(S(), r.d, v) % 4096 == old(Entry(S(), d0, v)) % 4096
                && mem[Entry(S(), r.d, v) / 4096] == old(mem[Entry(S(), d0, v) / 4096])
      ensures r.Copy? ==> forall v | 0x8_0000 <= v < 0x8_E000 ::
                Entry(S(), r.d, v) == 4096 * (v - 0x8_0000) + (if 0x8_0100 <= v < data then 1 else 3)
      ensures r.Copy? ==> forall v | 0xF_E000 <= v < 0x10_0000 :: Entry(S(), r.d, v) == 4096 * v + 3
      ensures r.Copy? ==> forall v | Pages(sz) <= v < 0x8_0000 || 0x8_E000 <= v < 0xF_E000 :: Entry(S(), r.d, v) % 2 == 0
    {
      hide Owned, View, Entry, TableOf, Same, FreshPage, Created, Kept, KernelView, Untouched, Destroyed, Copied, MapsPage, MapsRun,
           Tables, Span, TablesFor, Kmap, KmapOk, CopyPaid, Cost;
      ghost var s0, n := S(), Pages(sz);
      KmapIsOk(data);
      CostOfNone(n);
      var d := Setupkvm(data);
      if d == NONE {
        NeverReached(s0, d0, 0, n);
        return OutOfMemory;
      }
      CopiedStart(s0, S(), d0, d, Kmap(data));
      var v := 0;
      while v < Pages(sz)
        invariant v <= Pages(sz) <= USERPAGES && Valid() && Copied(s0, S(), d0, d, v, Kmap(data)) && CopyPaid(s0, S(), d, v, data)
        invariant forall u | 0 <= u < v :: Present(Entry(s0, d0, u))
      {
        ghost var s1 := S();
        CopiedIs(s0, s1, d0, d, v, Kmap(data));
        CopyCost(s0, s1, d, v, data);
        var q := Walk(d0, v, false);
        NoTableNoEntry(s1, d0, v);
        if q == NONE {
          assert FirstMissing(s0, d0, v);
          return Missing;
        }
        EntryAt(s1, d0, v);
        var w := mem[q][v % NENTRIES];
        if !Present(w) {
          assert FirstMissing(s0, d0, v);
          return Missing;
        }
        ViewIs(m, s1, d0, v);
        var ok := CopyPage(d, v, w);
        if !ok {
          CostGrows(v, v);
          NeverReached(s0, d0, v + 1, n);
          ghost var s2 := S();
          CreatedThen(s0, s1, s2, d, v, v);
          CreatedDir(s0, s2, d);
          Freevm(d);
          CreatedDestroyed(m, s0, s2, S(), d);
          return OutOfMemory;
        }
        CopiedMore(m, s0, s1, S(), d0, d, v, Kmap(data), w);
        CopyPaidMore(s0, s1, S(), d, v, data);
        v := v + 1;
      }
      CopyCost(s0, S(), d, v, data);
      CopiedView(s0, S(), d0, d, n, Kmap(data));
      KernelWords(S(), d, data, n);
      CopiedWords(m, s0, S(), d0, d, n, Kmap(data));
      r := Copy(d);
    }

    /** One page of copyuvm: a fresh page with the words of w's page, mapped at v of d with w's flags. */
    method CopyPage(d: nat, v: nat, w: nat) returns (ok: bool)
      requires Valid() && d in dirs && v < USERPAGES && Present(w) && Addr(w) < |mem| && !Present(Entry(S(), d, v))
      modifies this`free, this`held, this`mem
      ensures !ok ==> Valid() && Same(old(S()), S(), d, v, v) && held == old(held) && |mem| == old(|mem|)
      ensures !ok <==> old(|free|) < 1 + (if old(TableOf(S(), d, v / NENTRIES)) == NONE then 1 else 0)
      ensures ok ==> Valid() && PageCopied(m, old(S()), S(), d, v, w)
      ensures ok ==> Tables(S(), d) == Tables(old(S()), d) + {v / NENTRIES}
                     && |free| + |Tables(S(), d)| + 1 == old(|free|) + |Tables(old(S()), d)|
    {
      hide Owned, View, Entry, TableOf, Same, FreshPage, MapsPage, MapsRun, Tables, Span;
      ghost var s0 := S();
      SameSelf(s0, d, v);
      var p := Kalloc();
      if p == NONE {
        return false;
      }
      AllocFillKeeps(m, s0, d, v, mem[Addr(w)]);
      mem := mem[p := mem[Addr(w)]];
      ghost var s1 := S();
      FreshPageIs(m, s0, s1, d, v, p, s0.mem[Addr(w)]);
      SameEntry(s0, s1, d, v, v);
      var r := Mappages(d, v, 1, p, Flags(w));
      if r.NoMemory? {
        FreeKeeps(m, s1, p, d, v);
        HeldIn(m, s1);
        var freed := Kfree(p);
        assert freed && held == s0.held;
        SameThen(s0, s1, S(), d, v, v, v);
        return false;
      }
      RunIsPage(s1, S(), d, v, p, Flags(w));
      SameTablesCount(s0, s1, d);
      SpanNext(v, v);
      ok := true;
    }

    /**
     growproc on an address space of size sz: None is a panic, a false flag the return of -1.  A
     process that shrinks to size 0 is refused after its pages are gone.
     */
    method Growproc(d: nat, sz: nat, n: int) returns (r: Option<(bool, nat)>)
      requires Valid() && d in dirs && sz < KERNBASE && -0x8000_0000 <= n < 0x8000_0000
      modifies this`free, this`held, this`mem
      ensures r.None? <==> n > 0 && sz + n < KERNBASE && Collides(old(S()), d, Pages(sz), Pages(sz + n))
      ensures r.Some? ==> Valid()
      ensures r.Some? && n == 0 ==> r.value == (true, sz) && S() == old(S())
      ensures r.Some? && n > 0 ==>
                && (r.value.0 <==> sz + n < KERNBASE && old(|free|) >= Needed(old(S()), d, Pages(sz), Pages(sz + n)))
                && r.value.1 == (if r.value.0 then sz + n else sz)
                && (r.value.0 ==> Grown(old(S()), S(), d, Pages(sz), Pages(sz + n)))
                && (sz + n >= KERNBASE ==> S() == old(S()))
                && (!r.value.0 && sz + n < KERNBASE ==> Cleared(old(S()), S(), d, Pages(sz), Pages(sz + n)))
      ensures r.Some? && n < 0 && sz + n >= 0 ==>
                && (r.value.0 <==> sz + n != 0) && r.value.1 == (if r.value.0 then sz + n else sz)
                && Dropped(old(S()), S(), d, Pages(sz + n), Pages(sz))
      ensures r.Some? && n < 0 && sz + n < 0 ==> (r.value.0 <==> sz != 0) && r.value.1 == sz && S() == old(S())
    {
      hide Owned, View, Entry, TableOf, Same, Grown, Needed, Dropped, Cleared, Ptr, Collides;
      var size := sz;
      if n > 0 {
        var a := Allocuvm(d, sz, (sz + n) % 0x1_0000_0000);
        if a.None? {
          return None;
        }
        size := a.value;
      } else if n < 0 {
        size := Deallocuvm(d, sz, (sz + n) % 0x1_0000_0000);
      }
      if n != 0 && size == 0 {
        return Some((false, sz));
      }
      r := Some((true, size));
    }
  }
}
