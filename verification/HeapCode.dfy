/** free, morecore and malloc of umalloc.c, over the headers in memory. */
module HeapCode {
  import opened Heap

  const MAXUNITS := 0x1000_0000  // below this, nunits * sizeof(Header) is a positive int

  /** The number of units malloc looks for, in 32-bit arithmetic. */
  function UnitsFor(nbytes: nat): (u: nat)
    ensures 1 <= u <= WORD / HEADER
  {
    (nbytes + HEADER - 1) % WORD / HEADER + 1
  }

  /**
   The block malloc looks for has room for nbytes exactly when the sum did not wrap around; it is then a
   header and the fewest units that have room, and otherwise a header alone.
   */
  lemma RoomIff(nbytes: nat)
    requires nbytes < WORD
    ensures nbytes <= HEADER * (UnitsFor(nbytes) - 1) <==> nbytes + HEADER - 1 < WORD
    ensures nbytes + 7 < 0x1_0000_0000 ==> nbytes <= 8 * (UnitsFor(nbytes) - 1) < nbytes + 8
    ensures nbytes + 7 >= 0x1_0000_0000 ==> UnitsFor(nbytes) == 1
  {
    var s := nbytes + HEADER - 1;
    if s >= WORD { assert s % WORD == s - WORD; }
  }

  function Chunk(nu: nat): nat {
    if nu < CHUNK then CHUNK else nu
  }

  /** A 32-bit word read as an int. */
  function AsInt(w: nat): int {
    if w < WORD / 2 then w else w - WORD
  }

  /**
   sbrk is asked for the memory morecore wants exactly below 2^28 units; from there on its argument is
   negative, or zero for 2^29 units, and sbrk gives no memory however it answers.
   */
  lemma SbrkArgumentIff(nu: nat)
    requires 0 < nu <= WORD / HEADER
    ensures AsInt(HEADER * Chunk(nu) % WORD) == HEADER * Chunk(nu) <==> nu < MAXUNITS
    ensures nu >= MAXUNITS ==> AsInt(HEADER * Chunk(nu) % WORD) <= 0
  {
    if HEADER * nu == WORD { assert HEADER * nu % WORD == 0; }
  }

  /** bp's header after the first half of free: linked to what follows, merged with it if they touch. */
  lemma RaiseLinked(ring: seq<Blk>, k: nat, x: Blk, ptr: map<nat, nat>, size: map<nat, nat>,
                    ptr1: map<nat, nat>, size1: map<nat, nat>)
    requires Ordered(ring) && Slot(ring, k, x) && Linked(ring, ptr, size) && x.addr in size && size[x.addr] == x.units
    requires var q := ring[Succ(k, |ring|)].addr;
             if x.End() == q then
               q in ptr && q in size && ptr1 == ptr[x.addr := ptr[q]] && size1 == size[x.addr := x.units + size[q]]
             else ptr1 == ptr[x.addr := q] && size1 == size
    ensures var r := MergeIf(Put(ring, k, x), k + 1);
            k + 1 < |r| && r[k] == ring[k] && r[k + 1].addr == x.addr && Injective(r) && LinkedBut(r, k, ptr1, size1)
  {
    var put := Put(ring, k, x);
    assert put[k] == ring[k] && put[k + 1] == x;
    assert k + 1 < |ring| ==> put[k + 2] == ring[k + 1];
    assert k + 1 == |ring| ==> ring[Succ(k, |ring|)].addr != x.End();
    assert LinkAt(ring, k, ptr, size);
    if Touch(put, k + 1) {
      RaiseMerged(ring, k, x, ptr, size, ptr1, size1);
    } else {
      RaisePlain(ring, k, x, ptr, size, ptr1, size1);
    }
  }

  lemma RaiseMerged(ring: seq<Blk>, k: nat, x: Blk, ptr: map<nat, nat>, size: map<nat, nat>,
                    ptr1: map<nat, nat>, size1: map<nat, nat>)
    requires Ordered(ring) && Slot(ring, k, x) && Linked(ring, ptr, size) && x.addr in size && size[x.addr] == x.units
    requires k + 1 < |Put(ring, k, x)| && Touch(Put(ring, k, x), k + 1) && k + 1 < |ring|
    requires var q := ring[k + 1].addr;
             q in ptr && q in size && ptr1 == ptr[x.addr := ptr[q]] && size1 == size[x.addr := x.units + size[q]]
    ensures var r := Merge(Put(ring, k, x), k + 1);
            k + 1 < |r| && r[k] == ring[k] && r[k + 1].addr == x.addr && Injective(r) && LinkedBut(r, k, ptr1, size1)
  {
    var put := Put(ring, k, x);
    OrderedInjective(ring);
    SlotFresh(ring, k, x);
    PutWeak(ring, k, x);
    assert put[k] == ring[k] && put[k + 1] == x && put[k + 2] == ring[k + 1];
    assert LinkAt(ring, k + 1, ptr, size);
    hide Ordered, Linked, Weak;
    PutMergeLinked(ring, k, x, ptr, size);
    MergeWeak(put, k + 1);
    WeakInjective(Merge(put, k + 1));
  }

  lemma RaisePlain(ring: seq<Blk>, k: nat, x: Blk, ptr: map<nat, nat>, size: map<nat, nat>,
                   ptr1: map<nat, nat>, size1: map<nat, nat>)
    requires Ordered(ring) && Slot(ring, k, x) && Linked(ring, ptr, size) && x.addr in size && size[x.addr] == x.units
    requires ptr1 == ptr[x.addr := ring[Succ(k, |ring|)].addr] && size1 == size
    ensures var r := Put(ring, k, x);
            k + 1 < |r| && r[k] == ring[k] && r[k + 1].addr == x.addr && Injective(r) && LinkedBut(r, k, ptr1, size1)
  {
    var put := Put(ring, k, x);
    OrderedInjective(ring);
    SlotFresh(ring, k, x);
    PutWeak(ring, k, x);
    assert put[k] == ring[k] && put[k + 1] == x;
    hide Ordered, Linked, Weak;
    PutLinked(ring, k, x, ptr, size);
    WeakInjective(put);
  }

  /** p's header after the second half of free: linked to bp, or merged with it. */
  lemma CloseRing(r: seq<Blk>, k: nat, ptr: map<nat, nat>, size: map<nat, nat>, ptr': map<nat, nat>, size': map<nat, nat>)
    requires k + 1 < |r| && Injective(r) && LinkedBut(r, k, ptr, size)
    requires LinkAt(r, k + 1, ptr, size)
    requires if r[k].End() == r[k + 1].addr then
               && ptr' == ptr[r[k].addr := ptr[r[k + 1].addr]]
               && size' == size[r[k].addr := size[r[k].addr] + size[r[k + 1].addr]]
             else ptr' == ptr[r[k].addr := r[k + 1].addr] && size' == size
    ensures Linked(MergeIf(r, k), ptr', size')
  {
    if Touch(r, k) {
      CloseMergeLinked(r, k, ptr, size);
    } else {
      CloseLinked(r, k, ptr, size);
    }
  }

  lemma LiveNotFree(ring: seq<Blk>, live: map<nat, nat>, top: nat, k: nat)
    requires Ordered(ring) && LiveOk(ring, live, top) && k < |ring|
    ensures ring[k].addr !in live
  {
    var a := ring[k].addr;
    assert a in live ==> Placed(ring, Blk(a, live[a]), top);
  }

  /** What putting block bp back behind position k does to the lists. */
  lemma FreeSpec(ring: seq<Blk>, live: map<nat, nat>, top: nat, units: nat, bp: nat, k: nat)
    requires Lists(ring, live, top, units) && bp in live && Slot(ring, k, Blk(bp, live[bp]))
    ensures Ordered(ring) && ring[k].addr !in live && ring[k].addr >= ring[0].addr
    ensures var x := Blk(bp, live[bp]);
            var r := Insert(ring, k, x);
            && Lists(r, live - {bp}, top, units) && |r| >= 1 && r[0] == ring[0]
            && k < |r| && r[k].addr == ring[k].addr
            && (r[k].units >= x.units || (k + 1 < |r| && r[k + 1].units >= x.units))
            && Gained(ring, r, x.addr, x.End())
  {
    var x := Blk(bp, live[bp]);
    LiveNotFree(ring, live, top, k);
    assert k > 0 ==> ring[0].End() < ring[k].addr;
    FreeKeeps(ring, live, top, units, bp, k);
    InsertPlace(ring, k, x);
    hide Insert, LiveOk, Slot;
    forall y: nat ensures IsFree(Insert(ring, k, x), y) <==> IsFree(ring, y) || x.addr <= y < x.End() {
      InsertCovers(ring, k, x, y);
    }
  }

  lemma LivePlaced(ring: seq<Blk>, live: map<nat, nat>, top: nat, units: nat, bp: nat)
    requires Lists(ring, live, top, units) && bp in live
    ensures Placed(ring, Blk(bp, live[bp]), top)
  {
  }

  /** What handing out u units of block j does to the lists. */
  lemma TakeSpec(ring: seq<Blk>, live: map<nat, nat>, top: nat, units: nat, j: nat, u: nat)
    requires Lists(ring, live, top, units) && 1 <= j < |ring| && 0 < u <= ring[j].units
    ensures Injective(ring)
    ensures var x := Taken(ring, j, u).addr;
            var r := Take(ring, j, u);
            && x !in live && Lists(r, live[x := u], top, units) && |r| >= 1 && r[0] == ring[0]
            && j - 1 < |r| && r[j - 1].addr == ring[j - 1].addr
            && (u < ring[j].units ==> forall i | 0 <= i < |ring| :: ring[i].addr != x)
            && Gained(r, ring, x, x + HEADER * u)
            && forall y: nat | x <= y < x + HEADER * u :: !IsFree(r, y)
    ensures forall i | 0 <= i < |ring| :: ring[i].addr !in live
  {
    forall i | 0 <= i < |ring| ensures ring[i].addr !in live { LiveNotFree(ring, live, top, i); }
    TakeKeeps(ring, live, top, units, j, u);
    OrderedInjective(ring);
    if u < ring[j].units { TakenFresh(ring, j, u); }
    forall y: nat ensures var x := Taken(ring, j, u); IsFree(Take(ring, j, u), y) <==> IsFree(ring, y) && !(x.addr <= y < x.End()) {
      TakeCovers(ring, j, u, y);
    }
    var x := Taken(ring, j, u);
    forall y: nat | x.addr <= y < x.End() ensures IsFree(ring, y) {
      assert ring[j].addr <= y < ring[j].End();
    }
  }

  /** Memory beyond the break holds no header of the lists. */
  lemma BeyondBreak(ring: seq<Blk>, ptr: map<nat, nat>, size: map<nat, nat>, live: map<nat, nat>, top: nat, units: nat, hp: nat, n: nat)
    requires Lists(ring, live, top, units) && Linked(ring, ptr, size) && top <= hp
    ensures Linked(ring, ptr, size[hp := n])
  {
    var size' := size[hp := n];
    forall i | 0 <= i < |ring| ensures LinkAt(ring, i, ptr, size') {
      assert LinkAt(ring, i, ptr, size);
      assert ring[i].addr != hp;
    }
  }

  lemma LinkedAt(ring: seq<Blk>, ptr: map<nat, nat>, size: map<nat, nat>, i: nat)
    requires Linked(ring, ptr, size) && i < |ring|
    ensures LinkAt(ring, i, ptr, size)
  {
  }

  lemma BaseFirst(ring: seq<Blk>, live: map<nat, nat>, top: nat, units: nat)
    requires Lists(ring, live, top, units)
    ensures |ring| >= 1 && ring[0].units == 0 && Injective(ring)
    ensures forall i | 0 <= i < |ring| :: ring[i].addr >= ring[0].addr
  {
    OrderedInjective(ring);
    assert forall i | 0 < i < |ring| :: ring[0].End() < ring[i].addr;
  }

  /** The list index c steps after that of freep. */
  function At(f: nat, c: nat, n: nat): nat {
    if f + 1 + c < n then f + 1 + c else f + 1 + c - n
  }

  /** The free memory gained exactly the addresses from lo up to hi. */
  ghost predicate Gained(before: seq<Blk>, after: seq<Blk>, lo: int, hi: int) {
    forall y: nat :: IsFree(after, y) <==> IsFree(before, y) || lo <= y < hi
  }

  lemma SmallNext(ring: seq<Blk>, f: nat, c: nat, u: nat)
    requires Small(ring, f, c, u) && c < |ring| && At(f, c, |ring|) != f && ring[At(f, c, |ring|)].units < u
    ensures c + 1 < |ring| && Small(ring, f, c + 1, u) && At(f, c + 1, |ring|) == Succ(At(f, c, |ring|), |ring|)
  {
  }

  /** Some free block has at least u units. */
  ghost predicate HasFit(ring: seq<Blk>, u: nat) {
    exists i :: 0 <= i < |ring| && ring[i].units >= u
  }

  /** The first c blocks looked at, from the one after freep on, are too small. */
  ghost predicate Small(ring: seq<Blk>, f: nat, c: nat, u: nat) {
    f < |ring| && c <= |ring| && forall b: nat | b < c :: ring[At(f, b, |ring|)].units < u
  }

  /** Block j is the first of at least u units behind the one at address at, in list order. */
  ghost predicate NextFit(ring: seq<Blk>, at: nat, u: nat, j: nat) {
    exists f: nat, c: nat | f < |ring| && c < |ring| ::
      ring[f].addr == at && Small(ring, f, c, u) && j == At(f, c, |ring|) && ring[j].units >= u
  }

  lemma BaseTooSmall(ring: seq<Blk>, u: nat)
    requires |ring| == 1 && ring[0].units == 0 && u > 0
    ensures !HasFit(ring, u)
  {
  }

  /**
   Where malloc's search is: f is freep's place in the list and i that of prevp, c blocks were looked at, and
   g is the place of the block that memory just obtained went into.
   */
  datatype Scan = Scan(f: nat, i: nat, c: nat, grown: bool, g: nat)

  ghost predicate Here(ring: seq<Blk>, at: Scan, u: nat, freep: nat, prevp: nat, p: nat) {
    && at.f < |ring| && ring[at.f].addr == freep && at.i < |ring| && ring[at.i].addr == prevp
    && ring[Succ(at.i, |ring|)].addr == p
    && (!at.grown ==> at.c < |ring| && Succ(at.i, |ring|) == At(at.f, at.c, |ring|) && Small(ring, at.f, at.c, u))
    && (at.grown ==> at.g < |ring| && ring[at.g].units >= u && (at.g == at.f || (at.g == at.f + 1 && at.i == at.f)))
  }

  ghost function Steps(ring: seq<Blk>, at: Scan): int {
    if at.grown then Dist(Succ(at.i, |ring|), at.g, |ring|) else |ring| - at.c
  }

  lemma HereStart(ring: seq<Blk>, f: nat, u: nat)
    requires f < |ring|
    ensures Here(ring, Scan(f, f, 0, false, 0), u, ring[f].addr, ring[f].addr, ring[Succ(f, |ring|)].addr)
  {
    NoneYet(ring, f, u);
  }

  lemma HereIs(ring: seq<Blk>, at: Scan, u: nat, freep: nat, prevp: nat, p: nat)
    requires Here(ring, at, u, freep, prevp, p)
    ensures at.f < |ring| && at.i < |ring| && Succ(at.i, |ring|) < |ring| && ring[Succ(at.i, |ring|)].addr == p
    ensures ring[at.i].addr == prevp && ring[at.f].addr == freep && Steps(ring, at) >= 0
  {
  }

  lemma HereFound(ring: seq<Blk>, at: Scan, u: nat, freep: nat, prevp: nat, p: nat)
    requires Here(ring, at, u, freep, prevp, p) && ring[0].units == 0 && u > 0 && ring[Succ(at.i, |ring|)].units >= u
    ensures var j := Succ(at.i, |ring|); j == at.i + 1 && HasFit(ring, u) && (!at.grown ==> NextFit(ring, freep, u, j))
  {
    FoundFit(ring, Succ(at.i, |ring|), u);
  }

  lemma HereAround(ring: seq<Blk>, at: Scan, u: nat, freep: nat, prevp: nat, p: nat)
    requires Here(ring, at, u, freep, prevp, p) && Injective(ring) && p == freep && ring[Succ(at.i, |ring|)].units < u
    ensures !at.grown && !HasFit(ring, u)
  {
    SameIndex(ring, Succ(at.i, |ring|), at.f);
    if !at.grown { AllSmall(ring, at.f, at.c, u); }
  }

  lemma HereGrown(ring: seq<Blk>, f: nat, g: nat, u: nat)
    requires f < |ring| && g < |ring| && ring[g].units >= u && (g == f || g == f + 1)
    ensures Here(ring, Scan(f, f, 0, true, g), u, ring[f].addr, ring[f].addr, ring[Succ(f, |ring|)].addr)
  {
  }

  lemma HereNext(ring: seq<Blk>, at: Scan, u: nat, freep: nat, prevp: nat, p: nat)
    requires Here(ring, at, u, freep, prevp, p) && p != freep && ring[Succ(at.i, |ring|)].units < u
    ensures var j := Succ(at.i, |ring|);
            var next := at.(i := j, c := at.c + 1);
            && j < |ring| && Here(ring, next, u, freep, p, ring[Succ(j, |ring|)].addr)
            && 0 <= Steps(ring, next) < Steps(ring, at)
  {
    if !at.grown { SmallNext(ring, at.f, at.c, u); }
  }

  lemma NoneYet(ring: seq<Blk>, f: nat, u: nat)
    requires f < |ring|
    ensures Small(ring, f, 0, u) && At(f, 0, |ring|) == Succ(f, |ring|)
  {
  }

  lemma FoundFit(ring: seq<Blk>, j: nat, u: nat)
    requires j < |ring| && ring[j].units >= u
    ensures HasFit(ring, u)
  {
  }

  /** Memory gained (when the list grew) and then handed out. */
  lemma CutOut(r0: seq<Blk>, r1: seq<Blk>, r2: seq<Blk>, grown: bool, lo: int, hi: int, a: int, b: int)
    requires if grown then Gained(r0, r1, lo, hi) else r0 == r1
    requires Gained(r2, r1, a, b) && forall y: nat | a <= y < b :: !IsFree(r2, y)
    ensures forall y: nat :: IsFree(r2, y) <==> (IsFree(r0, y) || (grown && lo <= y < hi)) && !(a <= y < b)
  {
    hide IsFree;
    forall y: nat ensures IsFree(r2, y) <==> (IsFree(r0, y) || (grown && lo <= y < hi)) && !(a <= y < b) {
      assert IsFree(r1, y) <==> IsFree(r2, y) || a <= y < b;
    }
  }

  lemma AllSmall(ring: seq<Blk>, f: nat, c: nat, u: nat)
    requires Small(ring, f, c, u) && c < |ring| && At(f, c, |ring|) == f && ring[f].units < u
    ensures !HasFit(ring, u)
  {
    forall i | 0 <= i < |ring| ensures ring[i].units < u {
      if i != f {
        var b := if i > f then i - f - 1 else i + |ring| - f - 1;
        assert At(f, b, |ring|) == i;
      }
    }
  }

  lemma SameIndex(ring: seq<Blk>, i: nat, j: nat)
    requires Injective(ring) && i < |ring| && j < |ring| && ring[i].addr == ring[j].addr
    ensures i == j
  {
  }

  lemma JustBase(ring: seq<Blk>, ptr: map<nat, nat>, size: map<nat, nat>)
    requires |ring| == 1 && ring[0].addr in ptr && ring[0].addr in size
    requires ptr[ring[0].addr] == ring[0].addr && size[ring[0].addr] == ring[0].units
    ensures Linked(ring, ptr, size)
  {
  }

  class Allocator {
    const base: nat           // address of the static header
    var freep: nat            // 0 before the first call of malloc
    var ptr: map<nat, nat>    // s.ptr of the header at an address
    var size: map<nat, nat>   // s.size of the header at an address
    ghost var ring: seq<Blk>        // the free list
    ghost var live: map<nat, nat>   // blocks handed out, with their units
    ghost var top: nat              // end of the memory obtained so far
    ghost var units: nat            // units obtained from sbrk

    /** The headers in memory agree with the lists. */
    ghost predicate InMemory()
      reads this
    {
      && (forall a | a in live :: a in size && size[a] == live[a])
      && (freep == 0 ==> ring == [Blk(base, 0)] && live == map[])
      && (freep != 0 ==> Linked(ring, ptr, size) && exists k :: 0 <= k < |ring| && ring[k].addr == freep)
    }

    ghost predicate Valid()
      reads this
    {
      base > 0 && |ring| >= 1 && ring[0].addr == base && Lists(ring, live, top, units) && InMemory()
    }

    constructor (base: nat)
      requires base > 0
      ensures Valid() && this.base == base && live == map[] && units == 0
    {
      this.base := base;
      freep, ptr, size := 0, map[], map[];
      ring, live, top, units := [Blk(base, 0)], map[], base + HEADER, 0;
      new;
      assert FreeUnits(ring) == 0 by { FreeUnitsSnoc([], ring[0]); assert [] + [ring[0]] == ring; }
    }

    /** The search of free: the list element behind which bp belongs. */
    method FindPlace(bp: nat, ghost x: Blk) returns (p: nat, ghost k: nat)
      requires Valid() && freep != 0 && x.addr == bp && Placed(ring, x, top)
      ensures Slot(ring, k, x) && k < |ring| && p == ring[k].addr && LinkAt(ring, k, ptr, size)
    {
      k := FindSlot(ring, x, |ring|);
      p := freep;
      ghost var i :| 0 <= i < |ring| && ring[i].addr == freep;
      assert LinkAt(ring, i, ptr, size);
      while !(bp > p && bp < ptr[p])
        invariant 0 <= i < |ring| && ring[i].addr == p && LinkAt(ring, i, ptr, size)
        decreases Dist(i, k, |ring|)
      {
        SlotIsExit(ring, k, x, i);
        if p >= ptr[p] && (bp > p || bp < ptr[p]) {
          break;
        }
        p := ptr[p];
        i := Succ(i, |ring|);
        assert LinkAt(ring, i, ptr, size);
      }
      SlotIsExit(ring, k, x, i);
    }

    /** The pointer surgery of free, at the place found. */
    method Coalesce(p: nat, bp: nat, ghost k: nat, ghost x: Blk)
      requires Ordered(ring) && Linked(ring, ptr, size) && Slot(ring, k, x) && k < |ring| && p == ring[k].addr
      requires bp == x.addr && bp in size && size[bp] == x.units
      modifies this`ptr, this`size, this`freep
      ensures freep == p && Linked(Insert(ring, k, x), ptr, size)
      ensures forall a | a in old(size) && a != bp && a != p :: a in size && size[a] == old(size)[a]
    {
      hide Ordered, Linked, Slot, Injective, LinkedBut, Put, Merge;
      Raise(p, bp, k, x);
      Close(p, bp, k, MergeIf(Put(ring, k, x), k + 1));
      freep := p;
    }

    /** The first half of free: bp takes over what follows it, merged with it if they touch. */
    method Raise(p: nat, bp: nat, ghost k: nat, ghost x: Blk)
      requires Ordered(ring) && Linked(ring, ptr, size) && Slot(ring, k, x) && k < |ring| && p == ring[k].addr
      requires bp == x.addr && bp in size && size[bp] == x.units
      modifies this`ptr, this`size
      ensures var r := MergeIf(Put(ring, k, x), k + 1);
              && k + 1 < |r| && r[k].addr == p && r[k + 1].addr == bp && Injective(r) && LinkedBut(r, k, ptr, size)
      ensures forall a | a in old(size) && a != bp :: a in size && size[a] == old(size)[a]
    {
      ghost var ptr0, size0 := ptr, size;
      assert LinkAt(ring, k, ptr, size) && LinkAt(ring, Succ(k, |ring|), ptr, size);
      SlotFresh(ring, k, x);
      hide Ordered, Linked, Slot;
      var q: nat := ptr[p];
      if bp + HEADER * size[bp] == q {
        size := size[bp := size[bp] + size[q]];
        ptr := ptr[bp := ptr[q]];
      } else {
        ptr := ptr[bp := q];
      }
      RaiseLinked(ring, k, x, ptr0, size0, ptr, size);
    }

    /** The second half of free: p points to bp, or is merged with it. */
    method Close(p: nat, bp: nat, ghost k: nat, ghost r: seq<Blk>)
      requires k + 1 < |r| && r[k].addr == p && r[k + 1].addr == bp && Injective(r) && LinkedBut(r, k, ptr, size)
      modifies this`ptr, this`size
      ensures Linked(MergeIf(r, k), ptr, size)
      ensures forall a | a in old(size) && a != p :: a in size && size[a] == old(size)[a]
    {
      ghost var ptr1, size1 := ptr, size;
      assert LinkAt(r, k + 1, ptr, size);
      hide Linked, Injective, Merge;
      if p + HEADER * size[p] == bp {
        size := size[p := size[p] + size[bp]];
        ptr := ptr[p := ptr[bp]];
      } else {
        ptr := ptr[p := bp];
      }
      CloseRing(r, k, ptr1, size1, ptr, size);
    }

    /**
     Give a block back.  The list stays in address order with no two blocks touching, and the
     freed block is in it, merged at freep or right behind it.
     */
    method Free(ap: nat) returns (ghost k: nat)
      requires Valid() && freep != 0 && ap >= HEADER && ap - HEADER in live
      modifies this
      ensures Valid() && freep != 0 && top == old(top) && units == old(units)
      ensures live == old(live) - {ap - HEADER}
      ensures Gained(old(ring), ring, ap - HEADER, ap - HEADER + HEADER * old(live)[ap - HEADER])
      ensures k < |ring| && ring[k].addr == freep
      ensures var u := old(live)[ap - HEADER];
              ring[k].units >= u || (k + 1 < |ring| && ring[k + 1].units >= u)
    {
      hide Lists, Ordered, LiveOk, Linked, Slot, Insert, Placed, IsFree;
      var bp: nat := ap - HEADER;
      ghost var x := Blk(bp, live[bp]);
      LivePlaced(ring, live, top, units, bp);
      var p: nat;
      p, k := FindPlace(bp, x);
      FreeSpec(ring, live, top, units, bp, k);
      Coalesce(p, bp, k, x);
      ring := Insert(ring, k, x);
      live := live - {bp};
    }

    /** Ask for more memory and put it on the free list; brk is what sbrk answers. */
    method MoreCore(nu: nat, brk: int) returns (p: nat, ghost f: nat, ghost g: nat)
      requires Valid() && freep != 0 && 0 < nu && (brk == -1 || (brk >= top && nu < MAXUNITS))
      modifies this
      ensures Valid() && freep != 0 && live == old(live) && (p == 0 <==> brk == -1)
      ensures p == 0 ==> ring == old(ring) && units == old(units) && top == old(top) && freep == old(freep)
      ensures p != 0 ==> && p == freep && units == old(units) + Chunk(nu) && top == brk + HEADER * Chunk(nu)
      ensures p != 0 ==> Gained(old(ring), ring, brk, brk + HEADER * Chunk(nu))
      ensures p != 0 ==> units == old(units) + (if nu < 4096 then 4096 else nu)
      ensures p != 0 ==> && f < |ring| && ring[f].addr == freep && g < |ring| && ring[g].units >= nu
                         && (g == f || (g == f + 1))
    {
      hide Lists, Linked, IsFree;
      var n := nu;
      if n < CHUNK {
        n := CHUNK;
      }
      f, g := 0, 0;
      if brk == -1 {
        return 0, 0, 0;
      }
      var hp: nat := brk;
      GrowKeeps(ring, live, top, units, hp, n);
      BeyondBreak(ring, ptr, size, live, top, units, hp, n);
      size := size[hp := n];
      live, top, units := live[hp := n], hp + HEADER * n, units + n;
      f := Free(hp + HEADER);
      assert live == old(live);
      g := if ring[f].units >= n then f else f + 1;
      p := freep;
    }

    /** Hand out u units of the block at p, whose predecessor in the list is at prevp. */
    method TakeBlock(prevp: nat, p: nat, u: nat, ghost j: nat) returns (r: nat)
      requires Valid() && freep != 0 && u > 0 && 1 <= j < |ring| && ring[j].addr == p && ring[j - 1].addr == prevp
      requires ring[j].units >= u
      modifies this
      ensures Valid() && freep == prevp && top == old(top) && units == old(units)
      ensures r >= HEADER && r - HEADER !in old(live) && live == old(live)[r - HEADER := u]
      ensures r - HEADER == p + HEADER * (old(ring)[j].units - u)
      ensures Gained(ring, old(ring), r - HEADER, r - HEADER + HEADER * u)
      ensures forall y: nat | r - HEADER <= y < r - HEADER + HEADER * u :: !IsFree(ring, y)
    {
      hide Lists, Linked, IsFree, Injective, Unlink, Shrink;
      LinkedAt(ring, ptr, size, j);
      TakeSpec(ring, live, top, units, j, u);
      BaseFirst(ring, live, top, units);
      var q := p;
      if size[p] == u {
        UnlinkLinked(ring, j, ptr, size);
        ptr := ptr[prevp := ptr[p]];
      } else {
        ShrinkLinked(ring, j, u, ptr, size, p + HEADER * (size[p] - u));
        size := size[p := size[p] - u];
        q := p + HEADER * size[p];
        size := size[q := u];
      }
      freep := prevp;
      ring := Take(ring, j, u);
      live := live[q := u];
      r := q + HEADER;
    }

    /** malloc's search for a block of u units, growing the list once if it has to. */
    method Search(u: nat, brk: int) returns (found: bool, prevp: nat, p: nat, ghost j: nat)
      requires Valid() && freep != 0 && 0 < u && (brk == -1 || (brk >= top && (HasFit(ring, u) || u < MAXUNITS)))
      modifies this
      ensures Valid() && freep != 0 && live == old(live)
      ensures !found <==> !HasFit(old(ring), u) && brk == -1
      ensures HasFit(old(ring), u) || !found ==> ring == old(ring) && units == old(units)
      ensures !HasFit(old(ring), u) && found ==>
                units == old(units) + Chunk(u) && Gained(old(ring), ring, brk, brk + HEADER * Chunk(u))
      ensures found ==> 1 <= j < |ring| && ring[j].addr == p && ring[j - 1].addr == prevp && ring[j].units >= u
      ensures HasFit(old(ring), u) ==> NextFit(ring, old(freep), u, j)
    {
      hide Lists, Linked, IsFree, Injective, HasFit, Gained, Chunk, Ordered, Here, NextFit, Succ, Steps;
      prevp := freep;
      j := 0;
      ghost var f: nat :| f < |ring| && ring[f].addr == freep;
      ghost var at := Scan(f, f, 0, false, 0);
      LinkedAt(ring, ptr, size, f);
      HereStart(ring, f, u);
      p := ptr[prevp];
      while true
        invariant Valid() && freep != 0 && live == old(live) && Here(ring, at, u, freep, prevp, p)
        invariant !at.grown ==> ring == old(ring) && units == old(units) && top == old(top) && freep == old(freep)
        invariant at.grown ==> units == old(units) + Chunk(u) && brk != -1 && !HasFit(old(ring), u)
        invariant at.grown ==> Gained(old(ring), ring, brk, brk + HEADER * Chunk(u))
        decreases !at.grown, Steps(ring, at)
      {
        BaseFirst(ring, live, top, units);
        j := Succ(at.i, |ring|);
        HereIs(ring, at, u, freep, prevp, p);
        LinkedAt(ring, ptr, size, j);
        if size[p] >= u {
          HereFound(ring, at, u, freep, prevp, p);
          return true, prevp, p, j;
        }
        if p == freep {
          HereAround(ring, at, u, freep, prevp, p);
          ghost var g;
          p, f, g := MoreCore(u, brk);
          if p == 0 {
            return false, prevp, p, j;
          }
          HereGrown(ring, f, g, u);
          at := Scan(f, f, 0, true, g);
        } else {
          HereNext(ring, at, u, freep, prevp, p);
          at := at.(i := j, c := at.c + 1);
        }
        LinkedAt(ring, ptr, size, at.i);
        prevp := p;
        p := ptr[p];
      }
    }

    /**
     malloc: 0 when no free block is large enough and sbrk fails; otherwise the payload of a new
     block of UnitsFor(nbytes) units, cut from the end of the first large enough block behind freep, or
     from memory obtained because there was none.
     */
    method Malloc(nbytes: nat, brk: int) returns (r: nat)
      requires Valid() && nbytes < WORD
      requires brk == -1 || (brk >= top && (HasFit(ring, UnitsFor(nbytes)) || UnitsFor(nbytes) < MAXUNITS))
      modifies this
      ensures Valid()
      ensures var fits := HasFit(old(ring), UnitsFor(nbytes));
              && (r == 0 <==> !fits && brk == -1)
              && units == old(units) + (if fits || r == 0 then 0 else Chunk(UnitsFor(nbytes)))
      ensures r == 0 ==> live == old(live) && ring == old(ring)
      ensures r != 0 ==> && r >= HEADER && r - HEADER !in old(live)
                         && live == old(live)[r - HEADER := UnitsFor(nbytes)]
      ensures r != 0 ==> forall y: nat :: IsFree(ring, y) <==>
                && (IsFree(old(ring), y) || (units != old(units) && brk <= y < brk + HEADER * Chunk(UnitsFor(nbytes))))
                && !(r - HEADER <= y < r - HEADER + HEADER * UnitsFor(nbytes))
      ensures HasFit(old(ring), UnitsFor(nbytes)) ==>
                exists j: nat | j < |old(ring)| && NextFit(old(ring), old(freep), UnitsFor(nbytes), j) ::
                  r == old(ring)[j].addr + HEADER * (old(ring)[j].units - UnitsFor(nbytes)) + HEADER
    {
      hide Lists, Linked, IsFree, HasFit, UnitsFor, Gained, NextFit;
      var nunits := UnitsFor(nbytes);
      if freep == 0 { BaseTooSmall(ring, nunits); }
      if freep == 0 {
        ptr := ptr[base := base];
        size := size[base := 0];
        freep := base;
        JustBase(ring, ptr, size);
      }
      var found, prevp, p;
      ghost var j;
      found, prevp, p, j := Search(nunits, brk);
      if !found {
        return 0;
      }
      ghost var r1, grown := ring, units != old(units);
      r := TakeBlock(prevp, p, nunits, j);
      CutOut(old(ring), r1, ring, grown, brk, brk + HEADER * Chunk(nunits), r - HEADER, r - HEADER + HEADER * nunits);
    }
  }
}
