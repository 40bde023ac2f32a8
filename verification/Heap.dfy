/**
 The user-level allocator of umalloc.c: headers in memory, linked into one circular list of
 free blocks in address order that starts at the static header `base`.

 Addresses are byte addresses; a block of u units occupies u headers from its own header on.
 */
module Heap {

  const HEADER := 8         // sizeof(Header)
  const CHUNK := 4096       // least number of units asked of sbrk
  const WORD := 0x1_0000_0000

  datatype Blk = Blk(addr: nat, units: nat)
  {
    function End(): nat { addr + HEADER * units }
  }

  /** The free list in list order, beginning with base, which has no units. */
  ghost predicate Ordered(ring: seq<Blk>) {
    && |ring| >= 1 && ring[0].units == 0
    && (forall i | 1 <= i < |ring| :: ring[i].units > 0 && ring[0].addr + HEADER <= ring[i].addr)
    && (forall i, j | 0 <= i < j < |ring| :: ring[i].End() < ring[j].addr)
  }

  function Succ(i: nat, n: nat): nat {
    if i + 1 >= n then 0 else i + 1
  }

  /** Header i of the list, as stored in memory. */
  ghost predicate LinkAt(ring: seq<Blk>, i: nat, ptr: map<nat, nat>, size: map<nat, nat>)
    requires i < |ring|
  {
    && ring[i].addr in ptr && ring[i].addr in size
    && ptr[ring[i].addr] == ring[Succ(i, |ring|)].addr && size[ring[i].addr] == ring[i].units
  }

  /** The headers in memory spell the list: one cycle, in this order. */
  ghost predicate Linked(ring: seq<Blk>, ptr: map<nat, nat>, size: map<nat, nat>) {
    forall i | 0 <= i < |ring| :: LinkAt(ring, i, ptr, size)
  }

  ghost predicate Apart(a: Blk, b: Blk) {
    a.End() <= b.addr || b.End() <= a.addr
  }

  /** Block b is disjoint from every free block. */
  ghost predicate ClearOf(b: Blk, ring: seq<Blk>) {
    forall i | 1 <= i < |ring| :: Apart(b, ring[i])
  }

  ghost predicate Within(ring: seq<Blk>, top: nat) {
    |ring| >= 1 && ring[0].addr + HEADER <= top && forall i | 1 <= i < |ring| :: ring[i].End() <= top
  }

  ghost predicate Placed(ring: seq<Blk>, b: Blk, top: nat) {
    |ring| >= 1 && b.units > 0 && ring[0].addr + HEADER <= b.addr && b.End() <= top && ClearOf(b, ring)
  }

  /** Blocks handed out: inside the heap, and disjoint from the free blocks and from each other. */
  ghost predicate LiveOk(ring: seq<Blk>, live: map<nat, nat>, top: nat) {
    && Within(ring, top)
    && (forall a | a in live :: Placed(ring, Blk(a, live[a]), top))
    && (forall a, b | a in live && b in live && a != b :: Apart(Blk(a, live[a]), Blk(b, live[b])))
  }

  /** Address x belongs to a free block. */
  ghost predicate IsFree(ring: seq<Blk>, x: nat) {
    exists i :: 0 <= i < |ring| && ring[i].addr <= x < ring[i].End()
  }

  function FreeUnits(ring: seq<Blk>): nat {
    if ring == [] then 0 else FreeUnits(ring[..|ring| - 1]) + ring[|ring| - 1].units
  }

  ghost function LiveUnits(live: map<nat, nat>): nat {
    if live == map[] then 0
    else
      var a :| a in live;
      live[a] + LiveUnits(live - {a})
  }

  // ----- Sums

  lemma {:induction false} FreeUnitsConcat(a: seq<Blk>, b: seq<Blk>)
    ensures FreeUnits(a + b) == FreeUnits(a) + FreeUnits(b)
  {
    if b == [] {
      assert a + b == a;
    } else {
      FreeUnitsConcat(a, b[..|b| - 1]);
      assert (a + b)[..|a + b| - 1] == a + b[..|b| - 1];
    }
  }

  lemma FreeUnitsSnoc(a: seq<Blk>, b: Blk)
    ensures FreeUnits(a + [b]) == FreeUnits(a) + b.units
  {
    assert (a + [b])[..|a|] == a;
  }

  lemma {:induction false} LiveUnitsSplit(live: map<nat, nat>, a: nat)
    requires a in live
    ensures LiveUnits(live) == live[a] + LiveUnits(live - {a})
    decreases |live|
  {
    var b :| b in live && LiveUnits(live) == live[b] + LiveUnits(live - {b});
    if b != a {
      LiveUnitsSplit(live - {b}, a);
      LiveUnitsSplit(live - {a}, b);
      assert live - {a} - {b} == live - {b} - {a};
    }
  }

  lemma LiveUnitsAdd(live: map<nat, nat>, a: nat, u: nat)
    requires a !in live
    ensures LiveUnits(live[a := u]) == LiveUnits(live) + u
  {
    LiveUnitsSplit(live[a := u], a);
    assert live[a := u] - {a} == live;
  }

  // ----- Putting a block back

  /** Block x belongs right after position k of the list. */
  ghost predicate Slot(ring: seq<Blk>, k: nat, x: Blk) {
    && k < |ring| && x.units > 0 && ring[0].addr + HEADER <= x.addr
    && ring[k].End() <= x.addr && (k + 1 < |ring| ==> x.End() <= ring[k + 1].addr)
  }

  /** As Ordered, but neighbours may touch. */
  ghost predicate Weak(ring: seq<Blk>) {
    && |ring| >= 1 && ring[0].units == 0
    && (forall i | 1 <= i < |ring| :: ring[i].units > 0 && ring[0].addr + HEADER <= ring[i].addr)
    && (forall i, j | 0 <= i < j < |ring| :: ring[i].End() <= ring[j].addr)
  }

  predicate Touch(ring: seq<Blk>, i: nat) {
    i + 1 < |ring| && ring[i].End() == ring[i + 1].addr
  }

  lemma OrderedIff(ring: seq<Blk>)
    ensures Ordered(ring) <==> Weak(ring) && forall i: nat :: !Touch(ring, i)
  {
    if Weak(ring) && forall i: nat :: !Touch(ring, i) {
      forall i, j | 0 <= i < j < |ring| ensures ring[i].End() < ring[j].addr {
        assert !Touch(ring, i);
        assert ring[i].End() < ring[i + 1].addr;
        if i + 1 < j { assert ring[i + 1].End() <= ring[j].addr; }
      }
    }
  }

  function Put(ring: seq<Blk>, k: nat, x: Blk): seq<Blk>
    requires k < |ring|
  {
    ring[..k + 1] + [x] + ring[k + 1..]
  }

  function Merge(ring: seq<Blk>, i: nat): seq<Blk>
    requires i + 1 < |ring|
  {
    ring[..i] + [Blk(ring[i].addr, ring[i].units + ring[i + 1].units)] + ring[i + 2..]
  }

  function MergeIf(ring: seq<Blk>, i: nat): seq<Blk> {
    if Touch(ring, i) then Merge(ring, i) else ring
  }

  /** The list after freeing x behind position k, coalesced with both neighbours. */
  function Insert(ring: seq<Blk>, k: nat, x: Blk): seq<Blk>
    requires k < |ring|
  {
    MergeIf(MergeIf(Put(ring, k, x), k + 1), k)
  }

  lemma PutWeak(ring: seq<Blk>, k: nat, x: Blk)
    requires Ordered(ring) && Slot(ring, k, x)
    ensures Weak(Put(ring, k, x)) && Put(ring, k, x)[0] == ring[0]
  {
    var r := Put(ring, k, x);
    assert forall i | 0 <= i < |r| :: r[i] == if i <= k then ring[i] else if i == k + 1 then x else ring[i - 1];
    forall i, j | 0 <= i < j < |r| ensures r[i].End() <= r[j].addr {
      if i <= k && j == k + 1 { assert i < k ==> ring[i].End() < ring[k].addr; }
      if i == k + 1 && j > k + 2 { assert ring[k + 1].End() < ring[j - 1].addr; }
    }
  }

  /** Putting x back makes at most x and its two neighbours touch. */
  lemma PutTouch(ring: seq<Blk>, k: nat, x: Blk, i: nat)
    requires Ordered(ring) && Slot(ring, k, x) && Touch(Put(ring, k, x), i)
    ensures i == k || i == k + 1
  {
  }

  lemma MergeWeak(ring: seq<Blk>, i: nat)
    requires Weak(ring) && Touch(ring, i) && i >= 1
    ensures Weak(Merge(ring, i)) && Merge(ring, i)[0] == ring[0]
    ensures forall j: nat :: Touch(Merge(ring, i), j) ==> Touch(ring, if j < i then j else j + 1)
  {
    var r := Merge(ring, i);
    forall j: nat | Touch(r, j) ensures Touch(ring, if j < i then j else j + 1) {
      if j < i { assert r[j] == ring[j]; }
      if j > i { assert r[j] == ring[j + 1] && r[j + 1] == ring[j + 2]; }
    }
  }

  lemma BaseAlone(ring: seq<Blk>)
    requires Weak(ring)
    ensures !Touch(ring, 0)
  {
  }

  lemma InsertOrdered(ring: seq<Blk>, k: nat, x: Blk)
    requires Ordered(ring) && Slot(ring, k, x)
    ensures Ordered(Insert(ring, k, x)) && Insert(ring, k, x)[0] == ring[0]
  {
    hide Put, Merge, Weak, Ordered;
    var r1 := Put(ring, k, x);
    PutWeak(ring, k, x);
    forall i: nat | Touch(r1, i) ensures i == k || i == k + 1 { PutTouch(ring, k, x, i); }
    var r2 := MergeIf(r1, k + 1);
    if Touch(r1, k + 1) { MergeWeak(r1, k + 1); }
    assert forall i: nat :: Touch(r2, i) ==> i == k;
    assert Touch(r2, k) ==> k >= 1 by { BaseAlone(r2); }
    var r3 := MergeIf(r2, k);
    if Touch(r2, k) { MergeWeak(r2, k); }
    OrderedIff(r3);
  }

  lemma PutCovers(ring: seq<Blk>, k: nat, x: Blk, y: nat)
    requires k < |ring|
    ensures IsFree(Put(ring, k, x), y) <==> IsFree(ring, y) || x.addr <= y < x.End()
  {
    var r := Put(ring, k, x);
    if IsFree(r, y) {
      var i :| 0 <= i < |r| && r[i].addr <= y < r[i].End();
      if i != k + 1 { assert r[i] == ring[if i <= k then i else i - 1]; }
    }
    if IsFree(ring, y) {
      var i :| 0 <= i < |ring| && ring[i].addr <= y < ring[i].End();
      assert ring[i] == r[if i <= k then i else i + 1];
    }
    assert r[k + 1] == x;
  }

  lemma MergeCovers(ring: seq<Blk>, i: nat, y: nat)
    requires Touch(ring, i)
    ensures IsFree(Merge(ring, i), y) <==> IsFree(ring, y)
  {
    var r := Merge(ring, i);
    assert r[i].addr == ring[i].addr && r[i].End() == ring[i + 1].End();
    if IsFree(r, y) {
      var j :| 0 <= j < |r| && r[j].addr <= y < r[j].End();
      if j != i { assert r[j] == ring[if j < i then j else j + 1]; }
      else { assert y < ring[i].End() || ring[i + 1].addr <= y; }
    }
    if IsFree(ring, y) {
      var j :| 0 <= j < |ring| && ring[j].addr <= y < ring[j].End();
      assert r[if j <= i then j else j - 1].addr <= y < r[if j <= i then j else j - 1].End();
    }
  }

  lemma InsertCovers(ring: seq<Blk>, k: nat, x: Blk, y: nat)
    requires Ordered(ring) && Slot(ring, k, x)
    ensures IsFree(Insert(ring, k, x), y) <==> IsFree(ring, y) || x.addr <= y < x.End()
  {
    var r1 := Put(ring, k, x);
    PutCovers(ring, k, x, y);
    if Touch(r1, k + 1) { MergeCovers(r1, k + 1, y); }
    var r2 := MergeIf(r1, k + 1);
    if Touch(r2, k) { MergeCovers(r2, k, y); }
  }

  lemma MergeUnits(ring: seq<Blk>, i: nat)
    requires i + 1 < |ring|
    ensures FreeUnits(Merge(ring, i)) == FreeUnits(ring)
  {
    hide FreeUnits;
    var pre, post := ring[..i], ring[i + 2..];
    var both := Blk(ring[i].addr, ring[i].units + ring[i + 1].units);
    FreeUnitsSnoc(pre, ring[i]);
    FreeUnitsSnoc(pre + [ring[i]], ring[i + 1]);
    FreeUnitsSnoc(pre, both);
    FreeUnitsConcat(pre + [ring[i]] + [ring[i + 1]], post);
    FreeUnitsConcat(pre + [both], post);
    assert ring == pre + [ring[i]] + [ring[i + 1]] + post;
  }

  lemma PutUnits(ring: seq<Blk>, k: nat, x: Blk)
    requires k < |ring|
    ensures FreeUnits(Put(ring, k, x)) == FreeUnits(ring) + x.units
  {
    hide FreeUnits;
    var pre, post := ring[..k + 1], ring[k + 1..];
    assert ring == pre + post;
    FreeUnitsConcat(pre, post);
    FreeUnitsSnoc(pre, x);
    FreeUnitsConcat(pre + [x], post);
  }

  lemma InsertUnits(ring: seq<Blk>, k: nat, x: Blk)
    requires k < |ring|
    ensures FreeUnits(Insert(ring, k, x)) == FreeUnits(ring) + x.units
  {
    var r1 := Put(ring, k, x);
    PutUnits(ring, k, x);
    if Touch(r1, k + 1) { MergeUnits(r1, k + 1); }
    var r2 := MergeIf(r1, k + 1);
    if Touch(r2, k) { MergeUnits(r2, k); }
  }

  /** A live block that stayed clear of the list and of x stays clear of the coalesced list. */
  lemma InsertApart(ring: seq<Blk>, k: nat, x: Blk, b: Blk)
    requires Ordered(ring) && Slot(ring, k, x) && b.units > 0 && Apart(b, x) && ClearOf(b, ring)
    ensures ClearOf(b, Insert(ring, k, x))
  {
    PutWeak(ring, k, x);
    PutApart(ring, k, x, b);
    hide Put, Merge, Weak, Ordered, ClearOf;
    var r1 := Put(ring, k, x);
    var r2 := MergeIf(r1, k + 1);
    MergeApart(r1, k + 1, b);
    if Touch(r1, k + 1) { MergeWeak(r1, k + 1); }
    MergeApart(r2, k, b);
  }

  lemma PutApart(ring: seq<Blk>, k: nat, x: Blk, b: Blk)
    requires k < |ring| && Apart(b, x) && ClearOf(b, ring)
    ensures ClearOf(b, Put(ring, k, x))
  {
    var r := Put(ring, k, x);
    forall i | 1 <= i < |r| ensures Apart(b, r[i]) {
      if i != k + 1 { assert r[i] == ring[if i <= k then i else i - 1]; }
    }
  }

  lemma MergeApart(ring: seq<Blk>, i: nat, b: Blk)
    requires Weak(ring) && b.units > 0 && ClearOf(b, ring)
    ensures ClearOf(b, MergeIf(ring, i))
  {
    if Touch(ring, i) {
      var r := Merge(ring, i);
      assert i >= 1;
      forall j | 1 <= j < |r| ensures Apart(b, r[j]) {
        if j != i { assert r[j] == ring[if j < i then j else j + 1]; }
        else { assert Apart(b, ring[i]) && Apart(b, ring[i + 1]); }
      }
    }
  }

  // ----- The headers in memory while a block is put back

  /** Like Linked, except that the pointer of element k is still the old one. */
  ghost predicate LinkedBut(ring: seq<Blk>, k: nat, ptr: map<nat, nat>, size: map<nat, nat>) {
    && k < |ring| && ring[k].addr in size && size[ring[k].addr] == ring[k].units && ring[k].addr in ptr
    && forall i | 0 <= i < |ring| && i != k :: LinkAt(ring, i, ptr, size)
  }

  ghost predicate Injective(ring: seq<Blk>) {
    forall i, j | 0 <= i < j < |ring| :: ring[i].addr != ring[j].addr
  }

  lemma WeakInjective(ring: seq<Blk>)
    requires Weak(ring)
    ensures Injective(ring)
  {
    forall i, j | 0 <= i < j < |ring| ensures ring[i].addr != ring[j].addr {
      assert ring[i].End() <= ring[j].addr;
    }
  }

  lemma OrderedInjective(ring: seq<Blk>)
    requires Ordered(ring)
    ensures Injective(ring)
  {
    OrderedIff(ring);
    WeakInjective(ring);
  }

  lemma SlotFresh(ring: seq<Blk>, k: nat, x: Blk)
    requires Ordered(ring) && Slot(ring, k, x)
    ensures forall i | 0 <= i < |ring| :: ring[i].addr != x.addr
  {
    forall i | 0 <= i < |ring| ensures ring[i].addr != x.addr {
      if k + 1 < i { assert ring[k + 1].End() < ring[i].addr; }
      if i < k { assert ring[i].End() < ring[k].addr; }
    }
  }

  /** bp does not touch the next block: it takes over p's pointer. */
  lemma PutLinked(ring: seq<Blk>, k: nat, x: Blk, ptr: map<nat, nat>, size: map<nat, nat>)
    requires Injective(ring) && k < |ring| && Linked(ring, ptr, size)
    requires x.addr in size && size[x.addr] == x.units && forall i | 0 <= i < |ring| :: ring[i].addr != x.addr
    ensures LinkAt(ring, k, ptr, size) && LinkedBut(Put(ring, k, x), k, ptr[x.addr := ptr[ring[k].addr]], size)
  {
    assert LinkAt(ring, k, ptr, size);
    var r, ptr' := Put(ring, k, x), ptr[x.addr := ptr[ring[k].addr]];
    forall i | 0 <= i < |r| && i != k ensures LinkAt(r, i, ptr', size) {
      if i < k { assert LinkAt(ring, i, ptr, size); }
      if i > k + 1 { assert LinkAt(ring, i - 1, ptr, size); }
    }
  }

  /** bp touches the next block: it takes over that block's units and pointer. */
  lemma PutMergeLinked(ring: seq<Blk>, k: nat, x: Blk, ptr: map<nat, nat>, size: map<nat, nat>)
    requires Injective(ring) && k + 1 < |ring| && Linked(ring, ptr, size)
    requires forall i | 0 <= i < |ring| :: ring[i].addr != x.addr
    ensures LinkAt(ring, k, ptr, size) && LinkAt(ring, k + 1, ptr, size)
    ensures LinkedBut(Merge(Put(ring, k, x), k + 1), k,
                      ptr[x.addr := ptr[ring[k + 1].addr]], size[x.addr := x.units + ring[k + 1].units])
  {
    assert LinkAt(ring, k, ptr, size) && LinkAt(ring, k + 1, ptr, size);
    var r := Merge(Put(ring, k, x), k + 1);
    var ptr', size' := ptr[x.addr := ptr[ring[k + 1].addr]], size[x.addr := x.units + ring[k + 1].units];
    assert r == ring[k + 1 := Blk(x.addr, x.units + ring[k + 1].units)];
    forall i | 0 <= i < |r| && i != k ensures LinkAt(r, i, ptr', size') {
      assert LinkAt(ring, i, ptr, size);
    }
  }

  /** p does not touch bp: it points to bp. */
  lemma CloseLinked(ring: seq<Blk>, k: nat, ptr: map<nat, nat>, size: map<nat, nat>)
    requires Injective(ring) && k + 1 < |ring| && LinkedBut(ring, k, ptr, size)
    ensures Linked(ring, ptr[ring[k].addr := ring[k + 1].addr], size)
  {
    var ptr' := ptr[ring[k].addr := ring[k + 1].addr];
    forall i | 0 <= i < |ring| ensures LinkAt(ring, i, ptr', size) {
      if i != k { assert LinkAt(ring, i, ptr, size); }
    }
  }

  /** p touches bp: it takes over bp's units and pointer. */
  lemma CloseMergeLinked(ring: seq<Blk>, k: nat, ptr: map<nat, nat>, size: map<nat, nat>)
    requires Injective(ring) && k + 1 < |ring| && LinkedBut(ring, k, ptr, size)
    ensures LinkAt(ring, k + 1, ptr, size)
    ensures Linked(Merge(ring, k), ptr[ring[k].addr := ptr[ring[k + 1].addr]],
                   size[ring[k].addr := ring[k].units + ring[k + 1].units])
  {
    var r := Merge(ring, k);
    assert LinkAt(ring, k + 1, ptr, size);
    var ptr', size' := ptr[ring[k].addr := ptr[ring[k + 1].addr]], size[ring[k].addr := ring[k].units + ring[k + 1].units];
    forall i | 0 <= i < |r| ensures LinkAt(r, i, ptr', size') {
      if i < k { assert LinkAt(ring, i, ptr, size); }
      if i > k { assert LinkAt(ring, i + 1, ptr, size); }
    }
  }

  // ----- Searching the list

  /** The place where a block disjoint from the free ones belongs. */
  lemma {:induction false} FindSlot(ring: seq<Blk>, x: Blk, n: nat) returns (k: nat)
    requires Ordered(ring) && x.units > 0 && ring[0].addr + HEADER <= x.addr && ClearOf(x, ring)
    requires 1 <= n <= |ring| && (n < |ring| ==> x.addr < ring[n].addr)
    ensures Slot(ring, k, x)
    decreases n
  {
    if n == 1 || ring[n - 1].addr < x.addr {
      k := n - 1;
    } else {
      k := FindSlot(ring, x, n - 1);
    }
  }

  /** The two exits of free's loop are taken at the slot and nowhere else. */
  lemma SlotIsExit(ring: seq<Blk>, k: nat, x: Blk, i: nat)
    requires Ordered(ring) && Slot(ring, k, x) && i < |ring|
    ensures var p, q := ring[i].addr, ring[Succ(i, |ring|)].addr;
            (p < x.addr < q || (p >= q && (x.addr > p || x.addr < q))) <==> i == k
  {
    assert forall j | 0 <= j < k :: ring[j].End() < ring[k].addr;
    assert k + 1 < |ring| ==> forall j | k + 1 < j < |ring| :: ring[k + 1].End() < ring[j].addr;
    assert i + 1 < |ring| ==> ring[i].End() < ring[i + 1].addr;
  }

  function Dist(i: nat, k: nat, n: nat): int {
    if i <= k then k - i else k + n - i
  }

  // ----- Taking a block out

  function Unlink(ring: seq<Blk>, k: nat): seq<Blk>
    requires k < |ring|
  {
    ring[..k] + ring[k + 1..]
  }

  function Shrink(ring: seq<Blk>, k: nat, u: nat): seq<Blk>
    requires k < |ring| && u < ring[k].units
  {
    ring[k := Blk(ring[k].addr, ring[k].units - u)]
  }

  /** The list after handing out u units from the end of block k. */
  function Take(ring: seq<Blk>, k: nat, u: nat): seq<Blk>
    requires k < |ring| && u <= ring[k].units
  {
    if u == ring[k].units then Unlink(ring, k) else Shrink(ring, k, u)
  }

  function Taken(ring: seq<Blk>, k: nat, u: nat): Blk
    requires k < |ring| && u <= ring[k].units
  {
    Blk(ring[k].addr + HEADER * (ring[k].units - u), u)
  }

  lemma TakeOrdered(ring: seq<Blk>, k: nat, u: nat)
    requires Ordered(ring) && 1 <= k < |ring| && 0 < u <= ring[k].units
    ensures Ordered(Take(ring, k, u)) && Take(ring, k, u)[0] == ring[0]
    ensures ClearOf(Taken(ring, k, u), Take(ring, k, u))
  {
    var r, x := Take(ring, k, u), Taken(ring, k, u);
    forall i | 1 <= i < |r| ensures Apart(x, r[i]) {
      if i < k { assert ring[i].End() < ring[k].addr; }
      else if i + 1 < |ring| { assert ring[k].End() < ring[i + 1].addr; }
    }
  }

  /** Where block i of the shorter list is in the longer one. */
  lemma TakeWithin(ring: seq<Blk>, k: nat, u: nat, i: nat) returns (j: nat)
    requires Ordered(ring) && 1 <= k < |ring| && 0 < u <= ring[k].units && i < |Take(ring, k, u)|
    ensures j < |ring| && Take(ring, k, u)[i].addr == ring[j].addr && Take(ring, k, u)[i].End() <= ring[j].End()
  {
    j := if u == ring[k].units && i >= k then i + 1 else i;
  }

  /** Where an address of block i is afterwards, unless it was handed out. */
  lemma TakeOutside(ring: seq<Blk>, k: nat, u: nat, i: nat, y: nat) returns (j: nat)
    requires k < |ring| && 0 < u <= ring[k].units && i < |ring| && ring[i].addr <= y < ring[i].End()
    requires !(Taken(ring, k, u).addr <= y < Taken(ring, k, u).End())
    ensures j < |Take(ring, k, u)| && Take(ring, k, u)[j].addr <= y < Take(ring, k, u)[j].End()
  {
    assert Taken(ring, k, u).End() == ring[k].End();
    j := if u == ring[k].units && i > k then i - 1 else i;
  }

  lemma TakeCovers(ring: seq<Blk>, k: nat, u: nat, y: nat)
    requires Ordered(ring) && 1 <= k < |ring| && 0 < u <= ring[k].units
    ensures var x := Taken(ring, k, u);
            IsFree(Take(ring, k, u), y) <==> IsFree(ring, y) && !(x.addr <= y < x.End())
  {
    var r, x := Take(ring, k, u), Taken(ring, k, u);
    TakeOrdered(ring, k, u);
    assert r[0].units == 0;
    hide Ordered, Take;
    if IsFree(r, y) {
      var i :| 0 <= i < |r| && r[i].addr <= y < r[i].End();
      assert i >= 1 && Apart(x, r[i]);
      var j := TakeWithin(ring, k, u, i);
    }
    if IsFree(ring, y) && !(x.addr <= y < x.End()) {
      var i :| 0 <= i < |ring| && ring[i].addr <= y < ring[i].End();
      var j := TakeOutside(ring, k, u, i, y);
    }
  }

  lemma TakeUnits(ring: seq<Blk>, k: nat, u: nat)
    requires k < |ring| && u <= ring[k].units
    ensures FreeUnits(Take(ring, k, u)) + u == FreeUnits(ring)
  {
    hide FreeUnits;
    var pre, post := ring[..k], ring[k + 1..];
    assert ring == pre + [ring[k]] + post;
    FreeUnitsSnoc(pre, ring[k]);
    FreeUnitsConcat(pre + [ring[k]], post);
    FreeUnitsConcat(pre, post);
    if u < ring[k].units {
      var b := Blk(ring[k].addr, ring[k].units - u);
      assert Shrink(ring, k, u) == pre + [b] + post;
      FreeUnitsSnoc(pre, b);
      FreeUnitsConcat(pre + [b], post);
    }
  }

  lemma TakeApart(ring: seq<Blk>, k: nat, u: nat, b: Blk)
    requires Ordered(ring) && 1 <= k < |ring| && 0 < u <= ring[k].units
    requires ClearOf(b, ring)
    ensures Apart(b, Taken(ring, k, u)) && ClearOf(b, Take(ring, k, u))
  {
    var r := Take(ring, k, u);
    assert Apart(b, ring[k]);
    forall i | 1 <= i < |r| ensures Apart(b, r[i]) {
      if u == ring[k].units { assert r[i] == ring[if i < k then i else i + 1]; }
      else { assert Apart(b, ring[i]); }
    }
  }

  lemma UnlinkLinked(ring: seq<Blk>, k: nat, ptr: map<nat, nat>, size: map<nat, nat>)
    requires Injective(ring) && 1 <= k < |ring| && Linked(ring, ptr, size)
    ensures LinkAt(ring, k, ptr, size)
    ensures Linked(Unlink(ring, k), ptr[ring[k - 1].addr := ptr[ring[k].addr]], size)
  {
    var r := Unlink(ring, k);
    assert LinkAt(ring, k, ptr, size);
    var ptr' := ptr[ring[k - 1].addr := ptr[ring[k].addr]];
    forall i | 0 <= i < |r| ensures LinkAt(r, i, ptr', size) {
      assert LinkAt(ring, if i < k then i else i + 1, ptr, size);
    }
  }

  lemma ShrinkLinked(ring: seq<Blk>, k: nat, u: nat, ptr: map<nat, nat>, size: map<nat, nat>, x: nat)
    requires Injective(ring) && 1 <= k < |ring| && Linked(ring, ptr, size) && u < ring[k].units
    requires forall i | 0 <= i < |ring| :: ring[i].addr != x
    ensures Linked(Shrink(ring, k, u), ptr, size[ring[k].addr := ring[k].units - u][x := u])
  {
    var r := Shrink(ring, k, u);
    var size' := size[ring[k].addr := ring[k].units - u][x := u];
    forall i | 0 <= i < |r| ensures LinkAt(r, i, ptr, size') {
      assert LinkAt(ring, i, ptr, size);
    }
  }

  lemma TakenFresh(ring: seq<Blk>, k: nat, u: nat)
    requires Ordered(ring) && 1 <= k < |ring| && 0 < u < ring[k].units
    ensures forall i | 0 <= i < |ring| :: ring[i].addr != Taken(ring, k, u).addr
  {
    forall i | 0 <= i < |ring| ensures ring[i].addr != Taken(ring, k, u).addr {
      if i < k { assert ring[i].End() < ring[k].addr; }
      else if i > k { assert ring[k].End() < ring[i].addr; }
    }
  }

  // ----- What free and malloc do to the lists as a whole

  /** The free list and the blocks handed out, with their units adding up. */
  ghost predicate Lists(ring: seq<Blk>, live: map<nat, nat>, top: nat, units: nat) {
    Ordered(ring) && LiveOk(ring, live, top) && FreeUnits(ring) + LiveUnits(live) == units
  }

  lemma FreeKeeps(ring: seq<Blk>, live: map<nat, nat>, top: nat, units: nat, bp: nat, k: nat)
    requires Lists(ring, live, top, units) && bp in live && Slot(ring, k, Blk(bp, live[bp]))
    ensures var r := Insert(ring, k, Blk(bp, live[bp])); Lists(r, live - {bp}, top, units) && r[0] == ring[0]
  {
    var x := Blk(bp, live[bp]);
    var r := Insert(ring, k, x);
    InsertOrdered(ring, k, x);
    InsertUnits(ring, k, x);
    LiveUnitsSplit(live, bp);
    assert Placed(ring, x, top);
    InsertBelow(ring, k, x, top);
    hide Ordered, Insert, FreeUnits, LiveUnits, ClearOf;
    forall a | a in live - {bp} ensures Placed(r, Blk(a, live[a]), top) {
      assert Placed(ring, Blk(a, live[a]), top);
      InsertApart(ring, k, x, Blk(a, live[a]));
    }
  }

  lemma InsertBelow(ring: seq<Blk>, k: nat, x: Blk, top: nat)
    requires Ordered(ring) && Slot(ring, k, x) && x.End() <= top && Within(ring, top)
    ensures Within(Insert(ring, k, x), top)
  {
    PutWeak(ring, k, x);
    hide *;
    assert k < |ring| by { SlotInside(ring, k, x); }
    PutBelow(ring, k, x, top);
    var r1 := Put(ring, k, x);
    MergeIfWeak(r1, k + 1);
    MergeBelow(r1, k + 1, top);
    MergeBelow(MergeIf(r1, k + 1), k, top);
    InsertIs(ring, k, x);
  }

  lemma SlotInside(ring: seq<Blk>, k: nat, x: Blk)
    requires Slot(ring, k, x)
    ensures k < |ring|
  {
  }

  lemma InsertIs(ring: seq<Blk>, k: nat, x: Blk)
    requires k < |ring|
    ensures Insert(ring, k, x) == MergeIf(MergeIf(Put(ring, k, x), k + 1), k)
  {
  }

  lemma MergeIfWeak(ring: seq<Blk>, i: nat)
    requires Weak(ring) && i >= 1
    ensures Weak(MergeIf(ring, i))
  {
    hide Weak, Merge;
    if Touch(ring, i) { MergeWeak(ring, i); }
  }

  lemma PutBelow(ring: seq<Blk>, k: nat, x: Blk, top: nat)
    requires k < |ring| && x.End() <= top && Within(ring, top)
    ensures Within(Put(ring, k, x), top)
  {
    var r := Put(ring, k, x);
    assert forall i | 1 <= i < |r| :: r[i] == if i <= k then ring[i] else if i == k + 1 then x else ring[i - 1];
  }

  lemma MergeBelow(ring: seq<Blk>, i: nat, top: nat)
    requires Weak(ring) && Within(ring, top)
    ensures Within(MergeIf(ring, i), top)
  {
    if Touch(ring, i) {
      var r := Merge(ring, i);
      BaseAlone(ring);
      assert forall j | 0 <= j < |r| && j != i :: r[j] == ring[if j < i then j else j + 1];
    }
  }

  /** Where the freed block ends up: at position k or right behind it. */
  lemma InsertPlace(ring: seq<Blk>, k: nat, x: Blk)
    requires k < |ring|
    ensures var r := Insert(ring, k, x);
            && k < |r| && r[k].addr == ring[k].addr
            && (r[k].units >= x.units || (k + 1 < |r| && r[k + 1].units >= x.units))
  {
    var r1 := Put(ring, k, x);
    assert r1[k] == ring[k] && r1[k + 1] == x;
    var r2 := MergeIf(r1, k + 1);
    assert r2[k] == ring[k] && r2[k + 1].addr == x.addr && r2[k + 1].units >= x.units;
  }

  lemma TakeKeepsLive(ring: seq<Blk>, live: map<nat, nat>, top: nat, k: nat, u: nat)
    requires Ordered(ring) && LiveOk(ring, live, top) && 1 <= k < |ring| && 0 < u <= ring[k].units
    ensures Taken(ring, k, u).addr !in live
    ensures LiveOk(Take(ring, k, u), live[Taken(ring, k, u).addr := u], top)
  {
    var r, x := Take(ring, k, u), Taken(ring, k, u);
    TakeOrdered(ring, k, u);
    assert Within(r, top) by {
      forall i | 1 <= i < |r| ensures r[i].End() <= top {
        var j := TakeWithin(ring, k, u, i);
      }
    }
    assert ring[0].addr + HEADER <= x.addr && x.End() == ring[k].End() <= top;
    hide Ordered, Take, ClearOf, Within, Taken;
    forall a | a in live ensures Apart(Blk(a, live[a]), x) && Placed(r, Blk(a, live[a]), top) {
      assert Placed(ring, Blk(a, live[a]), top);
      TakeApart(ring, k, u, Blk(a, live[a]));
    }
    assert Placed(r, x, top);
  }

  lemma TakeKeeps(ring: seq<Blk>, live: map<nat, nat>, top: nat, units: nat, k: nat, u: nat)
    requires Lists(ring, live, top, units) && 1 <= k < |ring| && 0 < u <= ring[k].units
    ensures var r, x := Take(ring, k, u), Taken(ring, k, u);
            x.addr !in live && Lists(r, live[x.addr := u], top, units) && r[0] == ring[0]
  {
    TakeOrdered(ring, k, u);
    TakeUnits(ring, k, u);
    TakeKeepsLive(ring, live, top, k, u);
    LiveUnitsAdd(live, Taken(ring, k, u).addr, u);
    hide Ordered, Take, Taken, LiveOk, FreeUnits, LiveUnits;
  }

  /** New memory from sbrk, counted as handed out until it is freed. */
  lemma GrowKeeps(ring: seq<Blk>, live: map<nat, nat>, top: nat, units: nat, hp: nat, nu: nat)
    requires Lists(ring, live, top, units) && top <= hp && nu > 0
    ensures hp !in live && Lists(ring, live[hp := nu], hp + HEADER * nu, units + nu)
  {
    hide Ordered, FreeUnits, LiveUnits;
    assert hp in live ==> Placed(ring, Blk(hp, live[hp]), top);
    LiveUnitsAdd(live, hp, nu);
    forall a | a in live ensures Placed(ring, Blk(a, live[a]), hp + HEADER * nu) {
      assert Placed(ring, Blk(a, live[a]), top);
    }
    assert Placed(ring, Blk(hp, nu), hp + HEADER * nu);
  }
}
