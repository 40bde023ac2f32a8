/**
 The buffer cache of bio.c: a doubly linked ring of buffers through a head (index 0), kept in the
 order in which the buffers last fell out of use, and recycled from its far end.
 */
module BufferCache {

  /** Position k of the ring through order: the head at both ends. */
  function At(order: seq<nat>, k: nat): nat
    requires k <= |order| + 1
  {
    if k == 0 || k == |order| + 1 then 0 else order[k - 1]
  }

  predicate Members(order: seq<nat>, size: nat) {
    && 0 < size
    && (forall k | 0 <= k < |order| :: 0 < order[k] < size)
    && (forall j, k | 0 <= j < k < |order| :: order[j] != order[k])
  }

  predicate LinkAt(next: seq<nat>, prev: seq<nat>, order: seq<nat>, k: nat)
    requires |next| == |prev| && Members(order, |next|) && k <= |order|
  {
    next[At(order, k)] == At(order, k + 1) && prev[At(order, k + 1)] == At(order, k)
  }

  /** prev and next form one cycle through the head and the buffers of order, each once. */
  predicate Ring(next: seq<nat>, prev: seq<nat>, order: seq<nat>) {
    && |next| == |prev| && Members(order, |next|)
    && forall k | 0 <= k <= |order| :: LinkAt(next, prev, order, k)
  }

  function Without(order: seq<nat>, k: nat): (r: seq<nat>)
    requires k < |order|
    ensures |r| == |order| - 1
    ensures forall j | 0 <= j < |r| :: r[j] == if j < k then order[j] else order[j + 1]
  {
    order[..k] + order[k + 1..]
  }

  /** Linking the two neighbours of a buffer to each other takes it out of the ring. */
  lemma RingRemove(next: seq<nat>, prev: seq<nat>, order: seq<nat>, k: nat)
    requires Ring(next, prev, order) && k < |order|
    ensures var b := order[k];
            && next[b] < |prev| && prev[b] < |next| && next[b] != b && prev[b] != b
            && Ring(next[prev[b] := next[b]], prev[next[b] := prev[b]], Without(order, k))
  {
    var b := order[k];
    assert LinkAt(next, prev, order, k) && LinkAt(next, prev, order, k + 1);
    var next', prev', rest := next[prev[b] := next[b]], prev[next[b] := prev[b]], Without(order, k);
    forall j | 0 <= j <= |rest|
      ensures LinkAt(next', prev', rest, j)
    {
      var i := if j < k then j else j + 1;
      assert LinkAt(next, prev, order, i);
      if j < k {
        assert At(rest, j) == At(order, j) && At(rest, j + 1) == At(order, j + 1);
        assert At(order, j) != At(order, k) && At(order, j + 1) != At(order, k + 2);
      } else if j > k {
        assert At(rest, j) == At(order, j + 1) && At(rest, j + 1) == At(order, j + 2);
        assert At(order, j + 1) != At(order, k) && At(order, j + 2) != At(order, k + 2);
      }
    }
  }

  /** The four writes of brelse and binit put b right behind the head. */
  lemma RingInsert(next: seq<nat>, prev: seq<nat>, order: seq<nat>, b: nat)
    requires Ring(next, prev, order) && 0 < b < |next| && b !in order
    ensures next[0] < |prev| && next[0] != b
    ensures Ring(next[b := next[0]][0 := b], prev[b := 0][next[0] := b], [b] + order)
  {
    assert LinkAt(next, prev, order, 0);
    var next', prev', more := next[b := next[0]][0 := b], prev[b := 0][next[0] := b], [b] + order;
    forall j | 0 <= j <= |more|
      ensures LinkAt(next', prev', more, j)
    {
      if j >= 2 {
        assert LinkAt(next, prev, order, j - 1);
        assert At(more, j) == At(order, j - 1) && At(more, j + 1) == At(order, j);
        assert At(order, j) != At(order, 1);
      }
    }
  }

  lemma {:induction false} RingEmpty(next: seq<nat>, prev: seq<nat>)
    requires |next| == |prev| > 0 && next[0] == 0 && prev[0] == 0
    ensures Ring(next, prev, [])
  {
  }

  lemma {:induction false} RingPrefix(next: seq<nat>, prev: seq<nat>, a: seq<nat>, b: seq<nat>, k: nat)
    requires Ring(next, prev, a) && Ring(next, prev, b) && k <= |a| && k <= |b|
    ensures a[..k] == b[..k] && At(a, k) == At(b, k)
  {
    if k > 0 {
      RingPrefix(next, prev, a, b, k - 1);
      assert LinkAt(next, prev, a, k - 1) && LinkAt(next, prev, b, k - 1);
      assert a[..k] == a[..k - 1] + [a[k - 1]] && b[..k] == b[..k - 1] + [b[k - 1]];
    }
  }

  /** The ring determines the order: following next from the head gives the buffers in turn. */
  lemma RingUnique(next: seq<nat>, prev: seq<nat>, a: seq<nat>, b: seq<nat>)
    requires Ring(next, prev, a) && Ring(next, prev, b)
    ensures a == b
  {
    var k := if |a| <= |b| then |a| else |b|;
    RingPrefix(next, prev, a, b, k);
    assert |a| == |b| by {
      assert LinkAt(next, prev, a, k) && LinkAt(next, prev, b, k);
    }
    assert a == a[..k] && b == b[..k];
  }

  datatype Buf = Buf(dev: nat, blockno: nat, refcnt: nat, valid: bool, dirty: bool)

  datatype Option<+T> = None | Some(value: T)

  /** Most recently released first. */
  predicate Newest(order: seq<nat>, stamp: seq<nat>) {
    && (forall k | 0 <= k < |order| :: order[k] < |stamp|)
    && forall j, k | 0 <= j < k < |order| :: stamp[order[j]] > stamp[order[k]]
  }

  /** No two buffers cache the same block, except that buffers never used carry device 0, block 0. */
  predicate Unique(bufs: seq<Buf>) {
    forall i, j | 0 < i < j < |bufs| && bufs[i].dev == bufs[j].dev && bufs[i].blockno == bufs[j].blockno ::
      bufs[i].dev == 0 && bufs[i].blockno == 0
  }

  predicate Recyclable(b: Buf) {
    b.refcnt == 0 && !b.dirty
  }

  class Cache {
    var next: seq<nat>
    var prev: seq<nat>
    var bufs: seq<Buf>
    ghost var order: seq<nat>
    ghost var stamp: seq<nat>
    ghost var clock: nat

    ghost predicate Valid()
      reads this
    {
      Listed(|bufs|) && Unique(bufs)
    }

    /** The ring holds buffers 1 .. n - 1, those released last first. */
    ghost predicate Listed(n: nat)
      reads this
    {
      && Ring(next, prev, order) && |stamp| == |next| == n && |order| == n - 1
      && (forall b | 0 < b < n :: b in order)
      && Newest(order, stamp) && (forall b | 0 <= b < n :: stamp[b] < clock)
    }

    /** binit with n buffers. */
    constructor (n: nat)
      ensures Valid() && |bufs| == n + 1 && forall b | 0 < b <= n :: bufs[b] == Buf(0, 0, 0, false, false)
      ensures forall list | Ring(next, prev, list) :: |list| == n && forall k | 0 <= k < n :: list[k] == n - k
    {
      next, prev := seq(n + 1, _ => 0), seq(n + 1, _ => 0);
      bufs := seq(n + 1, _ => Buf(0, 0, 0, false, false));
      order, stamp, clock := [], seq(n + 1, b requires b >= 0 => b), n + 1;
      new;
      RingEmpty(next, prev);
      var b := 1;
      while b <= n
        invariant 1 <= b <= n + 1 && |next| == n + 1 && Ring(next, prev, order) && |order| == b - 1
        invariant forall k | 0 <= k < |order| :: order[k] == b - 1 - k
        invariant bufs == seq(n + 1, _ => Buf(0, 0, 0, false, false)) && |stamp| == n + 1 && clock == n + 1
        invariant forall k | 0 <= k <= n :: stamp[k] == k
      {
        RingInsert(next, prev, order, b);
        next := next[b := next[0]];
        prev := prev[b := 0];
        prev := prev[next[0] := b];
        next := next[0 := b];
        order := [b] + order;
        b := b + 1;
      }
      forall c | 0 < c < |bufs|
        ensures c in order
      {
        assert order[n - c] == c;
      }
      forall list | Ring(next, prev, list)
        ensures list == order
      {
        RingUnique(next, prev, list, order);
      }
    }

    /**
     bget: the buffer that caches the block gains a reference; if none does, the least recently
     released buffer that is unused and clean is taken over for it.  None is the panic when there is
     no such buffer.
     */
    method Bget(dev: nat, blockno: nat) returns (r: Option<nat>)
      requires Valid()
      modifies this`bufs
      ensures Valid()
      ensures Cached(old(bufs), dev, blockno) ==>
                r.Some? && 0 < r.value < |bufs| && Caches(old(bufs)[r.value], dev, blockno)
                && bufs == old(bufs)[r.value := old(bufs)[r.value].(refcnt := old(bufs)[r.value].refcnt + 1)]
      ensures !Cached(old(bufs), dev, blockno) ==>
                (r.None? <==> forall b | 0 < b < old(|bufs|) :: old(bufs)[b].refcnt > 0 || old(bufs)[b].dirty)
      ensures !Cached(old(bufs), dev, blockno) && r.Some? ==>
                && 0 < r.value < |bufs| && old(bufs)[r.value].refcnt == 0 && !old(bufs)[r.value].dirty
                && (forall b | 0 < b < |bufs| && old(bufs)[b].refcnt == 0 && !old(bufs)[b].dirty ::
                      stamp[r.value] <= stamp[b])
                && bufs == old(bufs)[r.value := Buf(dev, blockno, 1, false, false)]
      ensures r.None? ==> bufs == old(bufs)
      ensures r.Some? ==>
                && 0 < r.value < |bufs| == old(|bufs|) && bufs[r.value].dev == dev && bufs[r.value].blockno == blockno
                && (bufs[r.value] == old(bufs)[r.value].(refcnt := old(bufs)[r.value].refcnt + 1)
                    || forall b | 0 < b < |bufs| :: old(bufs)[b].dev != dev || old(bufs)[b].blockno != blockno)
    {
      hide Unique;
      var b := Find(dev, blockno);
      if b != 0 {
        FoundUnique(bufs, b);
        bufs := bufs[b := bufs[b].(refcnt := bufs[b].refcnt + 1)];
        return Some(b);
      }
      b := Victim();
      if b == 0 {
        return None;
      }
      RecycledUnique(bufs, b, dev, blockno);
      bufs := bufs[b := Buf(dev, blockno, 1, false, false)];
      r := Some(b);
    }

    /** The scan for a cached block, from the most recently used end. */
    method Find(dev: nat, blockno: nat) returns (b: nat)
      requires Valid()
      ensures b == 0 ==> !Cached(bufs, dev, blockno)
      ensures b != 0 ==> b < |bufs| && Caches(bufs[b], dev, blockno)
      ensures b == 0 ==> forall c | 0 < c < |bufs| :: bufs[c].dev != dev || bufs[c].blockno != blockno
      ensures b != 0 ==> bufs[b].dev == dev && bufs[b].blockno == blockno
    {
      hide Ring, Newest, Unique;
      ghost var k := 0;
      RingNext(next, prev, order, 0);
      b := next[0];
      while b != 0
        invariant 0 <= k <= |order| && b == At(order, k + 1) && b < |bufs|
        invariant forall j | 0 <= j < k :: order[j] < |bufs| && !Caches(bufs[order[j]], dev, blockno)
        decreases |order| - k
      {
        if bufs[b].dev == dev && bufs[b].blockno == blockno {
          return;
        }
        RingNext(next, prev, order, k + 1);
        b := next[b];
        k := k + 1;
      }
      RingNext(next, prev, order, k);
      forall c | 0 < c < |bufs|
        ensures !Caches(bufs[c], dev, blockno)
      {
        assert c in order;
        var j :| 0 <= j < |order| && order[j] == c;
      }
    }

    /** The scan for a buffer to recycle, from the least recently used end. */
    method Victim() returns (b: nat)
      requires Valid()
      ensures b == 0 ==> forall c | 0 < c < |bufs| :: bufs[c].refcnt > 0 || bufs[c].dirty
      ensures b != 0 ==> b < |bufs| && bufs[b].refcnt == 0 && !bufs[b].dirty
                         && forall c | 0 < c < |bufs| && bufs[c].refcnt == 0 && !bufs[c].dirty :: stamp[b] <= stamp[c]
    {
      hide Ring, Newest, Unique;
      ghost var k := |order|;
      RingNext(next, prev, order, k);
      b := prev[0];
      while b != 0
        invariant 0 <= k <= |order| && b == At(order, k) && b < |bufs|
        invariant forall j | k <= j < |order| :: order[j] < |bufs| && !Recyclable(bufs[order[j]])
        decreases k
      {
        if bufs[b].refcnt == 0 && !bufs[b].dirty {
          OldestFirst(order, stamp, bufs, k);
          return;
        }
        RingNext(next, prev, order, k - 1);
        b := prev[b];
        k := k - 1;
      }
      RingNext(next, prev, order, k);
      forall c | 0 < c < |bufs|
        ensures !Recyclable(bufs[c])
      {
        assert c in order;
        var j :| 0 <= j < |order| && order[j] == c;
      }
    }

    /**
     brelse: one reference less; a buffer that falls out of use becomes the most recent one and all
     others keep their order.
     */
    method Brelse(b: nat) returns (ghost k: nat)
      requires Valid() && 0 < b < |bufs| && bufs[b].refcnt > 0
      modifies this
      ensures Valid() && bufs == old(bufs)[b := old(bufs)[b].(refcnt := old(bufs)[b].refcnt - 1)]
      ensures k < |old(order)| && old(order)[k] == b
      ensures order == if bufs[b].refcnt == 0 then [b] + Without(old(order), k) else old(order)
      ensures forall c | 0 <= c < |stamp| && c != b :: stamp[c] == old(stamp)[c] && (bufs[b].refcnt == 0 ==> stamp[c] < stamp[b])
    {
      assert b in order;
      k :| 0 <= k < |order| && order[k] == b;
      FoundUnique(bufs, b);
      hide Unique, Ring, Newest;
      bufs := bufs[b := bufs[b].(refcnt := bufs[b].refcnt - 1)];
      if bufs[b].refcnt == 0 {
        Requeue(b, k);
      }
    }

    /** The buffer becomes the first of the ring. */
    method Requeue(b: nat, ghost k: nat)
      requires Listed(|bufs|) && k < |order| && order[k] == b < |bufs|
      modifies this`next, this`prev, this`order, this`stamp, this`clock
      ensures Listed(|bufs|) && order == [b] + Without(old(order), k)
      ensures forall c | 0 <= c < |stamp| && c != b :: stamp[c] == old(stamp)[c] < stamp[b]
    {
      assert forall i, j | 0 <= i < j < |order| :: order[i] != order[j];
      MovedFront(order, stamp, clock, k);
      hide Ring, Newest, Members, Without;
      MoveToFront(b, k);
      order, stamp, clock := [b] + Without(order, k), stamp[b := clock], clock + 1;
    }

    /** The pointer writes of brelse. */
    method MoveToFront(b: nat, ghost k: nat)
      requires Ring(next, prev, order) && k < |order| && order[k] == b && b !in Without(order, k)
      modifies this`next, this`prev
      ensures Ring(next, prev, [b] + Without(order, k)) && |next| == |old(next)|
    {
      RingRemove(next, prev, order, k);
      assert 0 < b < |next|;
      hide Ring;
      var n, p := next[b], prev[b];
      prev := prev[n := p];
      next := next[p := n];
      RingInsert(next, prev, Without(order, k), b);
      next := next[b := next[0]];
      prev := prev[b := 0];
      prev := prev[next[0] := b];
      next := next[0 := b];
    }
  }

  predicate Caches(b: Buf, dev: nat, blockno: nat) {
    b.dev == dev && b.blockno == blockno
  }

  ghost predicate Cached(bufs: seq<Buf>, dev: nat, blockno: nat) {
    exists b | 0 < b < |bufs| :: Caches(bufs[b], dev, blockno)
  }

  lemma RingNext(next: seq<nat>, prev: seq<nat>, order: seq<nat>, k: nat)
    requires Ring(next, prev, order) && k <= |order|
    ensures |next| == |prev| > 0 && At(order, k) < |next| && At(order, k + 1) < |next|
    ensures next[At(order, k)] == At(order, k + 1) && prev[At(order, k + 1)] == At(order, k)
    ensures (At(order, k) == 0 <==> k == 0) && (At(order, k + 1) == 0 <==> k == |order|)
  {
    assert LinkAt(next, prev, order, k);
  }

  lemma FoundUnique(bufs: seq<Buf>, b: nat)
    requires Unique(bufs) && 0 < b < |bufs|
    ensures forall c: Buf | c.dev == bufs[b].dev && c.blockno == bufs[b].blockno :: Unique(bufs[b := c])
  {
  }

  lemma RecycledUnique(bufs: seq<Buf>, b: nat, dev: nat, blockno: nat)
    requires Unique(bufs) && 0 < b < |bufs| && !Cached(bufs, dev, blockno)
    ensures Unique(bufs[b := Buf(dev, blockno, 1, false, false)])
  {
    assert forall c | 0 < c < |bufs| :: !Caches(bufs[c], dev, blockno);
  }

  lemma OldestFirst(order: seq<nat>, stamp: seq<nat>, bufs: seq<Buf>, k: nat)
    requires Newest(order, stamp) && |stamp| == |bufs| && 0 < k <= |order|
    requires forall b | 0 < b < |bufs| :: b in order
    requires forall j | k <= j < |order| :: order[j] < |bufs| && !Recyclable(bufs[order[j]])
    ensures forall c | 0 < c < |bufs| && Recyclable(bufs[c]) :: stamp[order[k - 1]] <= stamp[c]
  {
    forall c | 0 < c < |bufs| && Recyclable(bufs[c])
      ensures stamp[order[k - 1]] <= stamp[c]
    {
      assert c in order;
      var j :| 0 <= j < |order| && order[j] == c;
      assert j < k;
    }
  }

  lemma MovedFront(order: seq<nat>, stamp: seq<nat>, clock: nat, k: nat)
    requires Newest(order, stamp) && k < |order| && forall b | 0 <= b < |stamp| :: stamp[b] < clock
    requires forall i, j | 0 <= i < j < |order| :: order[i] != order[j]
    ensures var more := [order[k]] + Without(order, k);
            && Newest(more, stamp[order[k] := clock]) && order[k] !in Without(order, k)
            && (forall b | b in order :: b in more)
  {
    var more := [order[k]] + Without(order, k);
    forall b | b in order
      ensures b in more
    {
      var j :| 0 <= j < |order| && order[j] == b;
      if j != k {
        assert more[if j < k then j + 1 else j] == b;
      }
    }
  }
}
