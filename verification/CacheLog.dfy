/**
 The buffers of bio.c under the log of log.c: every action on the buffers is a step of the log's
 system on its block cache, and the recycling of a buffer is the step that evicts its block.
 */
module CacheLog {
  import opened Log
  import LogInvariant
  import LogTheorems
  import Bio = BufferCache

  /** The buffers, the processes with a reference to each, and the log's state. */
  datatype Joint = Joint(bufs: seq<Bio.Buf>, owners: seq<set<OpId>>, s: State)

  /** Process p acting on buffer i, or the log acting on its own. */
  datatype Event =
    | Get(p: OpId, d: nat, n: Block, i: nat)  // bget of block n of device d
    | Fill(i: nat)                            // iderw has read the block
    | Lock(p: OpId, i: nat) | Unlock(p: OpId, i: nat) | Put(p: OpId, i: nat)
    | Change(p: OpId, i: nat, data: Data) | Mark(p: OpId, i: nat)  // log_write marks the buffer
    | Copy(i: nat) | Install(i: nat)          // bwrite of a log slot, of a home block
    | Plain(st: Step) | PowerOff

  /** Steps of the log that leave the block cache alone. */
  predicate OffCache(st: Step) {
    || st.Begin? || st.Sleep? || st.End? || st.Guard? || st.CommitHead? || st.EraseHead? || st.Finish?
    || st.ReadHead?
  }

  /** The buffer has the contents of a block of device dev. */
  predicate Holds(dev: nat, b: Bio.Buf) {
    b.dev == dev && b.valid
  }

  ghost predicate Image(j: Joint, i: nat)
    requires i < |j.bufs| == |j.owners|
  {
    var b := j.bufs[i].blockno;
    && b in j.s.cache && j.s.cache[b].dirty == j.bufs[i].dirty
    && (j.s.cache[b].holder.Some? ==> j.s.cache[b].holder.value in j.owners[i])
  }

  ghost predicate HasBuffer(dev: nat, bufs: seq<Bio.Buf>, b: Block) {
    exists i | 0 < i < |bufs| :: Holds(dev, bufs[i]) && bufs[i].blockno == b
  }

  /** Each reference is a process's, and the log's cache is what the buffers of its device hold. */
  ghost predicate Agree(dev: nat, j: Joint) {
    && dev != 0 && |j.owners| == |j.bufs| && Bio.Unique(j.bufs)
    && (forall i | 0 < i < |j.bufs| :: j.bufs[i].refcnt == |j.owners[i]| && (j.bufs[i].dirty ==> j.bufs[i].valid))
    && (forall i | 0 < i < |j.bufs| && Holds(dev, j.bufs[i]) :: Image(j, i))
    && (forall b | b in j.s.cache :: HasBuffer(dev, j.bufs, b))
  }

  predicate Own(j: Joint, p: OpId, i: nat) {
    0 < i < |j.bufs| == |j.owners| && p in j.owners[i]
  }

  ghost predicate Can(c: Config, dev: nat, j: Joint, e: Event) {
    match e
    case Get(p, d, n, i) =>
      && 0 < i < |j.bufs| == |j.owners| && p !in j.owners[i]
      && (if Bio.Cached(j.bufs, d, n) then Bio.Caches(j.bufs[i], d, n)
          else j.bufs[i].refcnt == 0 && !j.bufs[i].dirty)
    case Fill(i) =>
      && 0 < i < |j.bufs| == |j.owners| && j.owners[i] != {} && !j.bufs[i].valid
      && (j.bufs[i].dev == dev ==> j.bufs[i].blockno < |j.s.disk|)
    case Lock(p, i) =>
      Own(j, p, i) && Holds(dev, j.bufs[i]) && Enabled(c, j.s, Step.Hold(p, j.bufs[i].blockno))
    case Unlock(p, i) =>
      Own(j, p, i) && Holds(dev, j.bufs[i]) && Enabled(c, j.s, Release(p, j.bufs[i].blockno))
    case Put(p, i) => Own(j, p, i) && (Holds(dev, j.bufs[i]) ==> !HeldBy(j.s, j.bufs[i].blockno, p))
    case Change(p, i, data) =>
      Own(j, p, i) && Holds(dev, j.bufs[i]) && Enabled(c, j.s, Update(p, j.bufs[i].blockno, data))
    case Mark(p, i) =>
      Own(j, p, i) && Holds(dev, j.bufs[i]) && Enabled(c, j.s, Append(p, j.bufs[i].blockno))
    case Copy(i) =>
      && 0 < i < |j.bufs| && Enabled(c, j.s, LogBlock) && j.s.lh[j.s.phase.tail] in j.s.cache
      && Holds(dev, j.bufs[i]) && j.bufs[i].blockno == c.Slot(j.s.phase.tail)
    case Install(i) =>
      && 0 < i < |j.bufs| && Enabled(c, j.s, InstallBlock) && c.Slot(j.s.phase.tail) in j.s.cache
      && Holds(dev, j.bufs[i]) && j.bufs[i].blockno == j.s.lh[j.s.phase.tail]
    case Plain(st) => OffCache(st) && Enabled(c, j.s, st)
    case PowerOff => true
  }

  /** The steps of the log that an event amounts to: one or none. */
  ghost function Steps(dev: nat, j: Joint, e: Event): seq<Step>
    requires e.Get? || e.Fill? || e.Lock? || e.Unlock? || e.Change? || e.Mark? ==> e.i < |j.bufs|
  {
    match e
    case Get(_, d, n, i) =>
      if !Bio.Cached(j.bufs, d, n) && Holds(dev, j.bufs[i]) then [Evict(j.bufs[i].blockno)] else []
    case Fill(i) => if j.bufs[i].dev == dev then [Load(j.bufs[i].blockno)] else []
    case Lock(p, i) => [Step.Hold(p, j.bufs[i].blockno)]
    case Unlock(p, i) => [Release(p, j.bufs[i].blockno)]
    case Put(_, _) => []
    case Change(p, i, data) => [Update(p, j.bufs[i].blockno, data)]
    case Mark(p, i) => [Append(p, j.bufs[i].blockno)]
    case Copy(_) => [LogBlock]
    case Install(_) => [InstallBlock]
    case Plain(st) => [st]
    case PowerOff => [Crash]
  }

  function Empty(n: nat): seq<Bio.Buf> {
    seq(n, _ => Bio.Buf(0, 0, 0, false, false))
  }

  ghost function BufsAfter(c: Config, dev: nat, j: Joint, e: Event): seq<Bio.Buf>
    requires Can(c, dev, j, e)
  {
    match e
    case Get(_, d, n, i) =>
      if Bio.Cached(j.bufs, d, n) then j.bufs[i := j.bufs[i].(refcnt := j.bufs[i].refcnt + 1)]
      else j.bufs[i := Bio.Buf(d, n, 1, false, false)]
    case Fill(i) => j.bufs[i := j.bufs[i].(valid := true)]
    case Put(_, i) => j.bufs[i := j.bufs[i].(refcnt := if j.bufs[i].refcnt == 0 then 0 else j.bufs[i].refcnt - 1)]
    case Mark(_, i) => j.bufs[i := j.bufs[i].(dirty := true)]
    case Copy(i) => j.bufs[i := j.bufs[i].(dirty := false)]
    case Install(i) => j.bufs[i := j.bufs[i].(dirty := false)]
    case PowerOff => Empty(|j.bufs|)
    case _ => j.bufs
  }

  ghost function OwnersAfter(c: Config, dev: nat, j: Joint, e: Event): seq<set<OpId>>
    requires Can(c, dev, j, e)
  {
    match e
    case Get(p, _, _, i) => j.owners[i := j.owners[i] + {p}]
    case Put(p, i) => j.owners[i := j.owners[i] - {p}]
    case PowerOff => seq(|j.bufs|, _ => {})
    case _ => j.owners
  }

  // ----- Every event is a step of the log

  /** The buffer that caches a block of the log's device is the only one. */
  lemma OneBuffer(dev: nat, bufs: seq<Bio.Buf>, i: nat, k: nat)
    requires Bio.Unique(bufs) && dev != 0 && 0 < i < |bufs| && 0 < k < |bufs|
    requires bufs[i].dev == bufs[k].dev == dev && bufs[i].blockno == bufs[k].blockno
    ensures i == k
  {
  }

  lemma EventIsStep(c: Config, dev: nat, j: Joint, e: Event)
    requires Agree(dev, j) && Can(c, dev, j, e)
    ensures Runs(c, j.s, Steps(dev, j, e))
  {
    var steps := Steps(dev, j, e);
    if steps != [] {
      if e.Get? {
        assert Image(j, e.i) && j.owners[e.i] == {};
      } else if e.Fill? && j.bufs[e.i].blockno in j.s.cache {
        var k :| 0 < k < |j.bufs| && Holds(dev, j.bufs[k]) && j.bufs[k].blockno == j.bufs[e.i].blockno;
        OneBuffer(dev, j.bufs, e.i, k);
        assert false;
      }
      assert Enabled(c, j.s, steps[0]) && steps[1..] == [];
    }
  }

  ghost function After(c: Config, dev: nat, j: Joint, e: Event): (r: Joint)
    requires Agree(dev, j) && Can(c, dev, j, e)
  {
    EventIsStep(c, dev, j, e);
    Joint(BufsAfter(c, dev, j, e), OwnersAfter(c, dev, j, e), Run(c, j.s, Steps(dev, j, e)))
  }

  lemma AfterUnique(c: Config, dev: nat, j: Joint, e: Event)
    requires Agree(dev, j) && Can(c, dev, j, e)
    ensures Bio.Unique(BufsAfter(c, dev, j, e))
  {
    if e.Get? && !Bio.Cached(j.bufs, e.d, e.n) {
      Bio.RecycledUnique(j.bufs, e.i, e.d, e.n);
    } else if !e.PowerOff? && !e.Plain? {
      Bio.FoundUnique(j.bufs, e.i);
    }
  }

  lemma AfterCounted(c: Config, dev: nat, j: Joint, e: Event, i: nat)
    requires Agree(dev, j) && Can(c, dev, j, e) && 0 < i < |j.bufs|
    ensures var bufs, owners := BufsAfter(c, dev, j, e), OwnersAfter(c, dev, j, e);
            |bufs| == |owners| == |j.bufs| && bufs[i].refcnt == |owners[i]| && (bufs[i].dirty ==> bufs[i].valid)
  {
  }

  /** One step and no more. */
  lemma RunOne(c: Config, s: State, st: Step)
    requires Enabled(c, s, st)
    ensures Runs(c, s, [st]) && Run(c, s, [st]) == Next(c, s, st)
  {
    assert [st][1..] == [];
  }

  lemma AfterIs(c: Config, dev: nat, j: Joint, e: Event)
    requires Agree(dev, j) && Can(c, dev, j, e)
    ensures Steps(dev, j, e) == [] ==> After(c, dev, j, e).s == j.s
    ensures Steps(dev, j, e) != [] ==>
              && Enabled(c, j.s, Steps(dev, j, e)[0])
              && After(c, dev, j, e).s == Next(c, j.s, Steps(dev, j, e)[0])
  {
    EventIsStep(c, dev, j, e);
    var steps := Steps(dev, j, e);
    if steps != [] {
      assert steps == [steps[0]];
      RunOne(c, j.s, steps[0]);
    }
  }

  /** A step changes the cached block it names and no other. */
  lemma StepCache(c: Config, s: State, st: Step, x: Block)
    requires Enabled(c, s, st) && st != Crash
    requires st.LogBlock? ==> s.lh[s.phase.tail] in s.cache && x != c.Slot(s.phase.tail)
    requires st.InstallBlock? ==> c.Slot(s.phase.tail) in s.cache && x != s.lh[s.phase.tail]
    requires st.Load? || st.Evict? || st.Hold? || st.Release? || st.Update? || st.Append? ==> x != st.b
    ensures x in Next(c, s, st).cache <==> x in s.cache
    ensures x in s.cache ==> Next(c, s, st).cache[x] == s.cache[x]
  {
  }

  /** The block that an event's step names is the one in the event's buffer. */
  lemma StepNames(c: Config, dev: nat, j: Joint, e: Event, x: Block)
    requires Agree(dev, j) && Can(c, dev, j, e) && !e.PowerOff?
    requires !e.Plain? ==> j.bufs[e.i].dev == dev ==> j.bufs[e.i].blockno != x
    ensures x in After(c, dev, j, e).s.cache <==> x in j.s.cache
    ensures x in j.s.cache ==> After(c, dev, j, e).s.cache[x] == j.s.cache[x]
  {
    AfterIs(c, dev, j, e);
    if Steps(dev, j, e) != [] {
      StepCache(c, j.s, Steps(dev, j, e)[0], x);
    }
  }

  /** Events on a buffer leave the image of the others alone. */
  lemma ImageElsewhere(c: Config, dev: nat, j: Joint, e: Event, i: nat)
    requires Agree(dev, j) && Can(c, dev, j, e) && !e.PowerOff? && 0 < i < |j.bufs| && (!e.Plain? ==> i != e.i)
    requires Holds(dev, j.bufs[i])
    ensures Image(After(c, dev, j, e), i)
  {
    assert !e.Plain? && j.bufs[e.i].dev == dev ==> j.bufs[e.i].blockno != j.bufs[i].blockno;
    hide Bio.Unique, Runs, Run, Enabled;
    assert Image(j, i);
    StepNames(c, dev, j, e, j.bufs[i].blockno);
  }

  lemma ImageAt(c: Config, dev: nat, j: Joint, e: Event)
    requires Agree(dev, j) && Can(c, dev, j, e) && !e.PowerOff? && !e.Plain?
    requires Holds(dev, BufsAfter(c, dev, j, e)[e.i])
    ensures Image(After(c, dev, j, e), e.i)
  {
    if Holds(dev, j.bufs[e.i]) {
      assert Image(j, e.i);
    }
    if e.Get? || e.Fill? || e.Put? {
      AfterIs(c, dev, j, e);
      hide Bio.Unique, Runs, Run;
    } else {
      ImageHeld(c, dev, j, e);
    }
  }

  /** Events of a process on a buffer it has, or of the commit. */
  lemma ImageHeld(c: Config, dev: nat, j: Joint, e: Event)
    requires e.Lock? || e.Unlock? || e.Change? || e.Mark? || e.Copy? || e.Install?
    requires Agree(dev, j) && Can(c, dev, j, e) && Holds(dev, j.bufs[e.i]) && Image(j, e.i)
    ensures Image(After(c, dev, j, e), e.i)
  {
    AfterIs(c, dev, j, e);
    hide Bio.Unique, Runs, Run;
  }

  lemma AfterHas(c: Config, dev: nat, j: Joint, e: Event, b: Block)
    requires Agree(dev, j) && Can(c, dev, j, e) && !e.PowerOff? && b in After(c, dev, j, e).s.cache
    ensures HasBuffer(dev, BufsAfter(c, dev, j, e), b)
  {
    var bufs := BufsAfter(c, dev, j, e);
    if !e.Plain? && j.bufs[e.i].dev == dev && j.bufs[e.i].blockno == b {
      HasAt(c, dev, j, e);
    } else {
      StepNames(c, dev, j, e, b);
      hide Bio.Unique, Runs, Run, Enabled;
      var k :| 0 < k < |j.bufs| && Holds(dev, j.bufs[k]) && j.bufs[k].blockno == b;
      assert Holds(dev, bufs[k]) && bufs[k].blockno == b;
    }
  }

  lemma HasAt(c: Config, dev: nat, j: Joint, e: Event)
    requires Agree(dev, j) && Can(c, dev, j, e) && !e.PowerOff? && !e.Plain? && j.bufs[e.i].dev == dev
    requires j.bufs[e.i].blockno in After(c, dev, j, e).s.cache
    ensures HasBuffer(dev, BufsAfter(c, dev, j, e), j.bufs[e.i].blockno)
  {
    var bufs, b := BufsAfter(c, dev, j, e), j.bufs[e.i].blockno;
    AfterIs(c, dev, j, e);
    hide Runs, Run;
    if b in j.s.cache {
      var k :| 0 < k < |j.bufs| && Holds(dev, j.bufs[k]) && j.bufs[k].blockno == b;
      OneBuffer(dev, j.bufs, e.i, k);
    }
    assert Holds(dev, bufs[e.i]) && bufs[e.i].blockno == b;
  }

  /** The buffers and the log's cache stay in agreement. */
  lemma AgreeKept(c: Config, dev: nat, j: Joint, e: Event)
    requires Agree(dev, j) && Can(c, dev, j, e)
    ensures Agree(dev, After(c, dev, j, e))
  {
    var j' := After(c, dev, j, e);
    AfterUnique(c, dev, j, e);
    forall i | 0 < i < |j.bufs|
      ensures |j'.bufs| == |j'.owners| == |j.bufs|
      ensures j'.bufs[i].refcnt == |j'.owners[i]| && (j'.bufs[i].dirty ==> j'.bufs[i].valid)
    {
      AfterCounted(c, dev, j, e, i);
    }
    hide Bio.Unique, Runs, Run, Enabled;
    if e.PowerOff? {
      AfterIs(c, dev, j, e);
    } else {
      forall i | 0 < i < |j'.bufs| && Holds(dev, j'.bufs[i])
        ensures Image(j', i)
      {
        if !e.Plain? && i == e.i { ImageAt(c, dev, j, e); } else { ImageElsewhere(c, dev, j, e, i); }
      }
      forall b | b in j'.s.cache
        ensures HasBuffer(dev, j'.bufs, b)
      {
        AfterHas(c, dev, j, e, b);
      }
    }
  }

  // ----- Runs

  /** A kernel that has just started: no buffer used, and the log in an initial state. */
  ghost predicate Fresh(c: Config, dev: nat, j: Joint) {
    dev != 0 && Init(c, j.s) && j.bufs == Empty(|j.bufs|) && j.owners == seq(|j.bufs|, _ => {})
  }

  lemma FreshAgrees(c: Config, dev: nat, j: Joint)
    requires Fresh(c, dev, j)
    ensures Agree(dev, j)
  {
  }

  ghost predicate Happen(c: Config, dev: nat, j: Joint, es: seq<Event>)
    requires Agree(dev, j)
    decreases |es|
  {
    es == [] || (Can(c, dev, j, es[0]) && (AgreeKept(c, dev, j, es[0]); Happen(c, dev, After(c, dev, j, es[0]), es[1..])))
  }

  ghost function Final(c: Config, dev: nat, j: Joint, es: seq<Event>): Joint
    requires Agree(dev, j) && Happen(c, dev, j, es)
    decreases |es|
  {
    if es == [] then j
    else
      AgreeKept(c, dev, j, es[0]);
      Final(c, dev, After(c, dev, j, es[0]), es[1..])
  }

  ghost function AllSteps(c: Config, dev: nat, j: Joint, es: seq<Event>): seq<Step>
    requires Agree(dev, j) && Happen(c, dev, j, es)
    decreases |es|
  {
    if es == [] then []
    else
      AgreeKept(c, dev, j, es[0]);
      Steps(dev, j, es[0]) + AllSteps(c, dev, After(c, dev, j, es[0]), es[1..])
  }

  lemma RunsPrepend(c: Config, s: State, a: seq<Step>, b: seq<Step>)
    requires |a| <= 1 && Runs(c, s, a) && Runs(c, Run(c, s, a), b)
    ensures Runs(c, s, a + b) && Run(c, s, a + b) == Run(c, Run(c, s, a), b)
  {
    if a == [] {
      assert a + b == b;
    } else {
      assert (a + b)[1..] == b && a[1..] == [] && (a + b)[0] == a[0];
      assert Run(c, s, a) == Next(c, s, a[0]);
    }
  }

  /** What processes do with the buffers is a run of the log, which ends with their blocks in its cache. */
  lemma {:induction false} BuffersFollowLog(c: Config, dev: nat, j: Joint, es: seq<Event>)
    requires Agree(dev, j) && Happen(c, dev, j, es)
    ensures Runs(c, j.s, AllSteps(c, dev, j, es))
    ensures Run(c, j.s, AllSteps(c, dev, j, es)) == Final(c, dev, j, es).s
    ensures Agree(dev, Final(c, dev, j, es))
    decreases |es|
  {
    if es != [] {
      EventIsStep(c, dev, j, es[0]);
      AgreeKept(c, dev, j, es[0]);
      var j' := After(c, dev, j, es[0]);
      BuffersFollowLog(c, dev, j', es[1..]);
      hide Agree, Runs, Run, Can;
      RunsPrepend(c, j.s, Steps(dev, j, es[0]), AllSteps(c, dev, j', es[1..]));
    }
  }

  /** State f is reached by events es from a fresh kernel, with the logged blocks fitting the log region. */
  ghost predicate Reached(c: Config, dev: nat, j: Joint, es: seq<Event>, f: Joint) {
    && Fresh(c, dev, j) && (FreshAgrees(c, dev, j); Happen(c, dev, j, es)) && f == Final(c, dev, j, es)
    && (BuffersFollowLog(c, dev, j, es); FitsThroughout(c, j.s, AllSteps(c, dev, j, es)))
  }

  lemma ReachedInv(c: Config, dev: nat, j: Joint, es: seq<Event>, f: Joint)
    requires Reached(c, dev, j, es, f)
    ensures Agree(dev, f) && LogInvariant.Inv(c, f.s)
  {
    FreshAgrees(c, dev, j);
    BuffersFollowLog(c, dev, j, es);
    LogInvariant.InitInv(c, j.s);
    hide Agree, LogInvariant.Inv;
    LogTheorems.RunKeepsInv(c, j.s, AllSteps(c, dev, j, es));
  }

  /**
   When bget takes a buffer over, the block it held could be evicted from the log's cache: it was not
   waiting for a commit, nobody had it locked, and its contents are on the disk.
   */
  lemma RecyclingIsEvict(c: Config, dev: nat, j: Joint, es: seq<Event>, f: Joint, e: Event)
    requires Reached(c, dev, j, es, f) && Agree(dev, f) && Can(c, dev, f, e)
    requires e.Get? && !Bio.Cached(f.bufs, e.d, e.n) && Holds(dev, f.bufs[e.i])
    ensures var b := f.bufs[e.i].blockno;
            && Enabled(c, f.s, Evict(b)) && After(c, dev, f, e).s == Next(c, f.s, Evict(b))
            && !LogInvariant.Pinned(f.s, b) && b < |f.s.disk| && f.s.cache[b].data == f.s.disk[b]
  {
    ReachedInv(c, dev, j, es, f);
    hide Reached;
    AfterIs(c, dev, f, e);
    assert Image(f, e.i);
    assert LogInvariant.BufOk(c, f.s, f.bufs[e.i].blockno);
  }

  /** A block waiting for its commit has a buffer, marked dirty, and no bget takes that buffer over. */
  lemma LoggedKeepsBuffer(c: Config, dev: nat, j: Joint, es: seq<Event>, f: Joint, b: Block, e: Event)
    requires Reached(c, dev, j, es, f) && Agree(dev, f) && LogInvariant.Pinned(f.s, b)
    requires e.Get? && Can(c, dev, f, e)
    ensures exists i | 0 < i < |f.bufs| :: Holds(dev, f.bufs[i]) && f.bufs[i].blockno == b && f.bufs[i].dirty
    ensures var bufs := After(c, dev, f, e).bufs;
            forall i | 0 < i < |f.bufs| && Holds(dev, f.bufs[i]) && f.bufs[i].blockno == b ::
              i < |bufs| && Holds(dev, bufs[i]) && bufs[i].blockno == b && bufs[i].dirty
  {
    ReachedInv(c, dev, j, es, f);
    hide Reached;
    PinnedDirty(c, dev, f, b);
    hide LogInvariant.Inv, LogInvariant.Pinned, Agree, Runs, Run;
    forall i | 0 < i < |f.bufs| && Holds(dev, f.bufs[i]) && f.bufs[i].blockno == b
      ensures BufsAfter(c, dev, f, e)[i].(refcnt := 0) == f.bufs[i].(refcnt := 0)
    {
      DirtyKept(c, dev, f, e, i);
    }
  }

  lemma PinnedDirty(c: Config, dev: nat, f: Joint, b: Block)
    requires Agree(dev, f) && LogInvariant.Inv(c, f.s) && LogInvariant.Pinned(f.s, b)
    ensures exists i | 0 < i < |f.bufs| :: Holds(dev, f.bufs[i]) && f.bufs[i].blockno == b && f.bufs[i].dirty
    ensures forall i | 0 < i < |f.bufs| && Holds(dev, f.bufs[i]) && f.bufs[i].blockno == b :: f.bufs[i].dirty
  {
    assert b in f.s.cache && LogInvariant.BufOk(c, f.s, b);
    hide LogInvariant.Inv, LogInvariant.Pinned;
    var k :| 0 < k < |f.bufs| && Holds(dev, f.bufs[k]) && f.bufs[k].blockno == b;
    forall i | 0 < i < |f.bufs| && Holds(dev, f.bufs[i]) && f.bufs[i].blockno == b
      ensures f.bufs[i].dirty
    {
      assert Image(f, i);
    }
  }

  /** bget changes nothing but the reference count of a dirty buffer. */
  lemma DirtyKept(c: Config, dev: nat, f: Joint, e: Event, i: nat)
    requires Agree(dev, f) && e.Get? && Can(c, dev, f, e) && 0 < i < |f.bufs| && f.bufs[i].dirty
    ensures i < |BufsAfter(c, dev, f, e)| && BufsAfter(c, dev, f, e)[i].(refcnt := 0) == f.bufs[i].(refcnt := 0)
  {
  }

  /** What Bget does to the buffers is the event Get, for every process and every log over these buffers. */
  method GetStep(cache: Bio.Cache, ghost j: Joint, ghost p: OpId, d: nat, n: Block, ghost c: Config, ghost dev: nat)
    returns (r: Bio.Option<nat>)
    requires cache.Valid() && Agree(dev, j) && j.bufs == cache.bufs
    requires forall i | 0 < i < |j.bufs| && Bio.Caches(j.bufs[i], d, n) :: p !in j.owners[i]
    modifies cache`bufs
    ensures cache.Valid()
    ensures r.Some? ==> Can(c, dev, j, Get(p, d, n, r.value))
                        && cache.bufs == After(c, dev, j, Get(p, d, n, r.value)).bufs
    ensures r.None? <==> forall i | 0 < i < |j.bufs| :: !Can(c, dev, j, Get(p, d, n, i))
    ensures r.None? ==> cache.bufs == j.bufs
  {
    forall i | 0 < i < |j.bufs| && j.bufs[i].refcnt == 0
      ensures p !in j.owners[i]
    {
      assert j.owners[i] == {};
    }
    r := cache.Bget(d, n);
  }
}
