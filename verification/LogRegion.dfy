/**
 Does the log stay inside its region of the disk?  log_write tests the room left before it
 takes log.lock (log.c:218), so two operations can pass the test on the last slot together,
 and write_log then copies the last logged block over the first block after the region.
 With LOGSIZE == 3 * MAXOPBLOCKS the region is never overrun, and every crash recovers to the
 committed groups, exactly when the region has more than LOGSIZE blocks, or none for data.
 */
module LogRegion {
  import opened Log
  import opened LogInvariant
  import opened LogTheorems

  // ----- Joining runs

  lemma {:induction false} RunsConcat(c: Config, s: State, a: seq<Step>, b: seq<Step>)
    requires Runs(c, s, a) && Runs(c, Run(c, s, a), b)
    ensures Runs(c, s, a + b) && Run(c, s, a + b) == Run(c, Run(c, s, a), b)
    decreases |a|
  {
    hide Next, Enabled;
    if a == [] {
      assert a + b == b;
    } else {
      assert (a + b)[1..] == a[1..] + b;
      RunsConcat(c, Next(c, s, a[0]), a[1..], b);
    }
  }

  lemma Extend(c: Config, s: State, steps: seq<Step>, st: Step)
    requires Runs(c, s, steps) && Enabled(c, Run(c, s, steps), st)
    ensures Runs(c, s, steps + [st]) && Run(c, s, steps + [st]) == Next(c, Run(c, s, steps), st)
  {
    hide Next, Enabled;
    var e := Run(c, s, steps);
    assert [st][1..] == [];
    assert Runs(c, Next(c, e, st), []);
    assert Runs(c, e, [st]) && Run(c, e, [st]) == Next(c, e, st);
    RunsConcat(c, s, steps, [st]);
  }

  /** Taking the steps from s0 leads to s. */
  ghost predicate Did(c: Config, s0: State, steps: seq<Step>, s: State) {
    Runs(c, s0, steps) && s == Run(c, s0, steps)
  }

  lemma DidFirst(c: Config, s: State, st: Step)
    requires Enabled(c, s, st)
    ensures Did(c, s, [st], Next(c, s, st))
  {
    hide Enabled, Next;
    assert Runs(c, s, []) && Run(c, s, []) == s;
    Extend(c, s, [], st);
    assert [] + [st] == [st];
  }

  lemma DidMore(c: Config, s0: State, steps: seq<Step>, s: State, st: Step)
    requires Did(c, s0, steps, s) && Enabled(c, s, st)
    ensures Did(c, s0, steps + [st], Next(c, s, st))
  {
    hide Enabled, Next;
    Extend(c, s0, steps, st);
  }

  lemma DidThen(c: Config, s0: State, a: seq<Step>, s1: State, b: seq<Step>, s2: State)
    requires Did(c, s0, a, s1) && Did(c, s1, b, s2)
    ensures Did(c, s0, a + b, s2)
  {
    hide Enabled, Next;
    RunsConcat(c, s0, a, b);
  }

  lemma {:induction false} EndFits(c: Config, s: State, steps: seq<Step>)
    requires Runs(c, s, steps) && FitsThroughout(c, s, steps)
    ensures Fits(c, Run(c, s, steps))
    decreases |steps|
  {
    if steps != [] { EndFits(c, Next(c, s, steps[0]), steps[1..]); }
  }

  // ----- The region is not overrun

  /** Each test of log_write is followed at once by its append. */
  ghost predicate Serial(steps: seq<Step>)
    decreases |steps|
  {
    || steps == []
    || (steps[0].Guard? && |steps| == 1)
    || (steps[0].Guard? && |steps| >= 2 && steps[1].Append? && Serial(steps[2..]))
    || (!steps[0].Guard? && !steps[0].Append? && Serial(steps[1..]))
  }

  ghost predicate HeadFits(c: Config, s: State) {
    Fits(c, s) && |s.header| <= c.logSize - 1
  }

  lemma {:induction false} SerialFits(c: Config, s: State, steps: seq<Step>)
    requires Runs(c, s, steps) && Serial(steps) && HeadFits(c, s)
    ensures FitsThroughout(c, s, steps)
    decreases |steps|
  {
    if steps != [] {
      var s' := Next(c, s, steps[0]);
      if steps[0].Guard? && |steps| >= 2 {
        assert steps[1..][1..] == steps[2..];
        SerialFits(c, Next(c, s', steps[1]), steps[2..]);
      } else {
        SerialFits(c, s', steps[1..]);
      }
    }
  }

  /** Nothing can be logged when the region has no slot. */
  lemma {:induction false} EmptyRegionFits(c: Config, s: State, steps: seq<Step>)
    requires c.logSize == 1 && Runs(c, s, steps) && s.lh == [] && s.header == []
    requires forall o | o in s.ops :: !s.ops[o].armed
    ensures FitsThroughout(c, s, steps)
    decreases |steps|
  {
    if steps != [] { EmptyRegionFits(c, Next(c, s, steps[0]), steps[1..]); }
  }

  // ----- The region is overrun

  /** Home blocks after the log region. */
  function Target(c: Config, k: nat): Block {
    c.logStart + c.logSize + k
  }

  /** The k-th log_write of the run below is made by operation 0, then 1, then 2. */
  function Writer(c: Config, k: nat): OpId {
    if k < c.maxOp then 0 else if k < 2 * c.maxOp - 1 then 1 else 2
  }

  function Left(c: Config, o: OpId, k: nat): int {
    var m: int := c.maxOp;
    var done :=
      if o == 0 then (if k < m then k else m)
      else if o == 1 then (if k < m then 0 else if k < 2 * m - 1 then k - m else m - 1)
      else (if k < 2 * m - 1 then 0 else k - (2 * m - 1));
    m - done
  }

  ghost predicate Tight(c: Config) {
    && c.Valid() && c.maxOp >= 1 && c.logCap == 3 * c.maxOp && 2 <= c.logSize <= c.logCap
    && c.logStart + 2 * c.logSize <= c.nblocks
  }

  /** No block has reached the disk, and nothing is committed. */
  ghost predicate Untouched(c: Config, s: State) {
    |s.disk| == c.nblocks && s.disk == s.init && s.header == [] && s.groups == []
  }

  ghost predicate SameDisk(s: State, s': State) {
    s'.disk == s.disk && s'.init == s.init && s'.header == s.header && s'.groups == s.groups && s'.phase == s.phase
  }

  ghost predicate AllReleased(s: State) {
    forall b | b in s.cache :: s.cache[b].holder == None
  }

  /** Three operations in progress that have logged Target(0) .. Target(k - 1). */
  ghost predicate Filled(c: Config, s: State, k: nat) {
    && Tight(c) && k <= c.logSize - 2
    && Untouched(c, s) && s.phase == Idle && AllReleased(s)
    && |s.lh| == k && (forall i | 0 <= i < k :: s.lh[i] == Target(c, i))
    && (forall b | b in s.cache :: b < Target(c, k))
    && s.ops.Keys == {0, 1, 2}
    && (forall o: OpId | o < 3 :: !s.ops[o].armed && s.ops[o].unused == Left(c, o, k))
  }

  function Below(n: nat): (r: set<OpId>)
    ensures |r| == n && forall o: OpId :: o in r <==> o < n
  {
    if n == 0 then {} else Below(n - 1) + {n - 1}
  }

  /** Operations 0 .. n - 1 have begun and nothing else has happened. */
  ghost predicate Begun(c: Config, s: State, n: nat) {
    && s.phase == Idle && s.lh == [] && s.sleepers == {} && s.cache == map[] && Untouched(c, s)
    && s.ops.Keys == s.used == Below(n)
    && forall o | o in s.ops :: s.ops[o] == Op(c.maxOp, false)
  }

  lemma MulBound(n: nat, m: nat)
    requires n < 3
    ensures (n + 1) * m <= 3 * m
  {
  }

  lemma BeginNext(c: Config, s: State, n: nat)
    requires Tight(c) && n < 3 && Begun(c, s, n)
    ensures Enabled(c, s, Begin(n)) && Begun(c, Next(c, s, Begin(n)), n + 1)
  {
    RoomToBegin(c, s, n);
    hide MustWait;
    var t := Next(c, s, Begin(n));
    assert t.ops.Keys == s.ops.Keys + {n};
    assert Below(n + 1) == Below(n) + {n};
    hide Below;
    assert forall o | o in t.ops :: o == n || o in s.ops;
  }

  lemma RoomToBegin(c: Config, s: State, n: nat)
    requires Tight(c) && n < 3 && Begun(c, s, n)
    ensures !MustWait(c, s)
  {
    hide Below, Untouched;
    assert |s.ops| == |s.ops.Keys| == n;
    MulBound(n, c.maxOp);
  }

  lemma BegunIsFilled(c: Config, s: State)
    requires Tight(c) && Begun(c, s, 3)
    ensures Filled(c, s, 0)
  {
    assert Below(3) == {0, 1, 2};
    assert forall o: OpId | o < 3 :: o in s.ops.Keys;
  }

  lemma {:induction false} Start(c: Config, s: State, steps: seq<Step>, e: State, n: nat)
    returns (longer: seq<Step>, e': State)
    requires Did(c, s, steps, e) && Tight(c) && n <= 3 && Begun(c, e, n)
    ensures Did(c, s, longer, e') && Filled(c, e', 0) && e'.init == e.init
    decreases 3 - n
  {
    hide Did, Enabled;
    if n == 3 {
      longer, e' := steps, e;
      BegunIsFilled(c, e);
    } else {
      BeginNext(c, e, n);
      DidMore(c, s, steps, e, Begin(n));
      longer, e' := Start(c, s, steps + [Begin(n)], Next(c, e, Begin(n)), n + 1);
    }
  }

  /** bread of a block that is not cached. */
  lemma Fetch(c: Config, e: State, o: OpId, b: Block) returns (steps: seq<Step>, e': State)
    requires b < |e.disk| && b !in e.cache
    ensures Did(c, e, steps, e')
    ensures SameDisk(e, e') && e'.lh == e.lh && e'.ops == e.ops
    ensures e'.cache == e.cache[b := Buf(e.disk[b], false, Some(o), false)]
  {
    var e1 := Next(c, e, Load(b));
    e' := Next(c, e1, Hold(o, b));
    hide Did;
    DidFirst(c, e, Load(b));
    DidMore(c, e, [Load(b)], e1, Hold(o, b));
    steps := [Load(b)] + [Hold(o, b)];
  }

  lemma GuardIs(c: Config, e: State, o: OpId)
    requires o in e.ops && |e.lh| < c.logCap && |e.lh| < c.logSize - 1
    ensures Enabled(c, e, Guard(o))
    ensures Next(c, e, Guard(o)) == e.(ops := e.ops[o := e.ops[o].(armed := true)])
  {
  }

  /** What append and release do to the bookkeeping. */
  lemma AppendIs(c: Config, e: State, o: OpId, b: Block)
    requires HeldBy(e, b, o) && c.Home(b) && b !in e.lh && o in e.ops && e.ops[o].armed && e.ops[o].unused > 0
    ensures Enabled(c, e, Append(o, b))
    ensures var e' := Next(c, e, Append(o, b));
            && SameDisk(e, e') && e'.lh == e.lh + [b]
            && e'.cache == e.cache[b := e.cache[b].(dirty := true, touched := false)]
            && e'.ops == e.ops[o := Op(e.ops[o].unused - 1, false)]
  {
  }

  lemma ReleaseIs(c: Config, e: State, o: OpId, b: Block)
    requires HeldBy(e, b, o) && !e.cache[b].touched
    ensures Enabled(c, e, Release(o, b))
    ensures Next(c, e, Release(o, b)) == e.(cache := e.cache[b := e.cache[b].(holder := None)])
  {
  }

  /** One log_write of a block that is neither cached nor logged, with its bread and brelse. */
  lemma LogOne(c: Config, e: State, o: OpId, b: Block) returns (steps: seq<Step>, e': State)
    requires b < |e.disk| && b !in e.cache && c.Home(b) && b !in e.lh && o in e.ops && e.ops[o].unused > 0
    requires |e.lh| < c.logCap && |e.lh| < c.logSize - 1
    ensures Did(c, e, steps, e')
    ensures SameDisk(e, e') && e'.lh == e.lh + [b]
    ensures e'.cache == e.cache[b := Buf(e.disk[b], true, None, false)]
    ensures e'.ops == e.ops[o := Op(e.ops[o].unused - 1, false)]
  {
    hide Did, Next, Enabled;
    steps, e' := Fetch(c, e, o, b);
    GuardIs(c, e', o);
    DidMore(c, e, steps, e', Guard(o));
    steps, e' := steps + [Guard(o)], Next(c, e', Guard(o));
    AppendIs(c, e', o, b);
    DidMore(c, e, steps, e', Append(o, b));
    steps, e' := steps + [Append(o, b)], Next(c, e', Append(o, b));
    ReleaseIs(c, e', o, b);
    DidMore(c, e, steps, e', Release(o, b));
    steps, e' := steps + [Release(o, b)], Next(c, e', Release(o, b));
  }

  lemma FilledNext(c: Config, e: State, e': State, k: nat)
    requires Filled(c, e, k) && k < c.logSize - 2
    requires SameDisk(e, e') && e'.lh == e.lh + [Target(c, k)]
    requires Target(c, k) < |e.disk| && e'.cache == e.cache[Target(c, k) := Buf(e.disk[Target(c, k)], true, None, false)]
    requires Writer(c, k) in e.ops && e.ops[Writer(c, k)].unused > 0
    requires e'.ops == e.ops[Writer(c, k) := Op(e.ops[Writer(c, k)].unused - 1, false)]
    ensures Filled(c, e', k + 1)
  {
    assert e'.ops.Keys == e.ops.Keys + {Writer(c, k)};
    assert forall o: OpId | o < 3 :: o in e.ops.Keys;
  }

  lemma {:induction false} Fill(c: Config, s: State, steps: seq<Step>, e: State, k: nat)
    returns (longer: seq<Step>, e': State)
    requires Did(c, s, steps, e) && Filled(c, e, k)
    ensures Did(c, s, longer, e') && Filled(c, e', c.logSize - 2) && e'.init == e.init
    decreases c.logSize - 2 - k
  {
    hide Did;
    if k == c.logSize - 2 {
      longer, e' := steps, e;
    } else {
      var o := Writer(c, k);
      assert o in e.ops.Keys;
      var one, e1 := LogOne(c, e, o, Target(c, k));
      FilledNext(c, e, e1, k);
      DidThen(c, s, steps, e, one, e1);
      longer, e' := Fill(c, s, steps + one, e1, k + 1);
    }
  }

  /** Operation 2 has changed the last of logSize logged blocks, one more than the region has room for. */
  ghost predicate Raced(c: Config, s: State, d: Data) {
    && Tight(c) && Untouched(c, s) && s.phase == Idle && AllReleased(s)
    && |s.lh| == c.logSize && (forall i | 0 <= i < c.logSize :: s.lh[i] == Target(c, i))
    && Target(c, c.logSize - 1) in s.cache && s.cache[Target(c, c.logSize - 1)].data == d
    && s.ops.Keys == {0, 1, 2} && forall o | o in s.ops :: !s.ops[o].armed
  }

  /** Both operations hold their block and have tested the last slot before either of them appends. */
  ghost predicate Armed(c: Config, s: State, e: State, d: Data)
    requires Tight(c) && Filled(c, e, c.logSize - 2)
  {
    var b1, b2 := Target(c, c.logSize - 2), Target(c, c.logSize - 1);
    && SameDisk(e, s) && s.lh == e.lh && b1 < |e.disk|
    && s.cache == e.cache[b1 := Buf(e.disk[b1], false, Some(1), false)][b2 := Buf(d, false, Some(2), true)]
    && 1 in e.ops && 2 in e.ops
    && s.ops == e.ops[1 := e.ops[1].(armed := true)][2 := e.ops[2].(armed := true)]
  }

  lemma Arm(c: Config, e: State, d: Data) returns (steps: seq<Step>, e': State)
    requires Tight(c) && Filled(c, e, c.logSize - 2)
    ensures Did(c, e, steps, e') && Armed(c, e', e, d)
  {
    var b1, b2 := Target(c, c.logSize - 2), Target(c, c.logSize - 1);
    assert 1 in e.ops.Keys && 2 in e.ops.Keys;
    var first, e1 := Fetch(c, e, 1, b1);
    var second, e2 := Fetch(c, e1, 2, b2);
    var e3 := Next(c, e2, Update(2, b2, d));
    assert e3.cache == e.cache[b1 := Buf(e.disk[b1], false, Some(1), false)][b2 := Buf(d, false, Some(2), true)];
    GuardIs(c, e3, 1);
    var e4 := Next(c, e3, Guard(1));
    GuardIs(c, e4, 2);
    e' := Next(c, e4, Guard(2));
    hide Did, Next, Enabled;
    DidThen(c, e, first, e1, second, e2);
    steps := first + second;
    DidMore(c, e, steps, e2, Update(2, b2, d));
    steps := steps + [Update(2, b2, d)];
    DidMore(c, e, steps, e3, Guard(1));
    steps := steps + [Guard(1)];
    DidMore(c, e, steps, e4, Guard(2));
    steps := steps + [Guard(2)];
  }

  /** Two log_writes that were tested together. */
  lemma AppendBoth(c: Config, e: State, b1: Block, b2: Block) returns (steps: seq<Step>, e': State)
    requires HeldBy(e, b1, 1) && HeldBy(e, b2, 2) && b1 != b2 && c.Home(b1) && c.Home(b2) && b1 !in e.lh && b2 !in e.lh
    requires 1 in e.ops && 2 in e.ops && e.ops[1].armed && e.ops[2].armed && e.ops[1].unused > 0 && e.ops[2].unused > 0
    ensures Did(c, e, steps, e') && SameDisk(e, e') && e'.lh == e.lh + [b1] + [b2]
    ensures e'.cache == e.cache[b1 := e.cache[b1].(dirty := true, touched := false)][b2 := e.cache[b2].(dirty := true, touched := false)]
    ensures e'.ops == e.ops[1 := Op(e.ops[1].unused - 1, false)][2 := Op(e.ops[2].unused - 1, false)]
  {
    hide Did, Next, Enabled;
    AppendIs(c, e, 1, b1);
    DidFirst(c, e, Append(1, b1));
    var e1 := Next(c, e, Append(1, b1));
    AppendIs(c, e1, 2, b2);
    DidMore(c, e, [Append(1, b1)], e1, Append(2, b2));
    steps, e' := [Append(1, b1)] + [Append(2, b2)], Next(c, e1, Append(2, b2));
  }

  lemma ReleaseBoth(c: Config, e: State, b1: Block, b2: Block) returns (steps: seq<Step>, e': State)
    requires HeldBy(e, b1, 1) && HeldBy(e, b2, 2) && b1 != b2 && !e.cache[b1].touched && !e.cache[b2].touched
    ensures Did(c, e, steps, e')
    ensures e' == e.(cache := e.cache[b1 := e.cache[b1].(holder := None)][b2 := e.cache[b2].(holder := None)])
  {
    hide Did, Next, Enabled;
    ReleaseIs(c, e, 1, b1);
    DidFirst(c, e, Release(1, b1));
    var e1 := Next(c, e, Release(1, b1));
    ReleaseIs(c, e1, 2, b2);
    DidMore(c, e, [Release(1, b1)], e1, Release(2, b2));
    steps, e' := [Release(1, b1)] + [Release(2, b2)], Next(c, e1, Release(2, b2));
  }

  /** Both append, and let go of their block. */
  lemma Race(c: Config, e0: State, e: State, d: Data) returns (steps: seq<Step>, e': State)
    requires Tight(c) && Filled(c, e0, c.logSize - 2) && Armed(c, e, e0, d)
    ensures Did(c, e, steps, e') && Raced(c, e', d) && e'.init == e.init
  {
    hide Did, Next, Enabled;
    var b1, b2 := Target(c, c.logSize - 2), Target(c, c.logSize - 1);
    var first, e1 := AppendBoth(c, e, b1, b2);
    var second, e2 := ReleaseBoth(c, e1, b1, b2);
    DidThen(c, e, first, e1, second, e2);
    steps, e' := first + second, e2;
    RacedIs(c, e0, e', d);
  }

  lemma RacedIs(c: Config, e: State, e': State, d: Data)
    requires Tight(c) && Filled(c, e, c.logSize - 2) && SameDisk(e, e')
    requires e'.lh == e.lh + [Target(c, c.logSize - 2)] + [Target(c, c.logSize - 1)]
    requires Target(c, c.logSize - 2) < |e.disk|
    requires e'.cache == e.cache[Target(c, c.logSize - 2) := Buf(e.disk[Target(c, c.logSize - 2)], true, None, false)]
                                [Target(c, c.logSize - 1) := Buf(d, true, None, false)]
    requires 1 in e.ops && 2 in e.ops && e.ops[1].unused > 0 && e.ops[2].unused > 0
    requires e'.ops == e.ops[1 := Op(e.ops[1].unused - 1, false)][2 := Op(e.ops[2].unused - 1, false)]
    ensures Raced(c, e', d)
  {
    assert e'.ops.Keys == {0, 1, 2};
    assert forall o: OpId | o < 3 :: o in e.ops.Keys;
  }

  lemma RunToRace(c: Config, s: State, d: Data) returns (steps: seq<Step>, e: State)
    requires Init(c, s) && Tight(c)
    ensures Did(c, s, steps, e) && Raced(c, e, d) && e.init == s.disk
  {
    assert Did(c, s, [], s);
    hide Did;
    var begun, e1 := Start(c, s, [], s, 0);
    var filled, e2 := Fill(c, s, begun, e1, 0);
    var armed, e3 := Arm(c, e2, d);
    var raced, e4 := Race(c, e2, e3, d);
    DidThen(c, s, filled, e2, armed, e3);
    DidThen(c, s, filled + armed, e3, raced, e4);
    steps, e := filled + armed + raced, e4;
  }

  lemma Overrun(c: Config, s: State) returns (steps: seq<Step>)
    requires Init(c, s) && Tight(c)
    ensures Runs(c, s, steps) && !FitsThroughout(c, s, steps)
  {
    var e;
    steps, e := RunToRace(c, s, []);
    if FitsThroughout(c, s, steps) { EndFits(c, s, steps); }
  }

  // ----- A crash while write_log is beyond the region

  /** write_log has copied t of the logged blocks, all of them inside the region. */
  ghost predicate Copied(c: Config, s: State, d: Data, t: nat) {
    && Tight(c) && t < c.logSize && s.phase == WriteLog(t) && AllReleased(s)
    && |s.disk| == |s.init| == c.nblocks && s.header == [] && s.groups == []
    && |s.lh| == c.logSize && (forall i | 0 <= i < c.logSize :: s.lh[i] == Target(c, i))
    && Target(c, c.logSize - 1) in s.cache && s.cache[Target(c, c.logSize - 1)].data == d
    && s.disk[Target(c, 0)] == s.init[Target(c, 0)]
  }

  lemma EndIs(c: Config, e: State, o: OpId)
    requires AllReleased(e) && o in e.ops && !e.ops[o].armed
    ensures Enabled(c, e, End(o))
    ensures |e.ops| > 1 ==> Next(c, e, End(o)) == e.(ops := e.ops - {o}, sleepers := {})
    ensures |e.ops| == 1 && e.lh != [] ==> Next(c, e, End(o)) == e.(ops := map[], phase := WriteLog(0))
  {
  }

  lemma EndAll(c: Config, e: State, d: Data) returns (steps: seq<Step>, e': State)
    requires Raced(c, e, d)
    ensures Did(c, e, steps, e') && Copied(c, e', d, 0) && e'.init == e.init
  {
    assert 0 in e.ops.Keys && 1 in e.ops.Keys && 2 in e.ops.Keys;
    assert |e.ops| == |{0, 1, 2}| == 3;
    hide Did, Next, Enabled;
    EndIs(c, e, 0);
    DidFirst(c, e, End(0));
    var e1 := Next(c, e, End(0));
    assert e1.ops.Keys == {1, 2} && |e1.ops| == |e1.ops.Keys|;
    EndIs(c, e1, 1);
    DidMore(c, e, [End(0)], e1, End(1));
    var e2 := Next(c, e1, End(1));
    assert e2.ops.Keys == {2} && |e2.ops| == |e2.ops.Keys|;
    EndIs(c, e2, 2);
    steps := [End(0)] + [End(1)];
    DidMore(c, e, steps, e2, End(2));
    e' := Next(c, e2, End(2));
    steps := steps + [End(2)];
  }

  lemma CopyNext(c: Config, e: State, d: Data, t: nat)
    requires Copied(c, e, d, t)
    ensures Enabled(c, e, LogBlock)
    ensures var e' := Next(c, e, LogBlock);
            if t < c.logSize - 1 then Copied(c, e', d, t + 1) && e'.init == e.init
            else e'.disk == e.disk[Target(c, 0) := d] && e'.header == [] && e'.groups == []
  {
    assert e.lh[t] == Target(c, t);
    assert t == c.logSize - 1 ==> c.Slot(t) == Target(c, 0);
  }

  lemma {:induction false} CopyAll(c: Config, s: State, steps: seq<Step>, e: State, d: Data, t: nat)
    returns (longer: seq<Step>, e': State)
    requires Did(c, s, steps, e) && Copied(c, e, d, t)
    ensures Did(c, s, longer, e') && e'.header == [] && e'.groups == []
    ensures Target(c, 0) < |e'.disk| && e'.disk[Target(c, 0)] == d
    decreases c.logSize - t
  {
    hide Did, Enabled, Next;
    CopyNext(c, e, d, t);
    DidMore(c, s, steps, e, LogBlock);
    longer, e' := steps + [LogBlock], Next(c, e, LogBlock);
    if t < c.logSize - 1 {
      longer, e' := CopyAll(c, s, longer, e', d, t + 1);
    }
  }

  /** A crash now would recover to exactly the committed groups. */
  ghost predicate Atomic(c: Config, s0: State, e: State) {
    HomeEqual(c, Recovered(c, e.disk, e.header, |e.header|), ApplyGroups(s0.disk, e.groups))
  }

  /** A run after which a crash leaves a block of no committed group in another block's place. */
  lemma TornRun(c: Config, s: State) returns (steps: seq<Step>)
    requires Init(c, s) && Tight(c)
    ensures Runs(c, s, steps) && !Atomic(c, s, Run(c, s, steps))
  {
    var h := Target(c, 0);
    var d := s.disk[h] + [0];
    var raced, e1 := RunToRace(c, s, d);
    var ended, e2 := EndAll(c, e1, d);
    DidThen(c, s, raced, e1, ended, e2) by { hide Did; }
    var e;
    steps, e := CopyAll(c, s, raced + ended, e2, d, 0);
    assert !c.InLog(h) && e.disk[h] != s.disk[h];
  }

  // ----- Exactly when

  ghost predicate NeverOverrun(c: Config, s: State) {
    forall steps :: Runs(c, s, steps) ==> FitsThroughout(c, s, steps)
  }

  lemma RegionSafeIff(c: Config, s: State)
    requires Init(c, s) && c.maxOp >= 1 && c.logCap == 3 * c.maxOp && c.logStart + 2 * c.logSize <= c.nblocks
    ensures NeverOverrun(c, s) <==> c.logSize > c.logCap || c.logSize == 1
  {
    if c.logSize > c.logCap {
      forall steps | Runs(c, s, steps) ensures FitsThroughout(c, s, steps) { RunKeepsSpace(c, s, steps); }
    } else if c.logSize == 1 {
      forall steps | Runs(c, s, steps) ensures FitsThroughout(c, s, steps) { EmptyRegionFits(c, s, steps); }
    } else {
      var steps := Overrun(c, s);
    }
  }

  ghost predicate AlwaysAtomic(c: Config, s: State) {
    forall steps :: Runs(c, s, steps) ==> Atomic(c, s, Run(c, s, steps))
  }

  /** Every crash in every run recovers to the committed groups, exactly for these log regions. */
  lemma AtomicIff(c: Config, s: State)
    requires Init(c, s) && c.maxOp >= 1 && c.logCap == 3 * c.maxOp && c.logStart + 2 * c.logSize <= c.nblocks
    ensures AlwaysAtomic(c, s) <==> c.logSize > c.logCap || c.logSize == 1
  {
    if c.logSize > c.logCap || c.logSize == 1 {
      RegionSafeIff(c, s);
      forall steps | Runs(c, s, steps) ensures Atomic(c, s, Run(c, s, steps)) { CrashAtomicity(c, s, steps); }
    } else {
      var steps := TornRun(c, s);
    }
  }

  /** The layout mkfs writes (FSSIZE 1000, log of LOGSIZE 30 blocks at block 2) can be overrun. */
  lemma MkfsLayoutOverrun(s: State)
    requires Init(Config(1000, 2, 30, 10, 30), s)
    ensures !NeverOverrun(Config(1000, 2, 30, 10, 30), s) && !AlwaysAtomic(Config(1000, 2, 30, 10, 30), s)
  {
    RegionSafeIff(Config(1000, 2, 30, 10, 30), s);
    AtomicIff(Config(1000, 2, 30, 10, 30), s);
  }

  /** Without the race the region is never overrun, whatever its size. */
  lemma SerialRunsFit(c: Config, s: State, steps: seq<Step>)
    requires Init(c, s) && Runs(c, s, steps) && Serial(steps)
    ensures FitsThroughout(c, s, steps)
  {
    SerialFits(c, s, steps);
  }
}
