/** Crash atomicity, whole operations, log space and wakeups, over every run of the log. */
module LogTheorems {
  import opened Log
  import opened LogInvariant

  // ----- Crash atomicity

  lemma {:induction false} RunKeepsInv(c: Config, s: State, steps: seq<Step>)
    requires Inv(c, s) && Runs(c, s, steps) && FitsThroughout(c, s, steps)
    ensures Inv(c, Run(c, s, steps)) && Fits(c, Run(c, s, steps))
    ensures Run(c, s, steps).init == s.init
    decreases |steps|
  {
    if steps != [] {
      StepKeeps(c, s, steps[0]);
      RunKeepsInv(c, Next(c, s, steps[0]), steps[1..]);
    }
  }

  /** The slots named by header hold the blocks of img, and the other home blocks are those of img already. */
  ghost predicate Replayable(c: Config, disk: seq<Data>, header: seq<Block>, img: seq<Data>) {
    && |disk| == |img| == c.nblocks && HomeBlocks(c, header) && |header| <= c.logSize - 1 && c.Valid()
    && (forall i | 0 <= i < |header| :: disk[c.Slot(i)] == img[header[i]])
    && (forall x | 0 <= x < c.nblocks && c.Home(x) && x !in header :: disk[x] == img[x])
  }

  /** After k of its block copies, recovery has put the first k logged blocks in place. */
  lemma {:induction false} RecoveredPrefix(c: Config, disk: seq<Data>, header: seq<Block>, img: seq<Data>, k: nat)
    requires Replayable(c, disk, header, img) && k <= |header|
    ensures var d := Recovered(c, disk, header, k);
            && |d| == c.nblocks
            && (forall i | 0 <= i < |header| :: d[c.Slot(i)] == disk[c.Slot(i)])
            && (forall x | 0 <= x < c.nblocks && c.Home(x) && (x in header[..k] || x !in header) :: d[x] == img[x])
  {
    if k > 0 {
      RecoveredPrefix(c, disk, header, img, k - 1);
      assert header[..k] == header[..k - 1] + [header[k - 1]];
      assert c.Home(header[k - 1]);
    }
  }

  lemma IdleHeader(c: Config, s: State)
    requires Inv(c, s) && s.phase == Idle
    ensures s.header == []
  {
  }

  lemma RecoveredIsDurable(c: Config, s: State)
    requires Inv(c, s)
    ensures HomeEqual(c, Recovered(c, s.disk, s.header, |s.header|), Durable(s))
    ensures s.phase == Idle ==> HomeEqual(c, s.disk, Durable(s))
  {
    assert Replayable(c, s.disk, s.header, Durable(s)) by { hide Durable; }
    hide Durable, Inv, Recovered;
    RecoveredPrefix(c, s.disk, s.header, Durable(s), |s.header|);
    assert s.header[..|s.header|] == s.header;
    if s.phase == Idle { IdleHeader(c, s); }
  }

  /**
   A crash at any point of any run, also in the middle of earlier recoveries, leaves a disk
   that recovers to the initial image plus a whole number of committed groups.
   */
  lemma CrashAtomicity(c: Config, s: State, steps: seq<Step>)
    requires Init(c, s) && Runs(c, s, steps) && FitsThroughout(c, s, steps)
    ensures var e := Run(c, s, steps);
            && HomeEqual(c, Recovered(c, e.disk, e.header, |e.header|), ApplyGroups(s.disk, e.groups))
            && (e.phase == Idle ==> HomeEqual(c, e.disk, ApplyGroups(s.disk, e.groups)))
  {
    InitInv(c, s);
    RunKeepsInv(c, s, steps);
    RecoveredIsDurable(c, Run(c, s, steps));
  }

  /** What a crash would recover to changes only at the write of a non-empty header. */
  lemma CommitPoint(c: Config, s: State, st: Step)
    requires Inv(c, s) && Enabled(c, s, st) && Fits(c, s)
    ensures var s' := Next(c, s, st);
            if st.CommitHead? then
              s.lh != [] && s'.header == s.lh && s'.groups == s.groups + [s.current]
            else
              s'.groups == s.groups &&
              HomeEqual(c, Recovered(c, s'.disk, s'.header, |s'.header|), Recovered(c, s.disk, s.header, |s.header|))
  {
    CommitHist(c, s, st);
    StepKeeps(c, s, st);
    hide Inv, Next, Enabled, Recovered, Durable;
    RecoveredIsDurable(c, s);
    RecoveredIsDurable(c, Next(c, s, st));
  }

  lemma CommitHist(c: Config, s: State, st: Step)
    requires Inv(c, s) && Enabled(c, s, st)
    ensures var s' := Next(c, s, st);
            if st.CommitHead? then s.lh != [] && s'.header == s.lh && s'.groups == s.groups + [s.current]
            else s'.groups == s.groups && Durable(s') == Durable(s)
  {
    hide CacheInv, PinInv, DiskInv, MustWait;
    if !st.CommitHead? {
      assert Next(c, s, st).groups == s.groups && Next(c, s, st).init == s.init;
    }
  }

  /** Home blocks on disk change only when a committed block is installed. */
  lemma HomeWrites(c: Config, s: State, st: Step)
    requires Inv(c, s) && Enabled(c, s, st) && Fits(c, s) && !st.InstallBlock?
    ensures HomeEqual(c, Next(c, s, st).disk, s.disk)
  {
    if st.LogBlock? { assert c.InLog(c.Slot(s.phase.tail)); }
  }

  /** A logged block stays cached and pinned until it is installed or the kernel crashes. */
  lemma LoggedNotRecycled(c: Config, s: State, st: Step, b: Block)
    requires Inv(c, s) && Enabled(c, s, st) && Fits(c, s) && Pinned(s, b)
    requires st != Crash && (st.InstallBlock? ==> b != s.lh[s.phase.tail])
    ensures b in Next(c, s, st).cache && Next(c, s, st).cache[b].dirty
  {
    var s' := Next(c, s, st);
    StepKeeps(c, s, st);
    if st.InstallBlock? { NotLater(s.lh, s.phase.tail); }
    if st.CommitHead? { assert s.lh[0..] == s.lh; }
    assert Pinned(s', b);
    assert BufOk(c, s', b);
  }

  /** An unlocked buffer that is not waiting for a commit holds what its disk block holds. */
  lemma CacheAgrees(c: Config, s: State, steps: seq<Step>, b: Block)
    requires Init(c, s) && Runs(c, s, steps) && FitsThroughout(c, s, steps)
    requires b in Run(c, s, steps).cache
    requires Run(c, s, steps).cache[b].holder == None && !Run(c, s, steps).cache[b].dirty
    ensures var e := Run(c, s, steps); b < |e.disk| && e.cache[b].data == e.disk[b] && !Pinned(e, b)
  {
    InitInv(c, s);
    RunKeepsInv(c, s, steps);
    assert BufOk(c, Run(c, s, steps), b);
  }

  // ----- No operation is split across two groups

  /** All log_writes of operation o so far are in one place: the open group or one committed group. */
  ghost predicate Whole(s: State, o: OpId) {
    && (o !in s.used ==> o !in s.ops)
    && (o in s.used ==> o in s.written)
    && (OfOp(s.current, o) != [] ==> o in s.used && OfOp(s.current, o) == s.written[o])
    && (o in s.ops ==> OfOp(s.current, o) == s.written[o])
    && (o in s.ops || OfOp(s.current, o) != [] ==> forall g | 0 <= g < |s.groups| :: OfOp(s.groups[g], o) == [])
    && (forall g | 0 <= g < |s.groups| && OfOp(s.groups[g], o) != [] ::
          && o in s.used && OfOp(s.groups[g], o) == s.written[o]
          && forall h | 0 <= h < |s.groups| && h != g :: OfOp(s.groups[h], o) == [])
  }

  ghost predicate HistInv(s: State) {
    (s.phase != Idle ==> s.ops == map[]) && forall o :: Whole(s, o)
  }

  lemma OfOpSnoc(es: seq<Entry>, e: Entry, o: OpId)
    ensures OfOp(es + [e], o) == OfOp(es, o) + (if e.op == o then [e] else [])
  {
    assert (es + [e])[..|es|] == es;
  }

  /** Nothing is begun, logged or committed; operations may end. */
  ghost predicate SameHist(s: State, s': State) {
    && s'.groups == s.groups && s'.current == s.current && s'.written == s.written && s'.used == s.used
    && s'.ops.Keys <= s.ops.Keys
  }

  lemma SameWhole(s: State, s': State, o: OpId)
    requires Whole(s, o) && SameHist(s, s')
    ensures Whole(s', o)
  {
    assert o in s'.ops ==> o in s.ops.Keys;
  }

  lemma BeginWhole(c: Config, s: State, p: OpId, o: OpId)
    requires Whole(s, o) && Enabled(c, s, Begin(p))
    ensures Whole(Next(c, s, Begin(p)), o)
  {
    var s' := Next(c, s, Begin(p));
    if o == p {
      assert OfOp(s.current, o) == [];
      assert forall g | 0 <= g < |s.groups| :: OfOp(s.groups[g], o) == [];
    }
    assert o != p ==> (o in s'.ops <==> o in s.ops);
  }

  lemma AppendWhole(s: State, s': State, e: Entry, o: OpId)
    requires Whole(s, o) && e.op in s.used && e.op in s.written && e.op in s.ops
    requires s'.groups == s.groups && s'.current == s.current + [e] && s'.used == s.used && s'.ops.Keys == s.ops.Keys
    requires s'.written == s.written[e.op := s.written[e.op] + [e]]
    ensures Whole(s', o)
  {
    OfOpSnoc(s.current, e, o);
    hide OfOp;
    assert o in s'.ops <==> o in s.ops.Keys;
  }

  lemma AppendHist(c: Config, s: State, p: OpId, b: Block)
    requires Enabled(c, s, Append(p, b)) && p in s.written
    ensures b in s.cache && p in s.ops
    ensures var s', e := Next(c, s, Append(p, b)), Entry(p, b, s.cache[b].data);
            && s'.groups == s.groups && s'.current == s.current + [e] && s'.used == s.used && s'.ops.Keys == s.ops.Keys
            && s'.written == s.written[p := s.written[p] + [e]]
  {
    hide MustWait;
  }

  lemma CommitWhole(s: State, s': State, o: OpId)
    requires Whole(s, o) && s.ops == map[] && s'.ops == map[] && s'.used == s.used && s'.written == s.written
    requires s'.groups == s.groups + [s.current] && s'.current == []
    ensures Whole(s', o)
  {
    assert OfOp(s'.current, o) == [];
    hide OfOp;
    forall g | 0 <= g < |s'.groups| && OfOp(s'.groups[g], o) != []
      ensures o in s.used && OfOp(s'.groups[g], o) == s.written[o]
      ensures forall h | 0 <= h < |s'.groups| && h != g :: OfOp(s'.groups[h], o) == []
    {
      if g < |s.groups| { assert s'.groups[g] == s.groups[g]; }
    }
  }

  lemma CrashWhole(s: State, s': State, o: OpId)
    requires Whole(s, o) && s'.ops == map[] && s'.used == s.used && s'.written == s.written
    requires s'.groups == s.groups && s'.current == []
    ensures Whole(s', o)
  {
    assert OfOp(s'.current, o) == [];
    hide OfOp;
  }

  lemma IdleOps(c: Config, s: State, st: Step)
    requires (s.phase != Idle ==> s.ops == map[]) && Enabled(c, s, st)
    ensures Next(c, s, st).phase != Idle ==> Next(c, s, st).ops == map[]
    ensures st.CommitHead? ==> s.ops == map[]
  {
    hide MustWait, Recovering, Unheld, Loaded, AppendBlock;
    if st.End? && |s.ops| == 1 { OnlyKey(s.ops, st.o); }
    if st.Append? { AppendPhase(s, st.o, st.b); }
    if st.Begin? { BeginsIdle(c, s); }
  }

  lemma BeginsIdle(c: Config, s: State)
    requires !MustWait(c, s)
    ensures s.phase == Idle
  {
  }

  lemma AppendPhase(s: State, o: OpId, b: Block)
    requires o in s.ops && b in s.cache && (b in s.lh || s.ops[o].unused > 0)
    ensures AppendBlock(s, o, b).phase == s.phase
  {
  }

  lemma QuietHist(c: Config, s: State, st: Step)
    requires Enabled(c, s, st) && !(st.Begin? || st.Append? || st.CommitHead? || st.Crash?)
    ensures SameHist(s, Next(c, s, st))
  {
    hide MustWait, Recovering, Unheld, Loaded;
    if st.Guard? { assert s.ops[st.o := s.ops[st.o].(armed := true)].Keys == s.ops.Keys; }
  }

  lemma StepKeepsHist(c: Config, s: State, st: Step)
    requires HistInv(s) && Enabled(c, s, st)
    ensures HistInv(Next(c, s, st))
  {
    IdleOps(c, s, st);
    var s' := Next(c, s, st);
    forall o ensures Whole(s', o) {
      assert Whole(s, o);
      if st.Begin? { BeginWhole(c, s, st.o, o); }
      else if st.Append? { Appended(c, s, st.o, st.b, o); }
      else if st.CommitHead? { CommitWhole(s, s', o) by { hide Whole; } }
      else if st.Crash? { CrashWhole(s, s', o) by { hide Whole; } }
      else { QuietHist(c, s, st); SameWhole(s, s', o) by { hide Whole, Next; } }
      hide Whole;
    }
  }

  lemma Appended(c: Config, s: State, p: OpId, b: Block, o: OpId)
    requires HistInv(s) && Enabled(c, s, Append(p, b))
    ensures Whole(Next(c, s, Append(p, b)), o)
  {
    assert Whole(s, p) && Whole(s, o);
    OpUsed(s, p) by { hide Next; }
    hide Whole;
    AppendHist(c, s, p, b);
    AppendWhole(s, Next(c, s, Append(p, b)), Entry(p, b, s.cache[b].data), o);
  }

  lemma OpUsed(s: State, o: OpId)
    requires Whole(s, o) && o in s.ops
    ensures o in s.used && o in s.written
  {
  }

  lemma {:induction false} RunKeepsHist(c: Config, s: State, steps: seq<Step>)
    requires HistInv(s) && Runs(c, s, steps)
    ensures HistInv(Run(c, s, steps))
    decreases |steps|
  {
    if steps != [] {
      StepKeepsHist(c, s, steps[0]);
      RunKeepsHist(c, Next(c, s, steps[0]), steps[1..]);
    }
  }

  /** An operation with one block in a committed group has all its log_writes in that group. */
  lemma NoOperationSplit(c: Config, s: State, steps: seq<Step>, o: OpId, g: nat)
    requires Init(c, s) && Runs(c, s, steps)
    requires g < |Run(c, s, steps).groups| && OfOp(Run(c, s, steps).groups[g], o) != []
    ensures var e := Run(c, s, steps);
            && o in e.written && OfOp(e.groups[g], o) == e.written[o] && o !in e.ops
            && forall h | 0 <= h < |e.groups| && h != g :: OfOp(e.groups[h], o) == []
  {
    RunKeepsHist(c, s, steps);
    assert Whole(Run(c, s, steps), o);
  }

  // ----- Log space

  lemma {:induction false} UnusedSplit(ops: map<OpId, Op>, o: OpId)
    requires o in ops
    ensures Unused(ops) == ops[o].unused + Unused(ops - {o})
    decreases |ops|
  {
    var p :| p in ops && Unused(ops) == ops[p].unused + Unused(ops - {p});
    if p != o {
      UnusedSplit(ops - {p}, o);
      UnusedSplit(ops - {o}, p);
      assert ops - {p} - {o} == ops - {o} - {p};
    }
  }

  lemma {:induction false} UnusedBound(ops: map<OpId, Op>, max: nat)
    requires forall o | o in ops :: ops[o].unused <= max
    ensures Unused(ops) <= |ops| * max
    decreases |ops|
  {
    if ops != map[] {
      var o :| o in ops;
      UnusedSplit(ops, o);
      hide Unused;
      UnusedBound(ops - {o}, max);
      assert |ops| == |ops - {o}| + 1;
      OneMoreTimes(|ops - {o}|, max);
    }
  }

  lemma OneMoreTimes(n: nat, max: nat)
    ensures (n + 1) * max == n * max + max
  {
  }

  lemma UnusedUpdate(ops: map<OpId, Op>, o: OpId, p: Op)
    ensures Unused(ops[o := p]) == p.unused + Unused(ops - {o})
  {
    UnusedSplit(ops[o := p], o);
    assert ops[o := p] - {o} == ops - {o};
  }

  /** Logged blocks plus the unused reservations never exceed LOGSIZE. */
  ghost predicate SpaceInv(c: Config, s: State) {
    && |s.lh| + Unused(s.ops) <= c.logCap && |s.header| <= c.logCap
    && Distinct(s.lh) && Distinct(s.header)
    && (s.phase != Idle ==> s.ops == map[])
    && forall o | o in s.ops :: s.ops[o].unused <= c.maxOp
  }

  /** What begin_op's test guarantees for the new operation's reservation. */
  lemma RoomForOne(c: Config, n: nat, ops: map<OpId, Op>, o: OpId)
    requires n + (|ops| + 1) * c.maxOp <= c.logCap
    requires forall p | p in ops :: ops[p].unused <= c.maxOp
    ensures n + Unused(ops[o := Op(c.maxOp, false)]) <= c.logCap
  {
    UnusedBound(ops, c.maxOp);
    UnusedUpdate(ops, o, Op(c.maxOp, false));
    if o in ops { UnusedSplit(ops, o); } else { assert ops - {o} == ops; }
    assert (|ops| + 1) * c.maxOp == |ops| * c.maxOp + c.maxOp;
  }

  /** Steps of operations move reservation between lh.n and the operation. */
  lemma OpKeepsSpace(c: Config, s: State, st: Step)
    requires SpaceInv(c, s) && Enabled(c, s, st) && (st.End? || st.Guard? || st.Append?)
    ensures SpaceInv(c, Next(c, s, st))
  {
    UnusedSplit(s.ops, st.o);
    if !st.End? {
      UnusedUpdate(s.ops, st.o, Next(c, s, st).ops[st.o]);
    }
    hide Unused;
  }

  lemma StepKeepsSpace(c: Config, s: State, st: Step)
    requires SpaceInv(c, s) && Enabled(c, s, st)
    ensures SpaceInv(c, Next(c, s, st))
  {
    if st.Begin? {
      RoomForOne(c, |s.lh|, s.ops, st.o);
      hide Unused;
    } else if st.End? || st.Guard? || st.Append? {
      OpKeepsSpace(c, s, st);
    } else {
      hide Unused, Distinct;
    }
  }

  lemma {:induction false} RunKeepsSpace(c: Config, s: State, steps: seq<Step>)
    requires SpaceInv(c, s) && Runs(c, s, steps)
    ensures SpaceInv(c, Run(c, s, steps))
    ensures c.logSize > c.logCap ==> FitsThroughout(c, s, steps)
    decreases |steps|
  {
    if steps != [] {
      StepKeepsSpace(c, s, steps[0]);
      RunKeepsSpace(c, Next(c, s, steps[0]), steps[1..]);
    }
  }

  /** The reservation made by begin_op holds, with all logged blocks distinct, in every run. */
  lemma Reservation(c: Config, s: State, steps: seq<Step>)
    requires Init(c, s) && Runs(c, s, steps)
    ensures var e := Run(c, s, steps); |e.lh| + Unused(e.ops) <= c.logCap && Distinct(e.lh)
  {
    RunKeepsSpace(c, s, steps);
  }

  // ----- No lost wakeup in begin_op

  ghost predicate SleepInv(c: Config, s: State) {
    s.sleepers != {} ==> MustWait(c, s) && !Recovering(s)
  }

  /** More operations and more logged blocks leave less room. */
  lemma LessRoom(n: nat, ops: nat, n': nat, ops': nat, max: nat)
    requires n <= n' && ops <= ops'
    ensures n + (ops + 1) * max <= n' + (ops' + 1) * max
  {
    assert (ops' - ops) * max >= 0;
    assert (ops' + 1) * max == (ops + 1) * max + (ops' - ops) * max;
  }

  /** A step that leaves someone asleep does not end a commit and is not part of recovery. */
  lemma SleepersPhase(c: Config, s: State, st: Step)
    requires Enabled(c, s, st) && !Recovering(s) && Next(c, s, st).sleepers != {} && !st.Sleep?
    ensures !Recovering(Next(c, s, st)) && (Next(c, s, st).phase == Idle ==> s.phase == Idle)
    ensures Next(c, s, st).sleepers == s.sleepers
  {
    hide MustWait;
    if st.Append? {
    } else if st.LogBlock? || st.InstallBlock? {
      hide Loaded;
    }
  }

  lemma FallsAsleep(c: Config, s: State, o: OpId)
    requires Enabled(c, s, Sleep(o))
    ensures Next(c, s, Sleep(o)) == s.(sleepers := s.sleepers + {o}) && MustWait(c, s) && !Recovering(s)
  {
  }

  /** And with no commit running it frees no log space. */
  lemma SleepersOps(c: Config, s: State, st: Step)
    requires Enabled(c, s, st) && s.phase == Idle && Next(c, s, st).phase == Idle && Next(c, s, st).sleepers != {}
    ensures |s.lh| <= |Next(c, s, st).lh| && (s.ops.Keys <= Next(c, s, st).ops.Keys)
  {
    hide MustWait;
  }

  lemma KeysSize(a: map<OpId, Op>, b: map<OpId, Op>)
    requires a.Keys <= b.Keys
    ensures |a| <= |b|
  {
    assert b.Keys == a.Keys + (b.Keys - a.Keys);
    assert |a.Keys| == |a| && |b.Keys| == |b|;
  }

  /** Nothing else can make room while someone sleeps. */
  lemma WaitsOn(c: Config, s: State, s': State)
    requires MustWait(c, s) && (s'.phase == Idle ==> s.phase == Idle && |s.lh| <= |s'.lh| && |s.ops| <= |s'.ops|)
    ensures MustWait(c, s')
  {
    if s'.phase == Idle { LessRoom(|s.lh|, |s.ops|, |s'.lh|, |s'.ops|, c.maxOp); }
  }

  lemma StepKeepsSleep(c: Config, s: State, st: Step)
    requires SleepInv(c, s) && Enabled(c, s, st)
    ensures SleepInv(c, Next(c, s, st))
  {
    hide Next, Enabled, MustWait, Recovering;
    var s' := Next(c, s, st);
    if st.Sleep? {
      FallsAsleep(c, s, st.o);
      WaitsOn(c, s, s');
      SamePhase(s, s');
    } else if s'.sleepers != {} {
      SleepersBefore(c, s, st);
      SleepersPhase(c, s, st);
      if s'.phase == Idle {
        SleepersOps(c, s, st);
        KeysSize(s.ops, s'.ops);
      }
      WaitsOn(c, s, s');
    }
  }

  lemma SamePhase(s: State, s': State)
    requires s'.phase == s.phase
    ensures Recovering(s') == Recovering(s)
  {
  }

  lemma SleepersBefore(c: Config, s: State, st: Step)
    requires Enabled(c, s, st) && !st.Sleep? && Next(c, s, st).sleepers != {}
    ensures s.sleepers != {}
  {
    hide MustWait, Recovering;
  }

  lemma {:induction false} RunKeepsSleep(c: Config, s: State, steps: seq<Step>)
    requires SleepInv(c, s) && Runs(c, s, steps)
    ensures SleepInv(c, Run(c, s, steps))
    decreases |steps|
  {
    if steps != [] {
      StepKeepsSleep(c, s, steps[0]);
      RunKeepsSleep(c, Next(c, s, steps[0]), steps[1..]);
    }
  }

  /** Whoever sleeps in begin_op still has to: no wakeup is ever missed. */
  lemma NoLostWakeup(c: Config, s: State, steps: seq<Step>, o: OpId)
    requires Init(c, s) && Runs(c, s, steps) && o in Run(c, s, steps).sleepers
    ensures MustWait(c, Run(c, s, steps))
  {
    RunKeepsSleep(c, s, steps);
  }
}
