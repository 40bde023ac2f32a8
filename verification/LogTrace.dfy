/**
 What the log makes of operations that run one after the other: the calls of begin_op, log_write and
 end_op in a run, and which of them a crash leaves committed.
 */
module LogTrace {
  import opened Log
  import opened LogInvariant
  import opened LogTheorems

  datatype Event = Began(o: OpId) | Logged(e: Entry) | Ended(o: OpId)

  /** One operation: its log_writes in order. */
  datatype Operation = Operation(op: OpId, entries: seq<Entry>)

  ghost function EventOf(c: Config, s: State, st: Step): seq<Event>
    requires Enabled(c, s, st)
  {
    match st
    case Begin(o) => [Began(o)]
    case End(o) => [Ended(o)]
    case Append(o, b) => [Logged(Entry(o, b, s.cache[b].data))]
    case _ => []
  }

  /** The calls a run makes, in order. */
  ghost function Trace(c: Config, s: State, steps: seq<Step>): seq<Event>
    requires Runs(c, s, steps)
    decreases |steps|
  {
    if steps == [] then [] else EventOf(c, s, steps[0]) + Trace(c, Next(c, s, steps[0]), steps[1..])
  }

  /** The entries logged. */
  function Entries(tr: seq<Event>): seq<Entry> {
    if tr == [] then []
    else
      var v := tr[|tr| - 1];
      Entries(tr[..|tr| - 1]) + (if v.Logged? then [v.e] else [])
  }

  /** Operations begun and not ended. */
  function Open(tr: seq<Event>): int {
    if tr == [] then 0
    else
      var v := tr[|tr| - 1];
      Open(tr[..|tr| - 1]) + (if v.Began? then 1 else if v.Ended? then -1 else 0)
  }

  function Flat(gs: seq<seq<Entry>>): seq<Entry> {
    if gs == [] then [] else Flat(gs[..|gs| - 1]) + gs[|gs| - 1]
  }

  function Calls(es: seq<Entry>): (r: seq<Event>)
    ensures |r| == |es| && forall i | 0 <= i < |es| :: r[i] == Logged(es[i])
  {
    seq(|es|, i requires 0 <= i < |es| => Logged(es[i]))
  }

  /** begin_op, the log_writes and end_op of one operation. */
  function OneOp(o: Operation): (r: seq<Event>)
    ensures |r| == |o.entries| + 2
  {
    [Began(o.op)] + Calls(o.entries) + [Ended(o.op)]
  }

  /** The calls of operations that run one after the other. */
  function Program(ops: seq<Operation>): seq<Event> {
    if ops == [] then [] else Program(ops[..|ops| - 1]) + OneOp(ops[|ops| - 1])
  }

  function AllEntries(ops: seq<Operation>): seq<Entry> {
    if ops == [] then [] else AllEntries(ops[..|ops| - 1]) + ops[|ops| - 1].entries
  }

  // ----- Events one after the other

  lemma {:induction false} EntriesConcat(a: seq<Event>, b: seq<Event>)
    ensures Entries(a + b) == Entries(a) + Entries(b) && Open(a + b) == Open(a) + Open(b)
    decreases |b|
  {
    if b == [] {
      assert a + b == a;
    } else {
      var n := |b| - 1;
      EntriesConcat(a, b[..n]);
      assert (a + b)[..|a| + n] == a + b[..n] && (a + b)[|a| + n] == b[n];
    }
  }

  lemma OneEvent(v: Event)
    ensures Entries([v]) == if v.Logged? then [v.e] else []
    ensures Open([v]) == if v.Began? then 1 else if v.Ended? then -1 else 0
  {
    assert [v][..0] == [];
  }

  lemma {:induction false} CallsAre(es: seq<Entry>, k: nat)
    requires k <= |es|
    ensures Entries(Calls(es)[..k]) == es[..k] && Open(Calls(es)[..k]) == 0
  {
    if k > 0 {
      CallsAre(es, k - 1);
      assert Calls(es)[..k][..k - 1] == Calls(es)[..k - 1];
      assert es[..k] == es[..k - 1] + [es[k - 1]];
    }
  }

  lemma AllCalls(es: seq<Entry>)
    ensures Entries(Calls(es)) == es && Open(Calls(es)) == 0
  {
    CallsAre(es, |es|);
    hide Entries, Open;
    assert Calls(es)[..|es|] == Calls(es) && es[..|es|] == es;
  }

  lemma WholeOp(o: Operation)
    ensures Entries(OneOp(o)) == o.entries && Open(OneOp(o)) == 0
  {
    hide Entries, Open;
    OneEvent(Began(o.op));
    OneEvent(Ended(o.op));
    AllCalls(o.entries);
    EntriesConcat([Began(o.op)], Calls(o.entries));
    EntriesConcat([Began(o.op)] + Calls(o.entries), [Ended(o.op)]);
  }

  /** A proper part of one operation's calls has it open. */
  lemma PartOpen(o: Operation, k: nat)
    requires 0 < k < |OneOp(o)|
    ensures Open(OneOp(o)[..k]) == 1
  {
    hide Entries, Open;
    OneEvent(Began(o.op));
    CallsAre(o.entries, k - 1);
    EntriesConcat([Began(o.op)], Calls(o.entries)[..k - 1]);
    assert OneOp(o)[..k] == [Began(o.op)] + Calls(o.entries)[..k - 1];
  }

  /** The calls up to a point where no operation is open are those of whole operations. */
  lemma {:induction false} WholeOperations(ops: seq<Operation>, p: nat) returns (m: nat)
    requires p <= |Program(ops)| && Open(Program(ops)[..p]) == 0
    ensures m <= |ops| && Program(ops)[..p] == Program(ops[..m])
    decreases |ops|
  {
    hide Entries, Open, OneOp;
    if ops == [] {
      return 0;
    }
    var n := |ops| - 1;
    var rest, one := Program(ops[..n]), OneOp(ops[n]);
    if p <= |rest| {
      assert Program(ops)[..p] == rest[..p];
      m := WholeOperations(ops[..n], p);
      assert ops[..n][..m] == ops[..m];
    } else {
      var k := p - |rest|;
      assert Program(ops)[..p] == rest + one[..k];
      EntriesConcat(rest, one[..k]);
      ProgramClosed(ops[..n]);
      if k < |one| { PartOpen(ops[n], k); }
      assert one[..|one|] == one && ops[..|ops|] == ops;
      m := |ops|;
    }
  }

  lemma {:induction false} ProgramClosed(ops: seq<Operation>)
    ensures Open(Program(ops)) == 0 && Entries(Program(ops)) == AllEntries(ops)
    decreases |ops|
  {
    if ops != [] {
      hide Entries, Open, OneOp;
      var n := |ops| - 1;
      ProgramClosed(ops[..n]);
      WholeOp(ops[n]);
      EntriesConcat(Program(ops[..n]), OneOp(ops[n]));
    }
  }

  // ----- Runs without a crash

  /** p of the calls tr were made before the last commit, with no operation open. */
  ghost predicate Kept(s: State, tr: seq<Event>, p: nat) {
    && p <= |tr| && Open(tr[..p]) == 0 && Open(tr) == |s.ops|
    && Flat(s.groups) == Entries(tr[..p]) && s.current == Entries(tr[p..])
  }

  lemma OneMoreOp(s: State, o: OpId, op: Op)
    requires Whole(s, o) && o !in s.used
    ensures |s.ops[o := op]| == |s.ops| + 1
  {
    assert s.ops[o := op].Keys == s.ops.Keys + {o};
  }

  lemma OneLessOp(ops: map<OpId, Op>, o: OpId)
    requires o in ops
    ensures |ops - {o}| == |ops| - 1 && (|ops| == 1 ==> |ops - {o}| == 0)
  {
    assert (ops - {o}).Keys == ops.Keys - {o};
  }

  lemma SameOps(ops: map<OpId, Op>, o: OpId, op: Op)
    requires o in ops
    ensures |ops[o := op]| == |ops|
  {
    assert ops[o := op].Keys == ops.Keys;
  }

  /** How a step changes what Kept speaks of. */
  lemma StepCounts(c: Config, s: State, st: Step)
    requires HistInv(s) && Enabled(c, s, st) && st != Crash
    ensures var s', v := Next(c, s, st), EventOf(c, s, st);
            && |s'.ops| == |s.ops| + Open(v)
            && (st.CommitHead? ==> s.ops == map[] && v == [] && s'.groups == s.groups + [s.current] && s'.current == [])
            && (!st.CommitHead? ==> s'.groups == s.groups && s'.current == s.current + Entries(v))
  {
    var v := EventOf(c, s, st);
    if v != [] { OneEvent(v[0]); }
    match st {
      case Begin(o) => assert Whole(s, o); OneMoreOp(s, o, Op(c.maxOp, false));
      case End(o) => OneLessOp(s.ops, o);
      case Guard(o) => SameOps(s.ops, o, s.ops[o].(armed := true));
      case Append(o, b) => SameOps(s.ops, o, Next(c, s, st).ops[o]);
      case _ =>
    }
  }

  lemma StepKept(c: Config, s: State, st: Step, tr: seq<Event>, p: nat)
    requires HistInv(s) && Enabled(c, s, st) && st != Crash && Kept(s, tr, p)
    ensures Kept(Next(c, s, st), tr + EventOf(c, s, st), if st.CommitHead? then |tr| else p)
  {
    StepCounts(c, s, st);
    var s', v := Next(c, s, st), EventOf(c, s, st);
    hide Next, Enabled, EventOf, Whole, Entries, Open;
    EntriesConcat(tr, v);
    if st.CommitHead? {
      assert tr + v == tr && tr[..|tr|] == tr && tr[|tr|..] == [] && tr == tr[..p] + tr[p..];
      EntriesConcat(tr[..p], tr[p..]);
      assert s'.groups[..|s.groups|] == s.groups;
    } else {
      assert (tr + v)[..p] == tr[..p] && (tr + v)[p..] == tr[p..] + v;
      EntriesConcat(tr[p..], v);
    }
  }

  lemma {:induction false} RunKept(c: Config, s: State, steps: seq<Step>, tr: seq<Event>, p: nat) returns (q: nat)
    requires HistInv(s) && Runs(c, s, steps) && (forall i | 0 <= i < |steps| :: steps[i] != Crash) && Kept(s, tr, p)
    ensures Kept(Run(c, s, steps), tr + Trace(c, s, steps), q)
    decreases |steps|
  {
    hide Next, Enabled, EventOf, HistInv, Kept;
    if steps == [] {
      assert tr + [] == tr;
      return p;
    }
    StepKept(c, s, steps[0], tr, p);
    StepKeepsHist(c, s, steps[0]);
    var v := EventOf(c, s, steps[0]);
    q := RunKept(c, Next(c, s, steps[0]), steps[1..], tr + v, if steps[0].CommitHead? then |tr| else p);
    assert tr + v + Trace(c, Next(c, s, steps[0]), steps[1..]) == tr + Trace(c, s, steps);
  }

  // ----- Operations that run alone never overrun the log region

  lemma {:induction false} AtMostOneOpen(ops: seq<Operation>, p: nat)
    requires p <= |Program(ops)|
    ensures Open(Program(ops)[..p]) <= 1
    decreases |ops|
  {
    hide Entries, Open, OneOp;
    if ops == [] {
      assert Program(ops)[..p] == Program(ops);
      ProgramClosed(ops);
    } else {
      var n := |ops| - 1;
      var rest, one := Program(ops[..n]), OneOp(ops[n]);
      if p <= |rest| {
        assert Program(ops)[..p] == rest[..p];
        AtMostOneOpen(ops[..n], p);
      } else {
        var k := p - |rest|;
        assert Program(ops)[..p] == rest + one[..k];
        EntriesConcat(rest, one[..k]);
        ProgramClosed(ops[..n]);
        WholeOp(ops[n]);
        if k < |one| { PartOpen(ops[n], k); } else { assert one[..k] == one; }
      }
    }
  }

  /** One operation at most, and if it has tested the room then the room is there. */
  ghost predicate Lone(c: Config, s: State) {
    && Fits(c, s) && |s.header| <= c.logSize - 1 && |s.ops| <= 1
    && forall o | o in s.ops && s.ops[o].armed :: |s.lh| <= c.logSize - 2
  }

  lemma OnlyOp(ops: map<OpId, Op>, o: OpId)
    requires |ops| <= 1 && o in ops
    ensures ops.Keys == {o}
  {
    OnlyKey(ops, o);
  }

  lemma StepLone(c: Config, s: State, st: Step)
    requires Lone(c, s) && Enabled(c, s, st) && |Next(c, s, st).ops| <= 1 && (s.phase != Idle ==> s.ops == map[])
    ensures Lone(c, Next(c, s, st))
  {
    var s' := Next(c, s, st);
    if st.Begin? || st.Guard? || st.Append? {
      assert st.o in s'.ops;
      OnlyOp(s'.ops, st.o);
    }
  }

  /** What holds along a run whose calls so far are tr. */
  ghost predicate Alone(c: Config, s: State, tr: seq<Event>, p: nat) {
    HistInv(s) && Kept(s, tr, p) && Lone(c, s)
  }

  lemma StepAlone(c: Config, s: State, st: Step, tr: seq<Event>, p: nat, ops: seq<Operation>)
    requires Alone(c, s, tr, p) && Enabled(c, s, st) && st != Crash && tr + EventOf(c, s, st) <= Program(ops)
    ensures Alone(c, Next(c, s, st), tr + EventOf(c, s, st), if st.CommitHead? then |tr| else p)
  {
    hide Next, Enabled, EventOf, Whole, Entries, Open, Lone;
    var v := EventOf(c, s, st);
    StepKept(c, s, st, tr, p);
    StepKeepsHist(c, s, st);
    assert tr + v == Program(ops)[..|tr + v|];
    AtMostOneOpen(ops, |tr + v|);
    StepLone(c, s, st);
  }

  lemma {:induction false} RunLone(c: Config, s: State, steps: seq<Step>, tr: seq<Event>, p: nat, ops: seq<Operation>)
    requires Alone(c, s, tr, p) && Runs(c, s, steps) && (forall i | 0 <= i < |steps| :: steps[i] != Crash)
    requires tr + Trace(c, s, steps) <= Program(ops)
    ensures FitsThroughout(c, s, steps)
    decreases |steps|
  {
    hide Next, Enabled, EventOf, HistInv, Kept, Program;
    if steps != [] {
      var v, s1 := EventOf(c, s, steps[0]), Next(c, s, steps[0]);
      assert tr + v + Trace(c, s1, steps[1..]) == tr + Trace(c, s, steps);
      StepAlone(c, s, steps[0], tr, p, ops);
      RunLone(c, s1, steps[1..], tr + v, if steps[0].CommitHead? then |tr| else p, ops);
    }
  }

  /** Operations that run one after the other keep inside the log region, whatever its size. */
  lemma SequentialFits(c: Config, s: State, steps: seq<Step>, ops: seq<Operation>)
    requires Init(c, s) && Runs(c, s, steps) && (forall i | 0 <= i < |steps| :: steps[i] != Crash)
    requires Trace(c, s, steps) <= Program(ops)
    ensures FitsThroughout(c, s, steps)
  {
    var none: seq<Event> := [];
    assert none + Trace(c, s, steps) == Trace(c, s, steps);
    RunLone(c, s, steps, none, 0, ops);
  }

  // ----- What a crash leaves

  lemma {:induction false} ApplyConcat(img: seq<Data>, a: seq<Entry>, b: seq<Entry>)
    ensures ApplyEntries(img, a + b) == ApplyEntries(ApplyEntries(img, a), b)
    decreases |b|
  {
    if b == [] {
      assert a + b == a;
    } else {
      var n := |b| - 1;
      ApplyConcat(img, a, b[..n]);
      assert (a + b)[..|a| + n] == a + b[..n];
    }
  }

  lemma {:induction false} ApplyFlat(img: seq<Data>, gs: seq<seq<Entry>>)
    ensures ApplyGroups(img, gs) == ApplyEntries(img, Flat(gs))
    decreases |gs|
  {
    if gs != [] {
      var n := |gs| - 1;
      ApplyFlat(img, gs[..n]);
      ApplyConcat(img, Flat(gs[..n]), gs[n]);
    }
  }

  // ----- Nothing is lost once no operation is in progress

  /** Between groups nothing waits to be committed. */
  ghost predicate Settled(s: State) {
    s.phase == Idle && s.ops == map[] ==> s.lh == [] && s.current == []
  }

  lemma StepSettles(c: Config, s: State, st: Step)
    requires Inv(c, s) && Settled(s) && Enabled(c, s, st)
    ensures Settled(Next(c, s, st))
  {
    var s' := Next(c, s, st);
    if st.End? && |s.ops| != 1 {
      OneLessOp(s.ops, st.o);
      assert s'.ops == s.ops - {st.o};
    } else if st.Begin? || st.Guard? || st.Append? {
      assert st.o in s'.ops;
    }
  }

  lemma {:induction false} RunSettles(c: Config, s: State, steps: seq<Step>)
    requires Inv(c, s) && Settled(s) && Runs(c, s, steps) && FitsThroughout(c, s, steps)
    ensures Settled(Run(c, s, steps))
    decreases |steps|
  {
    if steps != [] {
      StepSettles(c, s, steps[0]);
      StepKeeps(c, s, steps[0]);
      hide Inv, Settled, Next, Enabled;
      RunSettles(c, Next(c, s, steps[0]), steps[1..]);
    }
  }

  /** With no operation in progress a crash loses nothing: the disk recovers to all log_writes so far, in order. */
  lemma QuiescentDurable(c: Config, s: State, steps: seq<Step>)
    requires Init(c, s) && Runs(c, s, steps) && FitsThroughout(c, s, steps)
    requires (forall i | 0 <= i < |steps| :: steps[i] != Crash)
    requires Run(c, s, steps).phase == Idle && Run(c, s, steps).ops == map[]
    ensures var e := Run(c, s, steps);
            HomeEqual(c, Recovered(c, e.disk, e.header, |e.header|), ApplyEntries(s.disk, Entries(Trace(c, s, steps))))
  {
    var e, tr := Run(c, s, steps), Trace(c, s, steps);
    SettledAtEnd(c, s, steps);
    CrashAtomicity(c, s, steps);
    var p := RunKept(c, s, steps, [], 0);
    hide Next, Enabled, Recovered, Entries, Runs, Run, HomeEqual, Kept, Trace, Init;
    assert [] + tr == tr;
    KeptAll(e, tr, p);
    ApplyFlat(s.disk, e.groups);
  }

  lemma SettledAtEnd(c: Config, s: State, steps: seq<Step>)
    requires Init(c, s) && Runs(c, s, steps) && FitsThroughout(c, s, steps)
    ensures Settled(Run(c, s, steps))
  {
    InitInv(c, s);
    hide Inv, Next, Enabled;
    RunSettles(c, s, steps);
  }

  lemma KeptAll(s: State, tr: seq<Event>, p: nat)
    requires Kept(s, tr, p) && s.current == []
    ensures Flat(s.groups) == Entries(tr)
  {
    hide Entries, Open;
    EntriesConcat(tr[..p], tr[p..]);
    assert tr == tr[..p] + tr[p..];
  }

  // ----- Operations one after the other: a crash loses at most the last one

  function Begans(tr: seq<Event>): nat {
    if tr == [] then 0 else Begans(tr[..|tr| - 1]) + (if tr[|tr| - 1].Began? then 1 else 0)
  }

  lemma {:induction false} BegansConcat(a: seq<Event>, b: seq<Event>)
    ensures Begans(a + b) == Begans(a) + Begans(b)
    decreases |b|
  {
    if b == [] {
      assert a + b == a;
    } else {
      var n := |b| - 1;
      BegansConcat(a, b[..n]);
      assert (a + b)[..|a| + n] == a + b[..n] && (a + b)[|a| + n] == b[n];
    }
  }

  /** The calls from p on are those of one operation at most, and all before it is committed. */
  ghost predicate OneLate(c: Config, s: State, tr: seq<Event>, p: nat) {
    Alone(c, s, tr, p) && Inv(c, s) && Settled(s) && Begans(tr[p..]) <= 1
  }

  lemma KeptNow(s: State, tr: seq<Event>, p: nat)
    requires Kept(s, tr, p) && s.current == [] && |s.ops| == 0
    ensures Kept(s, tr, |tr|)
  {
    KeptAll(s, tr, p);
    hide Entries, Open;
    assert tr[..|tr|] == tr && tr[|tr|..] == [];
    assert Entries([]) == [] by { NoEvents(); }
  }

  lemma NoEvents()
    ensures Entries([]) == [] && Begans([]) == 0
  {
  }

  lemma FewBegans(c: Config, s: State, st: Step, tr: seq<Event>, p: nat)
    requires p <= |tr| && Enabled(c, s, st) && (if st.Begin? then p == |tr| else Begans(tr[p..]) <= 1)
    ensures Begans((tr + EventOf(c, s, st))[p..]) <= 1
  {
    var v := EventOf(c, s, st);
    hide Enabled;
    assert (tr + v)[p..] == tr[p..] + v;
    BegansConcat(tr[p..], v);
    if p == |tr| { assert tr[p..] == []; }
    if v != [] { assert v == [v[0]] && v[..0] == []; }
    NoEvents();
  }

  lemma BeginsAlone(c: Config, s: State, st: Step, tr: seq<Event>, p: nat, ops: seq<Operation>)
    requires OneLate(c, s, tr, p) && Enabled(c, s, st) && st.Begin? && tr + EventOf(c, s, st) <= Program(ops)
    ensures Alone(c, s, tr, |tr|) && s.ops == map[]
  {
    StepAlone(c, s, st, tr, p, ops);
    hide Entries, Open, Inv, HistInv;
    assert |Next(c, s, st).ops| <= 1;
    assert st.o in Next(c, s, st).ops;
    OnlyOp(Next(c, s, st).ops, st.o);
    assert s.ops == map[] by { NoOps(c, s, st); }
    KeptNow(s, tr, p);
  }

  lemma NoOps(c: Config, s: State, st: Step)
    requires HistInv(s) && Enabled(c, s, st) && st.Begin? && Next(c, s, st).ops.Keys == {st.o}
    ensures s.ops == map[]
  {
    assert Whole(s, st.o);
    assert s.ops.Keys <= {st.o} && st.o !in s.ops;
  }

  lemma StepOneLate(c: Config, s: State, st: Step, tr: seq<Event>, p: nat, ops: seq<Operation>) returns (q: nat)
    requires OneLate(c, s, tr, p) && Enabled(c, s, st) && st != Crash && tr + EventOf(c, s, st) <= Program(ops)
    ensures OneLate(c, Next(c, s, st), tr + EventOf(c, s, st), q)
  {
    q := if st.CommitHead? || st.Begin? then |tr| else p;
    if st.Begin? {
      BeginsAlone(c, s, st, tr, p, ops);
    }
    AloneFits(c, s, tr, p);
    StepAlone(c, s, st, tr, if st.Begin? then |tr| else p, ops);
    StepKeeps(c, s, st);
    StepSettles(c, s, st);
    hide Inv, Settled, Alone, Next;
    if st.CommitHead? {
      assert EventOf(c, s, st) == [] && tr + [] == tr && tr[|tr|..] == [];
      NoEvents();
    } else {
      FewBegans(c, s, st, tr, q);
    }
  }

  lemma AloneFits(c: Config, s: State, tr: seq<Event>, p: nat)
    requires Alone(c, s, tr, p)
    ensures Fits(c, s) && p <= |tr|
  {
  }

  lemma {:induction false} RunOneLate(c: Config, s: State, steps: seq<Step>, tr: seq<Event>, p: nat, ops: seq<Operation>) returns (q: nat)
    requires OneLate(c, s, tr, p) && Runs(c, s, steps) && (forall i | 0 <= i < |steps| :: steps[i] != Crash)
    requires tr + Trace(c, s, steps) <= Program(ops)
    ensures OneLate(c, Run(c, s, steps), tr + Trace(c, s, steps), q)
    decreases |steps|
  {
    hide Next, Enabled, EventOf, OneLate, Program;
    if steps == [] {
      assert tr + [] == tr;
      return p;
    }
    var v, s1 := EventOf(c, s, steps[0]), Next(c, s, steps[0]);
    assert tr + v + Trace(c, s1, steps[1..]) == tr + Trace(c, s, steps);
    var p1 := StepOneLate(c, s, steps[0], tr, p, ops);
    q := RunOneLate(c, s1, steps[1..], tr + v, p1, ops);
  }

  lemma {:induction false} ProgramSplit(ops: seq<Operation>, m: nat)
    requires m < |ops|
    ensures Program(ops[..m + 1]) == Program(ops[..m]) + OneOp(ops[m]) && Program(ops[..m + 1]) <= Program(ops)
    ensures m + 1 < |ops| ==> |Program(ops[..m + 1])| < |Program(ops)| && Program(ops)[|Program(ops[..m + 1])|].Began?
    decreases |ops|
  {
    hide OneOp;
    var n := |ops| - 1;
    assert ops[..m + 1][..m] == ops[..m] && ops[..|ops|] == ops;
    if m + 1 == n {
      assert OneOp(ops[n])[0].Began? by { FirstBegan(ops[n]); }
    } else if m < n {
      ProgramSplit(ops[..n], m);
      assert ops[..n][..m + 1] == ops[..m + 1] && ops[..n][..m] == ops[..m];
    }
  }

  lemma FirstBegan(o: Operation)
    ensures OneOp(o)[0].Began?
  {
  }

  /** Calls behind the first m operations with one begin_op among them are calls of operation m. */
  lemma WithinNext(ops: seq<Operation>, m: nat, tr: seq<Event>)
    requires m <= |ops| && Program(ops[..m]) <= tr <= Program(ops) && Begans(tr[|Program(ops[..m])|..]) <= 1
    ensures m < |ops| ==> tr <= Program(ops[..m + 1])
  {
    if m < |ops| {
      ProgramSplit(ops, m);
      var lo, hi := |Program(ops[..m])|, |Program(ops[..m + 1])|;
      hide Program, OneOp;
      if hi < |tr| {
        FirstBegan(ops[m]);
        assert tr[lo] == Program(ops)[lo] == Program(ops[..m + 1])[lo] == OneOp(ops[m])[0];
        assert m + 1 < |ops|;
        assert tr[hi].Began?;
        TwoBegans(tr[lo..], hi - lo);
        assert false;
      }
      assert tr == Program(ops)[..|tr|];
    }
  }

  lemma TwoBegans(tr: seq<Event>, k: nat)
    requires 0 < k < |tr| && tr[0].Began? && tr[k].Began?
    ensures Begans(tr) >= 2
  {
    assert tr == [tr[0]] + tr[1..k] + [tr[k]] + tr[k + 1..];
    BegansConcat([tr[0]] + tr[1..k] + [tr[k]], tr[k + 1..]);
    BegansConcat([tr[0]] + tr[1..k], [tr[k]]);
    BegansConcat([tr[0]], tr[1..k]);
    assert [tr[0]][..0] == [] && [tr[k]][..0] == [];
  }

  /**
   While the operations run one after the other, the committed groups are the first m of them, whole, and
   operation m is the last one to have begun.
   */
  lemma CommittedPrefix(c: Config, s: State, steps: seq<Step>, ops: seq<Operation>) returns (m: nat)
    requires Init(c, s) && Runs(c, s, steps) && (forall i | 0 <= i < |steps| :: steps[i] != Crash)
    requires Trace(c, s, steps) <= Program(ops)
    ensures m <= |ops| && ApplyGroups(s.disk, Run(c, s, steps).groups) == ApplyEntries(s.disk, AllEntries(ops[..m]))
    ensures Program(ops[..m]) <= Trace(c, s, steps) && (m < |ops| ==> Trace(c, s, steps) <= Program(ops[..m + 1]))
  {
    var e, tr := Run(c, s, steps), Trace(c, s, steps);
    var q := LateAtEnd(c, s, steps, ops);
    hide Entries, Open, OneLate, Runs, Run, Init, Program;
    assert tr[..q] == Program(ops)[..q];
    m := WholeOperations(ops, q);
    ProgramClosed(ops[..m]);
    ApplyFlat(s.disk, e.groups);
    WithinNext(ops, m, tr);
  }

  lemma LateAtEnd(c: Config, s: State, steps: seq<Step>, ops: seq<Operation>) returns (q: nat)
    requires Init(c, s) && Runs(c, s, steps) && (forall i | 0 <= i < |steps| :: steps[i] != Crash)
    requires Trace(c, s, steps) <= Program(ops)
    ensures var e, tr := Run(c, s, steps), Trace(c, s, steps);
            q <= |tr| && Open(tr[..q]) == 0 && Flat(e.groups) == Entries(tr[..q]) && Begans(tr[q..]) <= 1
  {
    var none: seq<Event> := [];
    InitLate(c, s);
    hide Entries, Open, OneLate, Init, Program, Begans;
    assert none + Trace(c, s, steps) == Trace(c, s, steps);
    q := RunOneLate(c, s, steps, none, 0, ops);
    OneLateIs(c, Run(c, s, steps), Trace(c, s, steps), q);
  }

  lemma InitLate(c: Config, s: State)
    requires Init(c, s)
    ensures OneLate(c, s, [], 0)
  {
    InitInv(c, s);
    NoEvents();
  }

  lemma OneLateIs(c: Config, s: State, tr: seq<Event>, p: nat)
    requires OneLate(c, s, tr, p)
    ensures p <= |tr| && Open(tr[..p]) == 0 && Flat(s.groups) == Entries(tr[..p]) && Begans(tr[p..]) <= 1
  {
  }

  /**
   A crash anywhere in such a run recovers to the state after the first m operations: at most the
   operation that began last is lost.
   */
  lemma CrashBetweenOperations(c: Config, s: State, steps: seq<Step>, ops: seq<Operation>) returns (m: nat)
    requires Init(c, s) && Runs(c, s, steps) && (forall i | 0 <= i < |steps| :: steps[i] != Crash)
    requires Trace(c, s, steps) <= Program(ops)
    ensures m <= |ops| && Program(ops[..m]) <= Trace(c, s, steps) && (m < |ops| ==> Trace(c, s, steps) <= Program(ops[..m + 1]))
    ensures var e := Run(c, s, steps);
            HomeEqual(c, Recovered(c, e.disk, e.header, |e.header|), ApplyEntries(s.disk, AllEntries(ops[..m])))
  {
    m := CommittedPrefix(c, s, steps, ops);
    hide Program, Recovered, HomeEqual;
    SequentialFits(c, s, steps, ops);
    CrashAtomicity(c, s, steps);
  }
}
