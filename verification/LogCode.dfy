/**
 The loops of log.c over one disk, cache and in-memory header.  Each method is proved to make
 exactly the block writes of a sequence of steps of module Log, in that order, so a crash
 between any two of its writes is a crash step of that system.
 */
module LogCode {
  import opened Log
  import opened LogInvariant
  import opened LogTheorems
  import opened LogRegion

  function Times(st: Step, n: nat): seq<Step> {
    seq(n, _ => st)
  }

  /** What commit() does for n logged blocks. */
  function CommitSteps(n: nat): seq<Step> {
    Times(LogBlock, n) + [CommitHead] + Times(InstallBlock, n) + [EraseHead]
  }

  /** What recover_from_log() does when the header on disk names n blocks. */
  function RecoverySteps(n: nat): seq<Step> {
    [ReadHead] + Times(InstallBlock, n) + [EraseHead]
  }

  lemma CommitIs(n: nat)
    ensures CommitSteps(n) == Times(LogBlock, n) + [CommitHead] + Times(InstallBlock, n) + [EraseHead]
  {
  }

  lemma RecoveryIs(n: nat)
    ensures RecoverySteps(n) == [ReadHead] + Times(InstallBlock, n) + [EraseHead]
    ensures n == 0 ==> RecoverySteps(n) == [ReadHead] + [EraseHead]
  {
  }

  lemma TimesSnoc(st: Step, n: nat)
    ensures Times(st, n + 1) == Times(st, n) + [st]
  {
  }

  lemma NoSteps(c: Config, s: State, st: Step)
    ensures Times(st, 0) == [] && Runs(c, s, []) && Run(c, s, []) == s
  {
  }

  lemma HomeIsDurable(c: Config, s: State)
    requires Inv(c, s) && (s.phase == EndCommit || s.phase == Idle)
    ensures HomeEqual(c, s.disk, Durable(s))
  {
    RecoveredIsDurable(c, s);
  }

  /** The same groups are committed and the same log_writes wait for the next one. */
  ghost predicate SameGroups(s: State, s': State) {
    s'.groups == s.groups && s'.current == s.current && s'.init == s.init
  }

  /** One iteration of write_log's loop, in terms of what it reads and writes. */
  lemma LogBlockEffect(c: Config, s: State)
    requires Inv(c, s) && Fits(c, s) && s.phase.WriteLog? && s.phase.tail < |s.lh|
    requires forall b | b in s.cache :: s.cache[b].holder == None
    ensures Enabled(c, s, LogBlock) && Inv(c, Next(c, s, LogBlock)) && Fits(c, Next(c, s, LogBlock))
    ensures s.lh[s.phase.tail] < |s.disk| && c.Slot(s.phase.tail) < |s.disk|
    ensures var s', t := Next(c, s, LogBlock), s.phase.tail;
            var from := Loaded(s, s.lh[t]);
            && s'.disk == s.disk[c.Slot(t) := from.data]
            && s'.cache == s.cache[s.lh[t] := from][c.Slot(t) := Buf(from.data, false, None, false)]
            && s'.phase == (if t + 1 < |s.lh| then WriteLog(t + 1) else WriteHead)
            && s'.lh == s.lh && s'.header == s.header && SameGroups(s, s')
            && s'.ops == s.ops && s'.sleepers == s.sleepers
  {
    assert c.Home(s.lh[s.phase.tail]);
    StepKeeps(c, s, LogBlock);
  }

  lemma SameGroupsThen(a: State, b: State, d: State)
    ensures SameGroups(a, a) && (SameGroups(a, b) && SameGroups(b, d) ==> SameGroups(a, d))
  {
  }

  /** One iteration of install_trans's loop. */
  lemma InstallEffect(c: Config, s: State)
    requires Inv(c, s) && Fits(c, s) && (s.phase.Install? || s.phase.RecInstall?) && s.phase.tail < |s.lh|
    requires forall b | b in s.cache :: s.cache[b].holder == None
    ensures Enabled(c, s, InstallBlock) && Inv(c, Next(c, s, InstallBlock)) && Fits(c, Next(c, s, InstallBlock))
    ensures s.lh[s.phase.tail] < |s.disk| && c.Slot(s.phase.tail) < |s.disk|
    ensures var s', t := Next(c, s, InstallBlock), s.phase.tail;
            var log := Loaded(s, c.Slot(t));
            && s'.disk == s.disk[s.lh[t] := log.data]
            && s'.cache == s.cache[c.Slot(t) := log][s.lh[t] := Buf(log.data, false, None, false)]
            && s'.phase == (if t + 1 < |s.lh| then s.phase.(tail := t + 1)
                            else if s.phase.Install? then ClearHead else RecClear)
            && s'.lh == s.lh && s'.header == s.header && SameGroups(s, s')
            && s'.ops == s.ops && s'.sleepers == s.sleepers
  {
    assert c.Home(s.lh[s.phase.tail]);
    StepKeeps(c, s, InstallBlock);
  }

  /** The header writes of write_head: committing the group, and erasing it. */
  lemma HeadEffect(c: Config, s: State, st: Step)
    requires Inv(c, s) && Fits(c, s)
    requires match st
             case CommitHead => s.phase == WriteHead
             case EraseHead => s.phase == ClearHead || s.phase == RecClear
             case ReadHead => s.phase == Boot
             case _ => false
    ensures Enabled(c, s, st) && Inv(c, Next(c, s, st)) && Fits(c, Next(c, s, st))
    ensures var s' := Next(c, s, st);
            && s'.disk == s.disk && s'.cache == s.cache && s'.ops == s.ops && s'.sleepers == s.sleepers
            && s'.header == (if st == CommitHead then s.lh else if st == EraseHead then [] else s.header)
            && s'.lh == (if st == CommitHead then s.lh else if st == EraseHead then [] else s.header)
            && s'.groups == (if st == CommitHead then s.groups + [s.current] else s.groups) && s'.init == s.init
            && s'.phase == (if st == CommitHead then Install(0)
                            else if st == EraseHead then (if s.phase == ClearHead then EndCommit else Idle)
                            else if s.header == [] then RecClear else RecInstall(0))
            && (st == CommitHead ==> s.lh != [])
            && (st == ReadHead ==> s'.header == s'.lh)
  {
    StepKeeps(c, s, st);
  }

  /** The two steps of one log_write, guard and append, can be taken. */
  ghost predicate CanLog(c: Config, s: State, o: OpId, b: Block) {
    Enabled(c, s, Guard(o)) && Enabled(c, Next(c, s, Guard(o)), Append(o, b))
  }

  ghost function AfterLog(c: Config, s: State, o: OpId, b: Block): State
    requires CanLog(c, s, o, b)
  {
    Next(c, Next(c, s, Guard(o)), Append(o, b))
  }

  /** What log_write does to the state: the block is in the header and its buffer marked. */
  ghost predicate LoggedIn(s: State, s': State, b: Block) {
    && b in s.cache && s'.disk == s.disk && s'.header == s.header
    && s'.lh == (if b in s.lh then s.lh else s.lh + [b])
    && s'.cache == s.cache[b := s.cache[b].(dirty := true, touched := false)]
  }

  lemma LogWriteEffect(c: Config, s: State, o: OpId, b: Block)
    requires Inv(c, s) && o in s.ops && HeldBy(s, b, o) && c.Home(b) && (b in s.lh || s.ops[o].unused > 0)
    requires |s.lh| < c.logCap && |s.lh| < c.logSize - 1
    ensures CanLog(c, s, o, b) && b in s.cache
    ensures var s' := AfterLog(c, s, o, b);
            Inv(c, s') && LoggedIn(s, s', b)
  {
    OpStepKeeps(c, s, Guard(o));
    AppendKeeps(c, Next(c, s, Guard(o)), Append(o, b));
  }

  lemma DidNothing(c: Config, s: State, st: Step)
    ensures Did(c, s, Times(st, 0), s)
  {
    NoSteps(c, s, st);
  }

  predicate Committing(s: State) {
    s.phase != Idle && !Recovering(s)
  }

  /** The steps of one end_op: only the last operation of a group commits. */
  ghost function EndSteps(s: State, o: OpId): seq<Step> {
    if |s.ops| > 1 then [End(o)]
    else [End(o)] + (if s.lh == [] then [] else CommitSteps(|s.lh|)) + [Finish]
  }

  lemma BeginOrSleep(c: Config, s: State, o: OpId)
    requires !Recovering(s) && o !in s.used && o !in s.sleepers
    ensures Enabled(c, s, Sleep(o)) <==> MustWait(c, s)
    ensures Enabled(c, s, Begin(o)) <==> !MustWait(c, s)
  {
  }

  lemma SleepEffect(c: Config, s: State, o: OpId)
    requires Inv(c, s) && Fits(c, s) && Enabled(c, s, Sleep(o))
    ensures var s' := Next(c, s, Sleep(o));
            && Inv(c, s') && Fits(c, s') && |s'.ops| == |s.ops| && Committing(s') == Committing(s)
            && s'.sleepers == s.sleepers + {o}
            && s'.disk == s.disk && s'.header == s.header && s'.cache == s.cache && s'.lh == s.lh
  {
    StepKeeps(c, s, Sleep(o));
  }

  lemma BeginEffect(c: Config, s: State, o: OpId)
    requires Inv(c, s) && Fits(c, s) && Enabled(c, s, Begin(o)) && o !in s.ops
    ensures var s' := Next(c, s, Begin(o));
            && Inv(c, s') && Fits(c, s') && |s'.ops| == |s.ops| + 1 && Committing(s') == Committing(s)
            && s'.sleepers == s.sleepers
            && s'.disk == s.disk && s'.header == s.header && s'.cache == s.cache && s'.lh == s.lh
  {
    StepKeeps(c, s, Begin(o));
    assert s.ops[o := Op(c.maxOp, false)].Keys == s.ops.Keys + {o};
  }

  lemma OperationsRunIdle(c: Config, s: State, o: OpId)
    requires Inv(c, s) && Enabled(c, s, End(o))
    ensures s.phase == Idle && |s.ops| > 0
  {
    assert o in s.ops.Keys;
  }

  lemma EndEffect(c: Config, s: State, o: OpId)
    requires Inv(c, s) && Fits(c, s) && Enabled(c, s, End(o))
    ensures var s' := Next(c, s, End(o));
            && Inv(c, s') && Fits(c, s') && |s'.ops| == |s.ops| - 1
            && s'.phase == (if |s.ops| > 1 then s.phase else if s.lh == [] then EndCommit else WriteLog(0))
            && SameGroups(s, s')
            && s'.sleepers == (if |s.ops| > 1 then {} else s.sleepers)
            && s'.disk == s.disk && s'.header == s.header && s'.cache == s.cache && s'.lh == s.lh
  {
    StepKeeps(c, s, End(o));
    assert (s.ops - {o}).Keys == s.ops.Keys - {o};
  }

  lemma FinishEffect(c: Config, s: State)
    requires Inv(c, s) && Fits(c, s) && s.phase == EndCommit
    ensures Enabled(c, s, Finish)
    ensures var s' := Next(c, s, Finish);
            && Inv(c, s') && Fits(c, s') && s'.ops == s.ops && s'.phase == Idle && s'.sleepers == {}
            && s'.disk == s.disk && s'.header == s.header && s'.cache == s.cache && s'.lh == s.lh
            && Durable(s') == Durable(s)
  {
    StepKeeps(c, s, Finish);
  }

  /** The disk contents that everything logged so far adds up to, committed or not. */
  function AllLogged(s: State): seq<Data> {
    ApplyEntries(Durable(s), s.current)
  }

  lemma CommittedNow(s0: State, s1: State, s: State)
    requires SameGroups(s0, s1) && s.groups == s1.groups + [s1.current] && s.init == s1.init
    ensures s.groups == s0.groups + [s0.current] && Durable(s) == AllLogged(s0)
  {
    GroupsSnoc(s0.init, s0.groups, s0.current);
  }

  lemma SameLogged(s: State, s': State)
    requires SameGroups(s, s')
    ensures AllLogged(s') == AllLogged(s)
  {
  }

  /** With nothing logged there is nothing to commit. */
  lemma NothingLogged(c: Config, s: State)
    requires Inv(c, s) && s.lh == []
    ensures AllLogged(s) == Durable(s)
  {
    if s.current != [] { FirstLogged(c, s); }
  }

  lemma FirstLogged(c: Config, s: State)
    requires Inv(c, s) && s.current != []
    ensures s.lh != []
  {
    assert s.current[0].block in s.lh;
  }

  class Kernel {
    const c: Config
    const disk: array<Data>
    var header: seq<Block>  // the log header block on disk
    var cache: map<Block, Buf>
    var lh: seq<Block>      // the in-memory log header
    var outstanding: nat    // operations between begin_op and end_op
    var committing: bool
    var sleepers: set<OpId> // operations asleep in begin_op
    ghost var s: State      // the same, as a state of module Log

    ghost predicate Mirrors()
      reads this, disk
    {
      s.disk == disk[..] && s.header == header && s.cache == cache && s.lh == lh
    }

    ghost predicate Counts()
      reads this
    {
      outstanding == |s.ops| && committing == Committing(s) && sleepers == s.sleepers
    }

    /** No buffer is locked, so bread does not have to wait. */
    ghost predicate Quiet()
      reads this
    {
      forall b | b in cache :: cache[b].holder == None
    }

    ghost predicate Valid()
      reads this, disk
    {
      Mirrors() && Quiet() && Inv(c, s) && Fits(c, s)
    }

    constructor (c: Config, image: array<Data>)
      requires c.Valid() && image.Length == c.nblocks
      ensures Valid() && Counts() && Init(c, s) && this.c == c && disk == image
    {
      this.c := c;
      disk := image;
      header, cache, lh := [], map[], [];
      outstanding, committing, sleepers := 0, false, {};
      s := State(image[..], [], map[], [], map[], {}, Idle, image[..], [], [], map[], {});
    }

    method Bread(b: Block) returns (d: Data)
      requires b < disk.Length
      modifies this`cache
      ensures d == if b in old(cache) then old(cache)[b].data else disk[b]
      ensures cache == old(cache)[b := if b in old(cache) then old(cache)[b] else Buf(disk[b], false, None, false)]
    {
      if b !in cache {
        cache := cache[b := Buf(disk[b], false, None, false)];
      }
      d := cache[b].data;
      assert b in old(cache) ==> old(cache) == old(cache)[b := old(cache)[b]];
    }

    /** Store d in the buffer of b and write it to disk, as memmove and bwrite do. */
    method Bwrite(b: Block, d: Data)
      requires b < disk.Length
      modifies this`cache, disk
      ensures disk[..] == old(disk[..])[b := d]
      ensures cache == old(cache)[b := Buf(d, false, None, false)]
    {
      cache := cache[b := Buf(d, false, None, false)];
      disk[b] := d;
    }

    /** The absorption loop of log_write: where b is in the log header, or its end. */
    method FindLogged(b: Block) returns (i: nat)
      ensures i <= |lh| && (b in lh <==> i < |lh|) && (i < |lh| ==> lh[i] == b)
    {
      i := 0;
      while i < |lh| && lh[i] != b
        invariant i <= |lh| && b !in lh[..i]
      {
        i := i + 1;
      }
    }

    /** log_write of block b by operation o; not ok when it panics. */
    method LogWrite(o: OpId, b: Block) returns (ok: bool)
      requires Mirrors() && Inv(c, s) && o in s.ops && HeldBy(s, b, o) && c.Home(b)
      requires b in lh || s.ops[o].unused > 0
      modifies this
      ensures Mirrors()
      ensures ok <==> |old(lh)| < c.logCap && |old(lh)| < c.logSize - 1
      ensures !ok ==> s == old(s)
      ensures ok ==> CanLog(c, old(s), o, b) && s == AfterLog(c, old(s), o, b)
      ensures ok ==> lh == (if b in old(lh) then old(lh) else old(lh) + [b]) && b in old(cache)
                     && cache == old(cache)[b := old(cache)[b].(dirty := true, touched := false)]
    {
      if |lh| >= c.logCap || |lh| >= c.logSize - 1 {
        return false;
      }
      LogWriteEffect(c, s, o, b);
      ghost var s' := AfterLog(c, s, o, b);
      hide *;
      Mark(b, s');
      ok := true;
    }

    /** The critical section of log_write. */
    method Mark(b: Block, ghost s': State)
      requires Mirrors() && LoggedIn(s, s', b)
      modifies this`lh, this`cache, this`s
      ensures Mirrors() && s == s' && b in old(cache)
      ensures lh == (if b in old(lh) then old(lh) else old(lh) + [b])
      ensures cache == old(cache)[b := old(cache)[b].(dirty := true, touched := false)]
    {
      Absorb(b);
      cache := cache[b := cache[b].(dirty := true, touched := false)];
      s := s';
    }

    /** The entry of b in the log header: absorbed when it is there already, else appended. */
    method Absorb(b: Block)
      modifies this`lh
      ensures lh == if b in old(lh) then old(lh) else old(lh) + [b]
    {
      var i := FindLogged(b);
      if i == |lh| {
        lh := lh + [b];
      } else {
        lh := lh[i := b];
      }
    }

    method WriteLogLoop()
      requires Valid() && s.phase == WriteLog(0) && lh != []
      modifies this`header, this`cache, this`lh, this`s, disk
      ensures s.ops == old(s.ops) && s.sleepers == old(s.sleepers)
      ensures Valid() && s.phase == Phase.WriteHead && header == old(header) && lh == old(lh) && SameGroups(old(s), s)
      ensures Did(c, old(s), Times(LogBlock, |lh|), s)
    {
      hide *;
      DidNothing(c, s, LogBlock);
      SameGroupsThen(s, s, s);
      var tail := 0;
      while tail < |lh|
        invariant tail <= |lh| && lh == old(lh) && header == old(header) && Valid()
        invariant s.phase == if tail < |lh| then WriteLog(tail) else Phase.WriteHead
        invariant s.ops == old(s.ops) && s.sleepers == old(s.sleepers) && SameGroups(old(s), s)
        invariant Did(c, old(s), Times(LogBlock, tail), s)
      {
        ghost var s1 := s;
        LogBlockAt(tail);
        SameGroupsThen(old(s), s1, s);
        DidMore(c, old(s), Times(LogBlock, tail), s1, LogBlock);
        TimesSnoc(LogBlock, tail);
        tail := tail + 1;
      }
    }

    /** One round of write_log. */
    method LogBlockAt(tail: nat)
      requires Valid() && s.phase == WriteLog(tail) && tail < |lh|
      modifies this`cache, this`s, disk
      ensures Valid() && Enabled(c, old(s), LogBlock) && s == Next(c, old(s), LogBlock)
      ensures s.ops == old(s.ops) && s.sleepers == old(s.sleepers) && SameGroups(old(s), s)
      ensures s.phase == if tail + 1 < |lh| then WriteLog(tail + 1) else Phase.WriteHead
    {
      hide Inv, Next, Enabled, Fits;
      LogBlockEffect(c, s);
      var from := Bread(lh[tail]);
      Bwrite(c.logStart + tail + 1, from);
      s := Next(c, s, LogBlock);
    }

    method InstallTrans()
      requires Valid() && (s.phase == Install(0) || s.phase == RecInstall(0)) && lh != []
      modifies this`header, this`cache, this`lh, this`s, disk
      ensures s.ops == old(s.ops) && s.sleepers == old(s.sleepers)
      ensures Valid() && s.phase == (if old(s.phase).Install? then ClearHead else RecClear)
      ensures header == old(header) && lh == old(lh) && s.groups == old(s).groups && s.init == old(s).init
      ensures Did(c, old(s), Times(InstallBlock, |lh|), s)
    {
      hide *;
      DidNothing(c, s, InstallBlock);
      var tail := 0;
      while tail < |lh|
        invariant tail <= |lh| && lh == old(lh) && header == old(header) && Valid()
        invariant s.groups == old(s).groups && s.init == old(s).init
        invariant tail < |lh| ==> s.phase == old(s.phase).(tail := tail)
        invariant tail == |lh| ==> s.phase == (if old(s.phase).Install? then ClearHead else RecClear)
        invariant s.ops == old(s.ops) && s.sleepers == old(s.sleepers)
        invariant Did(c, old(s), Times(InstallBlock, tail), s)
      {
        ghost var s1 := s;
        InstallBlockAt(tail);
        DidMore(c, old(s), Times(InstallBlock, tail), s1, InstallBlock);
        TimesSnoc(InstallBlock, tail);
        tail := tail + 1;
      }
    }

    /** One round of install_trans. */
    method InstallBlockAt(tail: nat)
      requires Valid() && (s.phase == Install(tail) || s.phase == RecInstall(tail)) && tail < |lh|
      modifies this`cache, this`s, disk
      ensures Valid() && Enabled(c, old(s), InstallBlock) && s == Next(c, old(s), InstallBlock)
      ensures s.ops == old(s.ops) && s.sleepers == old(s.sleepers) && s.groups == old(s.groups) && s.init == old(s.init)
      ensures s.phase == (if tail + 1 < |lh| then old(s.phase).(tail := tail + 1)
                          else if old(s.phase).Install? then ClearHead else RecClear)
    {
      hide Inv, Next, Enabled, Fits;
      InstallEffect(c, s);
      var log := Bread(c.logStart + tail + 1);
      Bwrite(lh[tail], log);
      s := Next(c, s, InstallBlock);
    }

    /** read_head: the header block into memory. */
    method ReadHead()
      requires Valid() && s.phase == Boot
      modifies this`lh, this`s
      ensures Valid() && lh == header && s.groups == old(s.groups)
      ensures s.phase == (if header == [] then RecClear else RecInstall(0))
      ensures Did(c, old(s), [Step.ReadHead], s)
    {
      hide Inv, Next, Enabled, Did, Fits;
      HeadEffect(c, s, Step.ReadHead);
      DidFirst(c, s, Step.ReadHead);
      var i := 0;
      lh := [];
      while i < |header|
        invariant i <= |header| && lh == header[..i]
        modifies this`lh
      {
        lh := lh + [header[i]];
        i := i + 1;
      }
      assert lh == header;
      s := Next(c, s, Step.ReadHead);
    }

    /** The loop of write_head, which fills the buffer of the header block before it is written. */
    method CopyHead() returns (hb: seq<Block>)
      ensures hb == lh
    {
      var i := 0;
      hb := [];
      while i < |lh|
        invariant i <= |lh| && hb == lh[..i]
      {
        hb := hb + [lh[i]];
        i := i + 1;
      }
      assert hb == lh;
    }

    /** write_head, which commits the group. */
    method WriteHead()
      requires Valid() && s.phase == Phase.WriteHead
      modifies this`header, this`s
      ensures Valid() && header == lh && lh != [] && s.phase == Install(0)
      ensures s.groups == old(s.groups) + [old(s.current)] && s.init == old(s.init)
      ensures s.ops == old(s.ops) && s.sleepers == old(s.sleepers)
      ensures Did(c, old(s), [CommitHead], s)
    {
      hide Inv, Next, Enabled, Did, Fits;
      HeadEffect(c, s, CommitHead);
      DidFirst(c, s, CommitHead);
      var hb := CopyHead();
      header := hb;
      s := Next(c, s, CommitHead);
    }

    /** write_head of an empty header, which erases the group. */
    method EraseLog()
      requires Valid() && (s.phase == ClearHead || s.phase == RecClear)
      modifies this`header, this`lh, this`s
      ensures Valid() && header == lh == [] && s.groups == old(s.groups) && s.init == old(s.init)
      ensures s.phase == (if old(s.phase) == ClearHead then EndCommit else Idle)
      ensures s.ops == old(s.ops) && s.sleepers == old(s.sleepers)
      ensures Did(c, old(s), [EraseHead], s) && HomeEqual(c, disk[..], Durable(s))
    {
      hide Inv, Next, Enabled, Did, Fits, HomeEqual, Durable;
      HeadEffect(c, s, EraseHead);
      DidFirst(c, s, EraseHead);
      lh := [];
      var hb := CopyHead();
      header := hb;
      s := Next(c, s, EraseHead);
      HomeIsDurable(c, s);
    }

    method Commit()
      requires Valid() && s.phase == (if lh == [] then EndCommit else WriteLog(0))
      modifies this`header, this`cache, this`lh, this`s, disk
      ensures Valid() && s.phase == EndCommit && lh == [] && s.ops == old(s.ops) && s.sleepers == old(s.sleepers)
      ensures old(lh) == [] ==> s == old(s) && disk[..] == old(disk[..])
      ensures old(lh) != [] ==> Did(c, old(s), CommitSteps(|old(lh)|), s) && HomeEqual(c, disk[..], Durable(s))
      ensures old(lh) != [] ==> s.groups == old(s.groups) + [old(s.current)] && Durable(s) == AllLogged(old(s))
    {
      hide *;
      if |lh| > 0 {
        ghost var n, s0 := |lh|, s;
        WriteLogLoop();
        ghost var s1 := s;
        WriteHead();
        DidThen(c, s0, Times(LogBlock, n), s1, [CommitHead], s);
        ghost var s2 := s;
        InstallTrans();
        DidThen(c, s0, Times(LogBlock, n) + [CommitHead], s2, Times(InstallBlock, n), s);
        ghost var s3 := s;
        EraseLog();
        DidThen(c, s0, Times(LogBlock, n) + [CommitHead] + Times(InstallBlock, n), s3, [EraseHead], s);
        CommitIs(n);
        CommittedNow(s0, s1, s);
      }
    }

    /** recover_from_log, from the state a crash leaves. */
    method RecoverFromLog()
      requires Valid() && s.phase == Boot
      modifies this`header, this`cache, this`lh, this`s, disk
      ensures Valid() && s.phase == Idle && lh == [] && header == []
      ensures Did(c, old(s), RecoverySteps(|old(header)|), s)
      ensures s.groups == old(s.groups) && HomeEqual(c, disk[..], Durable(s))
    {
      hide *;
      ghost var n, s0 := |header|, s;
      ReadHead();
      ghost var s1, steps := s, [Step.ReadHead];
      if |lh| > 0 {
        InstallTrans();
        DidThen(c, s0, steps, s1, Times(InstallBlock, n), s);
        steps := steps + Times(InstallBlock, n);
      }
      ghost var s2 := s;
      EraseLog();
      DidThen(c, s0, steps, s2, [EraseHead], s);
      RecoveryIs(n);
    }

    /** The two tests of begin_op's loop. */
    method TestSpace() returns (wait: bool)
      requires Mirrors() && Counts() && !Recovering(s)
      ensures wait <==> MustWait(c, s)
      ensures wait <==> committing || |lh| + (outstanding + 1) * c.maxOp > c.logCap
    {
      if committing {
        wait := true;
      } else if |lh| + (outstanding + 1) * c.maxOp > c.logCap {
        wait := true;
      } else {
        wait := false;
      }
    }

    /** One round of begin_op's loop for operation o, with log.lock held. */
    method BeginOp(o: OpId) returns (slept: bool)
      requires Mirrors() && Counts() && Inv(c, s) && Fits(c, s) && !Recovering(s)
        && o !in s.used && o !in s.ops && o !in sleepers
      modifies this`outstanding, this`sleepers, this`s
      ensures Mirrors() && Counts() && Inv(c, s) && Fits(c, s)
      ensures slept <==> MustWait(c, old(s))
      ensures slept <==> old(committing) || |lh| + (old(outstanding) + 1) * c.maxOp > c.logCap
      ensures outstanding == old(outstanding) + (if slept then 0 else 1) && committing == old(committing)
      ensures sleepers == if slept then old(sleepers) + {o} else old(sleepers)
      ensures var st := if slept then Sleep(o) else Begin(o); Enabled(c, old(s), st) && s == Next(c, old(s), st)
    {
      hide Inv, Fits, Next, Enabled, MustWait, Committing, Recovering;
      BeginOrSleep(c, s, o);
      slept := TestSpace();
      if slept {
        SleepEffect(c, s, o);
        sleepers := sleepers + {o};
        s := Next(c, s, Sleep(o));
        return;
      }
      BeginEffect(c, s, o);
      outstanding := outstanding + 1;
      s := Next(c, s, Begin(o));
    }

    /** end_op of operation o.  The last operation of a group commits, and everything it logged is then home. */
    method EndOp(o: OpId) returns (panicked: bool)
      requires Mirrors() && Counts() && Inv(c, s) && Fits(c, s) && Enabled(c, s, End(o))
      requires outstanding == 1 ==> Quiet()
      modifies this, disk
      ensures Mirrors() && Counts() && Inv(c, s) && Fits(c, s) && !panicked
      ensures Did(c, old(s), EndSteps(old(s), o), s)
      ensures !committing && sleepers == {} && outstanding == old(outstanding) - 1
      ensures old(outstanding) == 1 ==> lh == [] && Durable(s) == AllLogged(old(s)) && HomeEqual(c, disk[..], Durable(s))
      ensures old(outstanding) != 1 ==> disk[..] == old(disk[..]) && lh == old(lh)
    {
      hide Inv, Next, Enabled, Did, HomeEqual, Durable, Fits, AllLogged;
      ghost var s0 := s;
      OperationsRunIdle(c, s, o);
      EndEffect(c, s, o);
      DidFirst(c, s, End(o));
      outstanding := outstanding - 1;
      if committing {
        return true;
      }
      s := Next(c, s, End(o));
      if outstanding == 0 {
        committing := true;
        ghost var s1, n := s, |lh|;
        if n == 0 { NothingLogged(c, s); }
        Commit();
        ghost var did := [End(o)];
        if n > 0 {
          DidThen(c, s0, did, s1, CommitSteps(n), s);
          did := did + CommitSteps(n);
        }
        FinishEffect(c, s);
        DidMore(c, s0, did, s, Finish);
        assert did + [Finish] == EndSteps(s0, o);
        committing, sleepers := false, {};
        s := Next(c, s, Finish);
        HomeIsDurable(c, s);
        SameLogged(s0, s1);
      } else {
        sleepers := {};
      }
      panicked := false;
    }
  }
}
