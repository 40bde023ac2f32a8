/** What every step of the log keeps, on runs whose logged blocks fit the log region. */
module LogInvariant {
  import opened Log

  ghost predicate Distinct(bs: seq<Block>) {
    forall i, j | 0 <= i < j < |bs| :: bs[i] != bs[j]
  }

  ghost predicate HomeBlocks(c: Config, bs: seq<Block>) {
    Distinct(bs) && forall i | 0 <= i < |bs| :: c.Home(bs[i])
  }

  /** Every slot named by the header holds what the committed groups put in its home block. */
  ghost predicate SlotsHold(c: Config, s: State, bs: seq<Block>, img: seq<Data>) {
    |s.disk| == |img| == c.nblocks && HomeBlocks(c, bs) && |bs| <= c.logSize - 1 && c.Valid() &&
    forall i | 0 <= i < |bs| :: s.disk[c.Slot(i)] == img[bs[i]]
  }

  /** Recovering now would give exactly the committed groups. */
  ghost predicate DiskInv(c: Config, s: State) {
    && |s.init| == c.nblocks
    && SlotsHold(c, s, s.header, Durable(s))
    && forall x | 0 <= x < c.nblocks && c.Home(x) && x !in s.header :: s.disk[x] == Durable(s)[x]
  }

  ghost predicate Installed(c: Config, s: State, t: nat) {
    && s.header == s.lh && s.current == [] && s.ops == map[] && t <= |s.lh|
    && |s.disk| == |Durable(s)| == c.nblocks
    && forall i | 0 <= i < t :: c.Home(s.lh[i]) && s.disk[s.lh[i]] == Durable(s)[s.lh[i]]
  }

  ghost predicate Logged(c: Config, s: State, t: nat) {
    && s.header == [] && s.ops == map[] && s.lh != [] && t <= |s.lh| <= c.logSize - 1
    && |s.disk| == c.nblocks && c.Valid()
    && forall i | 0 <= i < t :: s.lh[i] in s.cache && s.disk[c.Slot(i)] == s.cache[s.lh[i]].data
  }

  ghost predicate PhaseInv(c: Config, s: State) {
    match s.phase
    case Idle => s.header == []
    case WriteLog(t) => t < |s.lh| && Logged(c, s, t)
    case WriteHead => Logged(c, s, |s.lh|)
    case Install(t) => t < |s.lh| && Installed(c, s, t)
    case ClearHead => Installed(c, s, |s.lh|)
    case EndCommit => s.header == [] && s.lh == [] && s.current == [] && s.ops == map[]
    case Boot => s.lh == [] && s.current == [] && s.ops == map[]
    case RecInstall(t) => t < |s.lh| && Installed(c, s, t)
    case RecClear => Installed(c, s, |s.lh|)
  }

  /** The group is still open: its blocks are pinned in the cache and only there. */
  predicate Open(s: State) {
    s.phase.Idle? || s.phase.WriteLog? || s.phase.WriteHead?
  }

  predicate Pinned(s: State, b: Block) {
    if Open(s) then b in s.lh
    else if s.phase.Install? && s.phase.tail <= |s.lh| then b in s.lh[s.phase.tail..]
    else false
  }

  ghost predicate BufOk(c: Config, s: State, b: Block)
    requires b in s.cache
  {
    var buf := s.cache[b];
    && b < |s.disk|
    && (!buf.dirty && !buf.touched ==> buf.data == s.disk[b])
    && (buf.touched ==> buf.holder.Some? && buf.holder.value in s.ops && c.Home(b))
    && (buf.dirty <==> Pinned(s, b))
  }

  /** The cache agrees with the disk except on blocks that are pinned or being changed. */
  ghost predicate CacheInv(c: Config, s: State) {
    forall b | b in s.cache :: BufOk(c, s, b)
  }

  /** A pinned block is cached with the contents of its last log_write. */
  ghost predicate PinOk(s: State, img: seq<Data>, b: Block) {
    b in s.cache && b < |img| && (!s.cache[b].touched ==> s.cache[b].data == img[b])
  }

  ghost predicate PinInv(c: Config, s: State) {
    && (Open(s) ==> forall b | b in s.lh :: PinOk(s, ApplyEntries(Durable(s), s.current), b))
    && (forall b | Pinned(s, b) :: b in s.cache)
    && (forall i | 0 <= i < |s.current| :: s.current[i].block in s.lh)
  }

  ghost predicate Inv(c: Config, s: State) {
    c.Valid() && DiskInv(c, s) && HomeBlocks(c, s.lh) && PhaseInv(c, s) && CacheInv(c, s) && PinInv(c, s)
  }

  // ----- Applying log entries

  lemma {:induction false} ApplyKeepsLength(img: seq<Data>, es: seq<Entry>)
    ensures |ApplyEntries(img, es)| == |img|
  {
    if es != [] { ApplyKeepsLength(img, es[..|es| - 1]); }
  }

  lemma {:induction false} GroupsKeepLength(img: seq<Data>, gs: seq<seq<Entry>>)
    ensures |ApplyGroups(img, gs)| == |img|
  {
    if gs != [] {
      GroupsKeepLength(img, gs[..|gs| - 1]);
      ApplyKeepsLength(ApplyGroups(img, gs[..|gs| - 1]), gs[|gs| - 1]);
    }
  }

  /** A block that no entry names is left alone. */
  lemma {:induction false} ApplyFrame(img: seq<Data>, es: seq<Entry>, x: Block)
    requires x < |img| && forall i | 0 <= i < |es| :: es[i].block != x
    ensures |ApplyEntries(img, es)| == |img| && ApplyEntries(img, es)[x] == img[x]
  {
    if es != [] { ApplyFrame(img, es[..|es| - 1], x); }
  }

  lemma ApplySnoc(img: seq<Data>, es: seq<Entry>, e: Entry)
    ensures ApplyEntries(img, es + [e]) == Write(ApplyEntries(img, es), e.block, e.data)
  {
    assert (es + [e])[..|es|] == es;
  }

  lemma GroupsSnoc(img: seq<Data>, gs: seq<seq<Entry>>, g: seq<Entry>)
    ensures ApplyGroups(img, gs + [g]) == ApplyEntries(ApplyGroups(img, gs), g)
  {
    assert (gs + [g])[..|gs|] == gs;
  }

  // ----- Every step keeps the invariant

  lemma InitInv(c: Config, s: State)
    requires Init(c, s)
    ensures Inv(c, s)
  {
  }

  predicate CacheStep(st: Step) {
    st.Load? || st.Evict? || st.Hold? || st.Release? || st.Update?
  }

  /** Buffer b after a change that drops or relabels no pinned buffer. */
  ghost predicate Carried(c: Config, s: State, s': State, b: Block) {
    && (b in s'.cache ==> BufOk(c, s', b))
    && (Pinned(s, b) ==>
          && b in s.cache && b in s'.cache
          && (s'.cache[b].touched || (s'.cache[b].data == s.cache[b].data && !s.cache[b].touched))
          && (s.ops == map[] ==> s'.cache[b].data == s.cache[b].data))
  }

  lemma CacheStepBuf(c: Config, s: State, st: Step, b: Block)
    requires Inv(c, s) && CacheStep(st) && Enabled(c, s, st)
    ensures Carried(c, s, Next(c, s, st), b)
  {
    if b in s.cache { assert BufOk(c, s, b); }
  }

  lemma CacheChangeKeeps(c: Config, s: State, s': State)
    requires Inv(c, s) && s' == s.(cache := s'.cache)
    requires forall b :: Carried(c, s, s', b)
    ensures Inv(c, s')
  {
    assert DiskInv(c, s');
    assert PhaseInv(c, s') by {
      if s.phase.WriteLog? || s.phase.WriteHead? {
        forall i | 0 <= i < |s.lh| ensures s.lh[i] in s'.cache && s'.cache[s.lh[i]].data == s.cache[s.lh[i]].data {
          assert Pinned(s, s.lh[i]) && Carried(c, s, s', s.lh[i]);
        }
      }
    }
    assert PinInv(c, s') by {
      if Open(s) {
        var img := ApplyEntries(Durable(s), s.current);
        forall b | b in s.lh ensures PinOk(s', img, b) {
          assert PinOk(s, img, b) && Pinned(s, b) && Carried(c, s, s', b);
        }
      }
      forall b | Pinned(s', b) ensures b in s'.cache {
        assert Pinned(s, b) && Carried(c, s, s', b);
      }
    }
    forall b | b in s'.cache ensures BufOk(c, s', b) {
      assert Carried(c, s, s', b);
    }
  }

  lemma CacheStepKeeps(c: Config, s: State, st: Step)
    requires Inv(c, s) && CacheStep(st) && Enabled(c, s, st)
    ensures Inv(c, Next(c, s, st))
  {
    forall b ensures Carried(c, s, Next(c, s, st), b) {
      CacheStepBuf(c, s, st, b);
    }
    CacheChangeKeeps(c, s, Next(c, s, st));
  }

  predicate OpStep(st: Step) {
    st.Begin? || st.Sleep? || st.End? || st.Guard?
  }

  lemma OpStepKeeps(c: Config, s: State, st: Step)
    requires Inv(c, s) && OpStep(st) && Enabled(c, s, st) && Fits(c, s)
    ensures Inv(c, Next(c, s, st))
  {
    var s' := Next(c, s, st);
    assert s.current != [] ==> s.current[0].block in s.lh;
    if st.End? && |s.ops| == 1 {
      OnlyKey(s.ops, st.o);
    }
    forall b | b in s'.cache ensures BufOk(c, s', b) {
      assert BufOk(c, s, b);
    }
  }

  lemma OnlyKey(m: map<OpId, Op>, o: OpId)
    requires o in m && |m| == 1
    ensures m.Keys == {o}
  {
    assert |m.Keys - {o}| == 0;
  }

  /** The state after a log_write, field by field. */
  ghost predicate Appends(c: Config, s: State, s': State, o: OpId, b: Block) {
    && s.phase == Idle && c.Home(b) && b in s.cache && s.cache[b].holder == Some(o) && o in s.ops
    && s'.disk == s.disk && s'.header == s.header && s'.init == s.init && s'.groups == s.groups && s'.phase == s.phase
    && s'.lh == (if b in s.lh then s.lh else s.lh + [b])
    && s'.cache == s.cache[b := s.cache[b].(dirty := true, touched := false)]
    && s'.ops.Keys == s.ops.Keys
    && s'.current == s.current + [Entry(o, b, s.cache[b].data)]
  }

  lemma AppendAppends(c: Config, s: State, st: Step)
    requires PhaseInv(c, s) && st.Append? && Enabled(c, s, st)
    ensures Appends(c, s, Next(c, s, st), st.o, st.b)
  {
    assert s.ops != map[];
  }

  lemma AppendsDisk(c: Config, s: State, s': State, o: OpId, b: Block)
    requires Appends(c, s, s', o, b) && DiskInv(c, s) && PhaseInv(c, s) && HomeBlocks(c, s.lh)
    ensures DiskInv(c, s') && PhaseInv(c, s') && HomeBlocks(c, s'.lh)
  {
    assert Durable(s') == Durable(s);
  }

  lemma AppendsBuf(c: Config, s: State, s': State, o: OpId, b: Block, x: Block)
    requires Appends(c, s, s', o, b) && x in s'.cache && BufOk(c, s, x)
    ensures BufOk(c, s', x)
  {
    assert Open(s) && Open(s') && o in s'.ops.Keys;
  }

  lemma AppendsPin(c: Config, s: State, s': State, o: OpId, b: Block)
    requires Appends(c, s, s', o, b) && PinInv(c, s) && |Durable(s)| == c.nblocks
    ensures PinInv(c, s')
  {
    var img, img' := ApplyEntries(Durable(s), s.current), ApplyEntries(Durable(s), s'.current);
    ApplySnoc(Durable(s), s.current, Entry(o, b, s.cache[b].data));
    ApplyKeepsLength(Durable(s), s.current);
    hide ApplyEntries, Durable, ApplyGroups;
    assert Durable(s') == Durable(s) by { SameDurable(s, s'); }
    forall x | x in s'.lh
      ensures PinOk(s', img', x)
    {
      if x != b { assert PinOk(s, img, x); }
    }
    forall i | 0 <= i < |s'.current|
      ensures s'.current[i].block in s'.lh
    {
      if i < |s.current| { assert s.current[i].block in s.lh; }
    }
  }

  lemma SameDurable(s: State, s': State)
    requires s'.init == s.init && s'.groups == s.groups
    ensures Durable(s') == Durable(s)
  {
  }

  lemma AppendKeeps(c: Config, s: State, st: Step)
    requires Inv(c, s) && st.Append? && Enabled(c, s, st)
    ensures Inv(c, Next(c, s, st))
  {
    AppendAppends(c, s, st);
    var s' := Next(c, s, st);
    hide Next, Enabled, BufOk, PinInv, PhaseInv, HomeBlocks;
    AppendsDisk(c, s, s', st.o, st.b);
    AppendsPin(c, s, s', st.o, st.b);
    forall x | x in s'.cache
      ensures BufOk(c, s', x)
    {
      AppendsBuf(c, s, s', st.o, st.b, x);
    }
  }

  lemma LogBlockKeepsDisk(c: Config, s: State, s': State)
    requires Inv(c, s) && Enabled(c, s, LogBlock) && s' == Next(c, s, LogBlock) && Fits(c, s)
    ensures DiskInv(c, s') && PhaseInv(c, s')
  {
    var t := s.phase.tail;
    assert c.InLog(c.Slot(t)) && s.header == [];
    assert Durable(s') == Durable(s);
    assert PinOk(s, ApplyEntries(Durable(s), s.current), s.lh[t]) && c.Home(s.lh[t]);
    forall i | 0 <= i < t + 1 ensures s.lh[i] in s'.cache && s'.disk[c.Slot(i)] == s'.cache[s.lh[i]].data {
      assert c.Home(s.lh[i]);
    }
    assert Logged(c, s', t + 1);
  }

  /** The state after copying block t of the log, field by field. */
  lemma LogBlockIs(c: Config, s: State)
    requires Inv(c, s) && Enabled(c, s, LogBlock) && Fits(c, s)
    ensures s.phase.WriteLog? && s.phase.tail < |s.lh| && Open(Next(c, s, LogBlock)) && Open(s)
    ensures var t, s' := s.phase.tail, Next(c, s, LogBlock);
            && s.lh[t] in s.cache && !Pinned(s, c.Slot(t)) && c.Slot(t) < |s.disk|
            && s'.cache == s.cache[c.Slot(t) := Buf(s.cache[s.lh[t]].data, false, None, false)]
            && s'.disk == s.disk[c.Slot(t) := s.cache[s.lh[t]].data]
            && s'.lh == s.lh && s'.ops == s.ops && s'.current == s.current && Durable(s') == Durable(s)
  {
    LogBlockFrom(c, s);
    hide Inv, Pinned;
    LogBlockNext(c, s);
  }

  /** The block to copy is cached, and its slot is not a logged block. */
  lemma LogBlockFrom(c: Config, s: State)
    requires Inv(c, s) && Enabled(c, s, LogBlock) && Fits(c, s)
    ensures s.phase.WriteLog? && s.phase.tail < |s.lh| && s.lh[s.phase.tail] in s.cache && !Pinned(s, c.Slot(s.phase.tail))
  {
    hide CacheInv, DiskInv, PhaseInv, ApplyEntries, Durable;
    var t := s.phase.tail;
    assert PinOk(s, ApplyEntries(Durable(s), s.current), s.lh[t]) && c.Home(s.lh[t]);
    assert c.InLog(c.Slot(t));
  }

  lemma LogBlockNext(c: Config, s: State)
    requires Enabled(c, s, LogBlock) && s.lh[s.phase.tail] in s.cache
    ensures var t, s' := s.phase.tail, Next(c, s, LogBlock);
            && Open(s') && Open(s) && c.Slot(t) < |s.disk|
            && s'.cache == s.cache[c.Slot(t) := Buf(s.cache[s.lh[t]].data, false, None, false)]
            && s'.disk == s.disk[c.Slot(t) := s.cache[s.lh[t]].data]
            && s'.lh == s.lh && s'.ops == s.ops && s'.current == s.current && Durable(s') == Durable(s)
  {
    var b := s.lh[s.phase.tail];
    assert s.cache[b := s.cache[b]] == s.cache;
  }

  lemma LogBlockBuf(c: Config, s: State, s': State, slot: Block, d: Data, b: Block)
    requires Open(s) && Open(s') && s'.lh == s.lh && s'.ops == s.ops && slot < |s.disk| && !Pinned(s, slot)
    requires s'.cache == s.cache[slot := Buf(d, false, None, false)] && s'.disk == s.disk[slot := d]
    requires b in s'.cache && (b in s.cache ==> BufOk(c, s, b))
    ensures BufOk(c, s', b)
  {
  }

  lemma LogBlockPin(s: State, s': State, slot: Block, d: Data, img: seq<Data>, b: Block)
    requires b != slot && s'.cache == s.cache[slot := Buf(d, false, None, false)] && PinOk(s, img, b)
    ensures PinOk(s', img, b)
  {
  }

  lemma LogBlockKeeps(c: Config, s: State, st: Step)
    requires Inv(c, s) && st.LogBlock? && Enabled(c, s, st) && Fits(c, s)
    ensures Inv(c, Next(c, s, st))
  {
    var s' := Next(c, s, st);
    LogBlockKeepsDisk(c, s, s');
    LogBlockIs(c, s);
    hide Next, Enabled, Fits, DiskInv, PhaseInv, Durable, ApplyEntries, BufOk, PinOk;
    var slot, d := c.Slot(s.phase.tail), s.cache[s.lh[s.phase.tail]].data;
    forall b | b in s'.cache ensures BufOk(c, s', b) {
      LogBlockBuf(c, s, s', slot, d, b);
    }
    forall b | b in s'.lh ensures PinOk(s', ApplyEntries(Durable(s), s.current), b) {
      assert Pinned(s, b);
      LogBlockPin(s, s', slot, d, ApplyEntries(Durable(s), s.current), b);
    }
  }

  lemma CommitHeadKeeps(c: Config, s: State, st: Step)
    requires Inv(c, s) && st.CommitHead? && Enabled(c, s, st)
    ensures Inv(c, Next(c, s, st))
  {
    var s' := Next(c, s, st);
    var img := ApplyEntries(Durable(s), s.current);
    GroupsSnoc(s.init, s.groups, s.current);
    assert Durable(s') == img;
    ApplyKeepsLength(Durable(s), s.current);
    forall i | 0 <= i < |s.lh| ensures s'.disk[c.Slot(i)] == img[s.lh[i]] {
      assert PinOk(s, img, s.lh[i]) && BufOk(c, s, s.lh[i]);
    }
    forall x | 0 <= x < c.nblocks && c.Home(x) && x !in s.lh ensures s'.disk[x] == img[x] {
      ApplyFrame(Durable(s), s.current, x);
    }
    assert s.lh[0..] == s.lh;
    forall b | b in s'.cache ensures BufOk(c, s', b) {
      assert BufOk(c, s, b);
    }
  }

  lemma InstallReads(c: Config, s: State)
    requires Inv(c, s) && Enabled(c, s, InstallBlock)
    ensures Loaded(s, c.Slot(s.phase.tail)).data == Durable(s)[s.lh[s.phase.tail]]
    ensures c.Slot(s.phase.tail) in s.cache ==> BufOk(c, s, c.Slot(s.phase.tail)) && !s.cache[c.Slot(s.phase.tail)].dirty
  {
    var t := s.phase.tail;
    assert c.InLog(c.Slot(t));
    assert c.Slot(t) !in s.lh;
  }

  /** Writing a logged block home is what recovery would do with it. */
  lemma InstallOne(c: Config, s: State, s': State, t: nat)
    requires c.Valid() && DiskInv(c, s) && HomeBlocks(c, s.lh) && Installed(c, s, t) && t < |s.lh|
    requires s'.disk == s.disk[s.lh[t] := Durable(s)[s.lh[t]]] && Durable(s') == Durable(s) && s'.init == s.init
    requires s'.header == s.header && s'.lh == s.lh && s'.current == s.current && s'.ops == s.ops
    ensures DiskInv(c, s') && Installed(c, s', t + 1)
  {
    hide Durable;
    assert c.Home(s.lh[t]);
  }

  lemma InstallKeepsDisk(c: Config, s: State, s': State)
    requires Inv(c, s) && Enabled(c, s, InstallBlock) && s' == Next(c, s, InstallBlock)
    ensures DiskInv(c, s') && PhaseInv(c, s')
  {
    var t := s.phase.tail;
    InstallReads(c, s);
    InstallIs(c, s);
    assert Durable(s') == Durable(s) && s'.init == s.init && s'.header == s.header;
    assert s'.phase == if t + 1 < |s.lh| then s.phase.(tail := t + 1) else if s.phase.Install? then ClearHead else RecClear;
    hide Next, Enabled, CacheInv, PinInv, Durable, Pinned, Open, Loaded, DiskInv, Installed, HomeBlocks;
    InstallOne(c, s, s', t);
  }

  lemma InstallIs(c: Config, s: State)
    requires Inv(c, s) && Enabled(c, s, InstallBlock)
    ensures (s.phase.Install? || s.phase.RecInstall?) && s.phase.tail < |s.lh|
    ensures var t, s' := s.phase.tail, Next(c, s, InstallBlock);
            var log := Loaded(s, c.Slot(t));
            && s.lh[t] < |s.disk| && c.Slot(t) < |s.disk| && c.Home(s.lh[t]) && !Pinned(s, c.Slot(t)) && c.Slot(t) != s.lh[t]
            && s'.cache == s.cache[c.Slot(t) := log][s.lh[t] := Buf(log.data, false, None, false)]
            && s'.disk == s.disk[s.lh[t] := log.data] && !Open(s') && !Open(s)
            && s'.lh == s.lh && s'.ops == s.ops && s'.current == s.current
            && (forall b :: Pinned(s', b) <==> Pinned(s, b) && b != s.lh[t])
  {
    InstallApart(c, s);
    hide Inv, Pinned;
    InstallNext(c, s);
    InstallUnpins(c, s, Next(c, s, InstallBlock));
  }

  /** A logged block and the slot it is copied from. */
  lemma InstallApart(c: Config, s: State)
    requires Inv(c, s) && Enabled(c, s, InstallBlock)
    ensures Distinct(s.lh) && s.phase.tail < |s.lh|
    ensures var t := s.phase.tail; c.Home(s.lh[t]) && c.Slot(t) != s.lh[t] && c.Slot(t) !in s.lh && !Pinned(s, c.Slot(t))
  {
    hide CacheInv, PinInv, Durable;
    var t := s.phase.tail;
    assert t < c.logSize - 1;
    assert c.Home(s.lh[t]) && c.InLog(c.Slot(t));
  }

  lemma InstallNext(c: Config, s: State)
    requires Enabled(c, s, InstallBlock)
    ensures (s.phase.Install? || s.phase.RecInstall?) && s.phase.tail < |s.lh|
    ensures var t, s' := s.phase.tail, Next(c, s, InstallBlock);
            && s.lh[t] < |s.disk| && c.Slot(t) < |s.disk|
            && s'.cache == s.cache[c.Slot(t) := Loaded(s, c.Slot(t))][s.lh[t] := Buf(Loaded(s, c.Slot(t)).data, false, None, false)]
            && s'.disk == s.disk[s.lh[t] := Loaded(s, c.Slot(t)).data] && !Open(s') && !Open(s)
            && s'.lh == s.lh && s'.ops == s.ops && s'.current == s.current
            && s'.phase == (if t + 1 < |s.lh| then s.phase.(tail := t + 1)
                            else if s.phase.Install? then ClearHead else RecClear)
  {
    hide Loaded;
  }

  lemma InstallUnpins(c: Config, s: State, s': State)
    requires (s.phase.Install? || s.phase.RecInstall?) && s.phase.tail < |s.lh| && Distinct(s.lh) && s'.lh == s.lh
    requires s'.phase == (if s.phase.tail + 1 < |s.lh| then s.phase.(tail := s.phase.tail + 1)
                          else if s.phase.Install? then ClearHead else RecClear)
    ensures forall b :: Pinned(s', b) <==> Pinned(s, b) && b != s.lh[s.phase.tail]
  {
    NotLater(s.lh, s.phase.tail);
    assert s.phase.tail + 1 == |s.lh| ==> s.lh[s.phase.tail + 1..] == [];
  }

  lemma InstallKeeps(c: Config, s: State, st: Step)
    requires Inv(c, s) && st.InstallBlock? && Enabled(c, s, st)
    ensures Inv(c, Next(c, s, st))
  {
    var s' := Next(c, s, st);
    InstallReads(c, s);
    InstallKeepsDisk(c, s, s');
    InstallIs(c, s);
    hide Next, Enabled, DiskInv, PhaseInv, Durable, ApplyEntries, Pinned;
    forall b | b in s'.cache ensures BufOk(c, s', b) {
      if b in s.cache { assert BufOk(c, s, b); }
    }
  }

  lemma NotLater(bs: seq<Block>, t: nat)
    requires Distinct(bs) && t < |bs|
    ensures bs[t] !in bs[t + 1..]
    ensures forall b | b != bs[t] :: b in bs[t..] <==> b in bs[t + 1..]
  {
    assert bs[t..] == [bs[t]] + bs[t + 1..];
  }

  lemma RestKeeps(c: Config, s: State, st: Step)
    requires Inv(c, s) && (st.EraseHead? || st.Finish? || st.Crash? || st.ReadHead?) && Enabled(c, s, st)
    ensures Inv(c, Next(c, s, st))
  {
    var s' := Next(c, s, st);
    forall b | b in s'.cache ensures BufOk(c, s', b) {
      assert BufOk(c, s, b);
    }
  }

  lemma StepKeeps(c: Config, s: State, st: Step)
    requires Inv(c, s) && Enabled(c, s, st) && Fits(c, s)
    ensures Inv(c, Next(c, s, st))
  {
    if CacheStep(st) { CacheStepKeeps(c, s, st); }
    else if OpStep(st) { OpStepKeeps(c, s, st); }
    else if st.Append? { AppendKeeps(c, s, st); }
    else if st.LogBlock? { LogBlockKeeps(c, s, st); }
    else if st.CommitHead? { CommitHeadKeeps(c, s, st); }
    else if st.InstallBlock? { InstallKeeps(c, s, st); }
    else { RestKeeps(c, s, st); }
  }
}
