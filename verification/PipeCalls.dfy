/** What callers of write and read observe of a pipe, over whole runs with any number of both. */
module PipeCalls {
  import opened Pipe

  /** The bytes that call c put into the pipe, in the order it put them. */
  ghost function Piece(stored: seq<Byte>, source: seq<nat>, c: nat): seq<Byte>
    requires |stored| == |source|
  {
    if stored == [] then []
    else
      var k := |stored| - 1;
      Piece(stored[..k], source[..k], c) + (if source[k] == c then [stored[k]] else [])
  }

  lemma {:induction false} PieceMore(stored: seq<Byte>, source: seq<nat>, bytes: seq<Byte>, c: nat, x: nat)
    requires |stored| == |source|
    ensures Piece(stored + bytes, source + Labels(|bytes|, c), x)
         == Piece(stored, source, x) + (if x == c then bytes else [])
  {
    var all, labels := stored + bytes, source + Labels(|bytes|, c);
    if bytes == [] {
      assert all == stored && labels == source;
    } else {
      var n := |bytes| - 1;
      PieceMore(stored, source, bytes[..n], c, x);
      assert all[..|all| - 1] == stored + bytes[..n] && labels[..|all| - 1] == source + Labels(n, c);
      assert bytes[..n] + [bytes[n]] == bytes;
    }
  }

  /** What the reads returned so far, put together. */
  ghost function AllGot(results: seq<Return>): seq<Byte> {
    if results == [] then []
    else
      var k := |results| - 1;
      AllGot(results[..k]) + (if results[k].Got? then results[k].bytes else [])
  }

  lemma AllGotMore(results: seq<Return>, r: Return)
    ensures AllGot(results + [r]) == AllGot(results) + (if r.Got? then r.bytes else [])
  {
    assert (results + [r])[..|results|] == results;
  }

  predicate OfCall(r: Return, c: nat) {
    (r.Wrote? || r.WriteFailed?) && r.call == c
  }

  ghost predicate Running(s: State, c: nat) {
    exists p :: p in s.writers && s.writers[p].call == c
  }

  ghost predicate Returned(s: State, c: nat) {
    exists i | 0 <= i < |s.results| :: OfCall(s.results[i], c)
  }

  /** A return tells the truth about its call. */
  ghost predicate ReturnOk(s: State, r: Return)
    requires |s.source| == |s.stored|
  {
    match r
    case Wrote(c, n) => c < |s.given| && !Running(s, c) && Piece(s.stored, s.source, c) == s.given[c] && n == |s.given[c]|
    case WriteFailed(c) => c < |s.given| && !Running(s, c) && Piece(s.stored, s.source, c) < s.given[c]
    case Got(_, n, bytes) => |bytes| <= n
    case ReadFailed(_) => true
  }

  /** What a write in progress has put and what is left of its bytes make up what it was given. */
  ghost predicate WriterOk(s: State, p: Pid)
    requires |s.source| == |s.stored| && p in s.writers
  {
    var w := s.writers[p];
    w.call < |s.given| && Piece(s.stored, s.source, w.call) + w.left == s.given[w.call]
  }

  /** Each byte stored is labelled with a call. */
  ghost predicate Labelled(s: State) {
    |s.source| == |s.stored| && forall k | 0 <= k < |s.source| :: s.source[k] < |s.given|
  }

  /** Every process in a write is in a call of its own. */
  ghost predicate OwnCalls(s: State) {
    forall p, q | p in s.writers && q in s.writers && s.writers[p].call == s.writers[q].call :: p == q
  }

  /** Every call is in progress or has returned, and returns once. */
  ghost predicate Accounted(s: State) {
    && (forall c: nat | c < |s.given| :: Running(s, c) || Returned(s, c))
    && (forall c, i, j | 0 <= i < j < |s.results| && OfCall(s.results[i], c) :: !OfCall(s.results[j], c))
  }

  ghost predicate CallInv(s: State) {
    && Labelled(s) && OwnCalls(s) && Accounted(s)
    && (forall p | p in s.writers :: WriterOk(s, p))
    && (forall i | 0 <= i < |s.results| :: ReturnOk(s, s.results[i]))
    && AllGot(s.results) == s.delivered
  }

  lemma {:induction false} PieceNone(stored: seq<Byte>, source: seq<nat>, c: nat)
    requires |stored| == |source| && forall k | 0 <= k < |source| :: source[k] != c
    ensures Piece(stored, source, c) == []
  {
    if stored != [] {
      PieceNone(stored[..|stored| - 1], source[..|stored| - 1], c);
    }
  }

  // ----- Every step keeps this

  lemma StartKeeps(s: State, st: Step)
    requires CallInv(s) && st.StartWrite? && Enabled(s, st)
    ensures CallInv(Next(s, st))
  {
    var s', n := Next(s, st), |s.given|;
    PieceNone(s.stored, s.source, n);
    hide Piece;
    assert [] + st.bytes == st.bytes;
    forall c: nat | c < n
      ensures Running(s', c) <==> Running(s, c)
      ensures Returned(s', c) <==> Returned(s, c)
    {
      if Running(s, c) {
        var p :| p in s.writers && s.writers[p].call == c;
        assert p in s'.writers && s'.writers[p].call == c;
      }
    }
    assert st.p in s'.writers && Running(s', n);
    forall p | p in s'.writers
      ensures WriterOk(s', p)
    {
      if p != st.p { assert WriterOk(s, p); }
    }
    forall i | 0 <= i < |s'.results|
      ensures ReturnOk(s', s'.results[i])
    {
      assert ReturnOk(s, s.results[i]);
    }
  }

  /** The history of the writes is the same, and at most one read has returned. */
  ghost predicate ReadOnly(s: State, s': State) {
    && s'.stored == s.stored && s'.source == s.source && s'.given == s.given && s'.writers == s.writers
    && (if s'.results == s.results then s'.delivered == s.delivered
        else
          var k := |s.results|;
          && |s'.results| == k + 1 && s'.results == s.results + [s'.results[k]]
          && match s'.results[k]
             case Got(_, n, bytes) => |bytes| <= n && s'.delivered == s.delivered + bytes
             case ReadFailed(_) => s'.delivered == s.delivered
             case _ => false)
  }

  lemma ReaderStep(s: State, st: Step)
    requires Enabled(s, st) && !st.StartWrite? && !st.RunWrite?
    ensures ReadOnly(s, Next(s, st))
  {
  }

  lemma ReadOnlyCalls(s: State, s': State)
    requires ReadOnly(s, s') && Accounted(s)
    ensures Accounted(s')
  {
    forall c: nat | c < |s.given|
      ensures Running(s', c) || Returned(s', c)
    {
      if Returned(s, c) {
        var i :| 0 <= i < |s.results| && OfCall(s.results[i], c);
        assert OfCall(s'.results[i], c);
      } else {
        assert Running(s, c);
      }
    }
  }

  lemma ReaderKeeps(s: State, s': State)
    requires CallInv(s) && ReadOnly(s, s')
    ensures CallInv(s')
  {
    ReadOnlyCalls(s, s');
    if s'.results != s.results {
      AllGotMore(s.results, s'.results[|s.results|]);
    }
    hide Piece, AllGot, Accounted;
    forall p | p in s'.writers
      ensures WriterOk(s', p)
    {
      assert WriterOk(s, p);
    }
    forall i | 0 <= i < |s'.results|
      ensures ReturnOk(s', s'.results[i])
    {
      if i < |s.results| { assert ReturnOk(s, s.results[i]); }
    }
  }

  /** Of the calls in progress, at most the writer's own ends. */
  lemma EndsOne(s: State, s': State, p: Pid, c: nat)
    requires p in s.writers
    requires forall q, r | q in s.writers && r in s.writers && s.writers[q].call == s.writers[r].call :: q == r
    requires (s'.writers == s.writers - {p} && |s'.results| == |s.results| + 1 && s'.results[..|s.results|] == s.results
              && OfCall(s'.results[|s.results|], s.writers[p].call))
             || (exists left :: s'.writers == s.writers[p := Writing(s.writers[p].call, left)] && s'.results == s.results)
    ensures Running(s', c) <==> Running(s, c) && !(p !in s'.writers && c == s.writers[p].call)
    ensures Returned(s', c) <==> Returned(s, c) || (p !in s'.writers && c == s.writers[p].call)
  {
    if Running(s, c) && !(p !in s'.writers && c == s.writers[p].call) {
      var q :| q in s.writers && s.writers[q].call == c;
      assert q in s'.writers && s'.writers[q].call == c;
    }
    if Running(s', c) {
      var q :| q in s'.writers && s'.writers[q].call == c;
      assert q in s.writers && s.writers[q].call == c;
    }
    if Returned(s, c) {
      var i :| 0 <= i < |s.results| && OfCall(s.results[i], c);
      assert s'.results[i] == s.results[i];
    }
    if Returned(s', c) {
      var i :| 0 <= i < |s'.results| && OfCall(s'.results[i], c);
      if i < |s.results| {
        assert OfCall(s.results[i], c);
      }
    }
  }

  /** What a stretch of pipewrite does to the call w of process p. */
  ghost predicate Stretched(s: State, s': State, p: Pid)
    requires Labelled(s) && p in s.writers && s.writers[p].call < |s.given|
  {
    var w := s.writers[p];
    && Labelled(s') && s'.given == s.given && s'.delivered == s.delivered
    && (forall c: nat | c != w.call :: Piece(s'.stored, s'.source, c) == Piece(s.stored, s.source, c))
    && (exists left ::
          && Piece(s'.stored, s'.source, w.call) + left == s.given[w.call]
          && (if s'.results != s.results then
                && s'.writers == s.writers - {p}
                && s'.results == s.results + [if left == [] then Wrote(w.call, |s.given[w.call]|) else WriteFailed(w.call)]
              else s'.writers == s.writers[p := Writing(w.call, left)]))
  }

  lemma StretchedCalls(s: State, s': State, p: Pid)
    requires Labelled(s) && OwnCalls(s) && p in s.writers && s.writers[p].call < |s.given| && Stretched(s, s', p)
    ensures forall c: nat | c < |s.given| ::
              && (Running(s', c) <==> Running(s, c) && !(p !in s'.writers && c == s.writers[p].call))
              && (Returned(s', c) <==> Returned(s, c) || (p !in s'.writers && c == s.writers[p].call))
    ensures OwnCalls(s') && (p !in s'.writers <==> s'.results != s.results)
  {
    hide Piece;
    forall c: nat | c < |s.given|
      ensures Running(s', c) <==> Running(s, c) && !(p !in s'.writers && c == s.writers[p].call)
      ensures Returned(s', c) <==> Returned(s, c) || (p !in s'.writers && c == s.writers[p].call)
    {
      EndsOne(s, s', p, c);
    }
  }

  lemma StretchedAccounted(s: State, s': State, p: Pid)
    requires CallInv(s) && p in s.writers && s.writers[p].call < |s.given| && Stretched(s, s', p)
    ensures Accounted(s')
  {
    StretchedCalls(s, s', p);
    hide Piece, AllGot;
    var w := s.writers[p].call;
    assert !Returned(s, w) by {
      assert Running(s, w);
      forall i | 0 <= i < |s.results|
        ensures !OfCall(s.results[i], w)
      {
        assert ReturnOk(s, s.results[i]);
      }
    }
  }

  lemma WriteKeeps(s: State, s': State, p: Pid)
    requires CallInv(s) && p in s.writers && s.writers[p].call < |s.given| && Stretched(s, s', p)
    ensures CallInv(s')
  {
    StretchedCalls(s, s', p);
    StretchedAccounted(s, s', p);
    if s'.results != s.results { AllGotMore(s.results, s'.results[|s.results|]); }
    hide Piece, AllGot, Accounted;
    forall q | q in s'.writers
      ensures WriterOk(s', q)
    {
      assert WriterOk(s, q);
      assert q != p ==> s.writers[q].call != s.writers[p].call;
    }
    forall i | 0 <= i < |s'.results|
      ensures ReturnOk(s', s'.results[i])
    {
      if i < |s.results| {
        assert ReturnOk(s, s.results[i]);
        assert Running(s, s.writers[p].call);
      }
    }
  }

  /** The fields of a state after a stretch of pipewrite that leaves these bytes. */
  lemma StretchFields(s: State, st: Step, left: seq<Byte>)
    requires st.RunWrite? && Enabled(s, st) && left == PutAll(s.ring, s.writers[st.p].left).1
    requires s.writers[st.p].call < |s.given|
    ensures var s', w := Next(s, st), s.writers[st.p];
            var n := |w.left| - |left|;
            && s'.given == s.given && s'.delivered == s.delivered
            && s'.stored == s.stored + w.left[..n] && s'.source == s.source + Labels(n, w.call)
            && (if s'.results != s.results then
                  && s'.writers == s.writers - {st.p}
                  && s'.results == s.results + [if left == [] then Wrote(w.call, |s.given[w.call]|) else WriteFailed(w.call)]
                else s'.writers == s.writers[st.p := Writing(w.call, left)])
  {
    hide PutAll;
  }

  lemma StretchPieces(s: State, p: Pid, bytes: seq<Byte>, left: seq<Byte>)
    requires Labelled(s) && p in s.writers && WriterOk(s, p) && s.writers[p].left == bytes + left
    ensures var c := s.writers[p].call;
            var stored, source := s.stored + bytes, s.source + Labels(|bytes|, c);
            && (forall x: nat | x != c :: Piece(stored, source, x) == Piece(s.stored, s.source, x))
            && Piece(stored, source, c) + left == s.given[c]
  {
    hide Piece;
    var c := s.writers[p].call;
    forall x: nat
      ensures Piece(s.stored + bytes, s.source + Labels(|bytes|, c), x)
           == Piece(s.stored, s.source, x) + (if x == c then bytes else [])
    {
      PieceMore(s.stored, s.source, bytes, c, x);
    }
    assert Piece(s.stored, s.source, c) + bytes + left == Piece(s.stored, s.source, c) + (bytes + left);
  }

  lemma WriteStep(s: State, st: Step)
    requires CallInv(s) && st.RunWrite? && Enabled(s, st)
    ensures s.writers[st.p].call < |s.given| && Stretched(s, Next(s, st), st.p)
  {
    var w := s.writers[st.p];
    var left := PutAll(s.ring, w.left).1;
    assert WriterOk(s, st.p);
    StretchFields(s, st, left);
    PutAllLeft(s.ring, w.left);
    var s' := Next(s, st);
    hide *;
    StretchedBy(s, s', st.p, left);
  }

  /** From the fields after a stretch to its effect on the calls. */
  lemma StretchedBy(s: State, s': State, p: Pid, left: seq<Byte>)
    requires Labelled(s) && p in s.writers && s.writers[p].call < |s.given| && WriterOk(s, p) && |left| <= |s.writers[p].left|
    requires var w := s.writers[p];
             var n := |w.left| - |left|;
             && w.left == w.left[..n] + left && s'.given == s.given && s'.delivered == s.delivered
             && s'.stored == s.stored + w.left[..n] && s'.source == s.source + Labels(n, w.call)
             && (if s'.results != s.results then
                   && s'.writers == s.writers - {p}
                   && s'.results == s.results + [if left == [] then Wrote(w.call, |s.given[w.call]|) else WriteFailed(w.call)]
                 else s'.writers == s.writers[p := Writing(w.call, left)])
    ensures Stretched(s, s', p)
  {
    var w := s.writers[p];
    StretchPieces(s, p, w.left[..|w.left| - |left|], left);
    hide Piece, WriterOk;
    assert Labelled(s');
  }

  lemma StepKeepsCalls(s: State, st: Step)
    requires CallInv(s) && Enabled(s, st)
    ensures CallInv(Next(s, st))
  {
    if st.StartWrite? {
      StartKeeps(s, st);
    } else if st.RunWrite? {
      WriteStep(s, st);
      hide *;
      WriteKeeps(s, Next(s, st), st.p);
    } else {
      ReaderStep(s, st);
      ReaderKeeps(s, Next(s, st));
    }
  }

  lemma {:induction false} RunKeepsCalls(s: State, steps: seq<Step>)
    requires CallInv(s) && Runs(s, steps)
    ensures CallInv(Run(s, steps))
    decreases |steps|
  {
    hide Next, Enabled, CallInv;
    if steps != [] {
      StepKeepsCalls(s, steps[0]);
      RunKeepsCalls(Next(s, steps[0]), steps[1..]);
    }
  }

  /**
   Every byte ever stored belongs to one call of write, and what a call has put is, in order, the
   beginning of what it was given: all of it when the call returns its count, less when it returns -1,
   and all but the bytes left while it is in progress.
   */
  lemma WritesInterleave(s: State, steps: seq<Step>)
    requires Init(s) && Runs(s, steps)
    ensures var e := Run(s, steps);
            && |e.source| == |e.stored| && (forall k | 0 <= k < |e.stored| :: e.source[k] < |e.given|)
            && (forall c: nat | c < |e.given| :: Piece(e.stored, e.source, c) <= e.given[c])
            && (forall p | p in e.writers :: e.writers[p].call < |e.given|
                  && Piece(e.stored, e.source, e.writers[p].call) + e.writers[p].left == e.given[e.writers[p].call])
    ensures var e := Run(s, steps);
            forall i | 0 <= i < |e.results| ::
              match e.results[i]
              case Wrote(c, n) => c < |e.given| && Piece(e.stored, e.source, c) == e.given[c] && n == |e.given[c]|
              case WriteFailed(c) => c < |e.given| && Piece(e.stored, e.source, c) < e.given[c]
              case _ => true
  {
    RunKeepsCalls(s, steps);
    var e := Run(s, steps);
    hide Piece, Runs, Run;
    forall c: nat | c < |e.given|
      ensures Piece(e.stored, e.source, c) <= e.given[c]
    {
      PieceGiven(e, c);
    }
    forall p | p in e.writers
      ensures WriterOk(e, p)
    {
    }
    forall i | 0 <= i < |e.results|
      ensures ReturnOk(e, e.results[i])
    {
    }
  }

  lemma PieceGiven(e: State, c: nat)
    requires CallInv(e) && c < |e.given|
    ensures Piece(e.stored, e.source, c) <= e.given[c]
  {
    hide Piece, AllGot;
    if Running(e, c) {
      var p :| p in e.writers && e.writers[p].call == c;
      assert WriterOk(e, p);
    } else {
      assert Returned(e, c);
      var i :| 0 <= i < |e.results| && OfCall(e.results[i], c);
      assert ReturnOk(e, e.results[i]);
    }
  }

  /** What the reads returned, put together, is the beginning of what the writes stored. */
  lemma ReadsInOrder(s: State, steps: seq<Step>)
    requires Init(s) && Runs(s, steps)
    ensures var e := Run(s, steps);
            && AllGot(e.results) == e.delivered && AllGot(e.results) <= e.stored
            && |e.stored| - |AllGot(e.results)| <= PIPESIZE
            && forall i | 0 <= i < |e.results| && e.results[i].Got? :: |e.results[i].bytes| <= e.results[i].n
  {
    RunKeepsCalls(s, steps);
    FirstInFirstOut(s, steps);
    var e := Run(s, steps);
    hide Piece, Runs, Run, AllGot;
    forall i | 0 <= i < |e.results|
      ensures ReturnOk(e, e.results[i])
    {
    }
  }

  /** A stretch of piperead by what is in the pipe: the next bytes, the end of the stream, -1 or sleep. */
  lemma ReadReturns(s: State, p: Pid)
    requires Inv(s) && Enabled(s, RunRead(p))
    ensures var s', n, k := Next(s, RunRead(p)), s.readers[p], |s.stored| - |s.delivered|;
            if k == 0 && s.writeopen then
              && s'.delivered == s.delivered
              && (p in s.killed ==> p !in s'.readers && s'.results == s.results + [ReadFailed(p)])
              && (p !in s.killed ==> p in s'.readers && p in s'.asleep && s'.results == s.results)
            else
              var got := s.stored[|s.delivered|..|s.delivered| + (if n <= k then n else k)];
              && s'.delivered == s.delivered + got && p !in s'.readers && s'.results == s.results + [Got(p, n, got)]
              && forall q | q in s.writers :: q !in s'.asleep
  {
    FullIff(s.ring, s.stored, |s.delivered|);
    GetAllHolds(s.ring, s.stored, |s.delivered|, s.readers[p]);
    hide Holds, GetAll;
  }

  /** A stretch of pipewrite by the room in the pipe: what fits is stored, and the call returns, fails or sleeps. */
  lemma WriteReturns(s: State, p: Pid)
    requires Inv(s) && Enabled(s, RunWrite(p))
    ensures var s', w, room := Next(s, RunWrite(p)), s.writers[p], 512 - (|s.stored| - |s.delivered|);
            && 0 <= room
            && (if |w.left| <= room then
                  && s'.stored == s.stored + w.left && p !in s'.writers
                  && s'.results == s.results + [Wrote(w.call, GivenTo(s, w.call))]
                  && forall q | q in s.readers :: q !in s'.asleep
                else
                  && s'.stored == s.stored + w.left[..room]
                  && (!s.readopen || p in s.killed ==> p !in s'.writers && s'.results == s.results + [WriteFailed(w.call)])
                  && (s.readopen && p !in s.killed ==>
                        && p in s'.asleep && p in s'.writers && s'.writers[p] == Writing(w.call, w.left[room..])
                        && s'.results == s.results && forall q | q in s.readers :: q !in s'.asleep))
  {
    var w := s.writers[p];
    PutAllCount(s.ring, s.stored, |s.delivered|, w.left);
    PutAllLeft(s.ring, w.left);
    assert w.left[..|w.left|] == w.left;
    hide Holds, PutAll;
  }
}
