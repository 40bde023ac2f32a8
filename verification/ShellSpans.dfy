/**
 Where the words of a parsed command lie: every span is a whole word of the line, so the NULs
 that nulterminate writes behind the words fall on no character of any word.
 */
module ShellSpans {
  import opened Shell
  import opened ShellRoundTrip

  /** The word spans of a command, in the order nulterminate visits them. */
  function Spans(c: Cmd): seq<Span> {
    match c
    case Exec(argv) => argv
    case Redir(cmd, file, _) => Spans(cmd) + [file]
    case Pipe(l, r) => Spans(l) + Spans(r)
    case List(l, r) => Spans(l) + Spans(r)
    case Back(cmd) => Spans(cmd)
  }

  /** sp is a maximal run of word characters of s. */
  predicate WholeWord(s: string, sp: Span) {
    && sp.q < sp.eq <= |s|
    && (forall i | sp.q <= i < sp.eq :: Word(s[i]))
    && (sp.eq < |s| ==> !Word(s[sp.eq]))
  }

  ghost predicate WholeWords(s: string, sps: seq<Span>) {
    forall sp <- sps :: WholeWord(s, sp)
  }

  function Files(rs: Redirs): seq<Span> {
    if rs == [] then [] else Files(rs[..|rs| - 1]) + [rs[|rs| - 1].0]
  }

  lemma {:induction false} WrapSpans(c: Cmd, rs: Redirs)
    ensures Spans(Wrap(c, rs)) == Spans(c) + Files(rs)
  {
    if rs == [] {
    } else {
      WrapSpans(c, rs[..|rs| - 1]);
    }
  }

  lemma TokenIsWord(s: string, p: nat)
    requires p <= |s| && NUL !in s && GetToken(s, p).kind == 'a'
    ensures WholeWord(s, GetToken(s, p).span)
  {
    var q := SkipSpace(s, p);
    var e := SkipWord(s, q);
    assert q < |s|;
    assert e > q;
  }

  lemma {:induction false} RedirSpans(s: string, p: nat, rs: Redirs)
    requires p <= |s| && NUL !in s && WholeWords(s, Files(rs)) && ParseRedirs(s, p, rs).Ok?
    ensures WholeWords(s, Files(ParseRedirs(s, p, rs).value))
    decreases |s| - p
  {
    hide GetToken, WholeWord;
    if Peek(s, p, {'<', '>'}) {
      var t := GetToken(s, SkipSpace(s, p));
      var f := GetToken(s, t.pos);
      TokenIsWord(s, t.pos);
      var rs' := rs + [(f.span, if t.kind == '<' then In else Out)];
      assert rs'[..|rs|] == rs;
      RedirSpans(s, f.pos, rs');
    }
  }

  lemma {:induction false} ArgSpans(s: string, p: nat, args: seq<Span>, rs: Redirs)
    requires p <= |s| && NUL !in s && WholeWords(s, args) && WholeWords(s, Files(rs))
    requires ParseArgs(s, p, args, rs).Ok?
    ensures WholeWords(s, Spans(ParseArgs(s, p, args, rs).value))
    decreases |s| - p
  {
    hide GetToken, WholeWord, ParseRedirs, Wrap, Files;
    WrapSpans(Exec(args), rs);
    if !Peek(s, p, {'|', ')', '&', ';'}) {
      var t := GetToken(s, SkipSpace(s, p));
      if t.kind != NUL {
        TokenIsWord(s, SkipSpace(s, p));
        RedirSpans(s, t.pos, rs);
        var r := ParseRedirs(s, t.pos, rs);
        ArgSpans(s, r.pos, args + [t.span], r.value);
      }
    }
  }

  lemma {:induction false} BlockSpans(s: string, p: nat)
    requires p <= |s| && NUL !in s && Peek(s, p, {'('}) && ParseBlock(s, p).Ok?
    ensures WholeWords(s, Spans(ParseBlock(s, p).value))
    decreases |s| - p, 0
  {
    hide GetToken, WholeWord, ParseRedirs, Wrap, ParseLine;
    var t := GetToken(s, SkipSpace(s, p));
    assert t.pos > p by { assert t.kind != NUL by { TokenKind(s, SkipSpace(s, p)); } }
    LineSpans(s, t.pos);
    var r := ParseLine(s, t.pos);
    var t2 := GetToken(s, SkipSpace(s, r.pos));
    RedirSpans(s, t2.pos, []);
    WrapSpans(r.value, ParseRedirs(s, t2.pos, []).value);
  }

  lemma TokenKind(s: string, p: nat)
    requires p <= |s| && At(s, SkipSpace(s, p)) != NUL
    ensures GetToken(s, p).kind != NUL
  {
  }

  lemma {:induction false} UnitSpans(s: string, p: nat)
    requires p <= |s| && NUL !in s && ParseExec(s, p).Ok?
    ensures WholeWords(s, Spans(ParseExec(s, p).value))
    decreases |s| - p, 1
  {
    hide GetToken, WholeWord, ParseRedirs, ParseArgs, ParseBlock;
    if Peek(s, p, {'('}) {
      BlockSpans(s, p);
    } else {
      RedirSpans(s, SkipSpace(s, p), []);
      var r := ParseRedirs(s, SkipSpace(s, p), []);
      ArgSpans(s, r.pos, [], r.value);
    }
  }

  lemma {:induction false} PipeSpans(s: string, p: nat)
    requires p <= |s| && NUL !in s && ParsePipe(s, p).Ok?
    ensures WholeWords(s, Spans(ParsePipe(s, p).value))
    decreases |s| - p, 2
  {
    hide GetToken, WholeWord, ParseExec;
    UnitSpans(s, p);
    var r := ParseExec(s, p);
    if Peek(s, r.pos, {'|'}) {
      TokenKind(s, SkipSpace(s, r.pos));
      PipeSpans(s, GetToken(s, SkipSpace(s, r.pos)).pos);
    }
  }

  lemma {:induction false} BackSpans(s: string, p: nat, c: Cmd)
    requires p <= |s|
    ensures Spans(ParseBacks(s, p, c).value) == Spans(c)
    decreases |s| - p
  {
    if Peek(s, p, {'&'}) {
      BackSpans(s, GetToken(s, SkipSpace(s, p)).pos, Back(c));
    }
  }

  lemma {:induction false} LineSpans(s: string, p: nat)
    requires p <= |s| && NUL !in s && ParseLine(s, p).Ok?
    ensures WholeWords(s, Spans(ParseLine(s, p).value))
    decreases |s| - p, 3
  {
    hide GetToken, WholeWord, ParsePipe, ParseBacks;
    PipeSpans(s, p);
    var r := ParsePipe(s, p);
    BackSpans(s, r.pos, r.value);
    var b := ParseBacks(s, r.pos, r.value);
    if Peek(s, b.pos, {';'}) {
      TokenKind(s, SkipSpace(s, b.pos));
      LineSpans(s, GetToken(s, SkipSpace(s, b.pos)).pos);
    }
  }

  /** Every word pointer pair of every parsed line delimits a whole word of the line. */
  lemma ParsedSpans(s: string)
    requires NUL !in s
    ensures ParseCmd(s).Ok? ==> WholeWords(s, Spans(ParseCmd(s).value))
  {
    if ParseCmd(s).Ok? {
      LineSpans(s, 0);
    }
  }

  // ----- Writing the NULs

  /** b with a NUL behind each of the spans. */
  function Terminated(b: seq<char>, sps: seq<Span>): (r: seq<char>)
    requires forall sp <- sps :: sp.eq < |b|
    ensures |r| == |b|
  {
    if sps == [] then b else Terminated(b, sps[..|sps| - 1])[sps[|sps| - 1].eq := NUL]
  }

  lemma {:induction false} TerminatedTwice(b: seq<char>, l: seq<Span>, r: seq<Span>)
    requires forall sp <- l + r :: sp.eq < |b|
    ensures (forall sp <- l :: sp.eq < |b|) && (forall sp <- r :: sp.eq < |b|)
    ensures Terminated(Terminated(b, l), r) == Terminated(b, l + r)
    decreases r
  {
    assert forall sp <- l :: sp in l + r;
    assert forall sp <- r :: sp in l + r;
    if r == [] {
      assert l + r == l;
    } else {
      var r' := r[..|r| - 1];
      assert (l + r)[..|l + r| - 1] == l + r';
      assert (l + r)[|l + r| - 1] == r[|r| - 1];
      TerminatedTwice(b, l, r');
    }
  }

  lemma {:induction false} TerminatedAt(b: seq<char>, sps: seq<Span>, i: nat)
    requires (forall sp <- sps :: sp.eq < |b|) && i < |b|
    ensures Terminated(b, sps)[i] == if exists sp <- sps :: sp.eq == i then NUL else b[i]
  {
    if sps != [] {
      var last := sps[|sps| - 1];
      var rest := sps[..|sps| - 1];
      assert sps == rest + [last];
      TerminatedAt(b, rest, i);
    }
  }

  /** The C string that starts at p. */
  function CString(b: seq<char>, p: nat): string
    decreases |b| - p
  {
    if p >= |b| || b[p] == NUL then [] else [b[p]] + CString(b, p + 1)
  }

  lemma {:induction false} CStringIs(b: seq<char>, p: nat, e: nat)
    requires p <= e < |b| && b[e] == NUL && (forall i | p <= i < e :: b[i] != NUL)
    ensures CString(b, p) == b[p..e]
    decreases e - p
  {
    if p < e {
      CStringIs(b, p + 1, e);
      assert b[p..e] == [b[p]] + b[p + 1..e];
    }
  }

  /** The words of a command as its pointers read them. */
  function CText(b: seq<char>, c: Cmd): Tree {
    match c
    case Exec(argv) => TExec(seq(|argv|, i requires 0 <= i < |argv| => CString(b, argv[i].q)))
    case Redir(cmd, file, d) => TRedir(CText(b, cmd), CString(b, file.q), d)
    case Pipe(l, r) => TPipe(CText(b, l), CText(b, r))
    case List(l, r) => TList(CText(b, l), CText(b, r))
    case Back(cmd) => TBack(CText(b, cmd))
  }

  lemma SpansInside(s: string, c: Cmd)
    requires WholeWords(s, Spans(c))
    ensures forall sp <- Spans(c) :: sp.eq <= |s|
  {
    forall sp <- Spans(c)
      ensures sp.eq <= |s|
    {
      assert WholeWord(s, sp);
    }
  }

  /** Whole words never touch, so writing a NUL behind each leaves every word as it was. */
  lemma WordSurvives(s: string, b: seq<char>, sps: seq<Span>, sp: Span)
    requires |s| < |b| && b[..|s|] == s && WholeWords(s, sps) && sp in sps
    ensures (forall x <- sps :: x.eq < |b|) && CString(Terminated(b, sps), sp.q) == Slice(s, sp)
  {
    assert WholeWord(s, sp);
    forall x <- sps
      ensures x.eq < |b|
    {
      assert WholeWord(s, x);
    }
    var b' := Terminated(b, sps);
    forall i | sp.q <= i < sp.eq
      ensures b'[i] == s[i] != NUL
    {
      TerminatedAt(b, sps, i);
      assert s[i] == b[..|s|][i];
      assert Word(s[i]);
      forall x <- sps
        ensures x.eq != i
      {
        assert WholeWord(s, x);
      }
    }
    TerminatedAt(b, sps, sp.eq);
    CStringIs(b', sp.q, sp.eq);
    assert b'[sp.q..sp.eq] == s[sp.q..sp.eq];
  }

  lemma {:induction false} CTextIs(s: string, b': seq<char>, c: Cmd)
    requires forall sp <- Spans(c) :: CString(b', sp.q) == Slice(s, sp)
    ensures CText(b', c) == Text(s, c)
  {
    match c {
      case Exec(argv) =>
        assert forall i | 0 <= i < |argv| :: argv[i] in Spans(c);
      case Redir(cmd, file, _) =>
        assert forall sp <- Spans(cmd) :: sp in Spans(c);
        assert file in Spans(c);
        CTextIs(s, b', cmd);
      case Pipe(l, r) =>
        assert forall sp <- Spans(l) :: sp in Spans(c);
        assert forall sp <- Spans(r) :: sp in Spans(c);
        CTextIs(s, b', l);
        CTextIs(s, b', r);
      case List(l, r) =>
        assert forall sp <- Spans(l) :: sp in Spans(c);
        assert forall sp <- Spans(r) :: sp in Spans(c);
        CTextIs(s, b', l);
        CTextIs(s, b', r);
      case Back(cmd) =>
        CTextIs(s, b', cmd);
    }
  }

  /** After nulterminate every argument and file pointer of a parsed command reads its own word. */
  lemma TerminatedReads(s: string, b: seq<char>, c: Cmd)
    requires |s| < |b| && b[..|s|] == s && WholeWords(s, Spans(c))
    ensures (forall sp <- Spans(c) :: sp.eq < |b|)
    ensures CText(Terminated(b, Spans(c)), c) == Text(s, c)
  {
    SpansInside(s, c);
    forall sp <- Spans(c)
      ensures CString(Terminated(b, Spans(c)), sp.q) == Slice(s, sp)
    {
      WordSurvives(s, b, Spans(c), sp);
    }
    CTextIs(s, Terminated(b, Spans(c)), c);
  }

  // ----- Renderings hold no NUL

  lemma {:induction false} JoinHasNoNul(ws: seq<string>)
    requires forall w <- ws :: IsWord(w)
    ensures NUL !in Join(ws)
  {
    if ws != [] {
      assert IsWord(ws[0]);
      JoinHasNoNul(ws[1..]);
    }
  }

  lemma {:induction false} RenderHasNoNul(t: Tree)
    requires Writable(t)
    ensures NUL !in Render(t)
  {
    match t {
      case TExec(args) => JoinHasNoNul(args);
      case TRedir(cmd, _, _) => RenderHasNoNul(cmd);
      case TPipe(l, r) => RenderHasNoNul(l); RenderHasNoNul(r);
      case TList(l, r) => RenderHasNoNul(l); RenderHasNoNul(r);
      case TBack(cmd) => RenderHasNoNul(cmd);
    }
  }
}
