/** Writing a command tree out with full parentheses and parsing it gives the same tree back. */
module ShellRoundTrip {
  import opened Shell

  /** A command with its words as text. */
  datatype Tree =
    | TExec(args: seq<string>)
    | TRedir(cmd: Tree, file: string, dir: Direction)
    | TPipe(left: Tree, right: Tree)
    | TList(left: Tree, right: Tree)
    | TBack(cmd: Tree)

  function Slice(s: string, sp: Span): string {
    if sp.q <= sp.eq <= |s| then s[sp.q..sp.eq] else ""
  }

  function Slices(s: string, sps: seq<Span>): (r: seq<string>)
    ensures |r| == |sps| && forall i | 0 <= i < |sps| :: r[i] == Slice(s, sps[i])
  {
    seq(|sps|, i requires 0 <= i < |sps| => Slice(s, sps[i]))
  }

  /** What a parsed command says. */
  function Text(s: string, c: Cmd): Tree {
    match c
    case Exec(argv) => TExec(Slices(s, argv))
    case Redir(c, f, d) => TRedir(Text(s, c), Slice(s, f), d)
    case Pipe(l, r) => TPipe(Text(s, l), Text(s, r))
    case List(l, r) => TList(Text(s, l), Text(s, r))
    case Back(c) => TBack(Text(s, c))
  }

  predicate IsWord(w: string) {
    w != "" && forall i | 0 <= i < |w| :: Word(w[i])
  }

  /** Trees a command line can express: non-empty words, and fewer than MAXARGS arguments. */
  predicate Writable(t: Tree) {
    match t
    case TExec(args) => |args| < MAXARGS && forall i | 0 <= i < |args| :: IsWord(args[i])
    case TRedir(c, f, _) => Writable(c) && IsWord(f)
    case TPipe(l, r) => Writable(l) && Writable(r)
    case TList(l, r) => Writable(l) && Writable(r)
    case TBack(c) => Writable(c)
  }

  function Join(ws: seq<string>): string {
    if ws == [] then "" else if |ws| == 1 then ws[0] else ws[0] + " " + Join(ws[1..])
  }

  function Block(t: Tree): string
    decreases t, 1
  {
    "(" + Render(t) + ")"
  }

  function Render(t: Tree): string
    decreases t, 0
  {
    match t
    case TExec(args) => Join(args)
    case TRedir(c, f, d) => Block(c) + (if d == In then "<" else ">") + f
    case TPipe(l, r) => Block(l) + "|" + Block(r)
    case TList(l, r) => Block(l) + ";" + Block(r)
    case TBack(c) => Block(c) + "&"
  }

  /** The line reads x from p on. */
  ghost predicate Reads(s: string, p: nat, x: string) {
    p + |x| <= |s| && s[p..p + |x|] == x
  }

  lemma ReadsSplit(s: string, p: nat, x: string, y: string)
    requires Reads(s, p, x + y)
    ensures Reads(s, p, x) && Reads(s, p + |x|, y)
  {
    assert s[p..p + |x|] == (x + y)[..|x|] == x;
    assert s[p + |x|..p + |x| + |y|] == (x + y)[|x|..] == y;
  }

  lemma ReadsChar(s: string, p: nat, c: char)
    requires Reads(s, p, [c])
    ensures p < |s| && s[p] == c
  {
    assert s[p..p + 1][0] == c;
  }

  /** A command ends here: at the end of the line or before a closing parenthesis. */
  predicate Ends(s: string, p: nat) {
    p == |s| || (p < |s| && s[p] == ')')
  }

  predicate NotSpace(s: string, p: nat) {
    p <= |s| && (p < |s| ==> !Space(s[p]))
  }

  lemma Solid(s: string, p: nat)
    requires NotSpace(s, p)
    ensures SkipSpace(s, p) == p
  {
  }

  lemma {:induction false} WordEnd(s: string, p: nat, q: nat)
    requires p <= q <= |s| && (forall i | p <= i < q :: !Space(s[i]) && !Symbol(s[i]))
    requires q < |s| ==> Space(s[q]) || Symbol(s[q])
    ensures SkipWord(s, p) == q
    decreases q - p
  {
    if p < q { WordEnd(s, p + 1, q); }
  }

  lemma WordToken(s: string, p: nat, w: string)
    requires Reads(s, p, w) && IsWord(w)
    requires p + |w| < |s| ==> Space(s[p + |w|]) || Symbol(s[p + |w|])
    ensures p < |s| && Word(s[p]) && NotSpace(s, p) && SkipSpace(s, p) == p
    ensures GetToken(s, p) == Token('a', Span(p, p + |w|), SkipSpace(s, p + |w|))
    ensures Slice(s, Span(p, p + |w|)) == w
  {
    var r := s[p..p + |w|];
    forall i | p <= i < p + |w| ensures Word(s[i]) { assert s[i] == r[i - p] == w[i - p]; }
    Solid(s, p);
    WordEnd(s, p, p + |w|);
  }

  /** A one-character token. */
  lemma SymbolToken(s: string, p: nat, c: char)
    requires Reads(s, p, [c]) && Symbol(c) && (c == '>' ==> At(s, p + 1) != '>')
    ensures p < |s| && s[p] == c && SkipSpace(s, p) == p
    ensures GetToken(s, p) == Token(c, Span(p, p + 1), SkipSpace(s, p + 1))
  {
    ReadsChar(s, p, c);
    Solid(s, p);
  }

  lemma NoRedirs(s: string, p: nat, rs: Redirs)
    requires NotSpace(s, p) && (p < |s| ==> s[p] != '<' && s[p] != '>')
    ensures ParseRedirs(s, p, rs) == Ok(rs, p)
  {
    Solid(s, p);
  }

  // ----- Arguments

  lemma JoinHead(ws: seq<string>)
    requires ws != [] && forall i | 0 <= i < |ws| :: IsWord(ws[i])
    ensures |Join(ws)| > 0 && Word(Join(ws)[0])
    ensures |ws| > 1 ==> Join(ws) == ws[0] + (" " + Join(ws[1..]))
    ensures |ws| == 1 ==> Join(ws) == ws[0]
  {
  }

  lemma NoWords(ws: seq<string>)
    requires ws == []
    ensures Join(ws) == ""
  {
  }

  lemma ArgsEnd(s: string, p: nat, done: seq<Span>)
    requires Ends(s, p)
    ensures ParseArgs(s, p, done, []) == Ok(Exec(done), p)
  {
    Solid(s, p);
  }

  /** One more argument, up to q, with q' the next character that is not a space. */
  lemma ArgsStep(s: string, p: nat, done: seq<Span>, w: string, q': nat)
    requires Reads(s, p, w) && IsWord(w) && |done| + 1 < MAXARGS
    requires p + |w| < |s| ==> Space(s[p + |w|]) || Symbol(s[p + |w|])
    requires q' == SkipSpace(s, p + |w|) && q' <= |s| && (q' < |s| ==> s[q'] != '<' && s[q'] != '>')
    ensures ParseArgs(s, p, done, []) == ParseArgs(s, q', done + [Span(p, p + |w|)], [])
    ensures Slice(s, Span(p, p + |w|)) == w
  {
    WordToken(s, p, w);
    NoRedirs(s, q', []);
    assert !Peek(s, p, {'|', ')', '&', ';'});
  }

  /** Where the word after w starts, when the line reads Join(ws). */
  lemma NextArg(s: string, p: nat, ws: seq<string>) returns (q': nat)
    requires ws != [] && Reads(s, p, Join(ws)) && Ends(s, p + |Join(ws)|) && forall i | 0 <= i < |ws| :: IsWord(ws[i])
    ensures Reads(s, p, ws[0]) && (p + |ws[0]| < |s| ==> Space(s[p + |ws[0]|]) || Symbol(s[p + |ws[0]|]))
    ensures q' == SkipSpace(s, p + |ws[0]|) && q' <= |s| && (q' < |s| ==> s[q'] != '<' && s[q'] != '>')
    ensures Reads(s, q', Join(ws[1..])) && q' + |Join(ws[1..])| == p + |Join(ws)|
  {
    var w, q := ws[0], p + |ws[0]|;
    JoinHead(ws);
    if |ws| > 1 {
      ReadsSplit(s, p, w, " " + Join(ws[1..]));
      ReadsSplit(s, q, " ", Join(ws[1..]));
      ReadsChar(s, q, ' ');
      JoinHead(ws[1..]);
      FirstRead(s, q + 1, Join(ws[1..]));
      hide Reads, Join, IsWord, Ends;
      Solid(s, q + 1);
      SpaceThen(s, q);
      q' := q + 1;
    } else {
      EndsPlain(s, q);
      q' := q;
    }
  }

  lemma FirstRead(s: string, p: nat, x: string)
    requires Reads(s, p, x) && x != "" && Word(x[0])
    ensures p < |s| && s[p] == x[0] && NotSpace(s, p) && s[p] != '<' && s[p] != '>'
  {
    assert s[p] == s[p..p + |x|][0];
  }

  lemma SpaceThen(s: string, q: nat)
    requires q + 1 <= |s| && s[q] == ' '
    ensures SkipSpace(s, q) == SkipSpace(s, q + 1)
  {
  }

  lemma {:induction false} ArgsRound(s: string, p: nat, done: seq<Span>, ws: seq<string>) returns (more: seq<Span>)
    requires Reads(s, p, Join(ws)) && Ends(s, p + |Join(ws)|)
    requires |done| + |ws| < MAXARGS && forall i | 0 <= i < |ws| :: IsWord(ws[i])
    ensures ParseArgs(s, p, done, []) == Ok(Exec(done + more), p + |Join(ws)|)
    ensures Slices(s, more) == ws
    decreases |ws|
  {
    hide ParseArgs, Reads, SkipSpace, IsWord, Join, Slice, Slices, Ends, Space, Symbol;
    if ws == [] {
      assert Join(ws) == "" by { NoWords(ws); }
      ArgsEnd(s, p, done);
      more := [];
      assert done + more == done && Slices(s, more) == ws;
    } else {
      var q' := NextArg(s, p, ws);
      ArgsStep(s, p, done, ws[0], q');
      var sp := Span(p, p + |ws[0]|);
      var rest := ArgsRound(s, q', done + [sp], ws[1..]);
      more := [sp] + rest;
      assert done + [sp] + rest == done + more;
      SlicesCons(s, sp, rest);
      assert ws == [ws[0]] + ws[1..];
    }
  }

  lemma SlicesCons(s: string, sp: Span, rest: seq<Span>)
    ensures Slices(s, [sp] + rest) == [Slice(s, sp)] + Slices(s, rest)
  {
  }

  // ----- Blocks and their surroundings

  /** What may follow a closing parenthesis in a rendering, apart from a redirection. */
  predicate AfterBlock(s: string, p: nat) {
    Ends(s, p) || (p < |s| && (s[p] == '|' || s[p] == ';' || s[p] == '&'))
  }

  /** The cursor is on a rendering of t, followed by something a command can end at. */
  ghost predicate OnLine(t: Tree, s: string, p: nat) {
    Writable(t) && Reads(s, p, Render(t)) && Ends(s, p + |Render(t)|)
  }

  ghost predicate LineParses(t: Tree, s: string, p: nat, c: Cmd) {
    p + |Render(t)| <= |s| && ParseLine(s, p) == Ok(c, p + |Render(t)|) && Text(s, c) == t
  }

  lemma BlockUnfold(s: string, p: nat, e: nat, c: Cmd)
    requires p < e < |s| && s[p] == '(' && s[e] == ')'
    requires ParseLine(s, SkipSpace(s, p + 1)) == Ok(c, e)
    ensures ParseExec(s, p) == Wrapped(c, ParseRedirs(s, SkipSpace(s, e + 1), []))
  {
    hide ParseLine, ParseRedirs, Wrapped;
    Solid(s, p);
    Solid(s, e);
    assert GetToken(s, p) == Token('(', Span(p, p + 1), SkipSpace(s, p + 1));
    assert GetToken(s, e) == Token(')', Span(e, e + 1), SkipSpace(s, e + 1));
    assert Peek(s, p, {'('}) && Peek(s, e, {')'});
  }

  /** A block whose inside parses, up to the redirections behind it. */
  lemma BlockInside(t: Tree, s: string, p: nat, c: Cmd)
    requires Reads(s, p, Block(t)) && LineParses(t, s, p + 1, c) && OnLine(t, s, p + 1)
    ensures |Block(t)| == |Render(t)| + 2 && p + |Block(t)| <= |s| && NotSpace(s, p)
    ensures ParseExec(s, p) == Wrapped(c, ParseRedirs(s, SkipSpace(s, p + |Block(t)|), []))
  {
    hide *;
    BlockReads(t, s, p);
    InsideSolid(t, s, p + 1);
    LineParsesTo(t, s, p + 1, c);
    BlockUnfold(s, p, p + 1 + |Render(t)|, c);
  }

  lemma LineParsesTo(t: Tree, s: string, p: nat, c: Cmd)
    requires LineParses(t, s, p, c)
    ensures p + |Render(t)| <= |s| && ParseLine(s, p) == Ok(c, p + |Render(t)|) && Text(s, c) == t
  {
  }

  lemma BlockReads(t: Tree, s: string, p: nat)
    requires Reads(s, p, Block(t))
    ensures |Block(t)| == |Render(t)| + 2 && p + |Block(t)| <= |s| && Reads(s, p + 1, Render(t))
    ensures s[p] == '(' && s[p + 1 + |Render(t)|] == ')' && NotSpace(s, p)
  {
    assert Block(t) == "(" + (Render(t) + ")");
    ReadsSplit(s, p, "(", Render(t) + ")");
    ReadsSplit(s, p + 1, Render(t), ")");
    ReadsChar(s, p, '(');
    ReadsChar(s, p + 1 + |Render(t)|, ')');
  }

  /** A rendering does not begin with a space, and neither does what follows it. */
  lemma InsideSolid(t: Tree, s: string, p: nat)
    requires OnLine(t, s, p)
    ensures NotSpace(s, p) && SkipSpace(s, p) == p
  {
    match t {
      case TExec(args) =>
        if args != [] {
          JoinHead(args);
          assert s[p] == s[p..p + |Join(args)|][0];
        }
        Solid(s, p);
      case _ =>
        assert Render(t)[0] == '(';
        assert s[p] == s[p..p + |Render(t)|][0];
        Solid(s, p);
    }
  }

  /** A block with no redirection behind it. */
  lemma PlainBlock(t: Tree, s: string, p: nat, c: Cmd)
    requires Reads(s, p, Block(t)) && LineParses(t, s, p + 1, c) && OnLine(t, s, p + 1)
    requires AfterBlock(s, p + |Block(t)|)
    ensures ParseExec(s, p) == Ok(c, p + |Block(t)|) && p + |Block(t)| <= |s| && NotSpace(s, p)
  {
    hide *;
    BlockInside(t, s, p, c);
    var e := p + |Block(t)|;
    AfterBlockIs(s, e);
    Solid(s, e);
    NoRedirs(s, e, []);
    WrapNone(c, e);
  }

  lemma AfterBlockIs(s: string, p: nat)
    requires AfterBlock(s, p)
    ensures NotSpace(s, p) && (p < |s| ==> s[p] != '<' && s[p] != '>')
  {
  }

  lemma WrapNone(c: Cmd, e: nat)
    ensures Wrapped(c, Ok([], e)) == Ok(c, e)
  {
  }

  /** A redirection behind a block, up to the end of the command. */
  lemma RedirRound(s: string, e: nat, f: string, d: Direction)
    requires Reads(s, e, (if d == In then "<" else ">") + f) && IsWord(f) && Ends(s, e + 1 + |f|)
    ensures NotSpace(s, e)
    ensures ParseRedirs(s, e, []) == Ok([(Span(e + 1, e + 1 + |f|), d)], e + 1 + |f|)
    ensures Slice(s, Span(e + 1, e + 1 + |f|)) == f
  {
    var op := if d == In then '<' else '>';
    ReadsSplit(s, e, [op], f);
    WordToken(s, e + 1, f);
    SymbolToken(s, e, op);
    Solid(s, e + 1);
    Solid(s, e + 1 + |f|);
    var sp := Span(e + 1, e + 1 + |f|);
    assert Peek(s, e, {'<', '>'});
    EndsPlain(s, e + 1 + |f|);
    hide GetToken, SkipSpace, Reads, ParseRedirs, Peek, Ends, IsWord, NotSpace;
    OneRedir(s, e, op, sp);
    NoRedirs(s, e + 1 + |f|, [(sp, d)]);
  }

  lemma EndsPlain(s: string, p: nat)
    requires Ends(s, p)
    ensures p <= |s| && NotSpace(s, p) && (p < |s| ==> s[p] != '<' && s[p] != '>') && SkipSpace(s, p) == p
  {
    Solid(s, p);
  }

  /** One round of parseredirs. */
  lemma OneRedir(s: string, e: nat, op: char, sp: Span)
    requires e + 1 <= sp.eq <= |s| && Peek(s, e, {'<', '>'}) && SkipSpace(s, e) == e
    requires GetToken(s, e).kind == op && GetToken(s, e).pos == e + 1
    requires GetToken(s, e + 1).kind == 'a' && GetToken(s, e + 1).span == sp && GetToken(s, e + 1).pos == sp.eq
    ensures ParseRedirs(s, e, []) == ParseRedirs(s, sp.eq, [(sp, if op == '<' then In else Out)])
  {
    hide GetToken, SkipSpace, Peek;
    var none: Redirs := [];
    assert none + [(sp, if op == '<' then In else Out)] == [(sp, if op == '<' then In else Out)];
  }

  // ----- From units to lines

  lemma PipeStop(s: string, p: nat, c: Cmd, e: nat)
    requires p <= |s| && ParseExec(s, p) == Ok(c, e) && NotSpace(s, e) && At(s, e) != '|'
    ensures ParsePipe(s, p) == Ok(c, e)
  {
    hide ParseExec;
    Solid(s, e);
  }

  lemma PipeGo(s: string, p: nat, c: Cmd, e: nat, d: Cmd, e2: nat)
    requires p <= |s| && ParseExec(s, p) == Ok(c, e) && e < |s| && s[e] == '|' && NotSpace(s, e + 1)
    requires ParsePipe(s, e + 1) == Ok(d, e2)
    ensures ParsePipe(s, p) == Ok(Pipe(c, d), e2)
  {
    hide ParseExec;
    Solid(s, e);
    Solid(s, e + 1);
    assert GetToken(s, e).pos == e + 1;
  }

  lemma LineStop(s: string, p: nat, c: Cmd, e: nat)
    requires p <= |s| && ParsePipe(s, p) == Ok(c, e) && Ends(s, e)
    ensures ParseLine(s, p) == Ok(c, e)
  {
    hide ParsePipe;
    Solid(s, e);
    assert ParseBacks(s, e, c) == Ok(c, e);
  }

  lemma LineBack(s: string, p: nat, c: Cmd, e: nat)
    requires p <= |s| && ParsePipe(s, p) == Ok(c, e) && e < |s| && s[e] == '&' && Ends(s, e + 1)
    ensures ParseLine(s, p) == Ok(Back(c), e + 1)
  {
    hide ParsePipe;
    Solid(s, e);
    Solid(s, e + 1);
    assert GetToken(s, e).pos == e + 1;
    assert ParseBacks(s, e + 1, Back(c)) == Ok(Back(c), e + 1);
    assert ParseBacks(s, e, c) == Ok(Back(c), e + 1);
  }

  lemma LineList(s: string, p: nat, c: Cmd, e: nat, d: Cmd, e2: nat)
    requires p <= |s| && ParsePipe(s, p) == Ok(c, e) && e < |s| && s[e] == ';' && NotSpace(s, e + 1)
    requires ParseLine(s, e + 1) == Ok(d, e2)
    ensures ParseLine(s, p) == Ok(List(c, d), e2)
  {
    hide ParsePipe;
    Solid(s, e);
    Solid(s, e + 1);
    assert ParseBacks(s, e, c) == Ok(c, e);
    assert GetToken(s, e).pos == e + 1;
  }

  // ----- The round trip

  /** The inside of a block is itself a rendering that ends where a command can end. */
  lemma BlockOnLine(t: Tree, s: string, p: nat)
    requires Writable(t) && Reads(s, p, Block(t))
    ensures OnLine(t, s, p + 1)
  {
    BlockReads(t, s, p);
  }

  /** The first character of an exec command is none of those that open something else. */
  lemma ExecHead(t: Tree, s: string, p: nat)
    requires OnLine(t, s, p) && t.TExec?
    ensures p <= |s| && (p < |s| ==> s[p] != '(' && s[p] != '<' && s[p] != '>')
  {
    if t.args != [] {
      JoinHead(t.args);
      FirstRead(s, p, Join(t.args));
    }
  }

  /** parseexec of a line that opens with neither a block nor a redirection. */
  lemma ExecUnfold(s: string, p: nat)
    requires NotSpace(s, p) && p <= |s| && (p < |s| ==> s[p] != '(' && s[p] != '<' && s[p] != '>')
    ensures ParseExec(s, p) == ParseArgs(s, p, [], [])
  {
    NoRedirs(s, p, []);
    Solid(s, p);
    hide ParseArgs, ParseBlock, ParseRedirs, SkipSpace;
  }

  lemma ExecOnLine(t: Tree, s: string, p: nat)
    requires OnLine(t, s, p) && t.TExec?
    ensures Render(t) == Join(t.args) && Reads(s, p, Join(t.args)) && Ends(s, p + |Join(t.args)|)
    ensures |t.args| < MAXARGS && forall i | 0 <= i < |t.args| :: IsWord(t.args[i])
  {
    hide Join, IsWord;
  }

  lemma ExecText(t: Tree, s: string, p: nat, argv: seq<Span>)
    requires t.TExec? && Slices(s, argv) == t.args && p + |Render(t)| <= |s| && ParseLine(s, p) == Ok(Exec(argv), p + |Render(t)|)
    ensures LineParses(t, s, p, Exec(argv))
  {
    hide ParseLine, Render, Slices;
  }

  lemma EndsPlainly(s: string, e: nat)
    requires Ends(s, e)
    ensures e <= |s| && NotSpace(s, e) && At(s, e) != '|'
  {
  }

  lemma ExecRound(t: Tree, s: string, p: nat) returns (c: Cmd)
    requires OnLine(t, s, p) && t.TExec?
    ensures LineParses(t, s, p, c)
  {
    hide *;
    InsideSolid(t, s, p);
    ExecHead(t, s, p);
    ExecUnfold(s, p);
    ExecOnLine(t, s, p);
    var argv := ArgsRound(s, p, [], t.args);
    assert [] + argv == argv;
    c := Exec(argv);
    var e := p + |Render(t)|;
    EndsPlainly(s, e);
    PipeStop(s, p, c, e);
    LineStop(s, p, c, e);
    ExecText(t, s, p, argv);
  }

  /** A block, a redirection operator and a file name, up to the end of the command. */
  lemma RedirUnit(t1: Tree, f: string, d: Direction, s: string, p: nat, c1: Cmd) returns (sp: Span)
    requires Reads(s, p, Block(t1) + ((if d == In then "<" else ">") + f)) && IsWord(f) && Writable(t1)
    requires LineParses(t1, s, p + 1, c1) && Ends(s, p + |Block(t1)| + 1 + |f|)
    ensures p + |Block(t1)| + 1 + |f| <= |s|
    ensures ParseExec(s, p) == Ok(Redir(c1, sp, d), p + |Block(t1)| + 1 + |f|) && Slice(s, sp) == f
  {
    hide *;
    var op := if d == In then "<" else ">";
    var m := p + |Block(t1)|;
    ReadsSplit(s, p, Block(t1), op + f);
    BlockOnLine(t1, s, p);
    BlockInside(t1, s, p, c1);
    RedirRound(s, m, f, d);
    Solid(s, m);
    ReadsEnd(s, m, op + f);
    sp := Span(m + 1, m + 1 + |f|);
    WrapOne(c1, sp, d, m + 1 + |f|);
  }

  lemma ReadsEnd(s: string, p: nat, w: string)
    requires Reads(s, p, w)
    ensures p + |w| <= |s|
  {
  }

  lemma WrapOne(c: Cmd, sp: Span, d: Direction, e: nat)
    ensures Wrapped(c, Ok([(sp, d)], e)) == Ok(Redir(c, sp, d), e)
  {
    var rs := [(sp, d)];
    assert rs[..0] == [] && rs[1..] == [];
    assert Wrap(c, rs) == Redir(c, sp, d);
  }

  lemma RedirLine(t: Tree, s: string, p: nat, c1: Cmd) returns (c: Cmd)
    requires OnLine(t, s, p) && t.TRedir? && LineParses(t.cmd, s, p + 1, c1)
    ensures LineParses(t, s, p, c)
  {
    hide ParseExec, ParsePipe, ParseLine, SkipSpace, Reads, Slice;
    var op := if t.dir == In then "<" else ">";
    assert Render(t) == Block(t.cmd) + (op + t.file);
    var e := p + |Render(t)|;
    var sp := RedirUnit(t.cmd, t.file, t.dir, s, p, c1);
    c := Redir(c1, sp, t.dir);
    PipeStop(s, p, c, e);
    LineStop(s, p, c, e);
  }

  lemma PipeLine(t: Tree, s: string, p: nat, cl: Cmd, cr: Cmd)
    requires OnLine(t, s, p) && t.TPipe?
    requires LineParses(t.left, s, p + 1, cl) && LineParses(t.right, s, p + |Block(t.left)| + 2, cr)
    ensures LineParses(t, s, p, Pipe(cl, cr))
  {
    hide ParseExec, ParsePipe, ParseLine, SkipSpace, Reads, Slice, IsWord, Join;
    var e := p + |Render(t)|;
    var m := TwoBlocks(t.left, t.right, '|', s, p);
    PlainBlock(t.left, s, p, cl);
    PlainBlock(t.right, s, m + 1, cr);
    PipeStop(s, m + 1, cr, e);
    PipeGo(s, p, cl, m, cr, e);
    LineStop(s, p, Pipe(cl, cr), e);
  }

  lemma ListLine(t: Tree, s: string, p: nat, cl: Cmd, cr: Cmd)
    requires OnLine(t, s, p) && t.TList?
    requires LineParses(t.left, s, p + 1, cl) && LineParses(t.right, s, p + |Block(t.left)| + 2, cr)
    ensures LineParses(t, s, p, List(cl, cr))
  {
    hide ParseExec, ParsePipe, ParseLine, SkipSpace, Reads, Slice, IsWord, Join;
    var e := p + |Render(t)|;
    var m := TwoBlocks(t.left, t.right, ';', s, p);
    PlainBlock(t.left, s, p, cl);
    PlainBlock(t.right, s, m + 1, cr);
    PipeStop(s, m + 1, cr, e);
    LineStop(s, m + 1, cr, e);
    PipeStop(s, p, cl, m);
    LineList(s, p, cl, m, cr, e);
  }

  lemma BackLine(t: Tree, s: string, p: nat, c1: Cmd)
    requires OnLine(t, s, p) && t.TBack? && LineParses(t.cmd, s, p + 1, c1)
    ensures LineParses(t, s, p, Back(c1))
  {
    hide ParseExec, ParsePipe, ParseLine, SkipSpace, Reads, Slice, IsWord, Join;
    ReadsSplit(s, p, Block(t.cmd), "&");
    var m := p + |Block(t.cmd)|;
    ReadsChar(s, m, '&');
    BlockOnLine(t.cmd, s, p);
    PlainBlock(t.cmd, s, p, c1);
    PipeStop(s, p, c1, m);
    LineBack(s, p, c1, m);
  }

  /** The parts of a rendering that joins two blocks with a one-character operator. */
  lemma TwoBlocks(l: Tree, r: Tree, op: char, s: string, p: nat) returns (m: nat)
    requires Writable(l) && Writable(r) && Reads(s, p, Block(l) + [op] + Block(r))
    ensures m == p + |Block(l)| < |s| && s[m] == op
    ensures Reads(s, p, Block(l)) && Reads(s, m + 1, Block(r))
    ensures OnLine(l, s, p + 1) && OnLine(r, s, m + 2)
  {
    hide *;
    m := p + |Block(l)|;
    assert Block(l) + [op] + Block(r) == Block(l) + ([op] + Block(r));
    ReadsSplit(s, p, Block(l), [op] + Block(r));
    ReadsSplit(s, m, [op], Block(r));
    ReadsChar(s, m, op);
    BlockOnLine(l, s, p);
    BlockOnLine(r, s, m + 1);
  }

  lemma {:induction false} LineRound(t: Tree, s: string, p: nat) returns (c: Cmd)
    requires OnLine(t, s, p)
    ensures LineParses(t, s, p, c)
    decreases t
  {
    hide Reads, LineParses;
    match t {
      case TExec(_) =>
        c := ExecRound(t, s, p);
      case TRedir(t1, f, d) =>
        var op := if d == In then "<" else ">";
        assert Render(t) == Block(t1) + (op + f);
        ReadsSplit(s, p, Block(t1), op + f);
        BlockOnLine(t1, s, p);
        var c1 := LineRound(t1, s, p + 1);
        c := RedirLine(t, s, p, c1);
      case TPipe(l, r) =>
        var m := TwoBlocks(l, r, '|', s, p);
        var cl := LineRound(l, s, p + 1);
        var cr := LineRound(r, s, m + 2);
        PipeLine(t, s, p, cl, cr);
        c := Pipe(cl, cr);
      case TList(l, r) =>
        var m := TwoBlocks(l, r, ';', s, p);
        var cl := LineRound(l, s, p + 1);
        var cr := LineRound(r, s, m + 2);
        ListLine(t, s, p, cl, cr);
        c := List(cl, cr);
      case TBack(t1) =>
        ReadsSplit(s, p, Block(t1), "&");
        BlockOnLine(t1, s, p);
        var c1 := LineRound(t1, s, p + 1);
        BackLine(t, s, p, c1);
        c := Back(c1);
    }
  }

  /** Parsing the rendering of a tree gives that tree back. */
  lemma RoundTrip(t: Tree)
    requires Writable(t)
    ensures ParseCmd(Render(t)).Ok? && Text(Render(t), ParseCmd(Render(t)).value) == t
  {
    var s := Render(t);
    assert s[0..|s|] == s;
    var c := LineRound(t, s, 0);
    Solid(s, |s|);
  }
}
