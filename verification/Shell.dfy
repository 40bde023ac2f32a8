/**
 The command line parser of sh.c as functions of the line and a cursor into it.  The line
 excludes its terminating NUL; reading at its end yields NUL.
 */
module Shell {

  const NUL: char := '\0'
  const MAXARGS: nat := 10

  /** A token, as the pair of pointers q and eq. */
  datatype Span = Span(q: nat, eq: nat)

  /** open mode and file descriptor of a redirection: standard input or standard output. */
  datatype Direction = In | Out

  datatype Cmd =
    | Exec(argv: seq<Span>)
    | Redir(cmd: Cmd, file: Span, dir: Direction)
    | Pipe(left: Cmd, right: Cmd)
    | List(left: Cmd, right: Cmd)
    | Back(cmd: Cmd)

  datatype Error = MissingFile | MissingParen | Syntax | TooManyArgs | Leftovers

  datatype Result<+T> = Ok(value: T, pos: nat) | Panic(error: Error)

  // ----- Tokens

  predicate Space(c: char) {
    c == ' ' || c == '\t' || c == '\r' || c == '\n' || c == '\U{0B}'
  }

  predicate Symbol(c: char) {
    c == '<' || c == '|' || c == '>' || c == '&' || c == ';' || c == '(' || c == ')'
  }

  predicate Word(c: char) {
    !Space(c) && !Symbol(c) && c != NUL
  }

  function At(s: string, p: nat): char {
    if p < |s| then s[p] else NUL
  }

  function SkipSpace(s: string, p: nat): (r: nat)
    ensures p <= r && (p <= |s| ==> r <= |s|)
    ensures r < |s| ==> !Space(s[r])
    decreases |s| - p
  {
    if p < |s| && Space(s[p]) then SkipSpace(s, p + 1) else p
  }

  function SkipWord(s: string, p: nat): (r: nat)
    ensures p <= r && (p <= |s| ==> r <= |s|)
    ensures forall i | p <= i < r :: i < |s| && !Space(s[i]) && !Symbol(s[i])
    ensures r < |s| ==> Space(s[r]) || Symbol(s[r])
    decreases |s| - p
  {
    if p < |s| && !Space(s[p]) && !Symbol(s[p]) then SkipWord(s, p + 1) else p
  }

  /** The kind of a token ('a' for a word, '+' for >>, NUL at the end), its span, and the new cursor. */
  datatype Token = Token(kind: char, span: Span, pos: nat)

  function GetToken(s: string, p: nat): (t: Token)
    requires p <= |s|
    ensures p <= t.span.q <= t.span.eq <= t.pos <= |s|
    ensures t.kind != NUL ==> p < t.pos
  {
    var q := SkipSpace(s, p);
    var c := At(s, q);
    if c == NUL then Token(NUL, Span(q, q), SkipSpace(s, q))
    else if c == '>' then
      if At(s, q + 1) == '>' then Token('+', Span(q, q + 2), SkipSpace(s, q + 2))
      else Token('>', Span(q, q + 1), SkipSpace(s, q + 1))
    else if Symbol(c) then Token(c, Span(q, q + 1), SkipSpace(s, q + 1))
    else
      var e := SkipWord(s, q);
      Token('a', Span(q, e), SkipSpace(s, e))
  }

  /** peek: the next character that is not a space is one of toks. */
  predicate Peek(s: string, p: nat, toks: set<char>) {
    At(s, SkipSpace(s, p)) != NUL && At(s, SkipSpace(s, p)) in toks
  }

  // ----- The grammar

  type Redirs = seq<(Span, Direction)>

  /** redircmd around c, in the order the redirections were read. */
  function Wrap(c: Cmd, rs: Redirs): Cmd {
    if rs == [] then c else Redir(Wrap(c, rs[..|rs| - 1]), rs[|rs| - 1].0, rs[|rs| - 1].1)
  }

  function Wrapped(c: Cmd, r: Result<Redirs>): Result<Cmd> {
    match r
    case Panic(e) => Panic(e)
    case Ok(rs, p) => Ok(Wrap(c, rs), p)
  }

  /** parseredirs: the redirections from p on, after those in rs. */
  function ParseRedirs(s: string, p: nat, rs: Redirs): (r: Result<Redirs>)
    requires p <= |s|
    ensures r.Ok? ==> p <= r.pos <= |s|
    decreases |s| - p
  {
    if !Peek(s, p, {'<', '>'}) then Ok(rs, SkipSpace(s, p))
    else
      var t := GetToken(s, SkipSpace(s, p));
      var f := GetToken(s, t.pos);
      if f.kind != 'a' then Panic(MissingFile)
      else ParseRedirs(s, f.pos, rs + [(f.span, if t.kind == '<' then In else Out)])
  }

  /** The argument loop of parseexec. */
  function ParseArgs(s: string, p: nat, args: seq<Span>, rs: Redirs): (r: Result<Cmd>)
    requires p <= |s|
    ensures r.Ok? ==> p <= r.pos <= |s|
    decreases |s| - p
  {
    if Peek(s, p, {'|', ')', '&', ';'}) then Ok(Wrap(Exec(args), rs), SkipSpace(s, p))
    else
      var t := GetToken(s, SkipSpace(s, p));
      if t.kind == NUL then Ok(Wrap(Exec(args), rs), t.pos)
      else if t.kind != 'a' then Panic(Syntax)
      else if |args| + 1 >= MAXARGS then Panic(TooManyArgs)
      else
        match ParseRedirs(s, t.pos, rs)
        case Panic(e) => Panic(e)
        case Ok(rs', p') => ParseArgs(s, p', args + [t.span], rs')
  }

  function ParseBlock(s: string, p: nat): (r: Result<Cmd>)
    requires p <= |s| && Peek(s, p, {'('})
    ensures r.Ok? ==> p <= r.pos <= |s|
    decreases |s| - p, 0
  {
    var t := GetToken(s, SkipSpace(s, p));
    match ParseLine(s, t.pos)
    case Panic(e) => Panic(e)
    case Ok(c, p1) =>
      if !Peek(s, p1, {')'}) then Panic(MissingParen)
      else
        var t2 := GetToken(s, SkipSpace(s, p1));
        Wrapped(c, ParseRedirs(s, t2.pos, []))
  }

  function ParseExec(s: string, p: nat): (r: Result<Cmd>)
    requires p <= |s|
    ensures r.Ok? ==> p <= r.pos <= |s|
    decreases |s| - p, 1
  {
    if Peek(s, p, {'('}) then ParseBlock(s, p)
    else
      match ParseRedirs(s, SkipSpace(s, p), [])
      case Panic(e) => Panic(e)
      case Ok(rs, p') => ParseArgs(s, p', [], rs)
  }

  function ParsePipe(s: string, p: nat): (r: Result<Cmd>)
    requires p <= |s|
    ensures r.Ok? ==> p <= r.pos <= |s|
    decreases |s| - p, 2
  {
    match ParseExec(s, p)
    case Panic(e) => Panic(e)
    case Ok(c, p1) =>
      if !Peek(s, p1, {'|'}) then Ok(c, SkipSpace(s, p1))
      else
        match ParsePipe(s, GetToken(s, SkipSpace(s, p1)).pos)
        case Panic(e) => Panic(e)
        case Ok(d, p2) => Ok(Pipe(c, d), p2)
  }

  /** The & loop of parseline. */
  function ParseBacks(s: string, p: nat, c: Cmd): (r: Result<Cmd>)
    requires p <= |s|
    ensures r.Ok? && p <= r.pos <= |s|
    decreases |s| - p
  {
    if !Peek(s, p, {'&'}) then Ok(c, SkipSpace(s, p))
    else ParseBacks(s, GetToken(s, SkipSpace(s, p)).pos, Back(c))
  }

  function ParseLine(s: string, p: nat): (r: Result<Cmd>)
    requires p <= |s|
    ensures r.Ok? ==> p <= r.pos <= |s|
    decreases |s| - p, 3
  {
    match ParsePipe(s, p)
    case Panic(e) => Panic(e)
    case Ok(c0, p0) =>
      var Ok(c, p1) := ParseBacks(s, p0, c0);
      if !Peek(s, p1, {';'}) then Ok(c, SkipSpace(s, p1))
      else
        match ParseLine(s, GetToken(s, SkipSpace(s, p1)).pos)
        case Panic(e) => Panic(e)
        case Ok(d, p2) => Ok(List(c, d), p2)
  }

  /** parsecmd, without nulterminate. */
  function ParseCmd(s: string): Result<Cmd> {
    match ParseLine(s, 0)
    case Panic(e) => Panic(e)
    case Ok(c, p) => if SkipSpace(s, p) != |s| then Panic(Leftovers) else Ok(c, |s|)
  }
}
