/**
 The language of command lines, stated apart from the parser: how a line falls into tokens, and
 which token sequences stand for which command tree.
 */
module ShellGrammar {
  import opened Shell

  /** A word, by its place in the line, or a symbol; '+' stands for >>. */
  datatype Tok = W(sp: Span) | S(kind: char)

  predicate Blank(c: char) {
    c == ' ' || c == '\t' || c == '\r' || c == '\n' || c == '\U{0B}'
  }

  predicate Mark(c: char) {
    c == '<' || c == '|' || c == '>' || c == '&' || c == ';' || c == '(' || c == ')'
  }

  predicate Plain(c: char) {
    !Blank(c) && !Mark(c)
  }

  /** Token t is the part q..e of the line, with nothing but blanks between p and it. */
  predicate TokenAt(s: string, p: nat, q: nat, e: nat, t: Tok) {
    && p <= q < e <= |s| && (forall i | p <= i < q :: Blank(s[i]))
    && match t
       case W(sp) => sp == Span(q, e) && (forall i | q <= i < e :: Plain(s[i])) && (e < |s| ==> !Plain(s[e]))
       case S(k) =>
         if k == '+' then e == q + 2 && s[q] == '>' && s[q + 1] == '>'
         else Mark(k) && e == q + 1 && s[q] == k && (k == '>' && e < |s| ==> s[e] != '>')
  }

  /** The line from p on falls into tokens ts: longest words, and >> before >. */
  ghost predicate Lexed(s: string, p: nat, ts: seq<Tok>)
    decreases |ts|
  {
    if ts == [] then p <= |s| && forall i | p <= i < |s| :: Blank(s[i])
    else exists q: nat, e: nat :: TokenAt(s, p, q, e, ts[0]) && Lexed(s, e, ts[1..])
  }

  // ----- Commands
  //
  //   line     ::= job | job ';' line
  //   job      ::= pipeline | job '&'
  //   pipeline ::= unit | unit '|' pipeline
  //   unit     ::= '(' line ')' redir*  |  (word | redir)*   with at most nine words
  //   redir    ::= ('<' | '>' | '>>') word

  /** ts is a mix of these words and these redirections, each kind in its order. */
  predicate Items(ts: seq<Tok>, words: seq<Span>, rs: Redirs)
    decreases |ts|
  {
    if ts == [] then words == [] && rs == []
    else if ts[0].W? then words != [] && words[0] == ts[0].sp && Items(ts[1..], words[1..], rs)
    else
      && |ts| >= 2 && (ts[0].kind == '<' || ts[0].kind == '>' || ts[0].kind == '+') && ts[1].W?
      && rs != [] && rs[0] == (ts[1].sp, if ts[0].kind == '<' then In else Out) && Items(ts[2..], words, rs[1..])
  }

  /** c is inner with the redirections around it, the first one innermost. */
  predicate Nested(c: Cmd, inner: Cmd, rs: Redirs)
    decreases |rs|
  {
    if rs == [] then c == inner
    else
      var n := |rs| - 1;
      c.Redir? && c.file == rs[n].0 && c.dir == rs[n].1 && Nested(c.cmd, inner, rs[..n])
  }

  ghost predicate Simple(ts: seq<Tok>, c: Cmd) {
    exists words, rs :: Items(ts, words, rs) && |words| <= 9 && Nested(c, Exec(words), rs)
  }

  ghost predicate Group(ts: seq<Tok>, c: Cmd)
    decreases |ts|, 0
  {
    exists i, inner, rs | 0 < i < |ts| ::
      && ts[0] == S('(') && ts[i] == S(')') && Line(ts[1..i], inner)
      && Items(ts[i + 1..], [], rs) && Nested(c, inner, rs)
  }

  ghost predicate Unit(ts: seq<Tok>, c: Cmd)
    decreases |ts|, 1
  {
    Simple(ts, c) || Group(ts, c)
  }

  ghost predicate Pipeline(ts: seq<Tok>, c: Cmd)
    decreases |ts|, 2
  {
    Unit(ts, c)
    || (c.Pipe? && exists i | 0 <= i < |ts| :: ts[i] == S('|') && Unit(ts[..i], c.left) && Pipeline(ts[i + 1..], c.right))
  }

  ghost predicate Job(ts: seq<Tok>, c: Cmd)
    decreases |ts|, 3
  {
    Pipeline(ts, c) || (c.Back? && ts != [] && ts[|ts| - 1] == S('&') && Job(ts[..|ts| - 1], c.cmd))
  }

  ghost predicate Line(ts: seq<Tok>, c: Cmd)
    decreases |ts|, 4
  {
    Job(ts, c)
    || (c.List? && exists i | 0 <= i < |ts| :: ts[i] == S(';') && Job(ts[..i], c.left) && Line(ts[i + 1..], c.right))
  }

  /** The line stands for command c. */
  ghost predicate Derives(s: string, c: Cmd) {
    exists ts :: Lexed(s, 0, ts) && Line(ts, c)
  }

  // ----- Tokens of a line

  lemma {:induction false} SkippedBlank(s: string, p: nat)
    requires p <= |s|
    ensures forall i | p <= i < SkipSpace(s, p) :: Blank(s[i])
    decreases |s| - p
  {
    if p < |s| && Space(s[p]) { SkippedBlank(s, p + 1); }
  }

  function TokOf(t: Token): Tok {
    if t.kind == 'a' then W(t.span) else S(t.kind)
  }

  predicate NoNul(s: string) {
    forall i | 0 <= i < |s| :: s[i] != NUL
  }

  /** gettoken finds the next token, or the end of the line. */
  lemma TokenFound(s: string, p: nat)
    requires NoNul(s) && p <= |s|
    ensures var t := GetToken(s, p);
            if t.kind == NUL then forall i | p <= i < |s| :: Blank(s[i])
            else TokenAt(s, p, t.span.q, t.span.eq, TokOf(t)) && t.pos == SkipSpace(s, t.span.eq)
  {
    SkippedBlank(s, p);
  }

  /** The tokens from p on, as gettoken delivers them. */
  function Lex(s: string, p: nat): seq<Tok>
    requires p <= |s|
    decreases |s| - p
  {
    var t := GetToken(s, p);
    if t.kind == NUL then [] else [TokOf(t)] + Lex(s, t.pos)
  }

  lemma LexedBlank(s: string, p: nat, e: nat, ts: seq<Tok>)
    requires Lexed(s, p, ts) && e <= p <= |s| && forall i | e <= i < p :: Blank(s[i])
    ensures Lexed(s, e, ts)
  {
    if ts != [] {
      var q: nat, f: nat :| TokenAt(s, p, q, f, ts[0]) && Lexed(s, f, ts[1..]);
      assert TokenAt(s, e, q, f, ts[0]);
    }
  }

  lemma {:induction false} LexIsLexed(s: string, p: nat)
    requires NoNul(s) && p <= |s|
    ensures Lexed(s, p, Lex(s, p))
    decreases |s| - p
  {
    var t := GetToken(s, p);
    TokenFound(s, p);
    if t.kind != NUL {
      LexIsLexed(s, t.pos);
      SkippedBlank(s, t.span.eq);
      LexedBlank(s, t.pos, t.span.eq, Lex(s, t.pos));
      assert Lex(s, p)[1..] == Lex(s, t.pos);
      assert TokenAt(s, p, t.span.q, t.span.eq, Lex(s, p)[0]) && Lexed(s, t.span.eq, Lex(s, p)[1..]);
    }
  }

  lemma SameToken(s: string, p: nat, q: nat, e: nat, t: Tok, q': nat, e': nat, t': Tok)
    requires TokenAt(s, p, q, e, t) && TokenAt(s, p, q', e', t')
    ensures q == q' && e == e' && t == t'
  {
    assert !Blank(s[q]) && !Blank(s[q']);
  }

  lemma NotAllBlank(s: string, p: nat, ts: seq<Tok>)
    requires Lexed(s, p, ts)
    ensures ts == [] <==> forall i | p <= i < |s| :: Blank(s[i])
  {
    if ts != [] {
      var q: nat, e: nat :| TokenAt(s, p, q, e, ts[0]) && Lexed(s, e, ts[1..]);
      assert !Blank(s[q]);
    }
  }

  /** A line falls into tokens in one way. */
  lemma {:induction false} LexedOnce(s: string, p: nat, a: seq<Tok>, b: seq<Tok>)
    requires Lexed(s, p, a) && Lexed(s, p, b)
    ensures a == b
    decreases |a|
  {
    NotAllBlank(s, p, a);
    NotAllBlank(s, p, b);
    if a != [] {
      var q: nat, e: nat :| TokenAt(s, p, q, e, a[0]) && Lexed(s, e, a[1..]);
      var q': nat, e': nat :| TokenAt(s, p, q', e', b[0]) && Lexed(s, e', b[1..]);
      SameToken(s, p, q, e, a[0], q', e', b[0]);
      LexedOnce(s, e, a[1..], b[1..]);
    }
  }
}
