/** The parser accepts exactly the lines of the grammar, with the trees the grammar gives them. */
module ShellDerives {
  import opened Shell
  import opened ShellGrammar

  // ----- The parser's view of the tokens

  /** The first token is one of these symbols; >> begins like >. */
  predicate Begins(ts: seq<Tok>, marks: set<char>) {
    ts != [] && ts[0].S? && (if ts[0].kind == '+' then '>' else ts[0].kind) in marks
  }

  lemma {:induction false} SkipTwice(s: string, p: nat)
    requires p <= |s|
    ensures SkipSpace(s, SkipSpace(s, p)) == SkipSpace(s, p) <= |s|
  {
  }

  lemma TokenPastBlanks(s: string, p: nat)
    requires NoNul(s) && p <= |s|
    ensures SkipSpace(s, p) <= |s| && GetToken(s, SkipSpace(s, p)) == GetToken(s, p)
    ensures GetToken(s, p).kind == NUL <==> SkipSpace(s, p) == |s|
    ensures GetToken(s, p).kind == NUL ==> GetToken(s, p).pos == |s|
  {
    SkipTwice(s, p);
    hide SkipSpace, SkipWord;
  }

  /** Tokens are found past blanks, and taking one leaves the others. */
  lemma LexStep(s: string, p: nat)
    requires NoNul(s) && p <= |s|
    ensures SkipSpace(s, p) <= |s| && Lex(s, SkipSpace(s, p)) == Lex(s, p) && GetToken(s, SkipSpace(s, p)) == GetToken(s, p)
    ensures var t := GetToken(s, p);
            && (Lex(s, p) == [] <==> t.kind == NUL) && (Lex(s, p) == [] <==> SkipSpace(s, p) == |s|)
            && (t.kind == NUL ==> t.pos == |s|)
            && (t.kind != NUL ==> Lex(s, p)[0] == TokOf(t) && Lex(s, p)[1..] == Lex(s, t.pos) && p < t.pos)
  {
    hide GetToken, SkipSpace;
    TokenPastBlanks(s, p);
  }

  lemma PeekIs(s: string, p: nat, marks: set<char>)
    requires NoNul(s) && p <= |s| && forall c | c in marks :: Mark(c)
    ensures Peek(s, p, marks) <==> Begins(Lex(s, p), marks)
  {
    LexStep(s, p);
  }

  lemma {:induction false} NestedIff(c: Cmd, inner: Cmd, rs: Redirs)
    ensures Nested(c, inner, rs) <==> c == Wrap(inner, rs)
    decreases |rs|
  {
    if rs != [] && c.Redir? { NestedIff(c.cmd, inner, rs[..|rs| - 1]); }
  }

  lemma {:induction false} ItemsCat(a: seq<Tok>, w: seq<Span>, r: Redirs, b: seq<Tok>, w': seq<Span>, r': Redirs)
    requires Items(a, w, r) && Items(b, w', r')
    ensures Items(a + b, w + w', r + r')
    decreases |a|
  {
    if a == [] {
      assert a + b == b && w + w' == w' && r + r' == r';
    } else if a[0].W? {
      ItemsCat(a[1..], w[1..], r, b, w', r');
      Tail(a, b, 1);
      Tail(w, w', 1);
    } else {
      ItemsCat(a[2..], w, r[1..], b, w', r');
      Tail(a, b, 2);
      Tail(r, r', 1);
    }
  }

  lemma Tail<T>(a: seq<T>, b: seq<T>, k: nat)
    requires k <= |a|
    ensures (a + b)[k..] == a[k..] + b && (k > 0 ==> (a + b)[0] == a[0]) && (k > 1 ==> (a + b)[1] == a[1])
  {
  }

  lemma Cat<T>(a: seq<T>, b: seq<T>, c: seq<T>)
    ensures a + b + c == a + (b + c) && a + [] == a
  {
  }

  lemma ItemsNone()
    ensures Items([], [], [])
  {
  }

  // ----- Soundness: what the parser accepts derives its tree

  /** n tokens from p on were taken, and the cursor is at p'. */
  predicate Took(s: string, p: nat, n: nat, p': nat) {
    p <= |s| && p' <= |s| && n <= |Lex(s, p)| && Lex(s, p') == Lex(s, p)[n..]
  }

  lemma TookThen(s: string, p: nat, n: nat, p': nat, n': nat, p'': nat)
    requires Took(s, p, n, p') && Took(s, p', n', p'')
    ensures Took(s, p, n + n', p'')
    ensures Lex(s, p)[..n + n'] == Lex(s, p)[..n] + Lex(s, p')[..n']
  {
    hide Lex;
  }

  lemma TookOne(s: string, p: nat)
    requires NoNul(s) && p <= |s| && GetToken(s, p).kind != NUL
    ensures Took(s, p, 1, GetToken(s, p).pos) && Lex(s, p)[..1] == [TokOf(GetToken(s, p))]
    ensures Lex(s, p)[0] == TokOf(GetToken(s, p)) && p < GetToken(s, p).pos
  {
    LexStep(s, p);
  }

  lemma TookNone(s: string, p: nat)
    requires NoNul(s) && p <= |s|
    ensures Took(s, p, 0, p) && Took(s, p, 0, SkipSpace(s, p)) && Lex(s, p)[..0] == []
  {
    LexStep(s, p);
  }

  predicate IsRedir(ts: seq<Tok>) {
    |ts| >= 2 && Begins(ts, {'<', '>'}) && ts[1].W?
  }

  function RedirOf(ts: seq<Tok>): (Span, Direction)
    requires IsRedir(ts)
  {
    (ts[1].sp, if ts[0].kind == '<' then In else Out)
  }

  /** One round of parseredirs, by the tokens. */
  lemma RedirsStep(s: string, p: nat, rs: Redirs) returns (q: nat)
    requires NoNul(s) && p <= |s|
    ensures var ts := Lex(s, p);
            if !Begins(ts, {'<', '>'}) then ParseRedirs(s, p, rs) == Ok(rs, q) && Took(s, p, 0, q)
            else if IsRedir(ts) then
              Took(s, p, 2, q) && p < q && ParseRedirs(s, p, rs) == ParseRedirs(s, q, rs + [RedirOf(ts)])
            else ParseRedirs(s, p, rs).Panic?
  {
    LexStep(s, p);
    PeekIs(s, p, {'<', '>'});
    q := SkipSpace(s, p);
    if !Peek(s, p, {'<', '>'}) {
      TookNone(s, p);
    } else {
      var t := GetToken(s, p);
      var f := GetToken(s, t.pos);
      TookOne(s, p);
      LexStep(s, t.pos);
      if f.kind == 'a' {
        TookOne(s, t.pos);
        TookThen(s, p, 1, t.pos, 1, f.pos);
        q := f.pos;
      }
    }
  }

  lemma OneRedir(ts: seq<Tok>)
    requires IsRedir(ts)
    ensures Items(ts[..2], [], [RedirOf(ts)])
  {
    assert [RedirOf(ts)][1..] == [] && ts[..2][2..] == [];
  }

  lemma OneWord(sp: Span)
    ensures Items([W(sp)], [sp], [])
  {
    assert [W(sp)][1..] == [] && [sp][1..] == [];
  }

  /** The tokens taken between p and p' are a mix of these words and redirections. */
  predicate TookItems(s: string, p: nat, n: nat, p': nat, words: seq<Span>, rs: Redirs) {
    Took(s, p, n, p') && Items(Lex(s, p)[..n], words, rs)
  }

  lemma TookNothing(s: string, p: nat, q: nat)
    requires Took(s, p, 0, q)
    ensures TookItems(s, p, 0, q, [], [])
  {
    assert Lex(s, p)[..0] == [];
  }

  /** A redirection, and the ones behind it. */
  lemma RedirThen(s: string, p: nat, q: nat, k: nat, tail: Redirs, end: nat)
    requires Took(s, p, 2, q) && IsRedir(Lex(s, p)) && TookItems(s, q, k, end, [], tail)
    ensures TookItems(s, p, 2 + k, end, [], [RedirOf(Lex(s, p))] + tail)
  {
    hide *;
    RedirAt(s, p, q);
    var one := RedirOf(Lex(s, p));
    ItemsThen(s, p, 2, q, [], [one], k, end, [], tail);
    var none: seq<Span> := [];
    Cat(none, none, none);
  }

  lemma RedirAt(s: string, p: nat, q: nat)
    requires Took(s, p, 2, q) && IsRedir(Lex(s, p))
    ensures p <= |s| && IsRedir(Lex(s, p)) && TookItems(s, p, 2, q, [], [RedirOf(Lex(s, p))])
  {
    OneRedir(Lex(s, p));
  }

  /** A word, the redirections behind it, and the rest. */
  lemma WordThen(s: string, p: nat, q: nat, j: nat, r1: Redirs, p1: nat, k: nat, w2: seq<Span>, r2: Redirs, end: nat)
    requires Took(s, p, 1, q) && Lex(s, p)[0].W? && TookItems(s, q, j, p1, [], r1) && TookItems(s, p1, k, end, w2, r2)
    ensures TookItems(s, p, 1 + j + k, end, [Lex(s, p)[0].sp] + w2, r1 + r2)
  {
    hide *;
    WordAt(s, p, q);
    var sp := Lex(s, p)[0].sp;
    ItemsThen(s, p, 1, q, [sp], [], j, p1, [], r1);
    ItemsThen(s, p, 1 + j, p1, [sp] + [], [] + r1, k, end, w2, r2);
    assert [sp] + [] == [sp] && [] + r1 == r1;
  }

  lemma WordAt(s: string, p: nat, q: nat)
    requires Took(s, p, 1, q) && Lex(s, p)[0].W?
    ensures p <= |s| && |Lex(s, p)| >= 1 && TookItems(s, p, 1, q, [Lex(s, p)[0].sp], [])
  {
    hide Lex;
    OneWord(Lex(s, p)[0].sp);
    assert Lex(s, p)[..1] == [W(Lex(s, p)[0].sp)];
  }

  lemma {:induction false} RedirsSound(s: string, p: nat, rs: Redirs) returns (n: nat, more: Redirs)
    requires NoNul(s) && p <= |s| && ParseRedirs(s, p, rs).Ok?
    ensures var r := ParseRedirs(s, p, rs); TookItems(s, p, n, r.pos, [], more) && r.value == rs + more
    decreases |s| - p
  {
    var q := RedirsStep(s, p, rs);
    var ts := Lex(s, p);
    if !Begins(ts, {'<', '>'}) {
      n, more := 0, [];
      TookNothing(s, p, q);
      Cat(rs, [], []);
    } else {
      hide Lex, ParseRedirs, TookItems;
      var k, tail := RedirsSound(s, q, rs + [RedirOf(ts)]);
      n, more := 2 + k, [RedirOf(ts)] + tail;
      RedirThen(s, p, q, k, tail, ParseRedirs(s, p, rs).pos);
      Cat(rs, [RedirOf(ts)], tail);
    }
  }

  /** parseexec's loop ends here. */
  predicate Stops(ts: seq<Tok>) {
    ts == [] || Begins(ts, {'|', ')', '&', ';'})
  }

  /** One round of parseexec's loop, by the tokens. */
  lemma ArgsStep(s: string, p: nat, args: seq<Span>, rs: Redirs) returns (q: nat)
    requires NoNul(s) && p <= |s|
    ensures var ts := Lex(s, p);
            if Stops(ts) then
              ParseArgs(s, p, args, rs) == Ok(Wrap(Exec(args), rs), q) && Took(s, p, 0, q)
            else if ts[0].W? && |args| <= 8 then
              && Took(s, p, 1, q) && p < q
              && (ParseRedirs(s, q, rs).Panic? ==> ParseArgs(s, p, args, rs).Panic?)
              && (ParseRedirs(s, q, rs).Ok? ==>
                    var r := ParseRedirs(s, q, rs); ParseArgs(s, p, args, rs) == ParseArgs(s, r.pos, args + [ts[0].sp], r.value))
            else ParseArgs(s, p, args, rs).Panic?
  {
    LexStep(s, p);
    PeekIs(s, p, {'|', ')', '&', ';'});
    TookNone(s, p);
    q := SkipSpace(s, p);
    var t := GetToken(s, p);
    if !Peek(s, p, {'|', ')', '&', ';'}) {
      if t.kind == NUL {
        q := |s|;
        LexStep(s, |s|);
      } else {
        TookOne(s, p);
        q := t.pos;
      }
    }
  }

  predicate ArgsDone(s: string, p: nat, args: seq<Span>, rs: Redirs, n: nat, words: seq<Span>, more: Redirs)
    requires p <= |s|
  {
    var r := ParseArgs(s, p, args, rs);
    && r.Ok? && TookItems(s, p, n, r.pos, words, more) && r.value == Wrap(Exec(args + words), rs + more)
    && |args| + |words| <= 9
  }

  lemma ArgsMore(s: string, p: nat, args: seq<Span>, rs: Redirs, q: nat, j: nat, r1: Redirs, p1: nat,
                 k: nat, w2: seq<Span>, r2: Redirs)
    requires Took(s, p, 1, q) && Lex(s, p)[0].W? && TookItems(s, q, j, p1, [], r1) && p1 <= |s|
    requires ParseArgs(s, p, args, rs) == ParseArgs(s, p1, args + [Lex(s, p)[0].sp], rs + r1)
    requires ArgsDone(s, p1, args + [Lex(s, p)[0].sp], rs + r1, k, w2, r2)
    ensures ArgsDone(s, p, args, rs, 1 + j + k, [Lex(s, p)[0].sp] + w2, r1 + r2)
  {
    hide Lex, ParseArgs, Wrap, TookItems;
    WordThen(s, p, q, j, r1, p1, k, w2, r2, ParseArgs(s, p, args, rs).pos);
    Cat(args, [Lex(s, p)[0].sp], w2);
    Cat(rs, r1, r2);
  }

  lemma ArgsNone(s: string, p: nat, args: seq<Span>, rs: Redirs, q: nat)
    requires p <= |s| && ParseArgs(s, p, args, rs) == Ok(Wrap(Exec(args), rs), q) && Took(s, p, 0, q) && |args| <= 9
    ensures ArgsDone(s, p, args, rs, 0, [], [])
  {
    hide Lex, ParseArgs, Wrap;
    TookNothing(s, p, q);
    Cat(args, [], []);
    Cat(rs, [], []);
  }

  lemma {:induction false} ArgsSound(s: string, p: nat, args: seq<Span>, rs: Redirs)
    returns (n: nat, words: seq<Span>, more: Redirs)
    requires NoNul(s) && p <= |s| && |args| <= 9 && ParseArgs(s, p, args, rs).Ok?
    ensures ArgsDone(s, p, args, rs, n, words, more)
    decreases |s| - p, 1
  {
    var q := ArgsStep(s, p, args, rs);
    hide Lex, ParseRedirs, ParseArgs, Wrap, TookItems, Stops, ArgsDone;
    if Stops(Lex(s, p)) {
      n, words, more := 0, [], [];
      ArgsNone(s, p, args, rs, q);
    } else {
      n, words, more := WordSound(s, p, args, rs, q);
    }
  }

  lemma {:induction false} WordSound(s: string, p: nat, args: seq<Span>, rs: Redirs, q: nat)
    returns (n: nat, words: seq<Span>, more: Redirs)
    requires NoNul(s) && p < q && Took(s, p, 1, q) && Lex(s, p)[0].W? && |args| <= 8 && ParseRedirs(s, q, rs).Ok?
    requires var r := ParseRedirs(s, q, rs);
             && ParseArgs(s, r.pos, args + [Lex(s, p)[0].sp], r.value).Ok?
             && ParseArgs(s, p, args, rs) == ParseArgs(s, r.pos, args + [Lex(s, p)[0].sp], r.value)
    ensures ArgsDone(s, p, args, rs, n, words, more)
    decreases |s| - p, 0
  {
    hide Lex, ParseRedirs, ParseArgs, Wrap, TookItems, ArgsDone;
    var sp, p1 := Lex(s, p)[0].sp, ParseRedirs(s, q, rs).pos;
    var j, r1 := RedirsSound(s, q, rs);
    var k, w2, r2 := ArgsSound(s, p1, args + [sp], rs + r1);
    n, words, more := 1 + j + k, [sp] + w2, r1 + r2;
    ArgsMore(s, p, args, rs, q, j, r1, p1, k, w2, r2);
  }

  // ----- Units, pipelines, jobs and lines

  ghost predicate UnitAt(s: string, p: nat, n: nat, p': nat, c: Cmd) {
    Took(s, p, n, p') && Unit(Lex(s, p)[..n], c)
  }

  ghost predicate PipeAt(s: string, p: nat, n: nat, p': nat, c: Cmd) {
    Took(s, p, n, p') && Pipeline(Lex(s, p)[..n], c)
  }

  ghost predicate JobAt(s: string, p: nat, n: nat, p': nat, c: Cmd) {
    Took(s, p, n, p') && Job(Lex(s, p)[..n], c)
  }

  ghost predicate LineAt(s: string, p: nat, n: nat, p': nat, c: Cmd) {
    Took(s, p, n, p') && Line(Lex(s, p)[..n], c)
  }

  /** The next token is the symbol k, and q is behind it. */
  ghost predicate Sym(s: string, p: nat, k: char, q: nat) {
    Took(s, p, 1, q) && Lex(s, p)[0] == S(k) && p < q
  }

  /** Looking for one symbol, other than >, and passing it. */
  lemma SymStep(s: string, p: nat, k: char) returns (q: nat)
    requires NoNul(s) && p <= |s| && Mark(k) && k != '>'
    ensures Peek(s, p, {k}) <==> Begins(Lex(s, p), {k})
    ensures q <= |s|
    ensures Begins(Lex(s, p), {k}) ==> q == GetToken(s, SkipSpace(s, p)).pos && p < q && Sym(s, p, k, q)
    ensures !Begins(Lex(s, p), {k}) ==> q == SkipSpace(s, p) && Took(s, p, 0, q)
  {
    LexStep(s, p);
    PeekIs(s, p, {k});
    TookNone(s, p);
    q := SkipSpace(s, p);
    if Peek(s, p, {k}) {
      TookOne(s, p);
      q := GetToken(s, p).pos;
    }
  }

  lemma SliceThree(s: string, p: nat, n: nat, p1: nat, k: char, q: nat, m: nat, p2: nat)
    requires Took(s, p, n, p1) && Sym(s, p1, k, q) && Took(s, q, m, p2)
    ensures Took(s, p, n + 1 + m, p2) && n + 1 + m <= |Lex(s, p)|
    ensures var ts := Lex(s, p)[..n + 1 + m]; ts[n] == S(k) && ts[..n] == Lex(s, p)[..n] && ts[n + 1..] == Lex(s, q)[..m]
  {
    hide Lex;
    TookThen(s, p, n, p1, 1, q);
    TookThen(s, p, n + 1, q, m, p2);
  }

  lemma PipelineOf(ts: seq<Tok>, n: nat, c: Cmd, d: Cmd)
    requires n < |ts| && ts[n] == S('|') && Unit(ts[..n], c) && Pipeline(ts[n + 1..], d)
    ensures Pipeline(ts, Pipe(c, d))
  {
    hide Unit;
  }

  lemma PipeThen(s: string, p: nat, n: nat, p1: nat, c: Cmd, q: nat, m: nat, p2: nat, d: Cmd)
    requires UnitAt(s, p, n, p1, c) && Sym(s, p1, '|', q) && PipeAt(s, q, m, p2, d)
    ensures PipeAt(s, p, n + 1 + m, p2, Pipe(c, d))
  {
    SliceThree(s, p, n, p1, '|', q, m, p2);
    hide Lex, Took, Sym, Unit;
    var ts := Lex(s, p)[..n + 1 + m];
    PipelineOf(ts, n, c, d);
  }

  lemma ListOf(ts: seq<Tok>, n: nat, c: Cmd, d: Cmd)
    requires n < |ts| && ts[n] == S(';') && Job(ts[..n], c) && Line(ts[n + 1..], d)
    ensures Line(ts, List(c, d))
  {
    hide Job;
  }

  lemma LineThen(s: string, p: nat, n: nat, p1: nat, c: Cmd, q: nat, m: nat, p2: nat, d: Cmd)
    requires JobAt(s, p, n, p1, c) && Sym(s, p1, ';', q) && LineAt(s, q, m, p2, d)
    ensures LineAt(s, p, n + 1 + m, p2, List(c, d))
  {
    SliceThree(s, p, n, p1, ';', q, m, p2);
    hide Lex, Took, Sym, Job;
    var ts := Lex(s, p)[..n + 1 + m];
    ListOf(ts, n, c, d);
  }

  lemma BackThen(s: string, p: nat, n: nat, p1: nat, c: Cmd, q: nat)
    requires JobAt(s, p, n, p1, c) && Sym(s, p1, '&', q)
    ensures JobAt(s, p, n + 1, q, Back(c))
  {
    TookThen(s, p, n, p1, 1, q);
    hide Lex, Pipeline;
    var ts := Lex(s, p)[..n + 1];
    assert ts[n] == S('&') && ts[..n] == Lex(s, p)[..n];
  }

  /** A parenthesised line with redirections behind it. */
  lemma GroupThen(s: string, p: nat, q: nat, n: nat, p1: nat, c: Cmd, q1: nat, m: nat, rs: Redirs, end: nat)
    requires Sym(s, p, '(', q) && LineAt(s, q, n, p1, c) && Sym(s, p1, ')', q1) && TookItems(s, q1, m, end, [], rs)
    ensures UnitAt(s, p, 1 + n + 1 + m, end, Wrap(c, rs))
  {
    NestedIff(Wrap(c, rs), c, rs);
    SliceThree(s, q, n, p1, ')', q1, m, end);
    TookThen(s, p, 1, q, n + 1 + m, end);
    hide Lex, Line, Items, Nested, Wrap;
    var ts, inner := Lex(s, p)[..1 + n + 1 + m], Lex(s, q)[..n + 1 + m];
    assert ts[1..] == inner;
    var i := n + 1;
    assert ts[1..i] == inner[..n] && ts[i + 1..] == inner[n + 1..];
    assert 0 < i < |ts| && ts[0] == S('(') && ts[i] == S(')') && Line(ts[1..i], c) && Items(ts[i + 1..], [], rs);
    assert Group(ts, Wrap(c, rs));
  }

  lemma SimpleAt(s: string, p: nat, n: nat, end: nat, words: seq<Span>, rs: Redirs)
    requires TookItems(s, p, n, end, words, rs) && |words| <= 9
    ensures UnitAt(s, p, n, end, Wrap(Exec(words), rs))
  {
    NestedIff(Wrap(Exec(words), rs), Exec(words), rs);
    hide Lex, Items, Nested, Wrap;
    assert Simple(Lex(s, p)[..n], Wrap(Exec(words), rs));
  }

  lemma UnitIsPipe(s: string, p: nat, n: nat, p': nat, c: Cmd, q: nat)
    requires UnitAt(s, p, n, p', c) && Took(s, p', 0, q)
    ensures PipeAt(s, p, n, q, c)
  {
    TookThen(s, p, n, p', 0, q);
    hide Lex, Unit;
  }

  lemma PipeIsJob(s: string, p: nat, n: nat, p': nat, c: Cmd)
    requires PipeAt(s, p, n, p', c)
    ensures JobAt(s, p, n, p', c)
  {
  }

  lemma JobIsLine(s: string, p: nat, n: nat, p': nat, c: Cmd, q: nat)
    requires JobAt(s, p, n, p', c) && Took(s, p', 0, q)
    ensures LineAt(s, p, n, q, c) && JobAt(s, p, n, q, c)
  {
    TookThen(s, p, n, p', 0, q);
    hide Lex, Job;
  }

  lemma {:induction false} BacksSound(s: string, p0: nat, n: nat, p: nat, c: Cmd) returns (m: nat)
    requires NoNul(s) && p <= |s| && JobAt(s, p0, n, p, c)
    ensures var r := ParseBacks(s, p, c); JobAt(s, p0, m, r.pos, r.value)
    decreases |s| - p
  {
    var q := SymStep(s, p, '&');
    hide Lex, Job;
    if Begins(Lex(s, p), {'&'}) {
      BackThen(s, p0, n, p, c, q);
      m := BacksSound(s, p0, n + 1, q, Back(c));
    } else {
      JobIsLine(s, p0, n, p, c, q);
      m := n;
    }
  }

  lemma ItemsThen(s: string, p: nat, n: nat, p1: nat, w1: seq<Span>, r1: Redirs, n2: nat, p2: nat, w2: seq<Span>, r2: Redirs)
    requires TookItems(s, p, n, p1, w1, r1) && TookItems(s, p1, n2, p2, w2, r2)
    ensures TookItems(s, p, n + n2, p2, w1 + w2, r1 + r2)
  {
    TookThen(s, p, n, p1, n2, p2);
    ItemsCat(Lex(s, p)[..n], w1, r1, Lex(s, p1)[..n2], w2, r2);
  }

  lemma ItemsFrom(s: string, p: nat, q: nat, n: nat, p1: nat, w: seq<Span>, r: Redirs)
    requires Took(s, p, 0, q) && TookItems(s, q, n, p1, w, r)
    ensures TookItems(s, p, n, p1, w, r)
  {
    hide Lex;
    assert Lex(s, p)[0..] == Lex(s, p);
  }

  lemma ArgsDoneIs(s: string, p: nat, rs: Redirs, n: nat, words: seq<Span>, more: Redirs)
    requires p <= |s| && ArgsDone(s, p, [], rs, n, words, more)
    ensures var r := ParseArgs(s, p, [], rs);
            r.Ok? && TookItems(s, p, n, r.pos, words, more) && r.value == Wrap(Exec(words), rs + more) && |words| <= 9
  {
    assert [] + words == words;
  }

  /** Redirections, then words with redirections behind them. */
  lemma PlainSound(s: string, p: nat, q: nat, j: nat, r1: Redirs, p1: nat, k: nat, words: seq<Span>, r2: Redirs)
    requires Took(s, p, 0, q) && TookItems(s, q, j, p1, [], r1) && p1 <= |s| && ArgsDone(s, p1, [], r1, k, words, r2)
    ensures var r := ParseArgs(s, p1, [], r1); UnitAt(s, p, j + k, r.pos, r.value)
  {
    hide *;
    ArgsDoneIs(s, p1, r1, k, words, r2);
    var end := ParseArgs(s, p1, [], r1).pos;
    ItemsFrom(s, p, q, j, p1, [], r1);
    ItemsThen(s, p, j, p1, [], r1, k, end, words, r2);
    assert [] + words == words;
    SimpleAt(s, p, j + k, end, words, r1 + r2);
  }

  lemma ExecStep(s: string, p: nat)
    requires NoNul(s) && p <= |s| && !Peek(s, p, {'('})
    ensures var q := SkipSpace(s, p);
            && q <= |s|
            && (ParseRedirs(s, q, []).Panic? ==> ParseExec(s, p).Panic?)
            && (ParseRedirs(s, q, []).Ok? ==>
                  ParseExec(s, p) == ParseArgs(s, ParseRedirs(s, q, []).pos, [], ParseRedirs(s, q, []).value))
  {
    hide ParseRedirs, ParseArgs;
  }

  /** What parseblock does at a parenthesis, by the tokens. */
  lemma BlockStep(s: string, p: nat, q: nat) returns (q1: nat)
    requires NoNul(s) && p <= |s| && Begins(Lex(s, p), {'('}) && Peek(s, p, {'('})
    requires q == GetToken(s, SkipSpace(s, p)).pos && q <= |s|
    ensures q1 <= |s|
    ensures ParseLine(s, q).Panic? ==> ParseExec(s, p).Panic?
    ensures ParseLine(s, q).Ok? ==>
              var inner := ParseLine(s, q);
              if Begins(Lex(s, inner.pos), {')'}) then
                && Sym(s, inner.pos, ')', q1)
                && (ParseRedirs(s, q1, []).Panic? ==> ParseExec(s, p).Panic?)
                && (ParseRedirs(s, q1, []).Ok? ==>
                      ParseExec(s, p) == Ok(Wrap(inner.value, ParseRedirs(s, q1, []).value), ParseRedirs(s, q1, []).pos))
              else ParseExec(s, p).Panic?
  {
    hide Lex, ParseLine, ParseRedirs;
    q1 := 0;
    if ParseLine(s, q).Ok? {
      q1 := SymStep(s, ParseLine(s, q).pos, ')');
    }
  }

  lemma {:induction false} BlockSound(s: string, p: nat, q: nat) returns (n: nat)
    requires NoNul(s) && p <= |s| && Begins(Lex(s, p), {'('}) && Peek(s, p, {'('})
    requires q == GetToken(s, SkipSpace(s, p)).pos && p < q <= |s| && Sym(s, p, '(', q) && ParseExec(s, p).Ok?
    ensures var r := ParseExec(s, p); UnitAt(s, p, n, r.pos, r.value)
    decreases |s| - p, 0
  {
    hide *;
    var q1 := BlockStep(s, p, q);
    var inner := ParseLine(s, q);
    var k := LineSound(s, q);
    var m, rs := RedirsSound(s, q1, []);
    assert [] + rs == rs;
    GroupThen(s, p, q, k, inner.pos, inner.value, q1, m, rs, ParseRedirs(s, q1, []).pos);
    n := 1 + k + 1 + m;
  }

  lemma {:induction false} ExecSound(s: string, p: nat) returns (n: nat)
    requires NoNul(s) && p <= |s| && ParseExec(s, p).Ok?
    ensures var r := ParseExec(s, p); UnitAt(s, p, n, r.pos, r.value)
    decreases |s| - p, 1
  {
    hide *;
    var q := SymStep(s, p, '(');
    if Begins(Lex(s, p), {'('}) {
      n := BlockSound(s, p, q);
    } else {
      ExecStep(s, p);
      var j, r1 := RedirsSound(s, q, []);
      assert [] + r1 == r1;
      var p1 := ParseRedirs(s, q, []).pos;
      var k, w2, r2 := ArgsSound(s, p1, [], r1);
      PlainSound(s, p, q, j, r1, p1, k, w2, r2);
      n := j + k;
    }
  }

  /** What parsepipe does behind its first command. */
  lemma PipeStep(s: string, p: nat) returns (q: nat)
    requires NoNul(s) && p <= |s|
    ensures q <= |s|
    ensures ParseExec(s, p).Panic? ==> ParsePipe(s, p).Panic?
    ensures ParseExec(s, p).Ok? ==>
              var first := ParseExec(s, p);
              if Begins(Lex(s, first.pos), {'|'}) then
                && first.pos < q && Sym(s, first.pos, '|', q)
                && (ParsePipe(s, q).Panic? ==> ParsePipe(s, p).Panic?)
                && (ParsePipe(s, q).Ok? ==>
                      ParsePipe(s, p) == Ok(Pipe(first.value, ParsePipe(s, q).value), ParsePipe(s, q).pos))
              else Took(s, first.pos, 0, q) && ParsePipe(s, p) == Ok(first.value, q)
  {
    hide Lex, ParseExec;
    q := 0;
    if ParseExec(s, p).Ok? {
      q := SymStep(s, ParseExec(s, p).pos, '|');
    }
  }

  lemma {:induction false} PipeSound(s: string, p: nat) returns (n: nat)
    requires NoNul(s) && p <= |s| && ParsePipe(s, p).Ok?
    ensures var r := ParsePipe(s, p); PipeAt(s, p, n, r.pos, r.value)
    decreases |s| - p, 2
  {
    hide *;
    var q := PipeStep(s, p);
    var first := ParseExec(s, p);
    var k := ExecSound(s, p);
    if Begins(Lex(s, first.pos), {'|'}) {
      var m := PipeSound(s, q);
      PipeThen(s, p, k, first.pos, first.value, q, m, ParsePipe(s, q).pos, ParsePipe(s, q).value);
      n := k + 1 + m;
    } else {
      UnitIsPipe(s, p, k, first.pos, first.value, q);
      n := k;
    }
  }

  /** What parseline does behind its first job. */
  lemma LineStep(s: string, p: nat) returns (q: nat)
    requires NoNul(s) && p <= |s|
    ensures q <= |s|
    ensures ParsePipe(s, p).Panic? ==> ParseLine(s, p).Panic?
    ensures ParsePipe(s, p).Ok? ==>
              var first := ParseBacks(s, ParsePipe(s, p).pos, ParsePipe(s, p).value);
              if Begins(Lex(s, first.pos), {';'}) then
                && first.pos < q && Sym(s, first.pos, ';', q)
                && (ParseLine(s, q).Panic? ==> ParseLine(s, p).Panic?)
                && (ParseLine(s, q).Ok? ==>
                      ParseLine(s, p) == Ok(List(first.value, ParseLine(s, q).value), ParseLine(s, q).pos))
              else Took(s, first.pos, 0, q) && ParseLine(s, p) == Ok(first.value, q)
  {
    hide Lex, ParsePipe, ParseBacks;
    q := 0;
    if ParsePipe(s, p).Ok? {
      q := SymStep(s, ParseBacks(s, ParsePipe(s, p).pos, ParsePipe(s, p).value).pos, ';');
    }
  }

  lemma {:induction false} LineSound(s: string, p: nat) returns (n: nat)
    requires NoNul(s) && p <= |s| && ParseLine(s, p).Ok?
    ensures var r := ParseLine(s, p); LineAt(s, p, n, r.pos, r.value)
    decreases |s| - p, 3
  {
    hide *;
    var q := LineStep(s, p);
    var pipe := ParsePipe(s, p);
    var k0 := PipeSound(s, p);
    PipeIsJob(s, p, k0, pipe.pos, pipe.value);
    var k := BacksSound(s, p, k0, pipe.pos, pipe.value);
    var first := ParseBacks(s, pipe.pos, pipe.value);
    if Begins(Lex(s, first.pos), {';'}) {
      var m := LineSound(s, q);
      LineThen(s, p, k, first.pos, first.value, q, m, ParseLine(s, q).pos, ParseLine(s, q).value);
      n := k + 1 + m;
    } else {
      JobIsLine(s, p, k, first.pos, first.value, q);
      n := k;
    }
  }

  // ----- Completeness: what derives a tree is parsed to it

  /** From p on the line has the tokens ts. */
  predicate Left(s: string, p: nat, ts: seq<Tok>) {
    p <= |s| && Lex(s, p) == ts
  }

  lemma LeftTook(s: string, p: nat, n: nat, q: nat, a: seq<Tok>, b: seq<Tok>)
    requires Left(s, p, a + b) && |a| == n && Took(s, p, n, q)
    ensures Left(s, q, b)
  {
    hide Lex;
    assert (a + b)[n..] == b;
  }

  lemma LeftSym(s: string, p: nat, k: char, q: nat, b: seq<Tok>)
    requires Left(s, p, [S(k)] + b) && Sym(s, p, k, q)
    ensures Left(s, q, b)
  {
    LeftTook(s, p, 1, q, [S(k)], b);
  }

  lemma LeftSame(s: string, p: nat, q: nat, b: seq<Tok>)
    requires Left(s, p, b) && Took(s, p, 0, q)
    ensures Left(s, q, b)
  {
    assert [] + b == b;
    LeftTook(s, p, 0, q, [], b);
  }

  lemma FirstRedir(u: seq<Tok>, rest: seq<Tok>, rs: Redirs)
    requires u != [] && Items(u, [], rs)
    ensures |u| >= 2 && rs != [] && Items(u[2..], [], rs[1..]) && u + rest == u[..2] + (u[2..] + rest)
    ensures Begins(u + rest, {'<', '>'}) && IsRedir(u + rest) && RedirOf(u + rest) == rs[0]
  {
  }

  lemma NoItems(words: seq<Span>, rs: Redirs)
    requires Items([], words, rs)
    ensures words == [] && rs == []
  {
  }

  lemma {:induction false} RedirsComplete(s: string, p: nat, u: seq<Tok>, rest: seq<Tok>, rs0: Redirs, rs: Redirs) returns (q: nat)
    requires NoNul(s) && Left(s, p, u + rest) && p <= |s| && Items(u, [], rs) && !Begins(rest, {'<', '>'})
    ensures q <= |s| && ParseRedirs(s, p, rs0) == Ok(rs0 + rs, q) && Left(s, q, rest)
    decreases |u|
  {
    hide *;
    LeftIs(s, p, u + rest);
    var q1 := RedirsStep(s, p, rs0);
    if u == [] {
      NoItems([], rs);
      assert u + rest == rest;
      q := q1;
      LeftSame(s, p, q, rest);
      LeftIs(s, q, rest);
      Cat(rs0, [], []);
    } else {
      FirstRedir(u, rest, rs);
      LeftTook(s, p, 2, q1, u[..2], u[2..] + rest);
      LeftIs(s, q1, u[2..] + rest);
      q := RedirsComplete(s, q1, u[2..], rest, rs0 + [rs[0]], rs[1..]);
      Cat(rs0, [rs[0]], rs[1..]);
      assert [rs[0]] + rs[1..] == rs;
    }
  }

  lemma LeftIs(s: string, p: nat, ts: seq<Tok>)
    requires Left(s, p, ts)
    ensures p <= |s| && Lex(s, p) == ts
  {
  }

  /** The redirections before the first word. */
  lemma {:induction false} ItemsSplit(u: seq<Tok>, words: seq<Span>, rs: Redirs) returns (k: nat, j: nat)
    requires Items(u, words, rs)
    ensures k <= |u| && j <= |rs| && Items(u[..k], [], rs[..j]) && Items(u[k..], words, rs[j..])
    ensures k == |u| || u[k].W?
    decreases |u|
  {
    if u == [] || u[0].W? {
      k, j := 0, 0;
      assert u[..0] == [] && rs[..0] == [] && u[0..] == u && rs[0..] == rs;
      ItemsNone();
    } else {
      var k', j' := ItemsSplit(u[2..], words, rs[1..]);
      k, j := k' + 2, j' + 1;
      OneRedir(u);
      ItemsCat(u[..2], [], [RedirOf(u)], u[2..][..k'], [], rs[1..][..j']);
      SplitBack(u, rs, k', j');
      assert [RedirOf(u)] == rs[..1];
    }
  }

  lemma SplitBack(u: seq<Tok>, rs: Redirs, k: nat, j: nat)
    requires |u| >= 2 && rs != [] && k + 2 <= |u| && j + 1 <= |rs|
    ensures u[..2] + u[2..][..k] == u[..k + 2] && u[2..][k..] == u[k + 2..]
    ensures rs[..1] + rs[1..][..j] == rs[..j + 1] && rs[1..][j..] == rs[j + 1..]
    ensures var none: seq<Span> := []; none + none == none
  {
  }

  lemma FirstWord(u: seq<Tok>, rest: seq<Tok>, words: seq<Span>, rs: Redirs)
    requires u != [] && u[0].W? && Items(u, words, rs)
    ensures words != [] && Items(u[1..], words[1..], rs) && u[0].sp == words[0]
    ensures u + rest == u[..1] + (u[1..] + rest) && |u[..1]| == 1 && (u + rest)[0] == u[0] && !Stops(u + rest)
  {
    WordFirst(u, rest);
    hide Stops;
  }

  lemma WordFirst(u: seq<Tok>, rest: seq<Tok>)
    requires u != [] && u[0].W?
    ensures u + rest == u[..1] + (u[1..] + rest) && |u[..1]| == 1 && (u + rest)[0] == u[0] && !Stops(u + rest)
  {
  }

  /** Behind the redirections comes a word or the end of the command, so no further redirection. */
  lemma NoMoreRedirs(v: seq<Tok>, rest: seq<Tok>)
    requires (v == [] || v[0].W?) && Stops(rest)
    ensures !Begins(v + rest, {'<', '>'})
  {
    if v == [] { assert v + rest == rest; }
  }

  lemma {:induction false} ArgsComplete(s: string, p: nat, u: seq<Tok>, rest: seq<Tok>, args: seq<Span>, rs0: Redirs,
                                        words: seq<Span>, rs: Redirs) returns (q: nat)
    requires NoNul(s) && p <= |s| && Left(s, p, u + rest) && Items(u, words, rs) && (u == [] || u[0].W?)
    requires Stops(rest) && |args| + |words| <= 9
    ensures q <= |s| && ParseArgs(s, p, args, rs0) == Ok(Wrap(Exec(args + words), rs0 + rs), q) && Left(s, q, rest)
    decreases |u|
  {
    hide *;
    LeftIs(s, p, u + rest);
    var q1 := ArgsStep(s, p, args, rs0);
    if u == [] {
      NoItems(words, rs);
      assert u + rest == rest;
      q := q1;
      LeftSame(s, p, q, rest);
      LeftIs(s, q, rest);
      Cat(args, [], []);
      Cat(rs0, [], []);
    } else {
      FirstWord(u, rest, words, rs);
      LeftTook(s, p, 1, q1, u[..1], u[1..] + rest);
      LeftIs(s, q1, u[1..] + rest);
      var v := u[1..];
      var k, j := ItemsSplit(v, words[1..], rs);
      NoMoreRedirs(v[k..], rest);
      Parted(v, rest, k);
      var q2 := RedirsComplete(s, q1, v[..k], v[k..] + rest, rs0, rs[..j]);
      q := ArgsComplete(s, q2, v[k..], rest, args + [words[0]], rs0 + rs[..j], words[1..], rs[j..]);
      Rejoin(args, words, rs0, rs, j);
    }
  }

  lemma Parted(v: seq<Tok>, rest: seq<Tok>, k: nat)
    requires k <= |v|
    ensures v[..k] + (v[k..] + rest) == v + rest && |v[k..]| == |v| - k && (k < |v| ==> v[k..] != [] && v[k..][0] == v[k])
    ensures k == |v| ==> v[k..] == []
  {
  }

  lemma Rejoin(args: seq<Span>, words: seq<Span>, rs0: Redirs, rs: Redirs, j: nat)
    requires words != [] && j <= |rs|
    ensures Wrap(Exec(args + [words[0]] + words[1..]), rs0 + rs[..j] + rs[j..]) == Wrap(Exec(args + words), rs0 + rs)
  {
    assert args + [words[0]] + words[1..] == args + words && rs0 + rs[..j] + rs[j..] == rs0 + rs;
  }

  /** A simple command does not begin with a parenthesis. */
  lemma NoParen(u: seq<Tok>, rest: seq<Tok>, words: seq<Span>, rs: Redirs)
    requires Items(u, words, rs) && Stops(rest)
    ensures !Begins(u + rest, {'('})
  {
    if u == [] { assert u + rest == rest; }
  }

  lemma SimpleComplete(s: string, p: nat, u: seq<Tok>, rest: seq<Tok>, words: seq<Span>, rs: Redirs) returns (q: nat)
    requires NoNul(s) && p <= |s| && Left(s, p, u + rest) && Items(u, words, rs) && |words| <= 9 && Stops(rest)
    ensures q <= |s| && ParseExec(s, p) == Ok(Wrap(Exec(words), rs), q) && Left(s, q, rest)
  {
    hide *;
    LeftIs(s, p, u + rest);
    var q0 := SymStep(s, p, '(');
    NoParen(u, rest, words, rs);
    ExecStep(s, p);
    LeftSame(s, p, q0, u + rest);
    var k, j := ItemsSplit(u, words, rs);
    NoMoreRedirs(u[k..], rest);
    Parted(u, rest, k);
    var q1 := RedirsComplete(s, q0, u[..k], u[k..] + rest, [], rs[..j]);
    q := ArgsComplete(s, q1, u[k..], rest, [], [] + rs[..j], words, rs[j..]);
    assert [] + words == words && [] + rs[..j] + rs[j..] == rs;
  }

  // A job is a pipeline and its ampersands.

  function Amps(k: nat): seq<Tok> {
    if k == 0 then [] else [S('&')] + Amps(k - 1)
  }

  function Backs(c: Cmd, k: nat): Cmd
    decreases k
  {
    if k == 0 then c else Backs(Back(c), k - 1)
  }

  lemma {:induction false} AmpsSnoc(k: nat)
    ensures Amps(k) + [S('&')] == Amps(k + 1)
  {
    if k > 0 {
      AmpsSnoc(k - 1);
      Cat([S('&')], Amps(k - 1), [S('&')]);
    }
  }

  lemma {:induction false} BacksSnoc(c: Cmd, k: nat)
    ensures Back(Backs(c, k)) == Backs(c, k + 1)
    decreases k
  {
    if k > 0 { BacksSnoc(Back(c), k - 1); }
  }

  lemma {:induction false} JobIs(u: seq<Tok>, c: Cmd) returns (n: nat, k: nat, c0: Cmd)
    requires Job(u, c)
    ensures n <= |u| && u == u[..n] + Amps(k) && Pipeline(u[..n], c0) && c == Backs(c0, k)
    decreases |u|
  {
    hide Pipeline;
    if Pipeline(u, c) {
      n, k, c0 := |u|, 0, c;
      assert u[..n] == u && u + Amps(0) == u;
    } else {
      var m := |u| - 1;
      var n', k', c' := JobIs(u[..m], c.cmd);
      n, k, c0 := n', k' + 1, c';
      AmpsSnoc(k');
      BacksSnoc(c', k');
      hide Amps, Backs;
      assert u == u[..m] + [S('&')] && u[..m][..n] == u[..n];
      Cat(u[..n], Amps(k'), [S('&')]);
    }
  }

  lemma {:induction false} BacksComplete(s: string, p: nat, k: nat, rest: seq<Tok>, c: Cmd) returns (q: nat)
    requires NoNul(s) && p <= |s| && Left(s, p, Amps(k) + rest) && !Begins(rest, {'&'})
    ensures q <= |s| && ParseBacks(s, p, c) == Ok(Backs(c, k), q) && Left(s, q, rest)
    decreases k
  {
    hide Lex;
    var q1 := SymStep(s, p, '&');
    if k == 0 {
      assert Amps(0) + rest == rest;
      q := q1;
      LeftSame(s, p, q, rest);
    } else {
      Cat([S('&')], Amps(k - 1), rest);
      LeftSym(s, p, '&', q1, Amps(k - 1) + rest);
      q := BacksComplete(s, q1, k - 1, rest, Back(c));
    }
  }

  lemma GroupIs(u: seq<Tok>, c: Cmd) returns (i: nat, inner: Cmd, rs: Redirs)
    requires Group(u, c)
    ensures 0 < i < |u| && u[0] == S('(') && u[i] == S(')') && Line(u[1..i], inner)
    ensures Items(u[i + 1..], [], rs) && c == Wrap(inner, rs)
  {
    hide Line;
    var k, d, r :| 0 < k < |u| && u[0] == S('(') && u[k] == S(')') && Line(u[1..k], d)
                   && Items(u[k + 1..], [], r) && Nested(c, d, r);
    i, inner, rs := k, d, r;
    NestedIff(c, d, r);
  }

  lemma GroupParts(u: seq<Tok>, rest: seq<Tok>, i: nat)
    requires 0 < i < |u| && u[0] == S('(') && u[i] == S(')') && Stops(rest)
    ensures u + rest == [S('(')] + (u[1..i] + ([S(')')] + (u[i + 1..] + rest)))
    ensures Begins(u + rest, {'('}) && Begins([S(')')] + (u[i + 1..] + rest), {')'}) && !Begins(rest, {'<', '>'})
  {
  }

  lemma {:induction false} GroupComplete(s: string, p: nat, u: seq<Tok>, rest: seq<Tok>, c: Cmd) returns (q: nat)
    requires NoNul(s) && p <= |s| && Left(s, p, u + rest) && Group(u, c) && Stops(rest)
    ensures q <= |s| && ParseExec(s, p) == Ok(c, q) && Left(s, q, rest)
    decreases |u|, 0
  {
    hide *;
    LeftIs(s, p, u + rest);
    var i, inner, rs := GroupIs(u, c);
    GroupParts(u, rest, i);
    var q0 := SymStep(s, p, '(');
    var tail := u[i + 1..] + rest;
    LeftSym(s, p, '(', q0, u[1..i] + ([S(')')] + tail));
    var p1 := LineComplete(s, q0, u[1..i], [S(')')] + tail, inner);
    LeftIs(s, p1, [S(')')] + tail);
    var q1 := BlockStep(s, p, q0);
    LeftSym(s, p1, ')', q1, tail);
    q := RedirsComplete(s, q1, u[i + 1..], rest, [], rs);
    assert [] + rs == rs;
  }

  lemma UnitComplete(s: string, p: nat, u: seq<Tok>, rest: seq<Tok>, c: Cmd) returns (q: nat)
    requires NoNul(s) && p <= |s| && Left(s, p, u + rest) && Unit(u, c) && Stops(rest)
    ensures q <= |s| && ParseExec(s, p) == Ok(c, q) && Left(s, q, rest)
    decreases |u|, 1
  {
    hide Lex, Items, Nested, Stops, ParseExec, Left, Group;
    if Group(u, c) {
      q := GroupComplete(s, p, u, rest, c);
    } else {
      var words, rs :| Items(u, words, rs) && |words| <= 9 && Nested(c, Exec(words), rs);
      NestedIff(c, Exec(words), rs);
      q := SimpleComplete(s, p, u, rest, words, rs);
    }
  }

  /** What may follow a pipeline. */
  predicate AfterPipe(rest: seq<Tok>) {
    rest == [] || Begins(rest, {')', '&', ';'})
  }

  lemma AfterPipeIs(rest: seq<Tok>)
    requires AfterPipe(rest)
    ensures Stops(rest) && !Begins(rest, {'|'})
  {
  }

  lemma PipeParts(u: seq<Tok>, rest: seq<Tok>, i: nat, k: char)
    requires i < |u| && u[i] == S(k) && k in {'|', ';'}
    ensures u + rest == u[..i] + ([S(k)] + (u[i + 1..] + rest)) && Begins([S(k)] + (u[i + 1..] + rest), {k})
    ensures k == '|' ==> Stops([S(k)] + (u[i + 1..] + rest))
  {
  }

  lemma {:induction false} PipeComplete(s: string, p: nat, u: seq<Tok>, rest: seq<Tok>, c: Cmd) returns (q: nat)
    requires NoNul(s) && p <= |s| && Left(s, p, u + rest) && Pipeline(u, c) && AfterPipe(rest)
    ensures q <= |s| && ParsePipe(s, p) == Ok(c, q) && Left(s, q, rest)
    decreases |u|, 2
  {
    hide Lex, Unit, ParseExec, ParsePipe, Left, AfterPipe, Stops, Begins, Took, Sym;
    AfterPipeIs(rest);
    var q1 := PipeStep(s, p);
    if Unit(u, c) {
      var p1 := UnitComplete(s, p, u, rest, c);
      LeftIs(s, p1, rest);
      LeftSame(s, p1, q1, rest);
      q := q1;
    } else {
      var i :| 0 <= i < |u| && u[i] == S('|') && Unit(u[..i], c.left) && Pipeline(u[i + 1..], c.right);
      hide Pipeline;
      PipeParts(u, rest, i, '|');
      var tail := u[i + 1..] + rest;
      var p1 := UnitComplete(s, p, u[..i], [S('|')] + tail, c.left);
      LeftIs(s, p1, [S('|')] + tail);
      LeftSym(s, p1, '|', q1, tail);
      q := PipeComplete(s, q1, u[i + 1..], rest, c.right);
    }
  }

  /** A job, up to what follows it. */
  lemma JobComplete(s: string, p: nat, u: seq<Tok>, rest: seq<Tok>, c: Cmd) returns (q: nat)
    requires NoNul(s) && p <= |s| && Left(s, p, u + rest) && Job(u, c) && (rest == [] || Begins(rest, {')', ';'}))
    ensures ParsePipe(s, p).Ok?
    ensures q <= |s| && ParseBacks(s, ParsePipe(s, p).pos, ParsePipe(s, p).value) == Ok(c, q) && Left(s, q, rest)
    decreases |u|, 3
  {
    var n, k, c0 := JobIs(u, c);
    hide Lex, Pipeline, Job, ParsePipe, ParseBacks, Left;
    Cat(u[..n], Amps(k), rest);
    AfterAmps(k, rest);
    var p0 := PipeComplete(s, p, u[..n], Amps(k) + rest, c0);
    q := BacksComplete(s, p0, k, rest, c0);
  }

  lemma AfterAmps(k: nat, rest: seq<Tok>)
    requires rest == [] || Begins(rest, {')', ';'})
    ensures AfterPipe(Amps(k) + rest) && !Begins(rest, {'&'})
  {
    if k == 0 { assert Amps(k) + rest == rest; }
  }

  lemma {:induction false} LineComplete(s: string, p: nat, u: seq<Tok>, rest: seq<Tok>, c: Cmd) returns (q: nat)
    requires NoNul(s) && p <= |s| && Left(s, p, u + rest) && Line(u, c) && (rest == [] || Begins(rest, {')'}))
    ensures q <= |s| && ParseLine(s, p) == Ok(c, q) && Left(s, q, rest)
    decreases |u|, 4
  {
    assert !Begins(rest, {';'}) && (rest == [] || Begins(rest, {')', ';'}));
    hide Lex, Job, ParsePipe, ParseBacks, ParseLine, Left, Begins, Took, Sym;
    var q1 := LineStep(s, p);
    if Job(u, c) {
      var p1 := JobComplete(s, p, u, rest, c);
      LeftIs(s, p1, rest);
      LeftSame(s, p1, q1, rest);
      q := q1;
    } else {
      var i :| 0 <= i < |u| && u[i] == S(';') && Job(u[..i], c.left) && Line(u[i + 1..], c.right);
      hide Line;
      PipeParts(u, rest, i, ';');
      var tail := u[i + 1..] + rest;
      SemiBegins(tail);
      var p1 := JobComplete(s, p, u[..i], [S(';')] + tail, c.left);
      LeftIs(s, p1, [S(';')] + tail);
      LeftSym(s, p1, ';', q1, tail);
      q := LineComplete(s, q1, u[i + 1..], rest, c.right);
    }
  }

  lemma SemiBegins(tail: seq<Tok>)
    ensures Begins([S(';')] + tail, {')', ';'})
  {
  }

  // ----- The parser decides the grammar

  lemma AcceptsSound(s: string, c: Cmd)
    requires NoNul(s) && ParseCmd(s) == Ok(c, |s|)
    ensures Derives(s, c)
  {
    var r := ParseLine(s, 0);
    LexStep(s, r.pos);
    hide ParseLine, Lex, Line;
    var n := LineSound(s, 0);
    assert Lex(s, 0)[..n] == Lex(s, 0);
    LexIsLexed(s, 0);
    assert Lexed(s, 0, Lex(s, 0)) && Line(Lex(s, 0), c);
  }

  lemma AcceptsComplete(s: string, c: Cmd)
    requires NoNul(s) && Derives(s, c)
    ensures ParseCmd(s) == Ok(c, |s|)
  {
    hide Lex, Lexed, Line, ParseLine;
    var ts :| Lexed(s, 0, ts) && Line(ts, c);
    LexIsLexed(s, 0);
    LexedOnce(s, 0, ts, Lex(s, 0));
    assert ts + [] == ts;
    var q := LineComplete(s, 0, ts, [], c);
    LexStep(s, q);
  }

  /** The parser answers with tree c exactly when the line stands for c. */
  lemma AcceptsIff(s: string, c: Cmd)
    requires NoNul(s)
    ensures ParseCmd(s) == Ok(c, |s|) <==> Derives(s, c)
  {
    if ParseCmd(s) == Ok(c, |s|) { AcceptsSound(s, c); }
    if Derives(s, c) { AcceptsComplete(s, c); }
  }

  /** It panics exactly on lines that stand for nothing. */
  lemma PanicsIff(s: string)
    requires NoNul(s)
    ensures ParseCmd(s).Panic? <==> forall c :: !Derives(s, c)
  {
    forall c
      ensures ParseCmd(s) == Ok(c, |s|) <==> Derives(s, c)
    {
      AcceptsIff(s, c);
    }
    hide Derives, ParseLine;
    if ParseCmd(s).Ok? {
      assert ParseCmd(s) == Ok(ParseCmd(s).value, |s|);
    }
  }

  /** No line stands for two commands. */
  lemma Unambiguous(s: string, c: Cmd, d: Cmd)
    requires NoNul(s) && Derives(s, c) && Derives(s, d)
    ensures c == d
  {
    AcceptsIff(s, c);
    AcceptsIff(s, d);
  }
}
