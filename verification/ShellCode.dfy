/**
 The parser of sh.c in the source's form: a cursor advanced in place over a NUL-terminated
 buffer, loops for redirections, arguments and &, and nulterminate's writes into the buffer.
 */
module ShellCode {
  import opened Shell
  import opened ShellRoundTrip
  import opened ShellSpans
  import ShellDerives
  import ShellGrammar

  class Parser {
    const line: array<char>
    const es: nat
    var pos: nat

    constructor (line: array<char>, es: nat)
      requires es < line.Length
      ensures this.line == line && this.es == es && pos == 0
    {
      this.line, this.es := line, es;
      pos := 0;
    }

    ghost predicate Valid()
      reads this, line
    {
      pos <= es < line.Length && line[es] == NUL
    }

    ghost function Line(): string
      reads line
      requires es < line.Length
    {
      line[..es]
    }

    method Spaces()
      requires Valid()
      modifies this`pos
      ensures Valid() && pos == SkipSpace(Line(), old(pos))
    {
      while pos < es && Space(line[pos])
        invariant Valid() && SkipSpace(Line(), pos) == SkipSpace(Line(), old(pos))
      {
        pos := pos + 1;
      }
    }

    method Look(toks: set<char>) returns (found: bool)
      requires Valid()
      modifies this`pos
      ensures Valid() && pos == SkipSpace(Line(), old(pos))
      ensures found == Peek(Line(), old(pos), toks)
    {
      Spaces();
      found := line[pos] != NUL && line[pos] in toks;
    }

    method Next() returns (kind: char, sp: Span)
      requires Valid()
      modifies this`pos
      ensures Valid() && GetToken(Line(), old(pos)) == Token(kind, sp, pos)
    {
      Spaces();
      var q := pos;
      kind := line[pos];
      if kind == NUL {
      } else if kind == '>' {
        pos := pos + 1;
        if line[pos] == '>' {
          kind := '+';
          pos := pos + 1;
        }
      } else if Symbol(kind) {
        pos := pos + 1;
      } else {
        kind := 'a';
        while pos < es && !Space(line[pos]) && !Symbol(line[pos])
          invariant Valid() && SkipWord(Line(), pos) == SkipWord(Line(), q)
        {
          pos := pos + 1;
        }
      }
      sp := Span(q, pos);
      Spaces();
    }

    method ParseRedirections(rs0: Redirs) returns (r: Result<Redirs>)
      requires Valid()
      modifies this`pos
      ensures Valid() && old(pos) <= pos && r == ParseRedirs(Line(), old(pos), rs0)
      ensures r.Ok? ==> pos == r.pos
    {
      var rs := rs0;
      var more := Look({'<', '>'});
      ghost var p := old(pos);
      while more
        invariant Valid() && p <= |Line()| && old(pos) <= p <= pos && pos == SkipSpace(Line(), p)
        invariant more == Peek(Line(), p, {'<', '>'})
        invariant ParseRedirs(Line(), p, rs) == ParseRedirs(Line(), old(pos), rs0)
        decreases es - p
      {
        var tok, _ := Next();
        var kind, file := Next();
        if kind != 'a' {
          return Panic(MissingFile);
        }
        rs := rs + [(file, if tok == '<' then In else Out)];
        p := pos;
        more := Look({'<', '>'});
      }
      r := Ok(rs, pos);
    }

    method ParseUnit() returns (r: Result<Cmd>)
      requires Valid()
      modifies this`pos
      ensures Valid() && old(pos) <= pos && r == ParseExec(Line(), old(pos))
      ensures r.Ok? ==> pos == r.pos
      decreases es - pos, 1
    {
      var block := Look({'('});
      if block {
        r := ParseParens(old(pos));
        return;
      }
      var rr := ParseRedirections([]);
      if rr.Panic? {
        return Panic(rr.error);
      }
      r := ParseArguments(rr.value);
    }

    /** The loop of parseexec. */
    method ParseArguments(rs0: Redirs) returns (r: Result<Cmd>)
      requires Valid()
      modifies this`pos
      ensures Valid() && old(pos) <= pos && r == ParseArgs(Line(), old(pos), [], rs0)
      ensures r.Ok? ==> pos == r.pos
    {
      var args, rs := [], rs0;
      var stop := Look({'|', ')', '&', ';'});
      ghost var p := old(pos);
      while !stop
        invariant Valid() && p <= |Line()| && old(pos) <= p <= pos && pos == SkipSpace(Line(), p)
        invariant stop == Peek(Line(), p, {'|', ')', '&', ';'})
        invariant ParseArgs(Line(), p, args, rs) == ParseArgs(Line(), old(pos), [], rs0)
        decreases es - p
      {
        var kind, sp := Next();
        if kind == NUL {
          return Ok(Wrap(Exec(args), rs), pos);
        }
        if kind != 'a' {
          return Panic(Syntax);
        }
        args := args + [sp];
        if |args| >= MAXARGS {
          return Panic(TooManyArgs);
        }
        var rr := ParseRedirections(rs);
        if rr.Panic? {
          return Panic(rr.error);
        }
        rs := rr.value;
        p := pos;
        stop := Look({'|', ')', '&', ';'});
      }
      r := Ok(Wrap(Exec(args), rs), pos);
    }

    /** parseblock, entered with the cursor on the parenthesis; p is where parseexec began. */
    method ParseParens(ghost p: nat) returns (r: Result<Cmd>)
      requires Valid() && p <= pos == SkipSpace(Line(), p) && Peek(Line(), p, {'('})
      modifies this`pos
      ensures Valid() && old(pos) <= pos && r == ParseBlock(Line(), p)
      ensures r.Ok? ==> pos == r.pos
      decreases es - pos, 0
    {
      var _, _ := Next();
      var inner := ParseSequence();
      if inner.Panic? {
        return inner;
      }
      var closed := Look({')'});
      if !closed {
        return Panic(MissingParen);
      }
      var _, _ := Next();
      var rr := ParseRedirections([]);
      r := Wrapped(inner.value, rr);
    }

    method ParsePipeline() returns (r: Result<Cmd>)
      requires Valid()
      modifies this`pos
      ensures Valid() && old(pos) <= pos && r == ParsePipe(Line(), old(pos))
      ensures r.Ok? ==> pos == r.pos
      decreases es - pos, 2
    {
      r := ParseUnit();
      if r.Panic? {
        return;
      }
      var piped := Look({'|'});
      if piped {
        var _, _ := Next();
        var rest := ParsePipeline();
        if rest.Panic? {
          return rest;
        }
        r := Ok(Pipe(r.value, rest.value), pos);
      } else {
        r := Ok(r.value, pos);
      }
    }

    method ParseSequence() returns (r: Result<Cmd>)
      requires Valid()
      modifies this`pos
      ensures Valid() && old(pos) <= pos && r == ParseLine(Line(), old(pos))
      ensures r.Ok? ==> pos == r.pos
      decreases es - pos, 3
    {
      r := ParsePipeline();
      if r.Panic? {
        return;
      }
      var cmd := ParseBackground(r.value);
      var more := Look({';'});
      if more {
        var _, _ := Next();
        var rest := ParseSequence();
        if rest.Panic? {
          return rest;
        }
        r := Ok(List(cmd, rest.value), pos);
      } else {
        r := Ok(cmd, pos);
      }
    }

    /** The & loop of parseline. */
    method ParseBackground(c: Cmd) returns (cmd: Cmd)
      requires Valid()
      modifies this`pos
      ensures Valid() && old(pos) <= pos && ParseBacks(Line(), old(pos), c) == Ok(cmd, pos)
    {
      cmd := c;
      var back := Look({'&'});
      ghost var p := old(pos);
      while back
        invariant Valid() && p <= |Line()| && old(pos) <= p <= pos && pos == SkipSpace(Line(), p)
        invariant back == Peek(Line(), p, {'&'})
        invariant ParseBacks(Line(), p, cmd) == ParseBacks(Line(), old(pos), c)
        decreases es - p
      {
        var _, _ := Next();
        cmd := Back(cmd);
        p := pos;
        back := Look({'&'});
      }
    }

    /** The writes of nulterminate: one NUL behind every word of c, and nothing else. */
    method NulTerminate(c: Cmd)
      requires forall sp <- Spans(c) :: sp.eq < line.Length
      modifies line
      ensures line[..] == Terminated(old(line[..]), Spans(c))
      decreases c
    {
      match c {
        case Exec(argv) =>
          var i := 0;
          while i < |argv|
            invariant 0 <= i <= |argv| && line[..] == Terminated(old(line[..]), argv[..i])
          {
            line[argv[i].eq] := NUL;
            assert argv[..i + 1][..i] == argv[..i] && argv[..i + 1][i] == argv[i];
            i := i + 1;
          }
          assert argv[..i] == argv;
        case Redir(cmd, file, _) =>
          NulTerminate(cmd);
          line[file.eq] := NUL;
        case Pipe(l, r) =>
          NulTerminate(l);
          NulTerminate(r);
          TerminatedTwice(old(line[..]), Spans(l), Spans(r));
        case List(l, r) =>
          NulTerminate(l);
          NulTerminate(r);
          TerminatedTwice(old(line[..]), Spans(l), Spans(r));
        case Back(cmd) =>
          NulTerminate(cmd);
      }
    }

    /**
     parsecmd: the tree is the one the line stands for, with a panic when there is none, and after a
     success every argument and file pointer of the tree reads, as a C string in the changed buffer,
     exactly its word.
     */
    method Parse() returns (r: Result<Cmd>)
      requires Valid() && pos == 0 && NUL !in Line()
      modifies this`pos, line
      ensures r == ParseCmd(old(Line()))
      ensures forall c :: ShellGrammar.Derives(old(Line()), c) <==> r == Ok(c, es)
      ensures r.Ok? ==> CText(line[..], r.value) == Text(old(Line()), r.value)
      ensures r.Panic? ==> line[..] == old(line[..])
    {
      forall c
        ensures ShellGrammar.Derives(Line(), c) <==> ParseCmd(Line()) == Ok(c, es)
      {
        ShellDerives.AcceptsIff(Line(), c);
      }
      r := ParseSequence();
      if r.Panic? {
        return;
      }
      Spaces();
      if pos != es {
        return Panic(Leftovers);
      }
      r := Ok(r.value, pos);
      ghost var s := Line();
      ParsedSpans(s);
      SpansInside(s, r.value);
      assert line[..][..es] == s;
      TerminatedReads(s, line[..], r.value);
      NulTerminate(r.value);
    }
  }

  /** Running the parser on the rendering of any writable tree leaves that tree in the buffer. */
  method RoundTripInPlace(t: Tree) returns (r: Result<Cmd>, p: Parser)
    requires Writable(t)
    ensures r.Ok? && CText(p.line[..], r.value) == t
  {
    var s := Render(t);
    RenderHasNoNul(t);
    var line := new char[|s| + 1](i requires 0 <= i <= |s| => if i < |s| then s[i] else NUL);
    p := new Parser(line, |s|);
    assert p.Line() == s;
    RoundTrip(t);
    r := p.Parse();
  }
}
