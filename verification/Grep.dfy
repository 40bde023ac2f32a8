/**
 The regular expression matcher of grep.c, and the language its patterns denote: a pattern is a
 sequence of single and repeated characters, optionally anchored at either end.
 */
module Grep {

  // ----- The matcher

  predicate Fits(c: char, t: char) {
    c == '.' || c == t
  }

  predicate MatchHere(re: string, text: string)
    decreases |re|, |text|, 0
  {
    if re == "" then true
    else if |re| >= 2 && re[1] == '*' then MatchStar(re[0], re[2..], text)
    else if re == "$" then text == ""
    else text != "" && Fits(re[0], text[0]) && MatchHere(re[1..], text[1..])
  }

  predicate MatchStar(c: char, re: string, text: string)
    decreases |re|, |text|, 1
  {
    MatchHere(re, text) || (text != "" && Fits(c, text[0]) && MatchStar(c, re, text[1..]))
  }

  predicate MatchAnywhere(re: string, text: string)
    decreases text
  {
    MatchHere(re, text) || (text != "" && MatchAnywhere(re, text[1..]))
  }

  predicate Match(re: string, text: string) {
    if re != "" && re[0] == '^' then MatchHere(re[1..], text) else MatchAnywhere(re, text)
  }

  method MatchMethod(re: string, text: string) returns (found: bool)
    ensures found == Match(re, text)
  {
    if re != "" && re[0] == '^' {
      found := MatchHereMethod(re[1..], text);
      return;
    }
    var i := 0;
    assert text[0..] == text;
    while true
      invariant 0 <= i <= |text| && MatchAnywhere(re, text) == MatchAnywhere(re, text[i..])
      decreases |text| - i
    {
      found := MatchHereMethod(re, text[i..]);
      if found {
        return;
      }
      if i == |text| {
        break;
      }
      assert text[i..][1..] == text[i + 1..];
      i := i + 1;
    }
  }

  method MatchHereMethod(re: string, text: string) returns (found: bool)
    ensures found == MatchHere(re, text)
    decreases |re|, |text|, 0
  {
    if re == "" {
      return true;
    }
    if |re| >= 2 && re[1] == '*' {
      found := MatchStarMethod(re[0], re[2..], text);
      return;
    }
    if re[0] == '$' && |re| == 1 {
      return text == "";
    }
    if text != "" && (re[0] == '.' || re[0] == text[0]) {
      found := MatchHereMethod(re[1..], text[1..]);
      return;
    }
    found := false;
  }

  method MatchStarMethod(c: char, re: string, text: string) returns (found: bool)
    ensures found == MatchStar(c, re, text)
    decreases |re|, |text|, 1
  {
    var i := 0;
    assert text[0..] == text;
    while true
      invariant 0 <= i <= |text| && MatchStar(c, re, text) == MatchStar(c, re, text[i..])
      decreases |text| - i
    {
      found := MatchHereMethod(re, text[i..]);
      if found {
        return;
      }
      if i == |text| || !(text[i] == c || c == '.') {
        break;
      }
      assert text[i..][1..] == text[i + 1..];
      i := i + 1;
    }
  }

  // ----- Patterns and their language

  datatype Item = One(c: char) | Many(c: char)

  /** The items of a pattern, and whether it must match up to the end. */
  datatype Pattern = Pattern(items: seq<Item>, end: bool)

  function Parse(re: string): Pattern
    decreases |re|
  {
    if re == "" then Pattern([], false)
    else if |re| >= 2 && re[1] == '*' then Cons(Many(re[0]), Parse(re[2..]))
    else if re == "$" then Pattern([], true)
    else Cons(One(re[0]), Parse(re[1..]))
  }

  function Cons(i: Item, p: Pattern): Pattern {
    Pattern([i] + p.items, p.end)
  }

  /** How a pattern is written. */
  function Shown(p: Pattern): string
    decreases |p.items|
  {
    if p.items == [] then if p.end then "$" else ""
    else (if p.items[0].One? then [p.items[0].c] else [p.items[0].c, '*']) + Shown(Pattern(p.items[1..], p.end))
  }

  /** A star repeats the character before it, and a last dollar sign is the end anchor. */
  predicate Canonical(p: Pattern) {
    && (forall k | 0 <= k < |p.items| - 1 && p.items[k].One? :: p.items[k + 1].c != '*')
    && (p.items != [] && !p.end ==> p.items[|p.items| - 1] != One('$'))
  }

  lemma ParseMany(c: char, tail: string)
    ensures Parse([c, '*'] + tail) == Cons(Many(c), Parse(tail))
  {
    assert ([c, '*'] + tail)[2..] == tail;
  }

  lemma ParseOne(c: char, tail: string)
    requires (tail != "" ==> tail[0] != '*') && !(c == '$' && tail == "")
    ensures Parse([c] + tail) == Cons(One(c), Parse(tail))
  {
    var re := [c] + tail;
    assert re[1..] == tail && re[0] == c;
    assert |re| >= 2 ==> re[1] == tail[0];
  }

  lemma CanonicalCons(i: Item, p: Pattern)
    requires Canonical(p) && (i.One? && p.items != [] ==> p.items[0].c != '*') && (p.items == [] && !p.end ==> i != One('$'))
    ensures Canonical(Cons(i, p))
  {
    var q := Cons(i, p);
    forall k | 0 <= k < |q.items| - 1 && q.items[k].One?
      ensures q.items[k + 1].c != '*'
    {
      assert q.items[k + 1] == p.items[k];
      if k > 0 { assert q.items[k] == p.items[k - 1]; }
    }
    if p.items != [] { assert q.items[|q.items| - 1] == p.items[|p.items| - 1]; }
  }

  lemma CanonicalRest(p: Pattern)
    requires Canonical(p) && p.items != []
    ensures var i, rest := p.items[0], Pattern(p.items[1..], p.end);
            && Canonical(rest) && p == Cons(i, rest)
            && (i.One? && rest.items != [] ==> rest.items[0].c != '*') && (rest.items == [] && !rest.end ==> i != One('$'))
  {
    var rest := Pattern(p.items[1..], p.end);
    assert forall k | 0 <= k < |rest.items| :: rest.items[k] == p.items[k + 1];
  }

  lemma ShownCons(i: Item, p: Pattern)
    ensures Shown(Cons(i, p)) == (if i.One? then [i.c] else [i.c, '*']) + Shown(p)
  {
    assert Cons(i, p).items[1..] == p.items;
  }

  lemma ShownFirst(p: Pattern)
    ensures p.items != [] ==> Shown(p) != "" && Shown(p)[0] == p.items[0].c
    ensures p.items == [] ==> Shown(p) == if p.end then "$" else ""
  {
  }

  lemma {:induction false} ShownParse(re: string)
    ensures Shown(Parse(re)) == re && Canonical(Parse(re))
    decreases |re|
  {
    hide Canonical, Shown, Cons;
    if re == "" {
      ShownEmpty(false);
    } else if |re| >= 2 && re[1] == '*' {
      ShownParse(re[2..]);
      ShownCons(Many(re[0]), Parse(re[2..]));
      CanonicalCons(Many(re[0]), Parse(re[2..]));
      assert re == [re[0], '*'] + re[2..];
    } else if re == "$" {
      ShownEmpty(true);
    } else {
      ShownParse(re[1..]);
      ShownFirst(Parse(re[1..]));
      ShownCons(One(re[0]), Parse(re[1..]));
      CanonicalCons(One(re[0]), Parse(re[1..]));
      assert re == [re[0]] + re[1..];
    }
  }

  lemma ShownEmpty(end: bool)
    ensures Shown(Pattern([], end)) == (if end then "$" else "") && Canonical(Pattern([], end))
  {
  }

  lemma {:induction false} ParseShown(p: Pattern)
    requires Canonical(p)
    ensures Parse(Shown(p)) == p
    decreases |p.items|
  {
    if p.items == [] {
      ShownFirst(p);
      assert Parse("$") == Pattern([], true) && Parse("") == Pattern([], false);
    } else {
      var i, rest := p.items[0], Pattern(p.items[1..], p.end);
      CanonicalRest(p);
      hide Canonical, Shown, Parse;
      ParseShown(rest);
      ShownCons(i, rest);
      ShownFirst(rest);
      if i.Many? {
        ParseMany(i.c, Shown(rest));
      } else {
        ParseOne(i.c, Shown(rest));
      }
    }
  }

  /** The pattern read from re is the one that is written re. */
  lemma ParseIff(re: string, p: Pattern)
    ensures Parse(re) == p <==> Shown(p) == re && Canonical(p)
  {
    ShownParse(re);
    if Shown(p) == re && Canonical(p) {
      ParseShown(p);
    }
  }

  /** The strings of one item: one character, the item's own or any for a dot, or any number of them. */
  predicate Denotes(i: Item, w: string) {
    (i.One? ==> |w| == 1) && forall k | 0 <= k < |w| :: i.c == '.' || w[k] == i.c
  }

  function Concat(ws: seq<string>): string {
    if ws == [] then "" else ws[0] + Concat(ws[1..])
  }

  /** One string for each item. */
  predicate Pieces(items: seq<Item>, ws: seq<string>) {
    |ws| == |items| && forall k | 0 <= k < |ws| :: Denotes(items[k], ws[k])
  }

  /** A prefix of text is in the language, or all of text for a pattern with an end anchor. */
  ghost predicate Begins(p: Pattern, text: string) {
    exists ws :: Pieces(p.items, ws) && Concat(ws) <= text && (p.end ==> Concat(ws) == text)
  }

  /** Some place in text, the first for a pattern with ^, begins with a string of the language. */
  ghost predicate Occurs(re: string, text: string) {
    if re != "" && re[0] == '^' then Begins(Parse(re[1..]), text)
    else exists i | 0 <= i <= |text| :: Begins(Parse(re), text[i..])
  }

  // ----- The matcher decides the language

  lemma BeginsNil(end: bool, text: string)
    ensures Begins(Pattern([], end), text) <==> (end ==> text == "")
  {
    var none: seq<string> := [];
    assert Pieces([], none) && Concat(none) == "";
    if Begins(Pattern([], end), text) {
      var ws :| Pieces([], ws) && Concat(ws) <= text && (end ==> Concat(ws) == text);
      assert ws == [];
    }
  }

  /** A first piece and then the rest. */
  lemma BeginsCons(i: Item, p: Pattern, text: string)
    ensures Begins(Cons(i, p), text) <==> exists k | 0 <= k <= |text| :: Denotes(i, text[..k]) && Begins(p, text[k..])
  {
    if Begins(Cons(i, p), text) {
      var k := FirstPiece(i, p, text);
    }
    if exists k | 0 <= k <= |text| :: Denotes(i, text[..k]) && Begins(p, text[k..]) {
      var k :| 0 <= k <= |text| && Denotes(i, text[..k]) && Begins(p, text[k..]);
      PutFirst(i, p, text, k);
    }
  }

  lemma FirstPiece(i: Item, p: Pattern, text: string) returns (k: nat)
    requires Begins(Cons(i, p), text)
    ensures k <= |text| && Denotes(i, text[..k]) && Begins(p, text[k..])
  {
    var ws :| Pieces([i] + p.items, ws) && Concat(ws) <= text && (p.end ==> Concat(ws) == text);
    PiecesTail(i, p.items, ws);
    k := |ws[0]|;
    SplitPrefix(ws[0], Concat(ws[1..]), text);
    hide Pieces, Concat, Denotes;
    assert Concat(ws[1..]) <= text[k..] && (p.end ==> Concat(ws[1..]) == text[k..]);
  }

  lemma SplitPrefix(a: string, b: string, text: string)
    requires a + b <= text
    ensures |a| <= |text| && text[..|a|] == a && b <= text[|a|..] && (a + b == text ==> b == text[|a|..])
  {
    assert text[..|a|] == (a + b)[..|a|];
    assert text[|a|..][..|b|] == (a + b)[|a|..];
  }

  lemma PutFirst(i: Item, p: Pattern, text: string, k: nat)
    requires k <= |text| && Denotes(i, text[..k]) && Begins(p, text[k..])
    ensures Begins(Cons(i, p), text)
  {
    var vs :| Pieces(p.items, vs) && Concat(vs) <= text[k..] && (p.end ==> Concat(vs) == text[k..]);
    var ws := [text[..k]] + vs;
    assert ws[1..] == vs && ws[0] == text[..k];
    assert Pieces([i] + p.items, ws);
    assert Concat(ws) == text[..k] + Concat(vs);
    assert text == text[..k] + text[k..];
    hide Pieces, Concat, Denotes;
    assert Concat(ws) <= text && (p.end ==> Concat(ws) == text);
  }

  lemma PiecesTail(i: Item, items: seq<Item>, ws: seq<string>)
    requires Pieces([i] + items, ws)
    ensures ws != [] && Denotes(i, ws[0]) && Pieces(items, ws[1..])
  {
    assert ([i] + items)[0] == i;
    forall k | 0 <= k < |ws| - 1
      ensures Denotes(items[k], ws[1..][k])
    {
      assert ([i] + items)[k + 1] == items[k];
    }
  }

  lemma {:induction false} HereIff(re: string, text: string)
    ensures MatchHere(re, text) <==> Begins(Parse(re), text)
    decreases |re|, |text|, 1
  {
    hide Begins;
    if re == "" {
      BeginsNil(false, text);
    } else if |re| >= 2 && re[1] == '*' {
      StarIff(re[0], re[2..], text);
    } else if re == "$" {
      BeginsNil(true, text);
    } else {
      OneIff(re, text);
    }
  }

  lemma {:induction false} OneIff(re: string, text: string)
    requires re != "" && !(|re| >= 2 && re[1] == '*') && re != "$"
    ensures MatchHere(re, text) <==> Begins(Parse(re), text)
    decreases |re|, |text|, 0
  {
    hide Begins;
    BeginsCons(One(re[0]), Parse(re[1..]), text);
    if text != "" {
      HereIff(re[1..], text[1..]);
      assert text[..1] == [text[0]];
      if MatchHere(re, text) {
        assert Denotes(One(re[0]), text[..1]) && Begins(Parse(re[1..]), text[1..]);
      }
    }
    if Begins(Parse(re), text) {
      var k :| 0 <= k <= |text| && Denotes(One(re[0]), text[..k]) && Begins(Parse(re[1..]), text[k..]);
      assert |text[..k]| == 1;
      assert k == 1;
      assert text[..1][0] == text[0];
    }
  }

  lemma {:induction false} StarIff(c: char, re: string, text: string)
    ensures MatchStar(c, re, text) <==> Begins(Cons(Many(c), Parse(re)), text)
    decreases |re|, |text|, 2
  {
    hide Begins, MatchHere;
    var p := Parse(re);
    HereIff(re, text);
    BeginsCons(Many(c), p, text);
    assert text[..0] == "" && text[0..] == text;
    if text != "" {
      StarIff(c, re, text[1..]);
      BeginsCons(Many(c), p, text[1..]);
    }
    if Begins(Cons(Many(c), p), text) {
      var k :| 0 <= k <= |text| && Denotes(Many(c), text[..k]) && Begins(p, text[k..]);
      if k > 0 {
        ShiftStar(c, p, text, k - 1);
      }
    }
    if MatchStar(c, re, text) {
      if Begins(p, text) {
        assert Denotes(Many(c), text[..0]) && Begins(p, text[0..]);
      } else {
        var k :| 0 <= k <= |text[1..]| && Denotes(Many(c), text[1..][..k]) && Begins(p, text[1..][k..]);
        ShiftStar(c, p, text, k);
        assert Denotes(Many(c), text[..k + 1]) && Begins(p, text[k + 1..]);
      }
    }
  }

  /** A repetition that takes the first character is that character and a repetition of the rest. */
  lemma ShiftStar(c: char, p: Pattern, text: string, k: nat)
    requires text != "" && k < |text|
    ensures Denotes(Many(c), text[..k + 1]) <==> Fits(c, text[0]) && Denotes(Many(c), text[1..][..k])
    ensures text[k + 1..] == text[1..][k..]
  {
    var a, b := text[..k + 1], text[1..][..k];
    assert a == [text[0]] + b;
    assert forall i | 0 <= i < k :: b[i] == a[i + 1];
    assert a[0] == text[0];
  }

  lemma {:induction false} AnywhereIff(re: string, text: string)
    ensures MatchAnywhere(re, text) <==> exists i | 0 <= i <= |text| :: Begins(Parse(re), text[i..])
    decreases text
  {
    hide Begins, MatchHere, Parse;
    HereIff(re, text);
    assert text[0..] == text;
    if text != "" {
      AnywhereIff(re, text[1..]);
      if exists i | 0 <= i <= |text| :: Begins(Parse(re), text[i..]) {
        var i :| 0 <= i <= |text| && Begins(Parse(re), text[i..]);
        if i > 0 {
          assert text[1..][i - 1..] == text[i..];
        }
      }
      if exists i | 0 <= i <= |text| - 1 :: Begins(Parse(re), text[1..][i..]) {
        var i :| 0 <= i <= |text| - 1 && Begins(Parse(re), text[1..][i..]);
        assert text[1..][i..] == text[i + 1..];
      }
    }
    if MatchHere(re, text) {
      assert Begins(Parse(re), text[0..]);
    }
  }

  /** match answers yes exactly when a string of the pattern's language occurs in the text. */
  lemma MatchIff(re: string, text: string)
    ensures Match(re, text) <==> Occurs(re, text)
  {
    if re != "" && re[0] == '^' {
      HereIff(re[1..], text);
    } else {
      AnywhereIff(re, text);
    }
  }
}
