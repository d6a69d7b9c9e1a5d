/**
 The presentation format of trust anchors beyond what the daemon writes itself: records wrapped in
 parentheses read as one line, comments end a line, and what happens where the two meet, since
 parentheses are removed before comments are looked for.
 */
module AnchorText {
  import opened Basics
  import opened AnchorFile

  /** The text with line breaks turned into spaces. */
  function Spaced(s: string): (t: string)
    ensures |t| == |s| && forall i :: 0 <= i < |s| ==> t[i] == if s[i] == '\n' then ' ' else s[i]
  {
    if s == [] then [] else [if s[0] == '\n' then ' ' else s[0]] + Spaced(s[1..])
  }

  ghost predicate NoParens(s: string) { forall i :: 0 <= i < |s| ==> s[i] != '(' && s[i] != ')' }

  ghost predicate OneLine(s: string) { NoParens(s) && forall i :: 0 <= i < |s| ==> s[i] != '\n' }

  // ---- parentheses ----

  /** What is left of the text at a given depth. */
  function Shown(s: string, depth: nat): (t: string)
    ensures |t| == |s|
  {
    if depth > 0 then Spaced(s) else s
  }

  lemma {:induction false} Join(a: string, b: string, c: string)
    ensures a + b + c == a + (b + c)
  {}

  lemma {:induction false} SpacedJoin(a: string, b: string)
    ensures Spaced(a + b) == Spaced(a) + Spaced(b)
  {
    var t := a + b;
    forall i | 0 <= i < |t| ensures Spaced(t)[i] == (Spaced(a) + Spaced(b))[i] {
      assert t[i] == if i < |a| then a[i] else b[i - |a|];
    }
  }

  lemma {:induction false} FlattenChar(c: char, s: string, depth: nat)
    requires c != '(' && c != ')'
    ensures Flatten([c] + s, depth) == [if depth > 0 && c == '\n' then ' ' else c] + Flatten(s, depth)
  {
    var t := [c] + s;
    assert t[0] == c && t[1..] == s;
  }

  lemma {:induction false} ShownChar(c: char, s: string, depth: nat)
    ensures Shown([c] + s, depth) == [if depth > 0 && c == '\n' then ' ' else c] + Shown(s, depth)
  {
    SpacedJoin([c], s);
    assert Spaced([c]) == [if c == '\n' then ' ' else c];
  }

  lemma {:induction false} FlattenText(s: string, rest: string, depth: nat)
    requires NoParens(s)
    ensures Flatten(s + rest, depth) == Shown(s, depth) + Flatten(rest, depth)
  {
    if s == [] {
      assert s + rest == rest && Shown(s, depth) == [];
    } else {
      assert s + rest == [s[0]] + (s[1..] + rest) && s == [s[0]] + s[1..];
      FlattenText(s[1..], rest, depth);
      FlattenChar(s[0], s[1..] + rest, depth);
      ShownChar(s[0], s[1..], depth);
      Join([if depth > 0 && s[0] == '\n' then ' ' else s[0]], Shown(s[1..], depth), Flatten(rest, depth));
    }
  }

  function Wrapped(a: string, inner: string, b: string, rest: string): string {
    a + ("(" + (inner + (")" + (b + ("\n" + rest)))))
  }

  /** A wrapped group loses its parentheses and its line breaks, and the lines around it nothing. */
  lemma {:induction false} FlattenWrapped(a: string, inner: string, b: string, rest: string)
    requires NoParens(a) && NoParens(inner) && NoParens(b)
    ensures Flatten(Wrapped(a, inner, b, rest), 0) == a + (Spaced(inner) + (b + ("\n" + Flatten(rest, 0))))
  {
    var s3 := "\n" + rest;
    var s2 := b + s3;
    var s1 := ")" + s2;
    var s0 := "(" + (inner + s1);
    FlattenText(a, s0, 0);
    assert s0[0] == '(' && s0[1..] == inner + s1;
    FlattenText(inner, s1, 1);
    assert s1[0] == ')' && s1[1..] == s2;
    FlattenText(b, s3, 0);
    assert s3[0] == '\n' && s3[1..] == rest;
  }

  // ---- lines and tokens ----

  lemma {:induction false} TokensSpaced(s: string, rest: string, cur: string)
    ensures Tokens(Spaced(s) + rest, cur) == Tokens(s + rest, cur)
    decreases |s|
  {
    if s == [] {
      assert Spaced(s) + rest == s + rest;
    } else {
      var t := Spaced(s);
      assert t[1..] == Spaced(s[1..]);
      assert (t + rest)[0] == t[0] && (t + rest)[1..] == t[1..] + rest;
      assert (s + rest)[0] == s[0] && (s + rest)[1..] == s[1..] + rest;
      TokensSpaced(s[1..], rest, []);
      TokensSpaced(s[1..], rest, cur + [s[0]]);
    }
  }

  lemma {:induction false} TokensAfter(a: string, s: string, t: string, cur: string)
    requires forall c :: Tokens(s, c) == Tokens(t, c)
    ensures Tokens(a + s, cur) == Tokens(a + t, cur)
    decreases |a|
  {
    if a == [] {
      assert a + s == s && a + t == t;
    } else {
      assert (a + s)[0] == a[0] && (a + s)[1..] == a[1..] + s;
      assert (a + t)[0] == a[0] && (a + t)[1..] == a[1..] + t;
      TokensAfter(a[1..], s, t, []);
      TokensAfter(a[1..], s, t, cur + [a[0]]);
    }
  }

  /** A carriage return before the line break is no part of a token. */
  lemma {:induction false} TokensDropCr(l: string)
    ensures Tokens(DropCr(l), []) == Tokens(l, [])
  {
    if DropCr(l) != l {
      var a := l[..|l| - 1];
      assert l == a + "\r";
      assert Tokens("\r"[1..], []) == [];
      TokensAfter(a, "", "\r", []);
      assert a + "" == a;
    }
  }

  lemma {:induction false} FirstLine(l: string, rest: string)
    requires OneLine(l)
    ensures Lines(l + ("\n" + rest), []) == [DropCr(l)] + Lines(rest, [])
  {
    var s := "\n" + rest;
    LinesOfText(l, s, []);
    assert [] + l == l && s[0] == '\n' && s[1..] == rest;
  }

  /** What a line with these tokens is. */
  function OfTokens(fe: FileEnv, toks: seq<string>): LineResult {
    if toks == [] then Skip else ParseTokens(fe, toks[0], toks[1..])
  }

  ghost predicate NoMark(s: string) { forall i :: 0 <= i < |s| ==> s[i] != ';' }

  /**
   A record wrapped in parentheses over any number of lines is the record of its tokens, whatever the line
   breaks, and the rest of the file is read as if it stood alone.
   */
  lemma {:induction false} WrappedReadsAsOne(fe: FileEnv, a: string, inner: string, b: string, rest: string)
    requires OneLine(a) && NoParens(inner) && OneLine(b) && NoMark(a) && NoMark(inner) && NoMark(b)
    ensures Parse(fe, Wrapped(a, inner, b, rest)) ==
            Add(OfTokens(fe, Tokens(a + (inner + b), [])), Parse(fe, rest))
  {
    FlattenWrapped(a, inner, b, rest);
    var line := a + (Spaced(inner) + b);
    assert a + (Spaced(inner) + (b + ("\n" + Flatten(rest, 0)))) == line + ("\n" + Flatten(rest, 0));
    FirstLine(line, Flatten(rest, 0));
    assert NoMark(line);
    NoComment(DropCr(line));
    TokensDropCr(line);
    forall c ensures Tokens(Spaced(inner) + b, c) == Tokens(inner + b, c) { TokensSpaced(inner, b, c); }
    TokensAfter(a, Spaced(inner) + b, inner + b, []);
  }

  // ---- comments ----

  lemma {:induction false} CutAtMark(x: string, y: string)
    ensures BeforeComment(x + (";" + y)) == BeforeComment(x)
  {
    var s := x + (";" + y);
    if x == [] {
      assert s[0] == ';';
    } else {
      assert s[0] == x[0] && s[1..] == x[1..] + (";" + y);
      CutAtMark(x[1..], y);
    }
  }

  /** A trailing comment does not matter. */
  lemma {:induction false} CommentDropped(fe: FileEnv, x: string, y: string)
    ensures ParseLine(fe, x + (";" + y)) == ParseLine(fe, x)
  {
    CutAtMark(x, y);
  }

  lemma {:induction false} CommentedLine(fe: FileEnv, x: string, y: string, rest: string)
    requires OneLine(x) && OneLine(y) && NoMark(x)
    ensures Collect(fe, Lines(x + (";" + (y + ("\n" + rest))), [])) ==
            Add(OfTokens(fe, Tokens(x, [])), Collect(fe, Lines(rest, [])))
  {
    var line := x + (";" + y);
    assert x + (";" + (y + ("\n" + rest))) == line + ("\n" + rest);
    FirstLine(line, rest);
    var cut := DropCr(line);
    assert cut == x + (";" + cut[|x| + 1..]);
    CutAtMark(x, cut[|x| + 1..]);
    NoComment(x);
  }

  /** A comment at the end of a line ends there: the lines after it are read as if they stood alone. */
  lemma {:induction false} CommentEndsLine(fe: FileEnv, x: string, y: string, rest: string)
    requires OneLine(x) && OneLine(y) && NoMark(x)
    ensures Parse(fe, x + (";" + (y + ("\n" + rest)))) == Add(OfTokens(fe, Tokens(x, [])), Parse(fe, rest))
  {
    var line, s, after := x + (";" + y), "\n" + rest, "\n" + Flatten(rest, 0);
    Join(";", y, s);
    Join(x, ";" + y, s);
    FlattenText(line, s, 0);
    assert s[0] == '\n' && s[1..] == rest;
    Join(";", y, after);
    Join(x, ";" + y, after);
    CommentedLine(fe, x, y, Flatten(rest, 0));
  }

  lemma {:induction false} Regrouped(a: string, inner: string, lost: string, b: string, end: string)
    ensures a + ((inner + (";" + lost)) + (b + end)) == (a + inner) + (";" + ((lost + b) + end))
  {}

  /**
   Inside parentheses a comment does not end with its line: it takes the rest of the record with it, up to the
   closing parenthesis and on to the end of that line.
   */
  lemma {:induction false} CommentEndsRecord(fe: FileEnv, a: string, inner: string, lost: string, b: string,
                                             rest: string)
    requires OneLine(a) && NoParens(inner) && NoParens(lost) && OneLine(b) && NoMark(a) && NoMark(inner)
    ensures Parse(fe, Wrapped(a, inner + (";" + lost), b, rest)) ==
            Add(OfTokens(fe, Tokens(a + inner, [])), Parse(fe, rest))
  {
    var whole := inner + (";" + lost);
    FlattenWrapped(a, whole, b, rest);
    var x, y := a + Spaced(inner), Spaced(lost) + b;
    SpacedJoin(inner, ";" + lost);
    SpacedJoin(";", lost);
    assert Spaced(";") == ";";
    Regrouped(a, Spaced(inner), Spaced(lost), b, "\n" + Flatten(rest, 0));
    CommentedLine(fe, x, y, Flatten(rest, 0));
    forall c ensures Tokens(Spaced(inner), c) == Tokens(inner, c) {
      TokensSpaced(inner, [], c);
      assert Spaced(inner) + [] == Spaced(inner) && inner + [] == inner;
    }
    TokensAfter(a, Spaced(inner), inner, []);
  }

  /** A parenthesis opened in a comment is opened all the same: with none to close it the rest of the file is lost. */
  lemma {:induction false} OpenInCommentLosesRest(fe: FileEnv, x: string, rest: string)
    requires OneLine(x) && NoParens(rest)
    ensures Parse(fe, ";" + (x + ("(" + rest))) == Some([])
  {
    var raw := ";" + (x + ("(" + rest));
    var s := "(" + rest;
    assert raw == (";" + x) + s;
    FlattenText(";" + x, s, 0);
    assert s[0] == '(' && s[1..] == rest;
    FlattenText(rest, [], 1);
    assert rest + [] == rest;
    var line := (";" + x) + Spaced(rest);
    assert Flatten(raw, 0) == line;
    LinesOfText(line, [], []);
    assert line + [] == line && [] + line == line;
    assert BeforeComment(line) == [];
    assert Collect(fe, [line]) == Add(ParseLine(fe, line), Some([]));
  }
}
