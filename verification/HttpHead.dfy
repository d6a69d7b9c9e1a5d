/**
 The request head of an HTTP/1.1 DoH request: the strict parser of the request line and header block,
 the framing rules, the length lookup, and a renderer the parser inverts.  A byte is a character;
 whether a byte string is UTF-8 is a parameter.
 */
module HttpHead {
  import opened Basics

  type Bytes = string
  datatype Header = Header(name: string, value: string)
  datatype Head = Head(verb: string, path: string, headers: seq<Header>)

  const CRLF: Bytes := "\r\n"
  const MAX_USIZE: nat := 0xFFFF_FFFF_FFFF_FFFF

  predicate IsTokenChar(c: char) {
    || c == '!' || c == '#' || c == '$' || c == '%' || c == '&' || c == '\'' || c == '*' || c == '+'
    || c == '-' || c == '.' || c == '^' || c == '_' || c == '`' || c == '|' || c == '~'
    || '0' <= c <= '9' || 'A' <= c <= 'Z' || 'a' <= c <= 'z'
  }

  predicate IsToken(s: string) { s != "" && forall i :: 0 <= i < |s| ==> IsTokenChar(s[i]) }

  predicate IsPath(s: string) { s != "" && forall i :: 0 <= i < |s| ==> s[i] >= ' ' && s[i] as int != 0x7f }

  predicate IsOws(c: char) { c == ' ' || c == '\t' }

  predicate IsValue(s: string) { forall i :: 0 <= i < |s| ==> s[i] != '\0' && s[i] != '\r' && s[i] != '\n' }

  // ---- the parser ----

  /** The pieces between line ends; `cur` is the line so far. */
  function Lines(s: Bytes, cur: string): (lines: seq<string>)
    ensures lines != []
    decreases |s|
  {
    if s == [] then [cur]
    else if |s| >= 2 && s[0] == '\r' && s[1] == '\n' then [cur] + Lines(s[2..], [])
    else Lines(s[1..], cur + [s[0]])
  }

  /** The pieces between single spaces. */
  function Words(s: string, cur: string): (words: seq<string>)
    ensures words != []
  {
    if s == [] then [cur]
    else if s[0] == ' ' then [cur] + Words(s[1..], [])
    else Words(s[1..], cur + [s[0]])
  }

  /** The text before and after the first colon. */
  function AtColon(s: string): (parts: Option<(string, string)>)
    ensures parts.Some? ==> parts.value.0 + ":" + parts.value.1 == s && ':' !in parts.value.0
  {
    if s == [] then None
    else if s[0] == ':' then Some(([], s[1..]))
    else
      var rest := AtColon(s[1..]);
      if rest.None? then None
      else
        assert s == [s[0]] + s[1..];
        Some(([s[0]] + rest.value.0, rest.value.1))
  }

  function TrimStart(s: string): string { if s != [] && IsOws(s[0]) then TrimStart(s[1..]) else s }
  function TrimEnd(s: string): string { if s != [] && IsOws(s[|s| - 1]) then TrimEnd(s[..|s| - 1]) else s }

  function ParseHeader(line: string): Option<Header> {
    if line == [] || IsOws(line[0]) || AtColon(line).None? then None
    else
      var parts := AtColon(line).value;
      var value := TrimEnd(TrimStart(parts.1));
      if IsToken(parts.0) && IsValue(value) then Some(Header(Lower(parts.0), value)) else None
  }

  function ParseHeaders(lines: seq<string>): Option<seq<Header>> {
    if lines == [] then Some([]) else AddFirst(ParseHeader(lines[0]), ParseHeaders(lines[1..]))
  }

  function AddFirst(h: Option<Header>, rest: Option<seq<Header>>): Option<seq<Header>> {
    if h.Some? && rest.Some? then Some([h.value] + rest.value) else None
  }

  function ParseRequestLine(line: string): Option<(string, string)> {
    var words := Words(line, []);
    if |words| == 3 && words[2] == "HTTP/1.1" && IsToken(words[0]) && IsPath(words[1]) then Some((words[0], words[1]))
    else None
  }

  function Parse(utf8: Bytes -> bool, bytes: Bytes): Option<Head> {
    if !utf8(bytes) then None
    else
      var lines := Lines(bytes, []);
      var first, headers := ParseRequestLine(lines[0]), ParseHeaders(lines[1..]);
      if first.Some? && headers.Some? then Some(Head(first.value.0, first.value.1, headers.value)) else None
  }

  /** `parse_request_head`. */
  method ParseRequestHead(utf8: Bytes -> bool, bytes: Bytes) returns (head: Option<Head>)
    ensures head == Parse(utf8, bytes)
  {
    if !utf8(bytes) { return None; }
    var lines := Lines(bytes, []);
    var words := Words(lines[0], []);
    if |words| != 3 || words[2] != "HTTP/1.1" { return None; }
    if !IsToken(words[0]) || !IsPath(words[1]) { return None; }
    var headers: seq<Header> := [];
    PrependNothing(ParseHeaders(lines[1..]));
    for i := 1 to |lines|
      invariant ParseHeaders(lines[1..]) == Prepend(headers, ParseHeaders(lines[i..]))
    {
      var h := ParseHeader(lines[i]);
      assert lines[i..][1..] == lines[i + 1..];
      if h.None? { return None; }
      PrependOne(headers, h.value, ParseHeaders(lines[i + 1..]));
      headers := headers + [h.value];
    }
    assert headers + [] == headers;
    return Some(Head(words[0], words[1], headers));
  }

  lemma {:induction false} PrependNothing(rest: Option<seq<Header>>)
    ensures Prepend([], rest) == rest
  {
    if rest.Some? { assert [] + rest.value == rest.value; }
  }

  lemma {:induction false} PrependOne(done: seq<Header>, h: Header, rest: Option<seq<Header>>)
    ensures Prepend(done, AddFirst(Some(h), rest)) == Prepend(done + [h], rest)
  {
    if rest.Some? { assert done + ([h] + rest.value) == done + [h] + rest.value; }
  }

  // ---- framing ----

  function Count(headers: seq<Header>, name: string): nat {
    if headers == [] then 0 else (if headers[0].name == name then 1 else 0) + Count(headers[1..], name)
  }

  /** `validate_framing`. */
  predicate FramingOk(headers: seq<Header>) {
    Count(headers, "transfer-encoding") == 0 && Count(headers, "trailer") == 0 && Count(headers, "content-length") <= 1
  }

  /** No header has the name. */
  ghost predicate Lacks(headers: seq<Header>, name: string) {
    forall i :: 0 <= i < |headers| ==> headers[i].name != name
  }

  /** No two headers have the name. */
  ghost predicate NoRepeat(headers: seq<Header>, name: string) {
    forall i, j :: 0 <= i < j < |headers| ==> headers[i].name != name || headers[j].name != name
  }

  lemma {:induction false} CountMeans(headers: seq<Header>, name: string)
    ensures Count(headers, name) == 0 <==> Lacks(headers, name)
    ensures Count(headers, name) <= 1 <==> NoRepeat(headers, name)
  {
    if headers != [] {
      var first, rest := headers[0], headers[1..];
      CountMeans(rest, name);
      assert forall i :: 0 <= i < |rest| ==> rest[i] == headers[i + 1];
      assert forall i :: 0 < i < |headers| ==> headers[i] == rest[i - 1];
    }
  }

  /** Which heads have the framing refused: those with a Transfer-Encoding, a Trailer, or two Content-Lengths. */
  lemma {:induction false} FramingMeans(headers: seq<Header>)
    ensures FramingOk(headers) <==>
              && Lacks(headers, "transfer-encoding") && Lacks(headers, "trailer")
              && NoRepeat(headers, "content-length")
  {
    CountMeans(headers, "transfer-encoding");
    CountMeans(headers, "trailer");
    CountMeans(headers, "content-length");
  }

  function Find(headers: seq<Header>, name: string): (v: Option<string>)
    ensures v.Some? ==> exists h :: h in headers && h.name == name && h.value == v.value
    ensures v.None? ==> forall h :: h in headers ==> h.name != name
  {
    if headers == [] then None else if headers[0].name == name then Some(headers[0].value) else Find(headers[1..], name)
  }

  /** `content_length`: digits only, within the machine's word. */
  function ContentLength(headers: seq<Header>): Option<nat> {
    var v := Find(headers, "content-length");
    if v.None? || v.value == [] || exists c :: c in v.value && !IsDigit(c) then None
    else
      var n := ParseNat(v.value, MAX_USIZE);
      if n.Some? then Some(n.value) else None
  }

  // ---- rendering ----

  predicate IsLower(s: string) { Lower(s) == s }

  /** No optional white space at either end. */
  predicate Trimmed(s: string) { s != [] ==> !IsOws(s[0]) && !IsOws(s[|s| - 1]) }

  ghost predicate WellFormedHeader(h: Header) {
    IsToken(h.name) && IsLower(h.name) && IsValue(h.value) && Trimmed(h.value)
  }

  ghost predicate AllWellFormed(headers: seq<Header>) {
    headers == [] || (WellFormedHeader(headers[0]) && AllWellFormed(headers[1..]))
  }

  ghost predicate WellFormed(h: Head) {
    IsToken(h.verb) && IsPath(h.path) && ' ' !in h.path && AllWellFormed(h.headers)
  }

  function HeaderLine(h: Header): string { h.name + ":" + " " + h.value }

  function RequestLine(h: Head): string { h.verb + " " + h.path + " " + "HTTP/1.1" }

  function RenderHeaders(headers: seq<Header>): Bytes {
    if headers == [] then [] else CRLF + HeaderLine(headers[0]) + RenderHeaders(headers[1..])
  }

  function Render(h: Head): Bytes { RequestLine(h) + RenderHeaders(h.headers) }

  // ---- the parser inverts the renderer ----

  ghost predicate NoBreak(s: string) { forall i :: 0 <= i < |s| ==> s[i] != '\r' && s[i] != '\n' }

  lemma {:induction false} LinesOfText(t: string, rest: Bytes, cur: string)
    requires NoBreak(t) && (rest == [] || (|rest| >= 2 && rest[..2] == CRLF))
    ensures Lines(t + rest, cur) == Lines(rest, cur + t)
    decreases |t|
  {
    if t == [] {
      assert t + rest == rest && cur + t == cur;
    } else {
      assert (t + rest)[0] == t[0] && (t + rest)[1..] == t[1..] + rest;
      LinesOfText(t[1..], rest, cur + [t[0]]);
      assert cur + [t[0]] + t[1..] == cur + t;
    }
  }

  function HeaderLines(headers: seq<Header>): seq<string> {
    if headers == [] then [] else [HeaderLine(headers[0])] + HeaderLines(headers[1..])
  }

  lemma {:induction false} LinesAfterBreak(line: string, rest: Bytes, cur: string)
    requires NoBreak(line) && (rest == [] || (|rest| >= 2 && rest[..2] == CRLF))
    ensures Lines(CRLF + line + rest, cur) == [cur] + Lines(rest, line)
  {
    var s := CRLF + line + rest;
    assert s[0] == '\r' && s[1] == '\n' && s[2..] == line + rest;
    LinesOfText(line, rest, []);
    assert [] + line == line;
  }

  lemma {:induction false} LinesOfHeaders(headers: seq<Header>, cur: string)
    requires AllWellFormed(headers)
    ensures Lines(RenderHeaders(headers), cur) == [cur] + HeaderLines(headers)
    decreases |headers|
  {
    if headers != [] {
      var line := HeaderLine(headers[0]);
      HeaderLineNoBreak(headers[0]);
      RestStarts(headers[1..]);
      LinesAfterBreak(line, RenderHeaders(headers[1..]), cur);
      LinesOfHeaders(headers[1..], line);
    }
  }

  lemma {:induction false} RestStarts(headers: seq<Header>)
    ensures var s := RenderHeaders(headers); s == [] || (|s| >= 2 && s[..2] == CRLF)
  {}

  lemma {:induction false} HeaderLineNoBreak(h: Header)
    requires WellFormedHeader(h)
    ensures NoBreak(HeaderLine(h))
  {
    TokenNoBreak(h.name);
    NoBreakAppend(h.name, ":");
    NoBreakAppend(h.name + ":", " ");
    NoBreakAppend(h.name + ":" + " ", h.value);
  }

  lemma {:induction false} WordsOfText(t: string, rest: string, cur: string)
    requires ' ' !in t
    ensures Words(t + " " + rest, cur) == [cur + t] + Words(rest, [])
    decreases |t|
  {
    var s := t + " " + rest;
    if t == [] {
      assert s[0] == ' ' && s[1..] == rest && cur + t == cur;
    } else {
      assert s[0] == t[0] && s[1..] == t[1..] + " " + rest;
      WordsOfText(t[1..], rest, cur + [t[0]]);
      assert cur + [t[0]] + t[1..] == cur + t;
    }
  }

  lemma {:induction false} LastWord(t: string, cur: string)
    requires ' ' !in t
    ensures Words(t, cur) == [cur + t]
    decreases |t|
  {
    if t == [] {
      assert cur + t == cur;
    } else {
      LastWord(t[1..], cur + [t[0]]);
      assert cur + [t[0]] + t[1..] == cur + t;
    }
  }

  lemma {:induction false} ParseRequestLineOf(h: Head)
    requires WellFormed(h)
    ensures ParseRequestLine(RequestLine(h)) == Some((h.verb, h.path))
  {
    TokenHasNoMarks(h.verb);
    assert RequestLine(h) == h.verb + " " + (h.path + " " + "HTTP/1.1");
    WordsOfText(h.verb, h.path + " " + "HTTP/1.1", []);
    WordsOfText(h.path, "HTTP/1.1", []);
    LastWord("HTTP/1.1", []);
    assert [] + h.verb == h.verb && [] + h.path == h.path && [] + "HTTP/1.1" == "HTTP/1.1";
  }

  lemma {:induction false} AtColonOf(name: string, rest: string)
    requires ':' !in name
    ensures AtColon(name + ":" + rest) == Some((name, rest))
    decreases |name|
  {
    var s := name + ":" + rest;
    if name == [] {
      assert s[0] == ':' && s[1..] == rest;
    } else {
      assert s[0] == name[0] && s[1..] == name[1..] + ":" + rest;
      AtColonOf(name[1..], rest);
      assert [name[0]] + name[1..] == name;
    }
  }

  lemma {:induction false} TokenHasNoMarks(s: string)
    requires IsToken(s)
    ensures ':' !in s && ' ' !in s && !IsOws(s[0])
  {
    forall i | 0 <= i < |s| ensures s[i] != ':' && s[i] != ' ' && s[i] != '\t' { assert IsTokenChar(s[i]); }
  }

  lemma {:induction false} TrimPadded(value: string)
    requires Trimmed(value)
    ensures TrimEnd(TrimStart(" " + value)) == value
  {
    var padded := " " + value;
    assert padded[0] == ' ' && padded[1..] == value;
    assert TrimStart(value) == value && TrimEnd(value) == value;
  }

  lemma {:induction false} ParseHeaderOf(h: Header)
    requires WellFormedHeader(h)
    ensures ParseHeader(HeaderLine(h)) == Some(h)
  {
    TokenHasNoMarks(h.name);
    assert HeaderLine(h) == h.name + ":" + (" " + h.value);
    AtColonOf(h.name, " " + h.value);
    assert HeaderLine(h)[0] == h.name[0];
    TrimPadded(h.value);
  }

  lemma {:induction false} ParseOneMore(line: string, lines: seq<string>)
    ensures ParseHeaders([line] + lines) == AddFirst(ParseHeader(line), ParseHeaders(lines))
  {
    assert ([line] + lines)[1..] == lines;
  }

  lemma {:induction false} ParseHeadersCons(h: Header, rest: seq<Header>)
    requires WellFormedHeader(h) && ParseHeaders(HeaderLines(rest)) == Some(rest)
    ensures ParseHeaders([HeaderLine(h)] + HeaderLines(rest)) == Some([h] + rest)
  {
    ParseHeaderOf(h);
    ParseOneMore(HeaderLine(h), HeaderLines(rest));
  }

  lemma {:induction false} ParseHeadersOf(headers: seq<Header>)
    requires AllWellFormed(headers)
    ensures ParseHeaders(HeaderLines(headers)) == Some(headers)
    decreases |headers|
  {
    if headers != [] {
      ParseHeadersOf(headers[1..]);
      ParseHeadersCons(headers[0], headers[1..]);
      assert [headers[0]] + headers[1..] == headers;
    }
  }

  /** Every well-formed head is read back exactly as it was written. */
  lemma {:induction false} RoundTrip(utf8: Bytes -> bool, h: Head)
    requires WellFormed(h) && utf8(Render(h))
    ensures Parse(utf8, Render(h)) == Some(h)
  {
    var line := RequestLine(h);
    RequestLineNoBreak(h);
    RestStarts(h.headers);
    LinesOfText(line, RenderHeaders(h.headers), []);
    assert [] + line == line;
    LinesOfHeaders(h.headers, line);
    ParseRequestLineOf(h);
    ParseHeadersOf(h.headers);
    assert ([line] + HeaderLines(h.headers))[1..] == HeaderLines(h.headers);
  }

  lemma {:induction false} NoBreakAppend(a: string, b: string)
    requires NoBreak(a) && NoBreak(b)
    ensures NoBreak(a + b)
  {}

  lemma {:induction false} TokenNoBreak(s: string)
    requires IsToken(s)
    ensures NoBreak(s)
  {
    forall i | 0 <= i < |s| ensures s[i] != '\r' && s[i] != '\n' { assert IsTokenChar(s[i]); }
  }

  lemma {:induction false} RequestLineNoBreak(h: Head)
    requires WellFormed(h)
    ensures NoBreak(RequestLine(h))
  {
    TokenNoBreak(h.verb);
    NoBreakAppend(h.verb, " ");
    NoBreakAppend(h.verb + " ", h.path);
    NoBreakAppend(h.verb + " " + h.path, " ");
    NoBreakAppend(h.verb + " " + h.path + " ", "HTTP/1.1");
  }

  // ---- whatever the parser accepts is well formed ----

  lemma {:induction false} WordsHaveNoSpace(s: string, cur: string)
    requires ' ' !in cur
    ensures forall w :: w in Words(s, cur) ==> ' ' !in w
    decreases |s|
  {
    if s != [] {
      if s[0] == ' ' { WordsHaveNoSpace(s[1..], []); } else { WordsHaveNoSpace(s[1..], cur + [s[0]]); }
    }
  }

  lemma {:induction false} LowerToken(s: string)
    requires IsToken(s)
    ensures IsToken(Lower(s)) && IsLower(Lower(s))
  {
    var t := Lower(s);
    forall i | 0 <= i < |s|
      ensures IsTokenChar(t[i]) && LowerChar(t[i]) == t[i]
    {
      assert IsTokenChar(s[i]) && t[i] == LowerChar(s[i]);
    }
    assert Lower(t) == t;
  }

  lemma {:induction false} TrimStartTrims(s: string)
    ensures var t := TrimStart(s); t != [] ==> !IsOws(t[0])
    decreases |s|
  {
    if s != [] && IsOws(s[0]) { TrimStartTrims(s[1..]); }
  }

  lemma {:induction false} TrimEndTrims(s: string)
    requires s != [] ==> !IsOws(s[0])
    ensures Trimmed(TrimEnd(s))
    decreases |s|
  {
    if s != [] && IsOws(s[|s| - 1]) { TrimEndTrims(s[..|s| - 1]); }
  }

  lemma {:induction false} ParsedHeaderIsWellFormed(line: string)
    requires ParseHeader(line).Some?
    ensures WellFormedHeader(ParseHeader(line).value)
  {
    var parts := AtColon(line).value;
    LowerToken(parts.0);
    TrimStartTrims(parts.1);
    TrimEndTrims(TrimStart(parts.1));
  }

  lemma {:induction false} ParsedHeadersAreWellFormed(lines: seq<string>)
    requires ParseHeaders(lines).Some?
    ensures AllWellFormed(ParseHeaders(lines).value)
    decreases |lines|
  {
    if lines != [] {
      ParsedHeaderIsWellFormed(lines[0]);
      ParsedHeadersAreWellFormed(lines[1..]);
      var h, rest := ParseHeader(lines[0]).value, ParseHeaders(lines[1..]).value;
      assert ([h] + rest)[1..] == rest;
    }
  }

  /** A head the parser accepts is well formed, so printing and parsing it again changes nothing. */
  lemma {:induction false} ParsedIsWellFormed(utf8: Bytes -> bool, bytes: Bytes)
    requires Parse(utf8, bytes).Some?
    ensures WellFormed(Parse(utf8, bytes).value)
    ensures var h := Parse(utf8, bytes).value; utf8(Render(h)) ==> Parse(utf8, Render(h)) == Some(h)
  {
    var h, lines := Parse(utf8, bytes).value, Lines(bytes, []);
    WordsHaveNoSpace(lines[0], []);
    assert h.path in Words(lines[0], []);
    ParsedHeadersAreWellFormed(lines[1..]);
    if utf8(Render(h)) { RoundTrip(utf8, h); }
  }
}
