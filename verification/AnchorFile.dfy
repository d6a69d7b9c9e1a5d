/**
 The active-anchor file: rendering a key list, parsing presentation format, and publishing the
 active keys to the validator.  The main result says when a restart, which parses the file, loads
 exactly the set that was live.
 */
module AnchorFile {
  import opened Basics
  import opened Anchor

  /** What the file code uses besides a refresh: reading an owner name, and its two header comments. */
  datatype FileEnv = FileEnv(env: Env, nameOf: string -> Option<string>, banner: string, format: string) {
    ghost predicate Valid() { IsComment(banner) && IsComment(format) }

    function Header(): string { Cell(banner, '\n', Cell(format, '\n', [])) }
  }

  /** A one-line comment without parentheses. */
  ghost predicate IsComment(l: string) {
    && |l| > 0 && l[0] == ';' && DropCr(l) == l
    && forall i :: 0 <= i < |l| ==> l[i] != '\n' && l[i] != '(' && l[i] != ')'
  }

  datatype TrustAnchor = TrustAnchor(name: string, key: Dnskey)

  // ---- characters, tokens, lines ----

  /** Unicode White_Space. */
  predicate IsSpace(c: char) {
    var n := c as int;
    9 <= n <= 13 || n in {0x20, 0x85, 0xa0, 0x1680, 0x2028, 0x2029, 0x202f, 0x205f, 0x3000} || 0x2000 <= n <= 0x200a
  }

  /** Maximal runs of non-space characters; `cur` is the run being read. */
  function Tokens(s: string, cur: string): seq<string>
    decreases |s|
  {
    if s == [] then (if cur == [] then [] else [cur])
    else if IsSpace(s[0]) then (if cur == [] then [] else [cur]) + Tokens(s[1..], [])
    else Tokens(s[1..], cur + [s[0]])
  }

  /** `str::lines`, `cur` being the line read so far. */
  function Lines(s: string, cur: string): seq<string>
    decreases |s|
  {
    if s == [] then (if cur == [] then [] else [cur])
    else if s[0] == '\n' then [DropCr(cur)] + Lines(s[1..], [])
    else Lines(s[1..], cur + [s[0]])
  }

  function DropCr(l: string): string { if |l| > 0 && l[|l| - 1] == '\r' then l[..|l| - 1] else l }

  function BeforeComment(l: string): string { if l == [] || l[0] == ';' then [] else [l[0]] + BeforeComment(l[1..]) }

  /** Parenthesised line breaks become spaces and the parentheses disappear. */
  function Flatten(raw: string, depth: nat): string
    decreases |raw|
  {
    if raw == [] then []
    else if raw[0] == '(' then Flatten(raw[1..], depth + 1)
    else if raw[0] == ')' then Flatten(raw[1..], if depth > 0 then depth - 1 else 0)
    else if raw[0] == '\n' && depth > 0 then [' '] + Flatten(raw[1..], depth)
    else [raw[0]] + Flatten(raw[1..], depth)
  }

  function UpperChar(c: char): char { if 'a' <= c <= 'z' then c - 'a' + 'A' else c }

  predicate EqIgnoreCase(s: string, t: string) {
    |s| == |t| && forall i :: 0 <= i < |s| ==> UpperChar(s[i]) == UpperChar(t[i])
  }

  // ---- parsing ----

  /** Index one past the first DNSKEY token, or the number of tokens. */
  function AfterType(toks: seq<string>): (i: nat)
    ensures i <= |toks|
  {
    if toks == [] then 0 else if EqIgnoreCase(toks[0], "DNSKEY") then 1 else 1 + AfterType(toks[1..])
  }

  function Concat(toks: seq<string>): string { if toks == [] then [] else toks[0] + Concat(toks[1..]) }

  datatype LineResult = Skip | Fail | Found(anchor: TrustAnchor)

  function KeyOf(flags: nat, algorithm: nat, publicKey: Bytes): Dnskey {
    Dnskey(Bit(flags, 256), Bit(flags, 1), Bit(flags, 128), algorithm, publicKey)
  }

  function ParseTokens(fe: FileEnv, name: string, rest: seq<string>): LineResult {
    var c := AfterType(rest);
    if |rest| - c < 4 then Skip
    else
      var flags, protocol := ParseNat(rest[c], 65535), ParseNat(rest[c + 1], 255);
      var algorithm := ParseNat(rest[c + 2], 255);
      var key := fe.env.decode(Concat(rest[c + 3..]));
      var owner := fe.nameOf(name);
      if flags.None? || protocol.None? || algorithm.None? || key.None? || owner.None? then Fail
      else Found(TrustAnchor(owner.value, KeyOf(flags.value, algorithm.value, key.value)))
  }

  function ParseLine(fe: FileEnv, line: string): LineResult {
    var toks := Tokens(BeforeComment(line), []);
    if toks == [] then Skip else ParseTokens(fe, toks[0], toks[1..])
  }

  function Add(result: LineResult, rest: Option<seq<TrustAnchor>>): Option<seq<TrustAnchor>> {
    match result
    case Skip => rest
    case Fail => None
    case Found(a) => if rest.Some? then Some([a] + rest.value) else None
  }

  function Collect(fe: FileEnv, lines: seq<string>): Option<seq<TrustAnchor>> {
    if lines == [] then Some([]) else Add(ParseLine(fe, lines[0]), Collect(fe, lines[1..]))
  }

  function Parse(fe: FileEnv, raw: string): Option<seq<TrustAnchor>> { Collect(fe, Lines(Flatten(raw, 0), [])) }

  /** The pass that drops parentheses. */
  method FlattenParens(raw: string) returns (flat: string)
    ensures flat == Flatten(raw, 0)
  {
    flat := "";
    var depth := 0;
    for i := 0 to |raw|
      invariant depth >= 0 && flat + Flatten(raw[i..], depth) == Flatten(raw, 0)
    {
      assert raw[i..][1..] == raw[i + 1..];
      if raw[i] == '(' {
        depth := depth + 1;
      } else if raw[i] == ')' {
        if depth > 0 { depth := depth - 1; }
      } else if raw[i] == '\n' && depth > 0 {
        flat := flat + [' '];
      } else {
        flat := flat + [raw[i]];
      }
    }
    assert flat + Flatten(raw[|raw|..], depth) == flat;
  }

  lemma {:induction false} PrependFound(done: seq<TrustAnchor>, result: LineResult, rest: Option<seq<TrustAnchor>>)
    ensures Prepend([], rest) == rest
    ensures result.Skip? ==> Prepend(done, Add(result, rest)) == Prepend(done, rest)
    ensures result.Found? ==> Prepend(done, Add(result, rest)) == Prepend(done + [result.anchor], rest)
  {
    if rest.Some? {
      assert [] + rest.value == rest.value;
      if result.Found? { assert done + ([result.anchor] + rest.value) == done + [result.anchor] + rest.value; }
    }
  }

  /** `parse_presentation_format`. */
  method ParsePresentation(fe: FileEnv, raw: string) returns (anchors: Option<seq<TrustAnchor>>)
    ensures anchors == Parse(fe, raw)
  {
    var flat := FlattenParens(raw);
    var lines := Lines(flat, []);
    assert lines[0..] == lines;
    PrependFound([], Skip, Collect(fe, lines));
    var keys: seq<TrustAnchor> := [];
    for i := 0 to |lines|
      invariant Prepend(keys, Collect(fe, lines[i..])) == Parse(fe, raw)
    {
      assert lines[i..][1..] == lines[i + 1..];
      var result := ParseLine(fe, lines[i]);
      PrependFound(keys, result, Collect(fe, lines[i + 1..]));
      match result {
        case Skip =>
        case Fail => return None;
        case Found(a) => keys := keys + [a];
      }
    }
    assert keys + [] == keys;
    return Some(keys);
  }

  // ---- rendering and publishing ----

  function WithoutRevoke(flags: nat): nat { if Bit(flags, 128) then flags - 128 else flags }

  function Cell(t: string, sep: char, rest: string): string { t + [sep] + rest }

  /** `owner TTL IN DNSKEY flags 3 algorithm key`. */
  function Line(k: ManagedKey, ttl: nat): string {
    Cell(k.zone, '\t', Cell(Decimal(ttl), '\t', Cell("IN", '\t', Cell("DNSKEY", '\t', Rdata(k)))))
  }

  function Rdata(k: ManagedKey): string {
    Cell(Decimal(WithoutRevoke(k.flags)), ' ', Cell("3", ' ', Cell(Decimal(k.algorithm), ' ', k.publicKey)))
  }

  function Body(keys: seq<ManagedKey>, ttl: nat): string {
    if keys == [] then []
    else (if keys[0].status.Active? then Cell(Line(keys[0], ttl), '\n', []) else []) + Body(keys[1..], ttl)
  }

  /** `render_anchor_file`. */
  method RenderAnchorFile(fe: FileEnv, keys: seq<ManagedKey>, ttl: nat) returns (out: string)
    ensures out == Rendered(fe, keys, ttl)
  {
    out := fe.Header();
    for i := 0 to |keys|
      invariant out + Body(keys[i..], ttl) == Rendered(fe, keys, ttl)
    {
      assert keys[i..][1..] == keys[i + 1..];
      if keys[i].status.Active? { out := out + Cell(Line(keys[i], ttl), '\n', []); }
    }
    assert out + [] == out;
  }

  function Rendered(fe: FileEnv, keys: seq<ManagedKey>, ttl: nat): string { fe.Header() + Body(keys, ttl) }

  function ToDnskey(env: Env, k: ManagedKey): Option<Dnskey> {
    var b := env.decode(k.publicKey);
    if b.None? then None else Some(KeyOf(k.flags, k.algorithm, b.value))
  }

  /** `TrustAnchors::from_managed_keys`. */
  function Publish(fe: FileEnv, keys: seq<ManagedKey>): Option<seq<TrustAnchor>> {
    if keys == [] then Some([])
    else
      var rest := Publish(fe, keys[1..]);
      if !keys[0].status.Active? then rest
      else
        var key, owner := ToDnskey(fe.env, keys[0]), fe.nameOf(keys[0].zone);
        if key.None? || owner.None? || rest.None? then None
        else Some([TrustAnchor(owner.value, key.value)] + rest.value)
  }

  // ---- text facts ----

  /** A character that ends a token, starts a comment or is a parenthesis. */
  predicate Plain(c: char) { !IsSpace(c) && c != ';' && c != '(' && c != ')' }

  ghost predicate Clean(s: string) { forall i :: 0 <= i < |s| ==> Plain(s[i]) }

  /** Text a rendered line may hold between its tokens too. */
  ghost predicate LineText(s: string) {
    forall i :: 0 <= i < |s| ==> s[i] != ';' && s[i] != '(' && s[i] != ')' && s[i] != '\n' && s[i] != '\r'
  }

  lemma {:induction false} TokensOfClean(t: string, s: string, cur: string)
    requires Clean(t)
    ensures Tokens(t + s, cur) == Tokens(s, cur + t)
    decreases |t|
  {
    if t == [] {
      assert t + s == s && cur + t == cur;
    } else {
      assert (t + s)[1..] == t[1..] + s;
      TokensOfClean(t[1..], s, cur + [t[0]]);
      assert cur + [t[0]] + t[1..] == cur + t;
    }
  }

  lemma TokensOfCell(t: string, sep: char, rest: string)
    requires Clean(t) && t != [] && IsSpace(sep)
    ensures Tokens(Cell(t, sep, rest), []) == [t] + Tokens(rest, [])
  {
    assert Cell(t, sep, rest) == t + ([sep] + rest);
    TokensOfClean(t, [sep] + rest, []);
    assert [] + t == t;
    assert ([sep] + rest)[1..] == rest;
  }

  lemma {:induction false} LinesOfText(t: string, s: string, cur: string)
    requires forall i :: 0 <= i < |t| ==> t[i] != '\n'
    ensures Lines(t + s, cur) == Lines(s, cur + t)
    decreases |t|
  {
    if t == [] {
      assert t + s == s && cur + t == cur;
    } else {
      assert (t + s)[1..] == t[1..] + s;
      LinesOfText(t[1..], s, cur + [t[0]]);
      assert cur + [t[0]] + t[1..] == cur + t;
    }
  }

  lemma LinesOfCell(l: string, rest: string)
    requires (forall i :: 0 <= i < |l| ==> l[i] != '\n') && DropCr(l) == l
    ensures Lines(Cell(l, '\n', rest), []) == [l] + Lines(rest, [])
  {
    assert Cell(l, '\n', rest) == l + (['\n'] + rest);
    LinesOfText(l, ['\n'] + rest, []);
    assert [] + l == l;
    assert (['\n'] + rest)[1..] == rest;
  }

  lemma {:induction false} FlattenPlain(s: string)
    requires forall i :: 0 <= i < |s| ==> s[i] != '(' && s[i] != ')'
    ensures Flatten(s, 0) == s
  {
    if s != [] {
      FlattenPlain(s[1..]);
      assert s == [s[0]] + s[1..];
    }
  }

  lemma {:induction false} NoComment(s: string)
    requires forall i :: 0 <= i < |s| ==> s[i] != ';'
    ensures BeforeComment(s) == s
  {
    if s != [] {
      NoComment(s[1..]);
      assert s == [s[0]] + s[1..];
    }
  }

  lemma DigitIsPlain(n: nat)
    requires n < 10
    ensures IsDigit(Digit(n)) && Plain(Digit(n)) && (Digit(n) - '0') as nat == n
  {}

  lemma {:induction false} DecimalIsClean(n: nat)
    ensures Decimal(n) != [] && Clean(Decimal(n)) && IsDigit(Decimal(n)[0])
  {
    DigitIsPlain(n % 10);
    if n >= 10 { DecimalIsClean(n / 10); }
  }

  // ---- the round trip ----

  /** Fields within their types and made of plain characters, so that the line splits back into them. */
  ghost predicate WellTyped(k: ManagedKey) {
    k.flags < 65536 && k.algorithm < 256 && Clean(k.zone) && k.zone != [] && Clean(k.publicKey)
  }

  lemma AfterTypeOfLine(ttl: nat, rdata: seq<string>)
    ensures AfterType([Decimal(ttl), "IN", "DNSKEY"] + rdata) == 3
  {
    DecimalIsClean(ttl);
    var toks := [Decimal(ttl), "IN", "DNSKEY"] + rdata;
    assert !EqIgnoreCase(toks[0], "DNSKEY") by {
      assert |toks[0]| == 6 ==> UpperChar(toks[0][0]) != UpperChar("DNSKEY"[0]);
    }
    var toks1, toks2 := ["IN", "DNSKEY"] + rdata, ["DNSKEY"] + rdata;
    assert toks[1..] == toks1 && toks1[1..] == toks2;
    assert EqIgnoreCase("DNSKEY", "DNSKEY");
    assert AfterType(toks2) == 1;
    assert AfterType(toks1) == 1 + AfterType(toks2);
    assert AfterType(toks) == 1 + AfterType(toks1);
  }

  lemma TokensOfKey(key: string)
    requires Clean(key)
    ensures Tokens(key, []) == if key == [] then [] else [key]
  {
    TokensOfClean(key, [], []);
    assert key + [] == key && [] + key == key;
  }

  function RdataTokens(k: ManagedKey): seq<string> {
    [Decimal(WithoutRevoke(k.flags))] +
      (["3"] + ([Decimal(k.algorithm)] + if k.publicKey == [] then [] else [k.publicKey]))
  }

  lemma TokensOfRdata(k: ManagedKey)
    requires WellTyped(k)
    ensures Tokens(Rdata(k), []) == RdataTokens(k)
  {
    DecimalIsClean(WithoutRevoke(k.flags));
    DecimalIsClean(k.algorithm);
    TokensOfKey(k.publicKey);
    var c7 := Cell(Decimal(k.algorithm), ' ', k.publicKey);
    TokensOfCell(Decimal(k.algorithm), ' ', k.publicKey);
    TokensOfCell("3", ' ', c7);
    TokensOfCell(Decimal(WithoutRevoke(k.flags)), ' ', Cell("3", ' ', c7));
  }

  lemma TokensOfLine(k: ManagedKey, ttl: nat)
    requires WellTyped(k)
    ensures Tokens(Line(k, ttl), []) == [k.zone] + ([Decimal(ttl), "IN", "DNSKEY"] + RdataTokens(k))
  {
    DecimalIsClean(ttl);
    TokensOfRdata(k);
    var c4 := Cell("DNSKEY", '\t', Rdata(k));
    var c3 := Cell("IN", '\t', c4);
    TokensOfCell("DNSKEY", '\t', Rdata(k));
    TokensOfCell("IN", '\t', c4);
    TokensOfCell(Decimal(ttl), '\t', c3);
    TokensOfCell(k.zone, '\t', Cell(Decimal(ttl), '\t', c3));
    assert [Decimal(ttl)] + (["IN"] + (["DNSKEY"] + RdataTokens(k))) == [Decimal(ttl), "IN", "DNSKEY"] + RdataTokens(k);
  }

  lemma CellIsLineText(t: string, sep: char, rest: string)
    requires LineText(t) && LineText(rest) && (sep == ' ' || sep == '\t')
    ensures LineText(Cell(t, sep, rest))
  {}

  lemma CleanIsLineText(s: string)
    requires Clean(s)
    ensures LineText(s)
  {
    forall i | 0 <= i < |s| ensures s[i] != '\n' && s[i] != '\r' { assert Plain(s[i]); }
  }

  lemma LineIsText(k: ManagedKey, ttl: nat)
    requires WellTyped(k)
    ensures LineText(Line(k, ttl))
  {
    var flags := WithoutRevoke(k.flags);
    DecimalIsClean(ttl); DecimalIsClean(flags); DecimalIsClean(k.algorithm);
    CleanIsLineText(k.zone); CleanIsLineText(Decimal(ttl)); CleanIsLineText(Decimal(flags));
    CleanIsLineText(Decimal(k.algorithm)); CleanIsLineText(k.publicKey);
    CellIsLineText(Decimal(k.algorithm), ' ', k.publicKey);
    CellIsLineText("3", ' ', Cell(Decimal(k.algorithm), ' ', k.publicKey));
    assert LineText(Rdata(k));
  }

  /** What the parser reads from one rendered line. */
  function Reloaded(fe: FileEnv, k: ManagedKey): LineResult {
    var key, owner := fe.env.decode(k.publicKey), fe.nameOf(k.zone);
    if k.publicKey == [] then Skip
    else if key.None? || owner.None? then Fail
    else Found(TrustAnchor(owner.value, KeyOf(WithoutRevoke(k.flags), k.algorithm, key.value)))
  }

  lemma ParseRenderedLine(fe: FileEnv, k: ManagedKey, ttl: nat)
    requires WellTyped(k)
    ensures ParseLine(fe, Line(k, ttl)) == Reloaded(fe, k)
  {
    LineIsText(k, ttl);
    NoComment(Line(k, ttl));
    TokensOfLine(k, ttl);
    var flags, rdata := WithoutRevoke(k.flags), RdataTokens(k);
    var rest := [Decimal(ttl), "IN", "DNSKEY"] + rdata;
    assert Tokens(Line(k, ttl), []) == [k.zone] + rest;
    assert ([k.zone] + rest)[1..] == rest;
    AfterTypeOfLine(ttl, rdata);
    ParseDecimal(flags, 65535);
    ParseDecimal(k.algorithm, 255);
    assert "3" == Decimal(3);
    ParseDecimal(3, 255);
    if k.publicKey != [] {
      assert rest[6..] == [k.publicKey];
      assert Concat([k.publicKey]) == k.publicKey by {
        assert [k.publicKey][1..] == [] && k.publicKey + [] == k.publicKey;
      }
    }
  }

  /** The list the parser builds from the rendered active keys. */
  function ReloadAll(fe: FileEnv, keys: seq<ManagedKey>): Option<seq<TrustAnchor>> {
    if keys == [] then Some([])
    else if keys[0].status.Active? then Add(Reloaded(fe, keys[0]), ReloadAll(fe, keys[1..]))
    else ReloadAll(fe, keys[1..])
  }

  predicate NoParens(s: string) { '(' !in s && ')' !in s }

  ghost predicate ActiveWellTyped(keys: seq<ManagedKey>) {
    forall i :: 0 <= i < |keys| && keys[i].status.Active? ==> WellTyped(keys[i])
  }

  lemma {:induction false} BodyNoParens(keys: seq<ManagedKey>, ttl: nat)
    requires ActiveWellTyped(keys)
    ensures NoParens(Body(keys, ttl))
  {
    if keys != [] {
      BodyNoParens(keys[1..], ttl);
      if keys[0].status.Active? { LineIsText(keys[0], ttl); }
    }
  }

  lemma TextIsOneLine(l: string)
    requires LineText(l)
    ensures DropCr(l) == l && forall i :: 0 <= i < |l| ==> l[i] != '\n'
  {}

  lemma CollectCons(fe: FileEnv, l: string, rest: seq<string>, result: LineResult)
    requires ParseLine(fe, l) == result
    ensures Collect(fe, [l] + rest) == Add(result, Collect(fe, rest))
  {
    assert ([l] + rest)[1..] == rest;
  }

  lemma CollectCell(fe: FileEnv, k: ManagedKey, ttl: nat, rest: string)
    requires WellTyped(k)
    ensures Collect(fe, Lines(Cell(Line(k, ttl), '\n', rest), [])) == Add(Reloaded(fe, k), Collect(fe, Lines(rest, [])))
  {
    LineIsText(k, ttl);
    TextIsOneLine(Line(k, ttl));
    LinesOfCell(Line(k, ttl), rest);
    ParseRenderedLine(fe, k, ttl);
    CollectCons(fe, Line(k, ttl), Lines(rest, []), Reloaded(fe, k));
  }

  lemma BodyUnfolds(keys: seq<ManagedKey>, ttl: nat)
    requires keys != []
    ensures Body(keys, ttl) == if keys[0].status.Active? then Cell(Line(keys[0], ttl), '\n', Body(keys[1..], ttl))
            else Body(keys[1..], ttl)
  {}

  lemma {:induction false} CollectBody(fe: FileEnv, keys: seq<ManagedKey>, ttl: nat)
    requires ActiveWellTyped(keys)
    ensures Collect(fe, Lines(Body(keys, ttl), [])) == ReloadAll(fe, keys)
  {
    if keys != [] {
      var text := Body(keys[1..], ttl);
      CollectBody(fe, keys[1..], ttl);
      BodyUnfolds(keys, ttl);
      if keys[0].status.Active? { CollectCell(fe, keys[0], ttl, text); }
    }
  }

  lemma HeaderIsSkipped(fe: FileEnv, text: string)
    requires fe.Valid()
    ensures Collect(fe, Lines(fe.Header() + text, [])) == Collect(fe, Lines(text, []))
  {
    var inner := Cell(fe.format, '\n', text);
    assert fe.Header() + text == Cell(fe.banner, '\n', inner);
    LinesOfCell(fe.banner, inner);
    LinesOfCell(fe.format, text);
    CollectCons(fe, fe.format, Lines(text, []), Skip);
    CollectCons(fe, fe.banner, Lines(inner, []), Skip);
  }

  lemma ParseRendered(fe: FileEnv, keys: seq<ManagedKey>, ttl: nat)
    requires fe.Valid() && ActiveWellTyped(keys)
    ensures Parse(fe, Rendered(fe, keys, ttl)) == ReloadAll(fe, keys)
  {
    BodyNoParens(keys, ttl);
    FlattenPlain(Rendered(fe, keys, ttl));
    HeaderIsSkipped(fe, Body(keys, ttl));
    CollectBody(fe, keys, ttl);
  }

  /** Every active key has key text and no REVOKE flag. */
  ghost predicate Reloadable(keys: seq<ManagedKey>) {
    forall i :: 0 <= i < |keys| && keys[i].status.Active? ==> keys[i].publicKey != [] && !Bit(keys[i].flags, 128)
  }

  lemma RevokeIsVisible(flags: nat, algorithm: nat, key: Bytes)
    ensures KeyOf(WithoutRevoke(flags), algorithm, key) == KeyOf(flags, algorithm, key) <==> !Bit(flags, 128)
  {
    if Bit(flags, 128) {
      var q := flags / 256;
      assert flags == 256 * q + flags % 256 && flags % 256 >= 128;
      assert (flags - 128) / 128 % 2 == 0;
    }
  }

  lemma {:induction false} ReloadsNoMore(fe: FileEnv, keys: seq<ManagedKey>)
    requires Publish(fe, keys).Some?
    ensures ReloadAll(fe, keys).Some? && |ReloadAll(fe, keys).value| <= |Publish(fe, keys).value|
  {
    if keys != [] { ReloadsNoMore(fe, keys[1..]); }
  }

  lemma {:induction false} ReloadAgrees(fe: FileEnv, keys: seq<ManagedKey>)
    requires Publish(fe, keys).Some?
    ensures ReloadAll(fe, keys) == Publish(fe, keys) <==> Reloadable(keys)
  {
    if keys != [] {
      var k, rest := keys[0], keys[1..];
      assert Publish(fe, rest).Some?;
      ReloadAgrees(fe, rest);
      ReloadsNoMore(fe, rest);
      assert Reloadable(keys)
             <==> Reloadable(rest) && (k.status.Active? ==> k.publicKey != [] && !Bit(k.flags, 128)) by {
        if Reloadable(keys) {
          forall i | 0 <= i < |rest| && rest[i].status.Active?
            ensures rest[i].publicKey != [] && !Bit(rest[i].flags, 128)
          {
            assert rest[i] == keys[i + 1];
          }
        }
      }
      if k.status.Active? && k.publicKey != [] {
        RevokeIsVisible(k.flags, k.algorithm, fe.env.decode(k.publicKey).value);
        var a := Reloaded(fe, k).anchor;
        var b := TrustAnchor(fe.nameOf(k.zone).value, ToDnskey(fe.env, k).value);
        var x, y := ReloadAll(fe, rest).value, Publish(fe, rest).value;
        assert [a] + x == [b] + y <==> a == b && x == y by {
          if [a] + x == [b] + y { assert ([a] + x)[1..] == x && ([b] + y)[1..] == y && ([a] + x)[0] == ([b] + y)[0]; }
        }
      }
    }
  }

  /**
   A restart loads exactly the published set if and only if every active key has key text and carries
   no REVOKE flag: the renderer strips the flag and the parser skips a line without a key.
   */
  lemma RestartLoadsPublishedSet(fe: FileEnv, keys: seq<ManagedKey>, ttl: nat)
    requires fe.Valid() && ActiveWellTyped(keys) && Publish(fe, keys).Some?
    ensures Parse(fe, Rendered(fe, keys, ttl)) == Publish(fe, keys) <==> Reloadable(keys)
  {
    ParseRendered(fe, keys, ttl);
    ReloadAgrees(fe, keys);
  }

  /** An active key that carries REVOKE is published with the flag and loaded without it. */
  lemma RevokeLostByRestart(fe: FileEnv, k: ManagedKey, ttl: nat)
    requires fe.Valid() && WellTyped(k) && k.status.Active? && Bit(k.flags, 128)
    requires fe.env.decode(k.publicKey).Some? && fe.nameOf(k.zone).Some?
    ensures Publish(fe, [k]).Some? && Parse(fe, Rendered(fe, [k], ttl)) != Publish(fe, [k])
  {
    assert [k][1..] == [] && Publish(fe, []) == Some([]);
    assert [k][0] == k;
    RestartLoadsPublishedSet(fe, [k], ttl);
  }

  /** A file with empty comment lines, key text that stands for itself, and an active root key with REVOKE set. */
  function SomeFileEnv(): FileEnv { FileEnv(Env(b => b, s => Some(s), k => 0, 0), s => Some(s), ";", ";") }

  function RevokedActive(): ManagedKey { ManagedKey(".", 0, 8, 385, "k", Active) }

  lemma RevokedActiveLost(ttl: nat)
    ensures var fe, k := SomeFileEnv(), RevokedActive();
            Publish(fe, [k]).Some? && Parse(fe, Rendered(fe, [k], ttl)) != Publish(fe, [k])
  {
    assert SomeFileEnv().Valid();
    assert WellTyped(RevokedActive());
    assert Bit(385, 128);
    RevokeLostByRestart(SomeFileEnv(), RevokedActive(), ttl);
  }

  // ---- over runs ----

  /** Base64 output is plain text, and empty only for no bytes. */
  ghost predicate PlainCodec(env: Env) {
    forall b: Bytes :: Clean(env.encode(b)) && (b != [] ==> env.encode(b) != [])
  }

  /** A live key that will render and read back; revoked keys are never rendered. */
  ghost predicate Sound(k: ManagedKey) {
    !k.status.Revoked? ==> WellTyped(k) && k.publicKey != [] && !Bit(k.flags, 128)
  }

  ghost predicate AllSound(keys: seq<ManagedKey>) { forall i :: 0 <= i < |keys| ==> Sound(keys[i]) }

  ghost predicate SoundSeen(obs: seq<Observed>) {
    forall i :: 0 <= i < |obs| ==>
      Clean(obs[i].zone) && obs[i].zone != [] && obs[i].key.publicKey != [] && obs[i].key.algorithm < 256
  }

  lemma {:induction false} VisitedSound(env: Env, state: seq<ManagedKey>, r: Refresh, n: nat)
    requires AllSound(state) && n <= |state|
    ensures AllSound(Visited(env, state, r, n).next)
    decreases n
  {
    if n > 0 {
      VisitedSound(env, state, r, n - 1);
      VisitSound(env, Visited(env, state, r, n - 1), state[n - 1], r);
    }
  }

  lemma VisitSound(env: Env, o: Outcome, k: ManagedKey, r: Refresh)
    requires AllSound(o.next) && Sound(k)
    ensures AllSound(Visit(o, k, Stepped(env, k, r)).next)
  {}

  lemma FreshSound(env: Env, o: Observed, now: nat)
    requires PlainCodec(env) && !o.key.revoke && o.key.algorithm < 256
    requires Clean(o.zone) && o.zone != [] && o.key.publicKey != []
    ensures Sound(FromObserved(env, o, PendingAdd(now)))
  {
    var f := FromObserved(env, o, PendingAdd(now)).flags;
    assert f == 0 || f == 1 || f == 256 || f == 257;
  }

  lemma {:induction false} ExtendedSound(env: Env, state: seq<ManagedKey>, r: Refresh, i: nat)
    requires PlainCodec(env) && AllSound(state) && SoundSeen(r.obs) && i <= |r.obs|
    ensures AllSound(Extended(env, state, r, i).next)
    decreases i
  {
    if i == 0 {
      VisitedSound(env, state, r, |state|);
    } else {
      ExtendedSound(env, state, r, i - 1);
      if Admitted(env, state, r, i - 1) { FreshSound(env, r.obs[i - 1], r.now); }
    }
  }

  lemma {:induction false} RunStaysSound(env: Env, run: Run, n: nat)
    requires run.Linked(env) && PlainCodec(env) && n < |run.states| && AllSound(run.states[0])
    requires forall i :: 0 <= i < |run.refreshes| ==> SoundSeen(run.refreshes[i].obs)
    ensures AllSound(run.states[n])
    decreases n
  {
    if n > 0 {
      RunStaysSound(env, run, n - 1);
      ExtendedSound(env, run.states[n - 1], run.refreshes[n - 1], |run.refreshes[n - 1].obs|);
    }
  }

  /** After any run from a sound state, the file on disk reads back as the set the validator was given. */
  lemma RestartAfterAnyRun(fe: FileEnv, run: Run, n: nat, ttl: nat)
    requires fe.Valid() && run.Linked(fe.env) && PlainCodec(fe.env) && n < |run.states| && AllSound(run.states[0])
    requires forall i :: 0 <= i < |run.refreshes| ==> SoundSeen(run.refreshes[i].obs)
    requires Publish(fe, run.states[n]).Some?
    ensures Parse(fe, Rendered(fe, run.states[n], ttl)) == Publish(fe, run.states[n])
  {
    RunStaysSound(fe.env, run, n);
    RestartLoadsPublishedSet(fe, run.states[n], ttl);
  }
}
