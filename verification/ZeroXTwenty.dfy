/**
 0x20 case randomisation of the question name in a wire query, and the check of the echoed name.
 The wire form of a name (section 3.1 of RFC 1035) is the reference: length-prefixed labels ended
 by a zero byte, starting after the 12-byte header.
 */
module ZeroXTwenty {
  import opened Basics

  type WireName = seq<seq<Byte>>

  const HEADER := 12

  // ---- the computation ----

  predicate IsLetter(b: Byte) { 65 <= b <= 90 || 97 <= b <= 122 }

  /** `b ^ 0x20`. */
  function Flip(b: Byte): Byte { if b / 32 % 2 == 0 then b + 32 else b - 32 }

  function Fold(b: Byte): Byte { if 65 <= b <= 90 then b + 32 else b }

  /** End of the name that starts at `i`, one past its zero byte. */
  function NameEnd(msg: seq<Byte>, i: nat): (end: Option<nat>)
    ensures end.Some? ==> i < end.value <= |msg|
    decreases |msg| - i
  {
    if i >= |msg| then None
    else if msg[i] == 0 then Some(i + 1)
    else if msg[i] >= 64 || i + 1 + msg[i] > |msg| then None
    else NameEnd(msg, i + 1 + msg[i])
  }

  function QnameEnd(msg: seq<Byte>): Option<nat> { if |msg| < HEADER then None else NameEnd(msg, HEADER) }

  /** `qname_byte_range`. */
  method QnameByteRange(msg: array<Byte>) returns (end: Option<nat>)
    ensures end == QnameEnd(msg[..])
  {
    if msg.Length < HEADER { return None; }
    var i := HEADER;
    while i < msg.Length
      invariant HEADER <= i <= msg.Length
      invariant NameEnd(msg[..], i) == NameEnd(msg[..], HEADER)
      decreases msg.Length - i
    {
      var len := msg[i];
      if len == 0 { return Some(i + 1); }
      if len >= 64 { return None; }
      if i + 1 + len > msg.Length { return None; }
      i := i + 1 + len;
    }
    return None;
  }

  /** Byte comparison of `verify`: exact, except that letters may differ in case. */
  predicate EchoOf(got: Byte, sent: Byte) { if IsLetter(sent) then Fold(got) == Fold(sent) else got == sent }

  predicate Accepts(response: seq<Byte>, expected: seq<Byte>) {
    var end := QnameEnd(response);
    && end.Some?
    && end.value - HEADER == |expected|
    && forall i :: 0 <= i < |expected| ==> EchoOf(response[HEADER + i], expected[i])
  }

  /** `encode`, its random choices given by `coin`. */
  method Encode(query: array<Byte>, coin: nat -> bool) returns (sent: Option<seq<Byte>>)
    modifies query
    ensures var before, after := old(query[..]), query[..];
            && QnameEnd(after) == QnameEnd(before)
            && sent.Some? == QnameEnd(before).Some?
            && (sent.None? ==> after == before)
            && (sent.Some? ==>
                  var end := QnameEnd(before).value;
                  && after[..HEADER] == before[..HEADER] && after[end..] == before[end..]
                  && sent.value == after[HEADER..end]
                  && SameName(NameAt(after, HEADER), NameAt(before, HEADER))
                  && (forall i :: HEADER <= i < end ==>
                        after[i] == if coin(i) && IsLetter(before[i]) then Flip(before[i]) else before[i])
                  && Accepts(after, sent.value))
  {
    ghost var before := query[..];
    var range := QnameByteRange(query);
    if range.None? { return None; }
    var end := range.value;
    for i := HEADER to end
      invariant query[..][..HEADER] == before[..HEADER] && query[..][end..] == before[end..]
      invariant forall k :: HEADER <= k < i ==>
                  query[k] == if coin(k) && IsLetter(before[k]) then Flip(before[k]) else before[k]
      invariant forall k :: i <= k < end ==> query[k] == before[k]
    {
      if IsLetter(query[i]) && coin(i) { query[i] := Flip(query[i]); }
    }
    FlipKeepsName(before, query[..], HEADER, end);
    sent := Some(query[HEADER..end]);
  }

  // ---- names as labels ----

  /** The labels of the name at `i`. */
  function NameAt(msg: seq<Byte>, i: nat): WireName
    requires NameEnd(msg, i).Some?
    decreases |msg| - i
  {
    if msg[i] == 0 then [] else [msg[i + 1..i + 1 + msg[i]]] + NameAt(msg, i + 1 + msg[i])
  }

  predicate SameLabel(a: seq<Byte>, b: seq<Byte>) {
    |a| == |b| && forall i :: 0 <= i < |a| ==> Fold(a[i]) == Fold(b[i])
  }

  /** Equal label by label ignoring ASCII case. */
  predicate SameName(a: WireName, b: WireName) {
    |a| == |b| && forall i :: 0 <= i < |a| ==> SameLabel(a[i], b[i])
  }

  lemma EchoIsFold(g: Byte, e: Byte)
    ensures EchoOf(g, e) <==> Fold(g) == Fold(e)
  {}

  /** The bytes of the name at `i`, zero byte included. */
  function NameBytes(msg: seq<Byte>, i: nat): seq<Byte>
    requires NameEnd(msg, i).Some?
  {
    msg[i..NameEnd(msg, i).value]
  }

  lemma SameConcat(x: seq<Byte>, x': seq<Byte>, y: seq<Byte>, y': seq<Byte>)
    requires |x| == |y|
    ensures SameLabel(x + x', y + y') <==> SameLabel(x, y) && SameLabel(x', y')
  {
    if SameLabel(x + x', y + y') {
      forall k | 0 <= k < |x| ensures Fold(x[k]) == Fold(y[k]) {
        assert Fold((x + x')[k]) == Fold((y + y')[k]);
      }
      forall k | 0 <= k < |x'| ensures Fold(x'[k]) == Fold(y'[k]) {
        assert Fold((x + x')[|x| + k]) == Fold((y + y')[|x| + k]);
      }
    }
  }

  lemma SameNameConcat(x: seq<Byte>, n: WireName, y: seq<Byte>, m: WireName)
    ensures SameName([x] + n, [y] + m) <==> SameLabel(x, y) && SameName(n, m)
  {
    if SameName([x] + n, [y] + m) {
      assert SameLabel(([x] + n)[0], ([y] + m)[0]);
      forall k | 0 <= k < |n| ensures SameLabel(n[k], m[k]) {
        assert SameLabel(([x] + n)[k + 1], ([y] + m)[k + 1]);
      }
    }
  }

  lemma NameUnfolds(a: seq<Byte>, i: nat)
    requires NameEnd(a, i).Some? && a[i] != 0
    ensures NameEnd(a, i + 1 + a[i]).Some?
    ensures NameBytes(a, i) == ([a[i]] + a[i + 1..i + 1 + a[i]]) + NameBytes(a, i + 1 + a[i])
    ensures NameAt(a, i) == [a[i + 1..i + 1 + a[i]]] + NameAt(a, i + 1 + a[i])
  {}

  /** After the same length byte, the bytes agree if the first labels and the rest of the bytes do. */
  lemma FirstBytes(a: seq<Byte>, i: nat, b: seq<Byte>, j: nat)
    requires NameEnd(a, i).Some? && NameEnd(b, j).Some? && a[i] == b[j] && a[i] != 0
    requires NameEnd(a, i + 1 + a[i]).Some? && NameEnd(b, j + 1 + b[j]).Some?
    ensures SameLabel(NameBytes(a, i), NameBytes(b, j))
            <==> && SameLabel(a[i + 1..i + 1 + a[i]], b[j + 1..j + 1 + b[j]])
                 && SameLabel(NameBytes(a, i + 1 + a[i]), NameBytes(b, j + 1 + b[j]))
  {
    var n := 1 + a[i];
    NameUnfolds(a, i);
    NameUnfolds(b, j);
    SameConcat([a[i]] + a[i + 1..i + n], NameBytes(a, i + n), [b[j]] + b[j + 1..j + n], NameBytes(b, j + n));
    SameConcat([a[i]], a[i + 1..i + n], [b[j]], b[j + 1..j + n]);
  }

  /** Two wire names agree byte for byte up to case exactly when they agree label by label. */
  lemma {:induction false} BytesIffLabels(a: seq<Byte>, i: nat, b: seq<Byte>, j: nat)
    requires NameEnd(a, i).Some? && NameEnd(b, j).Some?
    ensures SameLabel(NameBytes(a, i), NameBytes(b, j)) <==> SameName(NameAt(a, i), NameAt(b, j))
    decreases |a| - i
  {
    if a[i] == b[j] && a[i] != 0 {
      var n := 1 + a[i];
      NameUnfolds(a, i);
      NameUnfolds(b, j);
      BytesIffLabels(a, i + n, b, j + n);
      FirstBytes(a, i, b, j);
      SameNameConcat(a[i + 1..i + n], NameAt(a, i + n), b[j + 1..j + n], NameAt(b, j + n));
    } else if a[i] != b[j] {
      LengthsDiffer(a, i, b, j);
    }
  }

  /** Length bytes stay below the letters, so a different first length is never folded away. */
  lemma LengthsDiffer(a: seq<Byte>, i: nat, b: seq<Byte>, j: nat)
    requires NameEnd(a, i).Some? && NameEnd(b, j).Some? && a[i] != b[j]
    ensures !SameLabel(NameBytes(a, i), NameBytes(b, j)) && !SameName(NameAt(a, i), NameAt(b, j))
  {
    assert Fold(NameBytes(a, i)[0]) != Fold(NameBytes(b, j)[0]);
    if a[i] != 0 && b[j] != 0 {
      assert |NameAt(a, i)[0]| == a[i] && |NameAt(b, j)[0]| == b[j];
      assert !SameLabel(NameAt(a, i)[0], NameAt(b, j)[0]);
    }
  }

  lemma {:induction false} NameEndInSlice(msg: seq<Byte>, i: nat, end: nat, j: nat)
    requires i <= j < end <= |msg| && NameEnd(msg, j) == Some(end)
    ensures NameEnd(msg[i..end], j - i) == Some(end - i)
    ensures NameAt(msg[i..end], j - i) == NameAt(msg, j)
    decreases |msg| - j
  {
    var s := msg[i..end];
    assert s[j - i] == msg[j];
    if msg[j] != 0 {
      var j' := j + 1 + msg[j];
      NameEndInSlice(msg, i, end, j');
      assert s[j + 1 - i..j' - i] == msg[j + 1..j'];
    }
  }

  /** Flipping letters moves no label boundary. */
  lemma {:induction false} FlipKeepsEnd(a: seq<Byte>, b: seq<Byte>, i: nat, end: nat)
    requires |a| == |b| && NameEnd(a, i) == Some(end)
    requires forall k :: i <= k < end ==> a[k] == b[k] || (IsLetter(a[k]) && b[k] == Flip(a[k]))
    ensures NameEnd(b, i) == Some(end)
    decreases |a| - i
  {
    if a[i] != 0 { FlipKeepsEnd(a, b, i + 1 + a[i], end); }
  }

  lemma FlipKeepsName(a: seq<Byte>, b: seq<Byte>, i: nat, end: nat)
    requires |a| == |b| && NameEnd(a, i) == Some(end)
    requires forall k :: i <= k < end ==> a[k] == b[k] || (IsLetter(a[k]) && b[k] == Flip(a[k]))
    ensures NameEnd(b, i) == Some(end) && SameName(NameAt(b, i), NameAt(a, i))
  {
    FlipKeepsEnd(a, b, i, end);
    BytesIffLabels(b, i, a, i);
  }

  /**
   `verify` accepts a response exactly when it carries a well-formed question name equal, label by
   label ignoring ASCII case, to the name that was sent.
   */
  lemma AcceptsIffSameName(response: seq<Byte>, query: seq<Byte>)
    requires QnameEnd(query).Some?
    ensures Accepts(response, query[HEADER..QnameEnd(query).value]) <==>
            QnameEnd(response).Some? && SameName(NameAt(response, HEADER), NameAt(query, HEADER))
  {
    var end := QnameEnd(query).value;
    var expected := query[HEADER..end];
    NameEndInSlice(query, HEADER, end, HEADER);
    if QnameEnd(response).Some? {
      BytesIffLabels(response, HEADER, expected, 0);
      var got := NameBytes(response, HEADER);
      assert NameBytes(expected, 0) == expected;
      if |got| == |expected| {
        forall k | 0 <= k < |got|
          ensures EchoOf(response[HEADER + k], expected[k]) <==> Fold(got[k]) == Fold(expected[k])
        {
          EchoIsFold(got[k], expected[k]);
        }
      }
    }
  }
}
