/**
 Comma-separated header values (section 7 of RFC 7230), and what they say on the wire about the length of a
 body and the end of a connection.
 */
module HttpLists {
  import opened Basics
  import opened HttpHead

  function Trim(s: string): string { TrimEnd(TrimStart(s)) }

  /** The elements of a list, without white space around them; `cur` is the element so far. */
  function Elements(s: string, cur: string): (es: seq<string>)
    ensures es != []
    decreases |s|
  {
    if s == [] then [Trim(cur)]
    else if s[0] == ',' then [Trim(cur)] + Elements(s[1..], [])
    else Elements(s[1..], cur + [s[0]])
  }

  lemma {:induction false} OneElement(s: string, cur: string)
    ensures |Elements(s, cur)| == 1 <==> ',' !in s
    ensures ',' !in s ==> Elements(s, cur) == [Trim(cur + s)]
    decreases |s|
  {
    if s == [] {
      assert cur + [] == cur;
    } else {
      assert s == [s[0]] + s[1..];
      if s[0] != ',' {
        OneElement(s[1..], cur + [s[0]]);
        assert cur + [s[0]] + s[1..] == cur + s;
      }
    }
  }

  lemma {:induction false} FirstElement(a: string, b: string, cur: string)
    requires ',' !in a
    ensures Elements(a + "," + b, cur) == [Trim(cur + a)] + Elements(b, [])
    decreases |a|
  {
    var s := a + "," + b;
    if a == [] {
      assert s == "," + b && s[1..] == b && cur + [] == cur;
    } else {
      assert s[0] == a[0] && s[1..] == a[1..] + "," + b;
      FirstElement(a[1..], b, cur + [a[0]]);
      assert cur + [a[0]] + a[1..] == cur + a;
    }
  }

  lemma TrimmedStays(s: string)
    requires Trimmed(s)
    ensures Trim(s) == s
  {}

  // ---- lengths ----

  function Digits(s: string): Option<nat> {
    if s == [] || exists c :: c in s && !IsDigit(c) then None else ParseNat(s, MAX_USIZE)
  }

  /** The length a Content-Length value gives: a number, or a list that repeats one number. */
  function ListedLength(value: string): nat {
    var es := Elements(value, []);
    var n := Digits(es[0]);
    if n.Some? && (forall e :: e in es ==> e == es[0]) then n.value else 0
  }

  /** Length of a request's body on the wire whatever its method (section 3.3.3 of RFC 7230). */
  function WireLength(h: Head): nat {
    var v := Find(h.headers, "content-length");
    if v.Some? then ListedLength(v.value) else 0
  }

  /** A plain number is what it says. */
  lemma PlainLength(s: string)
    requires Digits(s).Some?
    ensures ListedLength(s) == Digits(s).value
  {
    assert s[0] in s && s[|s| - 1] in s && ',' !in s;
    assert Trimmed(s);
    OneElement(s, []);
    TrimmedStays(s);
    assert [] + s == s;
  }

  /** Where the server reads a length, it is the one on the wire. */
  lemma ReadLengthIsWire(h: Head)
    requires ContentLength(h.headers).Some?
    ensures WireLength(h) == ContentLength(h.headers).value
  {
    PlainLength(Find(h.headers, "content-length").value);
  }

  // ---- closing ----

  /** Some Connection header lists `close` among its options (section 6.1 of RFC 7230). */
  predicate WireCloses(h: Head) {
    exists x :: x in h.headers && x.name == "connection" && "close" in Elements(Lower(x.value), [])
  }

  /** A trimmed value in any case is `close` alone exactly if that is its only element. */
  lemma CloseAlone(value: string)
    requires Trimmed(value)
    ensures Lower(value) == "close" <==> Elements(Lower(value), []) == ["close"]
  {
    var s := Lower(value);
    OneElement(s, []);
    assert Trimmed(s);
    TrimmedStays(s);
    assert [] + s == s;
    if Elements(s, []) == ["close"] { assert Elements(s, [])[0] == s; }
  }
}
