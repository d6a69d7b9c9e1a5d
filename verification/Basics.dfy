/** Values and facts that several parts of the model use: options, octets, ASCII case, decimal numbers, set sizes. */
module Basics {

  datatype Option<+T> = None | Some(value: T)

  type Byte = b: int | 0 <= b < 256

  /** An IP address and port. */
  datatype Addr = Addr(ip: int, port: int)

  function Min(a: nat, b: nat): nat { if a < b then a else b }

  function Max(a: nat, b: nat): nat { if a < b then b else a }

  /** What has been collected, followed by the rest if there is one. */
  function Prepend<T>(done: seq<T>, rest: Option<seq<T>>): Option<seq<T>> {
    if rest.None? then None else Some(done + rest.value)
  }

  // ---- ASCII case ----

  function LowerChar(c: char): char { if 'A' <= c <= 'Z' then c - 'A' + 'a' else c }

  function Lower(s: string): string { seq(|s|, i requires 0 <= i < |s| => LowerChar(s[i])) }

  // ---- decimal numbers ----

  function Digit(n: nat): char requires n < 10 { "0123456789"[n] }

  function Decimal(n: nat): string { if n < 10 then [Digit(n)] else Decimal(n / 10) + [Digit(n % 10)] }

  predicate IsDigit(c: char) { '0' <= c <= '9' }

  function DigitsValue(s: string, acc: nat): Option<nat>
    decreases |s|
  {
    if s == [] then Some(acc)
    else if !IsDigit(s[0]) then None
    else DigitsValue(s[1..], 10 * acc + (s[0] - '0') as nat)
  }

  /** Decimal `FromStr` of an unsigned type with the given largest value. */
  function ParseNat(s: string, max: nat): Option<nat> {
    var digits := if |s| > 0 && s[0] == '+' then s[1..] else s;
    if digits == [] then None
    else
      var v := DigitsValue(digits, 0);
      if v.Some? && v.value <= max then v else None
  }

  lemma {:induction false} DigitsValueAppend(s: string, acc: nat, d: nat)
    requires d < 10 && DigitsValue(s, acc).Some?
    ensures DigitsValue(s + [Digit(d)], acc) == Some(10 * DigitsValue(s, acc).value + d)
    decreases |s|
  {
    var t := s + [Digit(d)];
    if s == [] {
      assert t[1..] == [];
    } else {
      assert t[1..] == s[1..] + [Digit(d)];
      DigitsValueAppend(s[1..], 10 * acc + (s[0] - '0') as nat, d);
    }
  }

  lemma {:induction false} DecimalStarts(n: nat)
    ensures Decimal(n) != [] && IsDigit(Decimal(n)[0])
  {
    if n >= 10 { DecimalStarts(n / 10); }
  }

  lemma {:induction false} DecimalReadsBack(n: nat)
    ensures DigitsValue(Decimal(n), 0) == Some(n)
  {
    if n < 10 {
      assert [Digit(n)][1..] == [];
    } else {
      DecimalReadsBack(n / 10);
      DigitsValueAppend(Decimal(n / 10), 0, n % 10);
    }
  }

  /** A number written in decimal reads back. */
  lemma ParseDecimal(n: nat, max: nat)
    requires n <= max
    ensures ParseNat(Decimal(n), max) == Some(n)
  {
    DecimalReadsBack(n);
    DecimalStarts(n);
  }

  // ---- set sizes ----

  lemma SubsetSize<T>(a: set<T>, b: set<T>)
    requires a <= b
    ensures |a| <= |b|
  {
    assert b == a + (b - a);
  }
}
