/**
 DNS64 address arithmetic: embedding an IPv4 address in a NAT64 prefix (section 2.2 of RFC 6052),
 reading it back, and rewriting an `ip6.arpa` question (section 2.5 of RFC 3596) into the
 `in-addr.arpa` question of the embedded address.
 */
module Dns64 {
  import opened Basics
  import N = Names

  type V4 = s: seq<Byte> | |s| == 4 witness [0, 0, 0, 0]
  type V6 = s: seq<Byte> | |s| == 16 witness seq(16, i => 0)
  type Name = N.Name

  /** A configured prefix; the address keeps whatever host bits the operator wrote. */
  datatype Prefix = Prefix(addr: V6, len: int) {
    predicate Valid() { len in {32, 40, 48, 56, 64, 96} }
  }

  // ---- embedding ----

  /** Position in the IPv4 address of octet `i`: octets after the prefix in order, skipping octet 8. */
  function SlotOf(len: int, i: int): int { i - len / 8 - (if i > 8 && len <= 64 then 1 else 0) }

  /** Octet `i` of the embedded form; octet 8 is zero for the lengths 40 to 64. */
  function Octet(p: Prefix, v4: V4, i: nat): Byte requires i < 16 {
    var j := SlotOf(p.len, i);
    if i == 8 && 40 <= p.len <= 64 then 0 else if 0 <= j < 4 then v4[j] else p.addr[i]
  }

  predicate Embeds(p: Prefix, v4: V4, a: V6) { forall i :: 0 <= i < 16 ==> a[i] == Octet(p, v4, i) }

  /** `embed_v4`. */
  method EmbedV4(p: Prefix, v4: V4) returns (a: V6)
    requires p.Valid()
    ensures Embeds(p, v4, a)
  {
    var addr := new Byte[16](i requires 0 <= i < 16 => p.addr[i]);
    match p.len {
      case 32 =>
        addr[4], addr[5], addr[6], addr[7] := v4[0], v4[1], v4[2], v4[3];
      case 40 =>
        addr[5], addr[6], addr[7] := v4[0], v4[1], v4[2];
        addr[8] := 0;
        addr[9] := v4[3];
      case 48 =>
        addr[6], addr[7] := v4[0], v4[1];
        addr[8] := 0;
        addr[9], addr[10] := v4[2], v4[3];
      case 56 =>
        addr[7] := v4[0];
        addr[8] := 0;
        addr[9], addr[10], addr[11] := v4[1], v4[2], v4[3];
      case 64 =>
        addr[8] := 0;
        addr[9], addr[10], addr[11], addr[12] := v4[0], v4[1], v4[2], v4[3];
      case _ =>
        addr[12], addr[13], addr[14], addr[15] := v4[0], v4[1], v4[2], v4[3];
    }
    a := addr[..];
  }

  /** The prefix contains an address that agrees with it on the first `len` bits. */
  predicate Contains(p: Prefix, a: V6) requires p.Valid() { a[..p.len / 8] == p.addr[..p.len / 8] }

  /** `extract_v4`. */
  function ExtractV4(p: Prefix, a: V6): (r: Option<V4>)
    requires p.Valid()
    ensures r.Some? <==> Contains(p, a)
  {
    if !Contains(p, a) then None
    else if p.len == 32 then Some([a[4], a[5], a[6], a[7]])
    else if p.len == 40 then Some([a[5], a[6], a[7], a[9]])
    else if p.len == 48 then Some([a[6], a[7], a[9], a[10]])
    else if p.len == 56 then Some([a[7], a[9], a[10], a[11]])
    else if p.len == 64 then Some([a[9], a[10], a[11], a[12]])
    else Some([a[12], a[13], a[14], a[15]])
  }

  lemma ExtractEmbedded(p: Prefix, v4: V4, a: V6)
    requires p.Valid() && Embeds(p, v4, a)
    ensures ExtractV4(p, a) == Some(v4)
  {
    assert forall i :: 0 <= i < p.len / 8 ==> a[i] == p.addr[i];
    assert a[..p.len / 8] == p.addr[..p.len / 8];
    var r := ExtractV4(p, a).value;
    assert r[0] == v4[0] && r[1] == v4[1] && r[2] == v4[2] && r[3] == v4[3];
    assert r == v4;
  }

  /**
   The embedded address has the zero octet of section 2.2 of RFC 6052 unless a /32 or /96 prefix was written
   with it set.
   */
  lemma ZeroOctet(p: Prefix, v4: V4, a: V6)
    requires p.Valid() && Embeds(p, v4, a)
    ensures a[8] == 0 <==> 40 <= p.len <= 64 || p.addr[8] == 0
  {
    assert a[8] == Octet(p, v4, 8);
  }

  // ---- reverse names ----

  predicate SameName(a: Name, b: Name) {
    |a| == |b| && forall i :: 0 <= i < |a| ==> Lower(a[i]) == Lower(b[i])
  }

  function HexDigit(n: int): char requires 0 <= n < 16 { "0123456789abcdef"[n] }

  /** `char::to_digit(16)` on a lower-cased character. */
  function DigitValue(c: char): (d: Option<int>)
    ensures d.Some? ==> 0 <= d.value < 16
  {
    if '0' <= c <= '9' then Some((c - '0') as int)
    else if 'a' <= c <= 'f' then Some(10 + (c - 'a') as int)
    else None
  }

  lemma DigitInverse(c: char, n: int)
    requires 0 <= n < 16
    ensures DigitValue(c) == Some(n) <==> c == HexDigit(n)
    ensures LowerChar(HexDigit(n)) == HexDigit(n)
  {}

  /** Nibble `k` of an address, most significant first. */
  function Nibble(a: V6, k: int): (n: int)
    requires 0 <= k < 32
    ensures 0 <= n < 16
  {
    if k % 2 == 0 then a[k / 2] / 16 else a[k / 2] % 16
  }

  const ARPA: Name := ["ip6", "arpa"]

  /** The `ip6.arpa` name of an address: its nibbles from the least significant one on. */
  function ReverseName(a: V6): (n: Name)
    ensures |n| == 34
  {
    seq(32, i requires 0 <= i < 32 => [HexDigit(Nibble(a, 31 - i))]) + ARPA
  }

  /** The name is the reverse name of the address, up to case. */
  predicate Names(n: Name, a: V6) { SameName(n, ReverseName(a)) }

  lemma LowerSingle(l: string, c: char)
    requires LowerChar(c) == c
    ensures Lower(l) == Lower([c]) <==> |l| == 1 && LowerChar(l[0]) == c
  {
    assert Lower([c]) == [c];
    if |l| == 1 { assert Lower(l) == [LowerChar(l[0])]; }
  }

  /** Label by label: two fixed labels last, and one hex digit per nibble before them. */
  predicate Spells(n: Name, a: V6) {
    && |n| == 34 && Lower(n[32]) == "ip6" && Lower(n[33]) == "arpa"
    && forall i :: 0 <= i < 32 ==> |n[i]| == 1 && DigitValue(LowerChar(n[i][0])) == Some(Nibble(a, 31 - i))
  }

  lemma NamesIffSpells(n: Name, a: V6)
    ensures Names(n, a) <==> Spells(n, a)
  {
    var rev := ReverseName(a);
    assert rev[32] == "ip6" && rev[33] == "arpa";
    assert Lower("ip6") == "ip6" && Lower("arpa") == "arpa";
    if |n| == 34 {
      forall i | 0 <= i < 32
        ensures Lower(n[i]) == Lower(rev[i]) <==>
                |n[i]| == 1 && DigitValue(LowerChar(n[i][0])) == Some(Nibble(a, 31 - i))
      {
        var d := Nibble(a, 31 - i);
        DigitInverse(HexDigit(d), d);
        LowerSingle(n[i], HexDigit(d));
        if |n[i]| == 1 { DigitInverse(LowerChar(n[i][0]), d); }
      }
      assert (forall i :: 0 <= i < 34 ==> Lower(n[i]) == Lower(rev[i])) <==>
             (forall i :: 0 <= i < 32 ==> Lower(n[i]) == Lower(rev[i]))
             && Lower(n[32]) == "ip6" && Lower(n[33]) == "arpa";
    }
  }

  lemma NibblesDetermine(a: V6, b: V6)
    requires forall k :: 0 <= k < 32 ==> Nibble(a, k) == Nibble(b, k)
    ensures a == b
  {
    forall i | 0 <= i < 16 ensures a[i] == b[i] {
      assert Nibble(a, 2 * i) == Nibble(b, 2 * i) && Nibble(a, 2 * i + 1) == Nibble(b, 2 * i + 1);
    }
  }

  lemma ReverseIsInjective(n: Name, a: V6, b: V6)
    requires Names(n, a) && Names(n, b)
    ensures a == b
  {
    NamesIffSpells(n, a);
    NamesIffSpells(n, b);
    forall k | 0 <= k < 32 ensures Nibble(a, k) == Nibble(b, k) {
      assert DigitValue(LowerChar(n[31 - k][0])) == Some(Nibble(a, 31 - (31 - k)));
    }
    NibblesDetermine(a, b);
  }

  /** Nibble `k` is the value of the single hex digit in label `31 - k`. */
  predicate HeldBy(name: Name, k: int, nibble: int)
    requires |name| >= 34 && 0 <= k < 32
  {
    && |name[31 - k]| == 1 && 0 <= nibble < 16
    && DigitValue(LowerChar(name[31 - k][0])) == Some(nibble)
  }

  /** The digit loop of `ip6_arpa_to_addr`: fills the nibbles from the last one down. */
  method ReadNibbles(name: Name, nibbles: array<int>) returns (ok: bool)
    requires |name| >= 34 && nibbles.Length == 32
    modifies nibbles
    ensures ok ==> forall k :: 0 <= k < 32 ==> HeldBy(name, k, nibbles[k])
    ensures !ok ==> exists i :: 0 <= i < 32 && (|name[i]| != 1 || DigitValue(LowerChar(name[i][0])).None?)
  {
    for i := 0 to 32
      invariant forall k :: 31 - i < k < 32 ==> HeldBy(name, k, nibbles[k])
    {
      if |name[i]| != 1 { return false; }
      var d := DigitValue(LowerChar(name[i][0]));
      if d.None? { return false; }
      nibbles[31 - i] := d.value;
    }
    return true;
  }

  function Pack(hi: int, lo: int): Byte { if 0 <= hi < 16 && 0 <= lo < 16 then 16 * hi + lo else 0 }

  /** `ip6_arpa_to_addr`: succeeds exactly on the reverse names of addresses, with that address. */
  method Ip6ArpaToAddr(name: Name) returns (r: Option<V6>)
    ensures r.Some? ==> Names(name, r.value)
    ensures r.None? ==> forall a: V6 :: !Names(name, a)
  {
    ReverseNameShape(name);
    if N.NumLabels(name) != 34 { return None; }
    if |name| < 34 { return None; }
    if Lower(name[32]) != "ip6" || Lower(name[33]) != "arpa" { return None; }
    var nibbles := new int[32](i => 0);
    var ok := ReadNibbles(name, nibbles);
    if !ok { return None; }
    var ns := nibbles[..];
    assert HeldBy(name, 31, ns[31]);
    var bytes: V6 := seq(16, i requires 0 <= i < 16 => Pack(ns[2 * i], ns[2 * i + 1]));
    AssemblesTo(name, ns, bytes);
    NamesIffSpells(name, bytes);
    return Some(bytes);
  }

  /** Every reverse name passes the tests on label count, suffix and digits. */
  lemma ReverseNameShape(name: Name)
    ensures forall a: V6 :: Names(name, a) ==>
              && |name| == 34 && N.NumLabels(name) == 34
              && Lower(name[32]) == "ip6" && Lower(name[33]) == "arpa"
              && forall i :: 0 <= i < 32 ==> |name[i]| == 1 && DigitValue(LowerChar(name[i][0])).Some?
  {
    forall a: V6 | Names(name, a)
      ensures |name| == 34 && N.NumLabels(name) == 34 && Lower(name[32]) == "ip6" && Lower(name[33]) == "arpa"
      ensures forall i :: 0 <= i < 32 ==> |name[i]| == 1 && DigitValue(LowerChar(name[i][0])).Some?
    {
      NamesIffSpells(name, a);
      assert DigitValue(LowerChar(name[0][0])).Some?;
    }
  }

  lemma AssemblesTo(name: Name, nibbles: seq<int>, bytes: V6)
    requires |name| == 34 && Lower(name[32]) == "ip6" && Lower(name[33]) == "arpa" && |nibbles| == 32
    requires forall k :: 0 <= k < 32 ==> 0 <= nibbles[k] < 16 && HeldBy(name, k, nibbles[k])
    requires forall i :: 0 <= i < 16 ==> bytes[i] == Pack(nibbles[2 * i], nibbles[2 * i + 1])
    ensures Spells(name, bytes)
  {
    forall i | 0 <= i < 32
      ensures |name[i]| == 1 && DigitValue(LowerChar(name[i][0])) == Some(Nibble(bytes, 31 - i))
    {
      assert HeldBy(name, 31 - i, nibbles[31 - i]);
      PackedNibble(nibbles, bytes, 31 - i);
    }
  }

  lemma PackedNibble(nibbles: seq<int>, bytes: V6, k: nat)
    requires |nibbles| == 32 && k < 32 && forall i :: 0 <= i < 32 ==> 0 <= nibbles[i] < 16
    requires forall i :: 0 <= i < 16 ==> bytes[i] == Pack(nibbles[2 * i], nibbles[2 * i + 1])
    ensures Nibble(bytes, k) == nibbles[k]
  {
    var half := k / 2;
    assert bytes[half] == Pack(nibbles[2 * half], nibbles[2 * half + 1]);
  }

  // ---- rewriting ----

  /** The `in-addr.arpa` name of an IPv4 address. */
  function InAddrArpa(v4: V4): Name {
    [Decimal(v4[3]), Decimal(v4[2]), Decimal(v4[1]), Decimal(v4[0]), "in-addr", "arpa"]
  }

  /**
   `rewrite_ptr_question`: a reverse name is rewritten exactly when its address lies in the prefix, to
   the reverse name of the IPv4 address held there; so the name of an embedded address, in any case,
   comes back as the name of the address that was embedded.
   */
  method RewritePtrQuestion(p: Prefix, qname: Name) returns (r: Option<Name>)
    requires p.Valid()
    ensures r.Some? <==> exists a: V6 :: Names(qname, a) && Contains(p, a)
    ensures forall a: V6 :: Names(qname, a) && Contains(p, a) ==> r == Some(InAddrArpa(ExtractV4(p, a).value))
    ensures forall v4: V4, a: V6 :: Embeds(p, v4, a) && Names(qname, a) ==> r == Some(InAddrArpa(v4))
  {
    var addr := Ip6ArpaToAddr(qname);
    forall v4: V4, a: V6 | Embeds(p, v4, a) && Names(qname, a) ensures ExtractV4(p, a) == Some(v4) {
      ExtractEmbedded(p, v4, a);
    }
    if addr.None? { return None; }
    forall a: V6 | Names(qname, a) ensures a == addr.value { ReverseIsInjective(qname, a, addr.value); }
    var v4 := ExtractV4(p, addr.value);
    if v4.None? { return None; }
    return Some(InAddrArpa(v4.value));
  }
}
