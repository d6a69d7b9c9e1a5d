/**
 HTTP/1.1 framing of DoH requests on a keep-alive connection: bytes arrive in arbitrary pieces, a
 request's head is read up to the blank line, its body by its length, and whatever was read too far is
 kept for the next request.  The requests processed depend only on the bytes, not on how they were cut,
 as long as every head ends within the header limit; past the limit the cutting decides.
 */
module DohFraming {
  import opened Basics
  import opened HttpHead
  import opened HttpLists

  const TERMINATOR: Bytes := "\r\n\r\n"
  const MAX_HEADER_BYTES := 8192
  const MAX_BODY_BYTES := 65535
  const MAX_REQS_PER_CONN := 1000
  const HEAD_CHUNK := 1024

  // ---- the end of a head ----

  predicate TermAt(s: Bytes, i: nat) {
    i + 4 <= |s| && s[i] == '\r' && s[i + 1] == '\n' && s[i + 2] == '\r' && s[i + 3] == '\n'
  }

  ghost predicate NoTermBefore(s: Bytes, n: nat) { forall j: nat {:trigger TermAt(s, j)} :: j < n ==> !TermAt(s, j) }

  /** Offset just past the first terminator at or after `i`. */
  function FindTerm(s: Bytes, i: nat): (end: Option<nat>)
    requires i <= |s|
    ensures end.Some? ==> i + 4 <= end.value <= |s| && TermAt(s, end.value - 4)
    ensures end.Some? ==> forall j: nat {:trigger TermAt(s, j)} :: i <= j < end.value - 4 ==> !TermAt(s, j)
    ensures end.None? ==> forall j: nat {:trigger TermAt(s, j)} :: i <= j ==> !TermAt(s, j)
    decreases |s| - i
  {
    if TermAt(s, i) then Some(i + 4)
    else if i == |s| then None
    else FindTerm(s, i + 1)
  }

  /** The first terminator is where it is, however the search got there. */
  lemma {:induction false} FirstTerm(s: Bytes, end: nat)
    requires 4 <= end <= |s| && TermAt(s, end - 4)
    requires forall j: nat {:trigger TermAt(s, j)} :: j < end - 4 ==> !TermAt(s, j)
    ensures FindTerm(s, 0) == Some(end)
  {
    assert TermAt(s, end - 4);
    assert FindTerm(s, 0).Some?;
  }

  lemma {:induction false} NoTerm(s: Bytes)
    requires forall j: nat {:trigger TermAt(s, j)} :: !TermAt(s, j)
    ensures FindTerm(s, 0).None?
  {
    var found := FindTerm(s, 0);
  }

  /** A terminator found in what has arrived stays the first one, whatever follows. */
  lemma {:induction false} FoundStays(buf: Bytes, more: Bytes)
    requires FindTerm(buf, 0).Some?
    ensures FindTerm(buf + more, 0) == FindTerm(buf, 0)
  {
    var e, s := FindTerm(buf, 0).value, buf + more;
    assert TermAt(buf, e - 4) && TermAt(s, e - 4);
    forall j: nat | j < e - 4 ensures !TermAt(s, j) {
      assert !TermAt(buf, j);
    }
    FirstTerm(s, e);
  }

  /** `find_subsequence` on the part of the buffer not searched yet. */
  method FindSubsequence(buf: Bytes, from: nat) returns (end: Option<nat>)
    requires from <= |buf| && NoTermBefore(buf, from)
    ensures end == FindTerm(buf, 0)
  {
    var i := from;
    while i + 4 <= |buf|
      invariant from <= i <= |buf| && NoTermBefore(buf, i)
    {
      if TermAt(buf, i) {
        FirstTerm(buf, i + 4);
        return Some(i + 4);
      }
      i := i + 1;
    }
    NoTerm(buf);
    return None;
  }

  // ---- reading a head ----

  datatype HeadRead = Found(end: nat) | TooLong | Eof

  /** How many bytes a read returns: at least one, at most `max`, never more than there are. */
  function Piece(choice: nat, available: nat, max: nat): (n: nat)
    requires available > 0 && max > 0
    ensures 1 <= n <= max && n <= available
  {
    1 + choice % (if available < max then available else max)
  }

  /** The reads of `read_until_double_crlf` for one way of cutting: its result and the bytes it took. */
  function ReadHeads(buf: Bytes, data: Bytes, cut: nat -> nat, tick: nat): (HeadRead, nat)
    decreases |data|
  {
    if FindTerm(buf, 0).Some? then (Found(FindTerm(buf, 0).value), 0)
    else if |buf| >= MAX_HEADER_BYTES then (TooLong, 0)
    else if data == [] then (Eof, 0)
    else
      var n := Piece(cut(tick), |data|, HEAD_CHUNK);
      var rest := ReadHeads(buf + data[..n], data[n..], cut, tick + 1);
      (rest.0, n + rest.1)
  }

  /** The result in terms of the bytes alone. */
  ghost predicate Explains(s: Bytes, r: HeadRead, held: nat) {
    match r
    case Found(end) => FindTerm(s, 0) == Some(end) && end <= held
    case TooLong => held >= MAX_HEADER_BYTES && (FindTerm(s, 0).Some? ==> FindTerm(s, 0).value > held)
    case Eof => FindTerm(s, 0).None? && held == |s| < MAX_HEADER_BYTES
  }

  lemma {:induction false} ReadHeadsExplained(buf: Bytes, data: Bytes, cut: nat -> nat, tick: nat)
    ensures var r := ReadHeads(buf, data, cut, tick); r.1 <= |data| && Explains(buf + data, r.0, |buf| + r.1)
    decreases |data|
  {
    var found := FindTerm(buf, 0);
    if found.Some? {
      FoundStays(buf, data);
    } else if |buf| >= MAX_HEADER_BYTES {
      NotEarlier(buf, data);
    } else if data == [] {
      assert buf + data == buf;
    } else {
      var n := Piece(cut(tick), |data|, HEAD_CHUNK);
      ReadHeadsExplained(buf + data[..n], data[n..], cut, tick + 1);
      assert buf + data[..n] + data[n..] == buf + data;
    }
  }

  lemma {:induction false} NotEarlier(buf: Bytes, data: Bytes)
    requires FindTerm(buf, 0).None?
    ensures FindTerm(buf + data, 0).Some? ==> FindTerm(buf + data, 0).value > |buf|
  {
    var s := buf + data;
    if FindTerm(s, 0).Some? {
      var i := FindTerm(s, 0).value - 4;
      assert TermAt(s, i) && !TermAt(buf, i);
    }
  }

  /** One more byte, when the buffer has no terminator and room is left. */
  lemma {:induction false} OneByteMore(buf: Bytes, data: Bytes, cut: nat -> nat, tick: nat)
    requires FindTerm(buf, 0).None? && |buf| < MAX_HEADER_BYTES && data != [] && cut(tick) == 0
    ensures ReadHeads(buf, data, cut, tick).0 == ReadHeads(buf + data[..1], data[1..], cut, tick + 1).0
  {
    assert Piece(cut(tick), |data|, HEAD_CHUNK) == 1;
  }

  lemma {:induction false} OneByteMoreAt(s: Bytes, k: nat, cut: nat -> nat, tick: nat)
    requires k < |s| && k < MAX_HEADER_BYTES && FindTerm(s[..k], 0).None? && cut(tick) == 0
    ensures ReadHeads(s[..k], s[k..], cut, tick).0 == ReadHeads(s[..k + 1], s[k + 1..], cut, tick + 1).0
  {
    OneByteMore(s[..k], s[k..], cut, tick);
    assert s[..k] + s[k..][..1] == s[..k + 1] && s[k..][1..] == s[k + 1..];
  }

  lemma {:induction false} FullBufferRefuses(buf: Bytes, data: Bytes, cut: nat -> nat, tick: nat)
    requires FindTerm(buf, 0).None? && |buf| >= MAX_HEADER_BYTES
    ensures ReadHeads(buf, data, cut, tick).0 == TooLong
  {}

  /** One byte at a time, a head that ends past the limit is refused. */
  lemma {:induction false} ByteByByteRefuses(s: Bytes, k: nat, cut: nat -> nat, tick: nat)
    requires k <= MAX_HEADER_BYTES < |s| && (forall t :: cut(t) == 0)
    requires FindTerm(s, 0).Some? && FindTerm(s, 0).value > MAX_HEADER_BYTES
    ensures ReadHeads(s[..k], s[k..], cut, tick).0 == TooLong
    decreases MAX_HEADER_BYTES - k
  {
    NothingYet(s, k);
    if k < MAX_HEADER_BYTES {
      OneByteMoreAt(s, k, cut, tick);
      ByteByByteRefuses(s, k + 1, cut, tick + 1);
    } else {
      FullBufferRefuses(s[..k], s[k..], cut, tick);
    }
  }

  lemma {:induction false} NothingYet(s: Bytes, k: nat)
    requires k <= |s| && FindTerm(s, 0).Some? && k < FindTerm(s, 0).value
    ensures FindTerm(s[..k], 0).None?
  {
    assert s[..k] + s[k..] == s;
    if FindTerm(s[..k], 0).Some? { FoundStays(s[..k], s[k..]); }
  }

  /** A head is accepted however the bytes are cut exactly when it ends within the limit. */
  lemma {:induction false} AcceptedIffWithinLimit(s: Bytes, end: nat)
    requires FindTerm(s, 0) == Some(end)
    ensures (forall cut, tick :: ReadHeads([], s, cut, tick).0 == Found(end)) <==> end <= MAX_HEADER_BYTES
  {
    if end <= MAX_HEADER_BYTES {
      forall cut, tick ensures ReadHeads([], s, cut, tick).0 == Found(end) {
        ReadHeadsExplained([], s, cut, tick);
        assert [] + s == s;
      }
    } else {
      var cut := (t: nat) => 0;
      ByteByByteRefuses(s, 0, cut, 0);
      assert s[..0] == [] && s[0..] == s;
      assert ReadHeads([], s, cut, 0).0 == TooLong;
    }
  }

  // ---- serving a connection ----

  datatype Request = Request(head: Head, body: Bytes)
  datatype End = Closed | Idle | Failed
  datatype Served = Served(requests: seq<Request>, end: End)

  /** UTF-8 checking, the access and path rules with the query parameter and media type, and the DNS handler. */
  datatype Config = Config(utf8: Bytes -> bool, admits: Head -> bool, answers: Request -> bool)

  predicate WantsClose(h: Head) { exists x :: x in h.headers && x.name == "connection" && Lower(x.value) == "close" }

  /** Bytes of body that belong to the request; none if the method is not served or the length is unusable. */
  function BodyLength(h: Head): Option<nat> {
    if h.verb == "GET" then Some(0)
    else if h.verb == "POST" && ContentLength(h.headers).Some? && ContentLength(h.headers).value <= MAX_BODY_BYTES then
      ContentLength(h.headers)
    else None
  }

  function Length(h: Head): nat { if BodyLength(h).Some? then BodyLength(h).value else 0 }

  function Accept(c: Config, bytes: Bytes): (h: Option<Head>)
    ensures h.Some? ==> BodyLength(h.value).Some?
  {
    var h := Parse(c.utf8, bytes);
    if h.Some? && FramingOk(h.value.headers) && c.admits(h.value) && BodyLength(h.value).Some? then h else None
  }

  /**
   What framing needs to know of a server: the heads it accepts, their body lengths, which close, which
   requests it answers.
   */
  datatype Rules = Rules(accept: Bytes -> Option<Head>, length: Head -> nat, closes: Head -> bool,
                         answers: Request -> bool)

  function RulesOf(c: Config): Rules { Rules(b => Accept(c, b), h => Length(h), h => WantsClose(h), c.answers) }

  function After(done: seq<Request>, rest: Served): Served { Served(done + rest.requests, rest.end) }

  /** The request after which the connection is closed: its own wish, or the cap. */
  predicate IsLast(c: Rules, h: Head, n: nat) { c.closes(h) || n + 1 >= MAX_REQS_PER_CONN }

  /** What the bytes alone say is to be served, `n` requests having been served before. */
  function Serve(c: Rules, s: Bytes, n: nat): Served
    decreases |s|, 0
  {
    var end := FindTerm(s, 0);
    if n >= MAX_REQS_PER_CONN then Served([], Closed)
    else if end.None? then Served([], if n > 0 && |s| < MAX_HEADER_BYTES then Idle else Failed)
    else
      var h := c.accept(s[..end.value - 4]);
      if h.None? then Served([], Failed) else ServeBody(c, h.value, s[end.value..], n)
  }

  function ServeBody(c: Rules, h: Head, s: Bytes, n: nat): Served
    decreases |s|, 1
  {
    var len := c.length(h);
    if |s| < len then Served([], Failed)
    else
      var r := Request(h, s[..len]);
      if !c.answers(r) then Served([r], Failed)
      else if IsLast(c, h, n) then Served([r], Closed)
      else After([r], Serve(c, s[len..], n + 1))
  }

  /** Every head that is met ends within the limit. */
  ghost predicate Short(c: Rules, s: Bytes, n: nat)
    decreases |s|, 0
  {
    var end := FindTerm(s, 0);
    if n >= MAX_REQS_PER_CONN || end.None? then true
    else
      var h := c.accept(s[..end.value - 4]);
      end.value <= MAX_HEADER_BYTES && (h.Some? ==> ShortBody(c, h.value, s[end.value..], n))
  }

  ghost predicate ShortBody(c: Rules, h: Head, s: Bytes, n: nat)
    decreases |s|, 1
  {
    var len := c.length(h);
    |s| >= len && c.answers(Request(h, s[..len])) && !IsLast(c, h, n) ==> Short(c, s[len..], n + 1)
  }

  /** Either the request after which to go on, or everything that is still served. */
  datatype Round = Next(request: Request) | Last(served: Served)

  /** What one round says about the bytes it started from, `rest` being the bytes it left. */
  ghost predicate RoundOk(c: Rules, s: Bytes, n: nat, rest: Bytes, o: Round) {
    match o
    case Next(r) => && n + 1 < MAX_REQS_PER_CONN && Serve(c, s, n) == After([r], Serve(c, rest, n + 1))
                    && (Short(c, s, n) ==> Short(c, rest, n + 1))
    case Last(served) => && |served.requests| <= 1 && served.requests <= Serve(c, s, n).requests
                         && (Short(c, s, n) ==> served == Serve(c, s, n))
  }

  ghost predicate BodyRoundOk(c: Rules, h: Head, s: Bytes, n: nat, rest: Bytes, o: Round) {
    match o
    case Next(r) => && n + 1 < MAX_REQS_PER_CONN && ServeBody(c, h, s, n) == After([r], Serve(c, rest, n + 1))
                    && (ShortBody(c, h, s, n) ==> Short(c, rest, n + 1))
    case Last(served) => |served.requests| <= 1 && served == ServeBody(c, h, s, n)
  }

  lemma {:induction false} NoHead(c: Rules, s: Bytes, n: nat, r: HeadRead, held: nat, o: Round)
    requires n < MAX_REQS_PER_CONN && !r.Found? && Explains(s, r, held) && held <= |s|
    requires o == Last(Served([], if r.Eof? && n > 0 then Idle else Failed))
    ensures RoundOk(c, s, n, s, o)
  {}

  lemma {:induction false} BadHead(c: Rules, s: Bytes, n: nat, end: nat, rest: Bytes)
    requires n < MAX_REQS_PER_CONN && FindTerm(s, 0) == Some(end) && c.accept(s[..end - 4]).None?
    ensures RoundOk(c, s, n, rest, Last(Served([], Failed)))
  {}

  lemma {:induction false} GoodHead(c: Rules, s: Bytes, n: nat, end: nat, h: Head, rest: Bytes, o: Round)
    requires n < MAX_REQS_PER_CONN && FindTerm(s, 0) == Some(end) && c.accept(s[..end - 4]) == Some(h)
    requires BodyRoundOk(c, h, s[end..], n, rest, o)
    ensures RoundOk(c, s, n, rest, o)
  {}

  class Connection {
    const data: Bytes
    const cut: nat -> nat
    var pos: nat
    var tick: nat
    var pending: Bytes

    ghost predicate Valid() reads this { pos <= |data| }

    /** The bytes not yet given to a request. */
    ghost function Rest(): Bytes
      requires Valid()
      reads this
    {
      pending + data[pos..]
    }

    constructor (data: Bytes, cut: nat -> nat)
      ensures Valid() && Rest() == data && pending == [] && pos == 0 && this.data == data && this.cut == cut
    {
      this.data, this.cut, pos, tick, pending := data, cut, 0, 0, [];
      new;
      assert [] + data[0..] == data;
    }

    method Read(max: nat) returns (chunk: Bytes)
      requires Valid() && max > 0
      modifies this`pos, this`tick
      ensures Valid() && old(pos) <= pos && chunk == data[old(pos)..pos]
      ensures old(pos) == |data| ==> chunk == [] && tick == old(tick)
      ensures old(pos) < |data| ==> |chunk| == Piece(cut(old(tick)), |data| - old(pos), max) && tick == old(tick) + 1
    {
      if pos == |data| { return []; }
      var n := Piece(cut(tick), |data| - pos, max);
      chunk := data[pos..pos + n];
      pos, tick := pos + n, tick + 1;
    }

    /** One read into the head buffer. */
    method ReadMore() returns (got: bool)
      requires Valid() && FindTerm(pending, 0).None? && |pending| < MAX_HEADER_BYTES
      modifies this
      ensures Valid() && Rest() == old(Rest()) && (if got then pos > old(pos) else old(pos) == |data|)
      ensures !got ==> pending == old(pending) && pos == old(pos) && tick == old(tick)
      ensures got ==> |pending| >= old(|pending|) && NoTermBefore(pending, WindowStart(old(|pending|)))
      ensures got ==> ReadHeads(old(pending), old(data[pos..]), cut, old(tick)) ==
                      Later(|pending| - old(|pending|), ReadHeads(pending, data[pos..], cut, tick))
    {
      ghost var before, rest, t := pending, data[pos..], tick;
      var chunk := Read(HEAD_CHUNK);
      if chunk == [] { return false; }
      pending := pending + chunk;
      assert rest == chunk + data[pos..];
      ReadOneMore(before, chunk, data[pos..], cut, t);
      SearchWindow(before, chunk);
      Regroup(before, chunk, data[pos..]);
      return true;
    }

    /** `read_until_double_crlf`. */
    method ReadHead() returns (r: HeadRead)
      requires Valid()
      modifies this
      ensures Valid() && Rest() == old(Rest())
      ensures r == ReadHeads(old(pending), old(data[pos..]), cut, old(tick)).0
      ensures Explains(Rest(), r, |pending|)
    {
      ghost var all := ReadHeads(pending, data[pos..], cut, tick);
      ReadHeadsExplained(pending, data[pos..], cut, tick);
      ghost var held := |pending| + all.1;
      var from: nat := 0;
      while true
        invariant Valid() && Rest() == old(Rest()) && from <= |pending| && NoTermBefore(pending, from)
        invariant |pending| <= held && all == (ReadHeads(pending, data[pos..], cut, tick).0, all.1)
        invariant ReadHeads(pending, data[pos..], cut, tick).1 == held - |pending|
        decreases |data| - pos
      {
        var end := FindSubsequence(pending, from);
        ReadEnds(pending, data[pos..], cut, tick);
        if end.Some? { return Found(end.value); }
        from := WindowStart(|pending|);
        if |pending| >= MAX_HEADER_BYTES { return TooLong; }
        var got := ReadMore();
        if !got { return Eof; }
      }
    }

    /** The body of a request: first what was read past the head, then exactly what is missing. */
    method TakeBody(len: nat) returns (body: Option<Bytes>)
      requires Valid()
      modifies this
      ensures Valid()
      ensures if len <= |old(Rest())| then body == Some(old(Rest())[..len]) && Rest() == old(Rest())[len..]
              else body.None?
    {
      ghost var s := Rest();
      if |pending| >= len {
        body := Some(pending[..len]);
        assert s[..len] == pending[..len];
        pending := pending[len..];
        assert s[len..] == pending + data[pos..];
        return;
      }
      var got := pending;
      pending := [];
      while |got| < len
        invariant Valid() && pending == [] && |got| <= len && got + data[pos..] == s
        decreases len - |got|
      {
        ghost var rest := data[pos..];
        var chunk := Read(len - |got|);
        if chunk == [] { return None; }
        assert rest == chunk + data[pos..];
        assert got + rest == got + chunk + data[pos..];
        got := got + chunk;
      }
      assert s[..len] == got && s[len..] == data[pos..] == pending + data[pos..];
      return Some(got);
    }

    /** Split the head off what has been read; the rest of the buffer stays. */
    method TakeHead(end: nat) returns (head: Bytes)
      requires Valid() && 4 <= end <= |pending|
      modifies this`pending
      ensures Valid() && head == old(Rest())[..end - 4] && Rest() == old(Rest())[end..]
    {
      ghost var s := Rest();
      head := pending[..end - 4];
      pending := pending[end..];
      assert s[end..] == pending + data[pos..] && s[..end - 4] == head;
    }

    /** The body half of a round. */
    method ServeRequest(c: Rules, h: Head, n: nat) returns (o: Round)
      requires Valid()
      modifies this
      ensures Valid() && BodyRoundOk(c, h, old(Rest()), n, Rest(), o)
    {
      var body := TakeBody(c.length(h));
      if body.None? { return Last(Served([], Failed)); }
      var request := Request(h, body.value);
      if !c.answers(request) { return Last(Served([request], Failed)); }
      if IsLast(c, h, n) { return Last(Served([request], Closed)); }
      return Next(request);
    }

    /** One round of the serving loop. */
    method ServeOne(c: Rules, n: nat) returns (o: Round)
      requires Valid() && n < MAX_REQS_PER_CONN
      modifies this
      ensures Valid() && RoundOk(c, old(Rest()), n, Rest(), o)
    {
      ghost var s := Rest();
      var r := ReadHead();
      if !r.Found? {
        o := Last(Served([], if r.Eof? && n > 0 then Idle else Failed));
        NoHead(c, s, n, r, |pending|, o);
        return;
      }
      var bytes := TakeHead(r.end);
      var head := c.accept(bytes);
      if head.None? {
        BadHead(c, s, n, r.end, Rest());
        return Last(Served([], Failed));
      }
      o := ServeRequest(c, head.value, n);
      GoodHead(c, s, n, r.end, head.value, Rest(), o);
    }

    /** `serve_one`: the requests processed are those the bytes spell, whatever the cutting, if heads are short. */
    method ServeConnection(c: Rules) returns (served: Served)
      requires Valid()
      modifies this
      ensures served.requests <= Serve(c, old(Rest()), 0).requests && |served.requests| <= MAX_REQS_PER_CONN
      ensures Short(c, old(Rest()), 0) ==> served == Serve(c, old(Rest()), 0)
    {
      ghost var s := Rest();
      var done: seq<Request> := [];
      NoProgress(c, s);
      while true
        invariant Valid() && |done| < MAX_REQS_PER_CONN && Progress(c, s, done, Rest())
        decreases MAX_REQS_PER_CONN - |done|
      {
        ghost var before := Rest();
        var o := ServeOne(c, |done|);
        match o {
          case Last(last) =>
            Finish(c, s, done, before, Rest(), last);
            return After(done, last);
          case Next(r) =>
            Advance(c, s, done, before, Rest(), r);
            done := done + [r];
        }
      }
    }
  }

  /** `done` has been served of `s`, and `rest` is left. */
  ghost predicate Progress(c: Rules, s: Bytes, done: seq<Request>, rest: Bytes) {
    Serve(c, s, 0) == After(done, Serve(c, rest, |done|)) && (Short(c, s, 0) ==> Short(c, rest, |done|))
  }

  lemma {:induction false} NoProgress(c: Rules, s: Bytes)
    ensures Progress(c, s, [], s)
  {
    assert [] + Serve(c, s, 0).requests == Serve(c, s, 0).requests;
  }

  lemma {:induction false} Advance(c: Rules, s: Bytes, done: seq<Request>, before: Bytes, rest: Bytes, r: Request)
    requires Progress(c, s, done, before) && RoundOk(c, before, |done|, rest, Next(r))
    ensures Progress(c, s, done + [r], rest)
  {
    AfterTwice(done, r, Serve(c, rest, |done| + 1));
  }

  lemma {:induction false} Finish(c: Rules, s: Bytes, done: seq<Request>, before: Bytes, rest: Bytes, last: Served)
    requires Progress(c, s, done, before) && RoundOk(c, before, |done|, rest, Last(last))
    ensures After(done, last).requests <= Serve(c, s, 0).requests
    ensures Short(c, s, 0) ==> After(done, last) == Serve(c, s, 0)
  {}

  lemma {:induction false} Regroup(a: Bytes, b: Bytes, c: Bytes)
    ensures a + (b + c) == a + b + c
  {}

  lemma {:induction false} AfterTwice(done: seq<Request>, r: Request, rest: Served)
    ensures After(done, After([r], rest)) == After(done + [r], rest)
  {
    assert done + ([r] + rest.requests) == done + [r] + rest.requests;
  }

  /** Three bytes before the end of what has been searched. */
  function WindowStart(searched: nat): (from: nat)
    ensures from <= searched
  {
    if searched < 3 then 0 else searched - 3
  }

  function Later(n: nat, r: (HeadRead, nat)): (HeadRead, nat) { (r.0, n + r.1) }

  /** Going back three bytes is enough not to miss a terminator that straddles two reads. */
  lemma {:induction false} SearchWindow(buf: Bytes, chunk: Bytes)
    requires FindTerm(buf, 0).None?
    ensures NoTermBefore(buf + chunk, WindowStart(|buf|))
  {
    forall j: nat | j < WindowStart(|buf|) ensures !TermAt(buf + chunk, j) {
      assert !TermAt(buf, j);
    }
  }

  lemma {:induction false} ReadEnds(buf: Bytes, data: Bytes, cut: nat -> nat, tick: nat)
    ensures FindTerm(buf, 0).Some? ==> ReadHeads(buf, data, cut, tick) == (Found(FindTerm(buf, 0).value), 0)
    ensures FindTerm(buf, 0).None? && |buf| >= MAX_HEADER_BYTES ==> ReadHeads(buf, data, cut, tick) == (TooLong, 0)
    ensures FindTerm(buf, 0).None? && |buf| < MAX_HEADER_BYTES && data == [] ==>
            ReadHeads(buf, data, cut, tick) == (Eof, 0)
  {}

  lemma {:induction false} ReadOneMore(buf: Bytes, chunk: Bytes, tail: Bytes, cut: nat -> nat, tick: nat)
    requires FindTerm(buf, 0).None? && |buf| < MAX_HEADER_BYTES && chunk != []
    requires |chunk| == Piece(cut(tick), |chunk + tail|, HEAD_CHUNK)
    ensures ReadHeads(buf, chunk + tail, cut, tick) == Later(|chunk|, ReadHeads(buf + chunk, tail, cut, tick + 1))
  {
    assert (chunk + tail)[..|chunk|] == chunk && (chunk + tail)[|chunk|..] == tail;
  }

  // ---- streams made of requests ----

  function WireOne(r: Request): Bytes { Render(r.head) + TERMINATOR + r.body }

  function Wire(rs: seq<Request>): Bytes { if rs == [] then [] else WireOne(rs[0]) + Wire(rs[1..]) }

  /**
   A request as a client sends it: its head is one the rules accept as it was meant, its body has the
   length `wire` gives to such a head, it is answered if the server sees it whole, and its head is short.
   */
  ghost predicate Sent(c: Rules, wire: Head -> nat, r: Request) {
    && WellFormed(r.head) && c.accept(Render(r.head)) == Some(r.head)
    && wire(r.head) == |r.body| && (c.length(r.head) == wire(r.head) ==> c.answers(r))
    && |Render(r.head)| + 4 <= MAX_HEADER_BYTES
  }

  ghost predicate AllSent(c: Rules, wire: Head -> nat, rs: seq<Request>) {
    forall r {:trigger Sent(c, wire, r)} :: r in rs ==> Sent(c, wire, r)
  }

  /** The server takes the body to be as long as the client does. */
  predicate SameLength(c: Rules, wire: Head -> nat, r: Request) { c.length(r.head) == wire(r.head) }

  ghost predicate Agrees(c: Rules, wire: Head -> nat, rs: seq<Request>) {
    forall r {:trigger SameLength(c, wire, r)} :: r in rs ==> SameLength(c, wire, r)
  }

  /** The requests up to and including the first that closes the connection or uses up its allowance. */
  function UpToClose(c: Rules, rs: seq<Request>, n: nat): (served: seq<Request>)
    ensures served <= rs
  {
    if rs == [] || n >= MAX_REQS_PER_CONN then []
    else if IsLast(c, rs[0].head, n) then [rs[0]]
    else [rs[0]] + UpToClose(c, rs[1..], n + 1)
  }

  /** No line feed directly before a carriage return, and no line break at the end. */
  ghost predicate Clean(s: Bytes) {
    && s != [] && s[|s| - 1] != '\r' && s[|s| - 1] != '\n'
    && forall i :: 0 <= i < |s| - 1 && s[i] == '\n' ==> s[i + 1] != '\r'
  }

  lemma {:induction false} TerminatorAfterClean(s: Bytes, rest: Bytes)
    requires Clean(s)
    ensures FindTerm(s + TERMINATOR + rest, 0) == Some(|s| + 4)
  {
    var t := s + TERMINATOR + rest;
    assert t[|s|] == '\r' && t[|s| + 1] == '\n' && t[|s| + 2] == '\r' && t[|s| + 3] == '\n';
    assert TermAt(t, |s|);
    forall j: nat | j < |s| ensures !TermAt(t, j) {
      assert t[j] == s[j];
      if j + 1 < |s| { assert t[j + 1] == s[j + 1]; }
      if j + 2 < |s| { assert t[j + 2] == s[j + 2]; }
    }
    FirstTerm(t, |s| + 4);
  }

  lemma {:induction false} CleanLine(s: Bytes, line: string)
    requires Clean(s) && NoBreak(line) && line != []
    ensures Clean(s + CRLF + line)
  {
    var t := s + CRLF + line;
    assert t[|t| - 1] == line[|line| - 1];
    assert t[|s| - 1] == s[|s| - 1] && t[|s|] == '\r' && t[|s| + 1] == '\n';
    forall i | 0 <= i < |t| - 1 && t[i] == '\n' ensures t[i + 1] != '\r' {
      if i < |s| - 1 { assert t[i] == s[i] && t[i + 1] == s[i + 1]; }
      else if i >= |s| + 1 { assert t[i + 1] == line[i + 1 - |s| - 2]; }
    }
  }

  lemma {:induction false} CleanHeaders(s: Bytes, headers: seq<Header>)
    requires Clean(s) && AllWellFormed(headers)
    ensures Clean(s + RenderHeaders(headers))
    decreases |headers|
  {
    if headers == [] {
      assert s + [] == s;
    } else {
      var line := HeaderLine(headers[0]);
      HeaderLineNoBreak(headers[0]);
      CleanLine(s, line);
      CleanHeaders(s + CRLF + line, headers[1..]);
      Regroup(s, CRLF + line, RenderHeaders(headers[1..]));
      Regroup(s, CRLF, line);
    }
  }

  lemma {:induction false} HeadEnds(h: Head, rest: Bytes)
    requires WellFormed(h)
    ensures FindTerm(Render(h) + TERMINATOR + rest, 0) == Some(|Render(h)| + 4)
  {
    RequestLineNoBreak(h);
    assert RequestLine(h) != [];
    CleanHeaders(RequestLine(h), h.headers);
    TerminatorAfterClean(Render(h), rest);
  }

  lemma {:induction false} SplitStream(head: Bytes, body: Bytes, more: Bytes)
    ensures var s := head + TERMINATOR + body + more;
            s == head + TERMINATOR + (body + more) && s[..|head|] == head && s[|head| + 4..] == body + more
  {
    Regroup(head + TERMINATOR, body, more);
  }

  /** The first request of a stream is found whole and leaves exactly the rest of the stream. */
  lemma {:induction false} FirstOfStream(r: Request, more: Bytes)
    requires WellFormed(r.head)
    ensures var s, end := WireOne(r) + more, |Render(r.head)| + 4;
            FindTerm(s, 0) == Some(end) && s[..end - 4] == Render(r.head) && s[end..] == r.body + more
  {
    SplitStream(Render(r.head), r.body, more);
    HeadEnds(r.head, r.body + more);
  }

  lemma {:induction false} ServeFirst(c: Rules, s: Bytes, end: nat, h: Head, tail: Bytes, n: nat)
    requires n < MAX_REQS_PER_CONN && FindTerm(s, 0) == Some(end) && c.accept(s[..end - 4]) == Some(h) &&
             tail == s[end..]
    ensures Serve(c, s, n) == ServeBody(c, h, tail, n)
    ensures Short(c, s, n) <==> end <= MAX_HEADER_BYTES && ShortBody(c, h, tail, n)
  {}

  lemma {:induction false} ServeFramedBody(c: Rules, r: Request, more: Bytes, n: nat)
    requires c.length(r.head) == |r.body| && c.answers(r)
    ensures ServeBody(c, r.head, r.body + more, n) ==
            (if IsLast(c, r.head, n) then Served([r], Closed) else After([r], Serve(c, more, n + 1)))
    ensures ShortBody(c, r.head, r.body + more, n) <==> IsLast(c, r.head, n) || Short(c, more, n + 1)
  {
    assert (r.body + more)[..|r.body|] == r.body && (r.body + more)[|r.body|..] == more;
  }

  ghost predicate Spells(c: Rules, s: Bytes, n: nat, rs: seq<Request>) {
    Serve(c, s, n).requests == rs && Short(c, s, n)
  }

  /** The bytes spell these requests to the server, every head being short, or else something different. */
  ghost predicate Read(c: Rules, s: Bytes, n: nat, rs: seq<Request>, same: bool) {
    if same then Spells(c, s, n, rs) else !(rs <= Serve(c, s, n).requests)
  }

  lemma {:induction false} ServeFramed(c: Rules, wire: Head -> nat, r: Request, more: Bytes, n: nat)
    requires Sent(c, wire, r) && c.length(r.head) == wire(r.head) && n < MAX_REQS_PER_CONN
    ensures Serve(c, WireOne(r) + more, n) ==
            (if IsLast(c, r.head, n) then Served([r], Closed) else After([r], Serve(c, more, n + 1)))
    ensures Short(c, WireOne(r) + more, n) <==> IsLast(c, r.head, n) || Short(c, more, n + 1)
  {
    FirstOfStream(r, more);
    ServeFirst(c, WireOne(r) + more, |Render(r.head)| + 4, r.head, r.body + more, n);
    ServeFramedBody(c, r, more, n);
  }

  lemma {:induction false} TailPrefix(r: Request, a: seq<Request>, b: seq<Request>)
    ensures [r] + a <= [r] + b <==> a <= b
  {
    assert ([r] + a)[1..] == a && ([r] + b)[1..] == b;
  }

  lemma {:induction false} OneMoreRead(c: Rules, wire: Head -> nat, r: Request, more: Bytes, n: nat,
                                       rest: seq<Request>, same: bool)
    requires Sent(c, wire, r) && c.length(r.head) == wire(r.head) && n < MAX_REQS_PER_CONN
    requires !IsLast(c, r.head, n) && Read(c, more, n + 1, rest, same)
    ensures Read(c, WireOne(r) + more, n, [r] + rest, same)
  {
    ServeFramed(c, wire, r, more, n);
    TailPrefix(r, rest, Serve(c, more, n + 1).requests);
  }

  lemma {:induction false} LastRead(c: Rules, wire: Head -> nat, r: Request, more: Bytes, n: nat)
    requires Sent(c, wire, r) && c.length(r.head) == wire(r.head) && n < MAX_REQS_PER_CONN && IsLast(c, r.head, n)
    ensures Read(c, WireOne(r) + more, n, [r], true)
  {
    ServeFramed(c, wire, r, more, n);
  }

  /** Where the lengths differ, the request the server sees is not the one sent. */
  lemma {:induction false} CutElsewhere(c: Rules, wire: Head -> nat, r: Request, more: Bytes, n: nat, rs: seq<Request>)
    requires Sent(c, wire, r) && c.length(r.head) != wire(r.head) && n < MAX_REQS_PER_CONN && rs != [] && rs[0] == r
    ensures Read(c, WireOne(r) + more, n, rs, false)
  {
    FirstOfStream(r, more);
    ServeFirst(c, WireOne(r) + more, |Render(r.head)| + 4, r.head, r.body + more, n);
  }

  lemma {:induction false} NothingRead(c: Rules, n: nat)
    ensures Read(c, [], n, [], true)
  {
    NoTerm([]);
  }

  lemma {:induction false} NothingSent(c: Rules, wire: Head -> nat, rs: seq<Request>, n: nat)
    requires rs == []
    ensures ReadAsSent(c, wire, rs, n)
  {
    NothingRead(c, n);
  }

  /** What the bytes of the stream are to the server, `n` requests having been served before. */
  ghost predicate ReadAsSent(c: Rules, wire: Head -> nat, rs: seq<Request>, n: nat) {
    n < MAX_REQS_PER_CONN ==> Read(c, Wire(rs), n, UpToClose(c, rs, n), Agrees(c, wire, UpToClose(c, rs, n)))
  }

  lemma {:induction false} AgreesWithFirst(c: Rules, wire: Head -> nat, r: Request, rest: seq<Request>)
    ensures Agrees(c, wire, [r] + rest) <==> SameLength(c, wire, r) && Agrees(c, wire, rest)
  {
    assert r in [r] + rest;
    if Agrees(c, wire, [r] + rest) {
      forall x | x in rest ensures SameLength(c, wire, x) { assert x in [r] + rest; }
    }
  }

  lemma {:induction false} ReadFirst(c: Rules, wire: Head -> nat, rs: seq<Request>, n: nat)
    requires rs != [] && Sent(c, wire, rs[0]) && ReadAsSent(c, wire, rs[1..], n + 1)
    ensures ReadAsSent(c, wire, rs, n)
  {
    if n < MAX_REQS_PER_CONN {
      var r, more, rest := rs[0], Wire(rs[1..]), UpToClose(c, rs[1..], n + 1);
      AgreesWithFirst(c, wire, r, if IsLast(c, r.head, n) then [] else rest);
      if !SameLength(c, wire, r) {
        CutElsewhere(c, wire, r, more, n, UpToClose(c, rs, n));
      } else if IsLast(c, r.head, n) {
        LastRead(c, wire, r, more, n);
      } else {
        OneMoreRead(c, wire, r, more, n, rest, Agrees(c, wire, rest));
      }
    }
  }

  lemma {:induction false} ReadAt(c: Rules, wire: Head -> nat, rs: seq<Request>, k: nat, n: nat)
    requires k < |rs| && AllSent(c, wire, rs) && ReadAsSent(c, wire, rs[k + 1..], n + 1)
    ensures ReadAsSent(c, wire, rs[k..], n)
  {
    assert Sent(c, wire, rs[k]) && rs[k..][1..] == rs[k + 1..];
    ReadFirst(c, wire, rs[k..], n);
  }

  /** The stream from its `k`th request on; stated as an equation, which keeps the predicate folded in the proof. */
  lemma {:induction false} StreamFrom(c: Rules, wire: Head -> nat, rs: seq<Request>, k: nat, n: nat)
    requires k <= |rs| && AllSent(c, wire, rs)
    ensures ReadAsSent(c, wire, rs[k..], n) == true
    decreases |rs| - k
  {
    if k == |rs| {
      NothingSent(c, wire, rs[k..], n);
    } else {
      StreamFrom(c, wire, rs, k + 1, n + 1);
      ReadAt(c, wire, rs, k, n);
    }
  }

  /**
   A stream of requests as sent.  If the server agrees on the lengths of those up to the first that closes
   the connection or reaches the cap, the bytes spell exactly these, in order, each with its own body,
   and every head met is short; otherwise these are not what the bytes spell to the server.
   */
  lemma {:induction false} StreamIsServed(c: Rules, wire: Head -> nat, rs: seq<Request>, n: nat)
    requires AllSent(c, wire, rs)
    ensures ReadAsSent(c, wire, rs, n)
  {
    StreamFrom(c, wire, rs, 0, n);
    assert rs[0..] == rs;
  }

  /**
   Whatever the cutting, a connection processes exactly the requests sent on it if the server agrees on
   their lengths, and only then.
   */
  method ServeStream(c: Rules, wire: Head -> nat, rs: seq<Request>, cut: nat -> nat) returns (served: Served)
    requires AllSent(c, wire, rs)
    ensures served.requests == UpToClose(c, rs, 0) <==> Agrees(c, wire, UpToClose(c, rs, 0))
  {
    var conn := new Connection(Wire(rs), cut);
    StreamIsServed(c, wire, rs, 0);
    served := conn.ServeConnection(c);
  }

  // ---- the DoH server ----

  /** A well-formed request within the limits that the DoH server admits, and answers if it sees it whole. */
  ghost predicate Good(c: Config, r: Request) {
    && WellFormed(r.head) && c.utf8(Render(r.head)) && FramingOk(r.head.headers) && c.admits(r.head)
    && BodyLength(r.head).Some? && |r.body| == WireLength(r.head) && |Render(r.head)| + 4 <= MAX_HEADER_BYTES
    && (BodyLength(r.head) == Some(|r.body|) ==> c.answers(r))
  }

  ghost predicate AllGood(c: Config, rs: seq<Request>) { forall r {:trigger Good(c, r)} :: r in rs ==> Good(c, r) }

  lemma {:induction false} GoodIsSent(c: Config, r: Request)
    requires Good(c, r)
    ensures Sent(RulesOf(c), WireLength, r)
  {
    RoundTrip(c.utf8, r.head);
  }

  lemma {:induction false} AllGoodAreSent(c: Config, rs: seq<Request>)
    requires AllGood(c, rs)
    ensures AllSent(RulesOf(c), WireLength, rs)
  {
    forall r | r in rs ensures Sent(RulesOf(c), WireLength, r) {
      assert Good(c, r);
      GoodIsSent(c, r);
    }
  }

  /** The heads the server accepts, in the terms of the framing rules: nothing else about the framing matters. */
  lemma {:induction false} AcceptsExactly(c: Config, h: Head)
    requires WellFormed(h) && c.utf8(Render(h)) && c.admits(h) && BodyLength(h).Some?
    ensures Accept(c, Render(h)) == Some(h) <==> !BadFraming(h)
  {
    RoundTrip(c.utf8, h);
    FramingMeans(h.headers);
  }

  /** The head announces a framing the server does not do. */
  ghost predicate BadFraming(h: Head) {
    || !Lacks(h.headers, "transfer-encoding") || !Lacks(h.headers, "trailer")
    || !NoRepeat(h.headers, "content-length")
  }

  lemma {:induction false} BadFramingRefused(c: Config, h: Head)
    requires WellFormed(h) && BadFraming(h)
    ensures Accept(c, Render(h)).None?
  {
    FramingMeans(h.headers);
    if c.utf8(Render(h)) { RoundTrip(c.utf8, h); }
  }

  /**
   A request with a Transfer-Encoding, a Trailer or two Content-Length headers ends the connection: neither
   it nor anything sent after it is served, whatever follows.
   */
  lemma {:induction false} BadFramingEnds(c: Config, r: Request, more: Bytes, n: nat)
    requires WellFormed(r.head) && n < MAX_REQS_PER_CONN && BadFraming(r.head)
    ensures Serve(RulesOf(c), WireOne(r) + more, n) == Served([], Failed)
  {
    BadFramingRefused(c, r.head);
    FirstOfStream(r, more);
  }

  predicate IsGetWithBody(r: Request) { r.head.verb == "GET" && WireLength(r.head) > 0 }

  ghost predicate NoGetBody(rs: seq<Request>) { forall r {:trigger IsGetWithBody(r)} :: r in rs ==> !IsGetWithBody(r) }

  /** The only heads on whose length the server and the wire disagree are those of a GET that announces a body. */
  lemma {:induction false} SameLengthIff(c: Config, r: Request)
    requires Good(c, r)
    ensures SameLength(RulesOf(c), WireLength, r) <==> !IsGetWithBody(r)
  {
    if r.head.verb == "POST" { ReadLengthIsWire(r.head); }
  }

  lemma {:induction false} AgreesIffNoGetBody(c: Config, rs: seq<Request>)
    requires AllGood(c, rs)
    ensures Agrees(RulesOf(c), WireLength, rs) <==> NoGetBody(rs)
  {
    forall r | r in rs ensures SameLength(RulesOf(c), WireLength, r) <==> !IsGetWithBody(r) {
      assert Good(c, r);
      SameLengthIff(c, r);
    }
  }

  /**
   `serve_one` on a stream of good requests: for every cutting, exactly these are processed, up to the
   first that closes the connection or reaches the cap, if and only if none of them is a GET with a body.
   */
  method ServeDoh(c: Config, rs: seq<Request>, cut: nat -> nat) returns (served: Served)
    requires AllGood(c, rs)
    ensures served.requests == UpToClose(RulesOf(c), rs, 0) <==> NoGetBody(UpToClose(RulesOf(c), rs, 0))
  {
    AllGoodAreSent(c, rs);
    AgreesIffNoGetBody(c, UpToClose(RulesOf(c), rs, 0));
    served := ServeStream(RulesOf(c), WireLength, rs, cut);
  }

  lemma {:induction false} JoinBody(head: Bytes, body: Bytes)
    ensures head + TERMINATOR + body == head + TERMINATOR + [] + body
  {
    assert head + TERMINATOR + [] == head + TERMINATOR;
  }

  lemma {:induction false} OnlyRequest(c: Rules, r: Request, n: nat)
    requires Sent(c, c.length, r) && n < MAX_REQS_PER_CONN
    ensures Read(c, WireOne(r), n, [r], true)
  {
    assert WireOne(r) + [] == WireOne(r) && [r] + [] == [r];
    NothingRead(c, n + 1);
    if IsLast(c, r.head, n) { LastRead(c, c.length, r, [], n); }
    else { OneMoreRead(c, c.length, r, [], n, [], true); }
  }

  /** If the server takes a head to have no body, the bytes sent as its body are read as what follows it. */
  lemma {:induction false} BodyIsNextRequest(c: Rules, g: Head, inner: Request)
    requires WellFormed(g) && c.accept(Render(g)) == Some(g) && |Render(g)| + 4 <= MAX_HEADER_BYTES
    requires c.length(g) == 0 && c.answers(Request(g, [])) && !IsLast(c, g, 0)
    requires Sent(c, c.length, inner)
    ensures Serve(c, WireOne(Request(g, WireOne(inner))), 0).requests == [Request(g, []), inner]
  {
    JoinBody(Render(g), WireOne(inner));
    var plain := Request(g, []);
    assert [plain] + [inner] == [plain, inner];
    OnlyRequest(c, inner, 1);
    OneMoreRead(c, c.length, plain, WireOne(inner), 0, [inner], true);
  }

  lemma {:induction false} GetBodyIsNextRequest(c: Config, sent: Request, inner: Request)
    requires Good(c, sent) && sent.body == WireOne(inner) && c.answers(Request(sent.head, []))
    requires Good(c, inner) && BodyLength(inner.head) == Some(|inner.body|)
    requires sent.head.verb == "GET" && !WantsClose(sent.head)
    ensures Serve(RulesOf(c), WireOne(sent), 0).requests == [Request(sent.head, []), inner]
  {
    GoodIsSent(c, sent);
    GoodIsSent(c, inner);
    BodyIsNextRequest(RulesOf(c), sent.head, inner);
  }

  // ---- a GET with a body ----

  /** The DoH endpoint with a query for the root's address, as a client encodes it. */
  const DNS_PATH := "/dns-query?dns=AAABAAABAAAAAAAAAAABAAE"

  /** A server that admits that path alone and answers, a GET for it, and a GET that announces 55 bytes. */
  function DnsConfig(): Config { Config(b => true, (h: Head) => h.path == DNS_PATH, r => true) }
  function PlainGet(): Request { Request(Head("GET", DNS_PATH, []), []) }
  function LongGet(): Request { Request(Head("GET", DNS_PATH, [Header("content-length", "55")]), WireOne(PlainGet())) }

  predicate IsPathChar(c: char) { '!' <= c <= '~' }

  lemma {:induction false} PathChars(s: string)
    requires s != [] && forall i :: 0 <= i < |s| ==> IsPathChar(s[i])
    ensures IsPath(s) && ' ' !in s
  {}

  lemma {:induction false} DnsPath()
    ensures IsPath(DNS_PATH) && ' ' !in DNS_PATH && |DNS_PATH| == 38
  {
    PathChars(DNS_PATH);
  }

  lemma {:induction false} PlainGetGood()
    ensures Good(DnsConfig(), PlainGet()) && |WireOne(PlainGet())| == 55 && IsToken("GET")
  {
    DnsPath();
    assert IsToken("GET");
  }

  lemma {:induction false} LongGetLength()
    ensures WireLength(LongGet().head) == 55 && FramingOk(LongGet().head.headers)
  {
    assert Digits("55") == Some(55);
    PlainLength("55");
  }

  predicate IsNameChar(c: char) { 'a' <= c <= 'z' || c == '-' }

  lemma {:induction false} NameChars(s: string)
    requires s != [] && forall i :: 0 <= i < |s| ==> IsNameChar(s[i])
    ensures IsToken(s) && IsLower(s)
  {}

  lemma {:induction false} LengthValue()
    ensures IsValue("55") && Trimmed("55")
  {}

  lemma {:induction false} LengthHeader()
    ensures WellFormedHeader(Header("content-length", "55"))
  {
    LengthValue();
    NameChars("content-length");
  }

  lemma {:induction false} OneHeader(h: Header)
    requires WellFormedHeader(h)
    ensures AllWellFormed([h])
  {
    assert [h][1..] == [];
  }

  lemma {:induction false} LongGetWellFormed()
    ensures WellFormed(LongGet().head)
  {
    assert AllWellFormed([Header("content-length", "55")]) by {
      LengthHeader();
      OneHeader(Header("content-length", "55"));
    }
    assert IsToken("GET") by { PlainGetGood(); }
    DnsPath();
  }

  lemma {:induction false} LongGetShort()
    ensures |Render(LongGet().head)| + 4 <= MAX_HEADER_BYTES
  {
    DnsPath();
    assert [Header("content-length", "55")][1..] == [];
  }

  lemma {:induction false} LongGetGood()
    ensures Good(DnsConfig(), LongGet())
  {
    assert |LongGet().body| == 55 by { PlainGetGood(); }
    LongGetLength();
    LongGetWellFormed();
    LongGetShort();
  }

  lemma {:induction false} LongGetGoesOn()
    ensures LongGet().head.verb == "GET" && !WantsClose(LongGet().head)
  {}

  /** One GET whose body is another GET is served as two requests. */
  lemma {:induction false} OneGetServedAsTwo()
    ensures Good(DnsConfig(), LongGet())
    ensures Serve(RulesOf(DnsConfig()), WireOne(LongGet()), 0).requests == [Request(LongGet().head, []), PlainGet()]
  {
    PlainGetGood();
    LongGetGood();
    LongGetGoesOn();
    GetBodyIsNextRequest(DnsConfig(), LongGet(), PlainGet());
  }

  // ---- a close among other options ----

  /** The server sees a wish to close exactly when `close` is the only option of some Connection header. */
  lemma {:induction false} WantsCloseIff(h: Head)
    requires forall x :: x in h.headers ==> Trimmed(x.value)
    ensures WantsClose(h)
            <==> exists x :: x in h.headers && x.name == "connection" && Elements(Lower(x.value), []) == ["close"]
  {
    forall x | x in h.headers ensures Lower(x.value) == "close" <==> Elements(Lower(x.value), []) == ["close"] {
      CloseAlone(x.value);
    }
  }

  /** A wish to close listed after another option is not seen. */
  lemma {:induction false} CloseInListMissed(h: Head)
    requires h.headers == [Header("connection", "te, close")]
    ensures WireCloses(h) && !WantsClose(h)
  {
    var value := "te, close";
    assert Lower(value) == "te" + "," + " close";
    FirstElement("te", " close", []);
    OneElement(" close", []);
    assert [] + " close" == " " + "close";
    TrimPadded("close");
    assert "close" in Elements(Lower(value), []) by { assert Elements(Lower(value), [])[1] == "close"; }
    assert h.headers[0] in h.headers;
    assert |Lower(value)| != |"close"|;
  }
}
