/** Reading a caster's reply off the socket: where its head ends, and what is left over. */
module CasterReply {
  import opened Bytes
  import opened ChunkedBody

  const MAX_REPLY_HEAD: nat := 16384
  const RECV_SIZE: nat := 4096
  const COLON: byte := 0x3A
  const HTTP: bytes := [0x48, 0x54, 0x54, 0x50, 0x2F]

  // ------------------------------------------------------------------
  // Header lines
  // ------------------------------------------------------------------

  /** Bytes a header name is made of. */
  predicate IsNameByte(b: byte) {
    || 0x30 <= b <= 0x39 || 0x41 <= b <= 0x5A || 0x61 <= b <= 0x7A
    || b == 0x21 || 0x23 <= b <= 0x27 || b == 0x2A || b == 0x2B || b == 0x2D || b == 0x2E
    || 0x5E <= b <= 0x60 || b == 0x7C || b == 0x7E
  }

  predicate IsLineByte(b: byte) { b != CR && b != LF }

  function NameLength(s: bytes): (n: nat)
    ensures n <= |s|
    ensures forall k :: 0 <= k < n ==> IsNameByte(s[k])
    ensures n < |s| ==> !IsNameByte(s[n])
  {
    if s == [] || !IsNameByte(s[0]) then 0 else 1 + NameLength(s[1..])
  }

  function ValueLength(s: bytes): (n: nat)
    ensures n <= |s|
    ensures forall k :: 0 <= k < n ==> IsLineByte(s[k])
    ensures n < |s| ==> !IsLineByte(s[n])
  {
    if s == [] || !IsLineByte(s[0]) then 0 else 1 + ValueLength(s[1..])
  }

  /** The size of the line break at the front, or 0. */
  function BreakLength(s: bytes): (n: nat)
    ensures n <= 2 && n <= |s|
  {
    if |s| >= 2 && s[0] == CR && s[1] == LF then 2
    else if |s| >= 1 && s[0] == LF then 1
    else 0
  }

  /** The size of the complete header line, or blank line, at the front; 0 if there is none. */
  function HeaderLine(s: bytes): (n: nat)
    ensures n <= |s|
  {
    var name := NameLength(s);
    if 0 < name < |s| && s[name] == COLON then
      var end := name + 1 + ValueLength(s[name + 1..]);
      var brk := BreakLength(s[end..]);
      if brk > 0 then end + brk else BreakLength(s)
    else BreakLength(s)
  }

  datatype Block = Block(size: nat, complete: bool)

  /** The header lines at the front, up to and including a blank line. */
  function HeaderBlock(s: bytes): (b: Block)
    ensures b.size <= |s|
  {
    var n := HeaderLine(s);
    if n == 0 then Block(0, false)
    else if Strip(s[..n]) == [] then Block(n, true)
    else
      var later := HeaderBlock(s[n..]);
      Block(n + later.size, later.complete)
  }

  method SplitHeaderBlock(data: bytes) returns (head: bytes, leftover: bytes, complete: bool)
    ensures head == data[..HeaderBlock(data).size]
    ensures leftover == data[HeaderBlock(data).size..]
    ensures complete == HeaderBlock(data).complete
  {
    hide HeaderLine, Strip;
    var pos := 0;
    assert data[0..] == data;
    var n := HeaderLine(data[pos..]);
    while n > 0
      invariant 0 <= pos && 0 <= n && pos + n <= |data| && n == HeaderLine(data[pos..])
      invariant HeaderBlock(data).size == pos + HeaderBlock(data[pos..]).size
      invariant HeaderBlock(data).complete == HeaderBlock(data[pos..]).complete
      decreases |data| - pos
    {
      var line := data[pos..pos + n];
      assert data[pos..][..n] == line && data[pos..][n..] == data[pos + n..];
      pos := pos + n;
      if Strip(line) == [] {
        return data[..pos], data[pos..], true;
      }
      n := HeaderLine(data[pos..]);
    }
    return data[..pos], data[pos..], false;
  }

  // ------------------------------------------------------------------
  // The head of a reply
  // ------------------------------------------------------------------

  predicate IsHttp(status: bytes) { HTTP <= status }

  predicate HeadComplete(buf: bytes) {
    var i := Find(buf, LF);
    i < |buf| && (IsHttp(buf[..i]) ==> HeaderBlock(buf[i + 1..]).complete)
  }

  /** A reply taken apart. The outcome and the headers are read off `status` and `head` alone. */
  datatype Reply = Reply(status: bytes, head: bytes, leftover: bytes)

  function ParseReply(data: bytes): Reply {
    var i := Find(data, LF);
    var rest := if i < |data| then data[i + 1..] else [];
    var n := HeaderBlock(rest).size;
    Reply(data[..i], rest[..n], rest[n..])
  }

  // ------------------------------------------------------------------
  // Reading
  // ------------------------------------------------------------------

  /** What one receive call brings; an empty piece means the caster closed the connection. */
  datatype Receive = Piece(data: bytes) | Quiet

  datatype ReadResult =
    | Replied(reply: Reply, unread: seq<Receive>)
    | BadReply(status: bytes)   // the head is longer than any reply's
    | TimedOut                  // no status line in time

  function Finish(buf: bytes, unread: seq<Receive>): ReadResult {
    if |buf| > MAX_REPLY_HEAD && !HeadComplete(buf) then BadReply(ParseReply(buf).status)
    else Replied(ParseReply(buf), unread)
  }

  function ReadFrom(buf: bytes, calls: seq<Receive>): ReadResult
    decreases |calls|
  {
    if HeadComplete(buf) || |buf| > MAX_REPLY_HEAD || calls == [] then Finish(buf, calls)
    else if calls[0].Quiet? then
      if Find(buf, LF) < |buf| then Finish(buf, calls[1..]) else TimedOut
    else if calls[0].data == [] then Finish(buf, calls[1..])
    else ReadFrom(buf + calls[0].data, calls[1..])
  }

  method ReadReply(calls: seq<Receive>) returns (r: ReadResult)
    ensures r == ReadFrom([], calls)
  {
    hide HeadComplete, Finish;
    var buf: bytes := [];
    var k := 0;
    assert calls[0..] == calls;
    while !HeadComplete(buf) && |buf| <= MAX_REPLY_HEAD && k < |calls|
      invariant k <= |calls|
      invariant ReadFrom(buf, calls[k..]) == ReadFrom([], calls)
    {
      var call := calls[k];
      assert calls[k..][1..] == calls[k + 1..];
      k := k + 1;
      if call.Quiet? {
        if Find(buf, LF) < |buf| {
          return Finish(buf, calls[k..]);
        }
        return TimedOut;
      }
      if call.data == [] {
        return Finish(buf, calls[k..]);
      }
      buf := buf + call.data;
    }
    return Finish(buf, calls[k..]);
  }

  function Received(calls: seq<Receive>): bytes {
    if calls == [] then []
    else (if calls[0].Piece? then calls[0].data else []) + Received(calls[1..])
  }

  // ------------------------------------------------------------------
  // Nothing is lost
  // ------------------------------------------------------------------

  function Whole(r: Reply, terminated: bool): bytes {
    r.status + (if terminated then [LF] else []) + r.head + r.leftover
  }

  lemma Rejoin(data: bytes, i: nat, n: nat)
    requires i < |data| && i + 1 + n <= |data|
    ensures data == data[..i] + [data[i]] + data[i + 1..][..n] + data[i + 1..][n..]
  {
  }

  lemma UnterminatedKept(data: bytes)
    requires Find(data, LF) == |data|
    ensures data == Whole(ParseReply(data), false)
  {
  }

  lemma TerminatedKept(data: bytes)
    requires Find(data, LF) < |data|
    ensures data == Whole(ParseReply(data), true)
  {
    hide HeaderBlock, Find;
    Rejoin(data, Find(data, LF), HeaderBlock(data[Find(data, LF) + 1..]).size);
  }

  lemma ParseKeepsAll(data: bytes)
    ensures data == Whole(ParseReply(data), Find(data, LF) < |data|)
  {
    hide Find, ParseReply, Whole;
    if Find(data, LF) < |data| { TerminatedKept(data); } else { UnterminatedKept(data); }
  }

  /** Whatever the socket does, a parsed reply and the calls not yet made hold every byte received. */
  lemma {:induction false} NothingLost(buf: bytes, calls: seq<Receive>)
    ensures ReadFrom(buf, calls).Replied? ==> exists terminated ::
      Whole(ReadFrom(buf, calls).reply, terminated) + Received(ReadFrom(buf, calls).unread) == buf + Received(calls)
    decreases |calls|
  {
    hide HeadComplete, ParseReply, Whole;
    if ReadFrom(buf, calls).Replied? {
      ParseKeepsAll(buf);
      var terminated := Find(buf, LF) < |buf|;
      if HeadComplete(buf) || |buf| > MAX_REPLY_HEAD || calls == [] {
        assert Whole(ReadFrom(buf, calls).reply, terminated) + Received(calls) == buf + Received(calls);
      } else if calls[0].Quiet? || calls[0].data == [] {
        assert [] + Received(calls[1..]) == Received(calls[1..]);
        assert Whole(ReadFrom(buf, calls).reply, terminated) + Received(calls[1..]) == buf + Received(calls);
      } else {
        NothingLost(buf + calls[0].data, calls[1..]);
        assert buf + calls[0].data + Received(calls[1..]) == buf + Received(calls);
      }
    }
  }

  // ------------------------------------------------------------------
  // More data behind a header block
  // ------------------------------------------------------------------

  lemma NameLengthIs(s: bytes, n: nat)
    requires n < |s| && !IsNameByte(s[n]) && forall k :: 0 <= k < n ==> IsNameByte(s[k])
    ensures NameLength(s) == n
  {
  }

  lemma ValueLengthIs(s: bytes, n: nat)
    requires n < |s| && !IsLineByte(s[n]) && forall k :: 0 <= k < n ==> IsLineByte(s[k])
    ensures ValueLength(s) == n
  {
  }

  lemma ColonIsNoName()
    ensures !IsNameByte(COLON)
  {
  }

  lemma BreakStable(s: bytes, t: bytes)
    ensures BreakLength(s) > 0 ==> BreakLength(s + t) == BreakLength(s)
    ensures 0 < BreakLength(s + t) <= |s| ==> BreakLength(s) == BreakLength(s + t)
  {
  }

  /** A complete line in a prefix is the same line in the whole, and the other way round. */
  lemma LineStable(s: bytes, t: bytes)
    ensures HeaderLine(s) > 0 ==> HeaderLine(s + t) == HeaderLine(s)
    ensures 0 < HeaderLine(s + t) <= |s| ==> HeaderLine(s) == HeaderLine(s + t)
  {
    hide IsNameByte, IsLineByte;
    var u := s + t;
    if HeaderLine(s) > 0 {
      LineForward(s, t);
    } else if 0 < HeaderLine(u) <= |s| {
      LineBackward(s, t);
    }
  }

  predicate Named(s: bytes) {
    0 < NameLength(s) < |s| && s[NameLength(s)] == COLON
  }

  /** Where the line break of a named line would be. */
  function ValueEnd(s: bytes): (end: nat)
    requires Named(s)
    ensures NameLength(s) < end <= |s|
  {
    NameLength(s) + 1 + ValueLength(s[NameLength(s) + 1..])
  }

  lemma HeaderLineByKind(s: bytes)
    ensures BreakLength(s) > 0 ==> HeaderLine(s) == BreakLength(s)
    ensures BreakLength(s) == 0 ==>
      HeaderLine(s) == if Named(s) && BreakLength(s[ValueEnd(s)..]) > 0
                       then ValueEnd(s) + BreakLength(s[ValueEnd(s)..]) else 0
  {
  }

  lemma NamedForward(s: bytes, t: bytes)
    requires Named(s)
    ensures Named(s + t) && NameLength(s + t) == NameLength(s)
  {
    hide IsNameByte;
    ColonIsNoName();
    NameLengthIs(s + t, NameLength(s));
  }

  lemma NamedBackward(s: bytes, t: bytes)
    requires Named(s + t) && NameLength(s + t) < |s|
    ensures Named(s) && NameLength(s + t) == NameLength(s)
  {
    hide IsNameByte;
    var u, n := s + t, NameLength(s + t);
    ColonIsNoName();
    assert s[n] == u[n] && forall k :: 0 <= k < n ==> s[k] == u[k];
    NameLengthIs(s, n);
  }

  /** Where a value has ended, it has ended there for good. */
  lemma ValueEndStable(s: bytes, t: bytes)
    requires Named(s) && Named(s + t) && NameLength(s + t) == NameLength(s)
    ensures ValueEnd(s) < |s| ==> ValueEnd(s + t) == ValueEnd(s)
    ensures ValueEnd(s + t) < |s| ==> ValueEnd(s) == ValueEnd(s + t)
  {
    hide IsNameByte, IsLineByte;
    var m := NameLength(s) + 1;
    var a := s[m..];
    assert (s + t)[m..] == a + t;
    var v := ValueLength(a);
    var w := ValueLength(a + t);
    if v < |a| {
      ValueLengthIs(a + t, v);
    }
  }

  lemma LineForward(s: bytes, t: bytes)
    requires HeaderLine(s) > 0
    ensures HeaderLine(s + t) == HeaderLine(s)
  {
    hide HeaderLine, BreakLength, IsNameByte;
    HeaderLineByKind(s);
    HeaderLineByKind(s + t);
    BreakStable(s, t);
    if BreakLength(s) == 0 {
      NamedForward(s, t);
      ValueEndStable(s, t);
      NoBreakInNamed(s + t);
      var end := ValueEnd(s);
      assert (s + t)[end..] == s[end..] + t;
      BreakStable(s[end..], t);
    }
  }

  lemma NoBreakInNamed(s: bytes)
    requires Named(s)
    ensures BreakLength(s) == 0
  {
  }

  lemma LineBackward(s: bytes, t: bytes)
    requires 0 < HeaderLine(s + t) <= |s|
    ensures HeaderLine(s) == HeaderLine(s + t)
  {
    hide HeaderLine, BreakLength, IsNameByte;
    HeaderLineByKind(s);
    HeaderLineByKind(s + t);
    BreakStable(s, t);
    if BreakLength(s + t) == 0 {
      NamedBackward(s, t);
      ValueEndStable(s, t);
      NoBreakInNamed(s);
      var end := ValueEnd(s);
      assert (s + t)[end..] == s[end..] + t;
      BreakStable(s[end..], t);
    }
  }

  lemma {:induction false} BlockStable(s: bytes, t: bytes)
    ensures HeaderBlock(s).complete ==> HeaderBlock(s + t) == HeaderBlock(s)
    ensures HeaderBlock(s + t).complete && HeaderBlock(s + t).size <= |s| ==> HeaderBlock(s) == HeaderBlock(s + t)
    decreases |s|
  {
    hide HeaderLine, Strip;
    var u := s + t;
    LineStable(s, t);
    var n := HeaderLine(u);
    if 0 < n <= |s| {
      assert u[..n] == s[..n] && u[n..] == s[n..] + t;
      BlockStable(s[n..], t);
    }
  }
}
