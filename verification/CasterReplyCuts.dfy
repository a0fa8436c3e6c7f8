/** Reading a reply does not depend on how the socket cuts it, and takes no byte of the body. */
module CasterReplyCuts {
  import opened Bytes
  import opened ChunkedBody
  import opened CasterReply
  import opened HeaderFields

  function AsCalls(pieces: seq<bytes>): seq<Receive> {
    if pieces == [] then [] else [Piece(pieces[0])] + AsCalls(pieces[1..])
  }

  lemma {:induction false} ReceivedIsConcat(pieces: seq<bytes>)
    ensures Received(AsCalls(pieces)) == Concat(pieces)
  {
    if pieces != [] {
      ReceivedIsConcat(pieces[1..]);
      assert AsCalls(pieces)[1..] == AsCalls(pieces[1..]);
    }
  }

  predicate EachReceivable(pieces: seq<bytes>) {
    forall k :: 0 <= k < |pieces| ==> 1 <= |pieces[k]| <= 4096
  }

  /** A way of receiving the stream: non-empty pieces no larger than one receive call takes. */
  predicate IsCutting(pieces: seq<bytes>, stream: bytes) {
    EachReceivable(pieces) && Concat(pieces) == stream
  }

  // ------------------------------------------------------------------
  // HTTP replies
  // ------------------------------------------------------------------

  predicate HttpReply(s: bytes) {
    HeadComplete(s) && HttpStatus(s[..Find(s, LF)])
  }

  /** Where the body starts. */
  function HeadEnd(s: bytes): (h: nat)
    requires HttpReply(s)
    ensures Find(s, LF) < h <= |s|
  {
    var i := Find(s, LF);
    i + 1 + HeaderBlock(s[i + 1..]).size
  }

  lemma FindInPrefix(s: bytes, m: nat)
    requires m <= |s|
    ensures Find(s, LF) < m ==> Find(s[..m], LF) == Find(s, LF)
    ensures m <= Find(s, LF) ==> Find(s[..m], LF) == m
  {
    if Find(s, LF) < m {
      FindIs(s[..m], LF, Find(s, LF));
    } else {
      FindIs(s[..m], LF, m);
    }
  }

  /** The head of a prefix is complete exactly when the prefix reaches the body. */
  lemma CompleteFromHeadEnd(s: bytes, m: nat)
    requires HttpReply(s) && m <= |s|
    ensures HeadComplete(s[..m]) <==> HeadEnd(s) <= m
  {
    hide Find, HeaderBlock;
    var i := Find(s, LF);
    FindInPrefix(s, m);
    if i < m {
      assert s[..m][..i] == s[..i];
      assert s[i + 1..] == s[..m][i + 1..] + s[m..];
      BlockStable(s[..m][i + 1..], s[m..]);
    }
  }

  function StatusOf(s: bytes): bytes { s[..Find(s, LF)] }

  function HeadersOf(s: bytes): bytes
    requires HttpReply(s)
  {
    s[Find(s, LF) + 1..HeadEnd(s)]
  }

  lemma ParsePrefix(s: bytes, m: nat)
    requires HttpReply(s) && HeadEnd(s) <= m <= |s|
    ensures ParseReply(s[..m]) == Reply(StatusOf(s), HeadersOf(s), s[HeadEnd(s)..m])
  {
    hide Find, HeaderBlock;
    var i := Find(s, LF);
    FindInPrefix(s, m);
    CompleteFromHeadEnd(s, m);
    assert s[..m][..i] == s[..i];
    var rest := s[..m][i + 1..];
    assert s[i + 1..] == rest + s[m..];
    BlockStable(rest, s[m..]);
    var n := HeaderBlock(rest).size;
    assert rest[..n] == s[i + 1..i + 1 + n] && rest[n..] == s[i + 1 + n..m];
  }

  /** The reply was understood, and what is left over with what is still unread is exactly the body. */
  predicate ReadsWhole(s: bytes, r: ReadResult)
    requires HttpReply(s)
  {
    && r.Replied?
    && r.reply.status == StatusOf(s)
    && r.reply.head == HeadersOf(s)
    && r.reply.leftover + Received(r.unread) == s[HeadEnd(s)..]
  }

  /** Receiving one more piece moves the read position of s along. */
  lemma NextPiece(s: bytes, m: nat, pieces: seq<bytes>)
    requires m < |s| && IsCutting(pieces, s[m..])
    ensures pieces != [] && 0 < |pieces[0]| <= |s| - m && |pieces[0]| <= RECV_SIZE
    ensures s[..m] + pieces[0] == s[..m + |pieces[0]|]
    ensures IsCutting(pieces[1..], s[m + |pieces[0]|..])
    ensures AsCalls(pieces) == [Piece(pieces[0])] + AsCalls(pieces[1..])
  {
  }

  /** ...and so does the reading. */
  lemma ReadPiece(s: bytes, m: nat, pieces: seq<bytes>)
    requires m < |s| && IsCutting(pieces, s[m..]) && !HeadComplete(s[..m]) && m <= MAX_REPLY_HEAD
    ensures pieces != [] && m < m + |pieces[0]| <= |s| && IsCutting(pieces[1..], s[m + |pieces[0]|..])
    ensures ReadFrom(s[..m], AsCalls(pieces)) == ReadFrom(s[..m + |pieces[0]|], AsCalls(pieces[1..]))
  {
    hide HeadComplete, IsCutting, AsCalls, Finish;
    NextPiece(s, m, pieces);
    assert AsCalls(pieces)[1..] == AsCalls(pieces[1..]);
  }

  lemma {:induction false} ReadOn(s: bytes, m: nat, pieces: seq<bytes>)
    requires HttpReply(s) && HeadEnd(s) <= MAX_REPLY_HEAD + 1
    requires m <= |s| && IsCutting(pieces, s[m..])
    ensures ReadsWhole(s, ReadFrom(s[..m], AsCalls(pieces)))
    decreases |pieces|
  {
    hide HttpReply, HeadComplete, HeadEnd, ParseReply, StatusOf, HeadersOf;
    CompleteFromHeadEnd(s, m);
    if HeadEnd(s) <= m {
      ParsePrefix(s, m);
      ReceivedIsConcat(pieces);
      assert s[HeadEnd(s)..m] + s[m..] == s[HeadEnd(s)..];
    } else {
      ReadPiece(s, m, pieces);
      ReadOn(s, m + |pieces[0]|, pieces[1..]);
    }
  }

  /** The stream one byte at a time. */
  function Singles(s: bytes): (pieces: seq<bytes>)
    ensures IsCutting(pieces, s)
  {
    if s == [] then [] else [[s[0]]] + Singles(s[1..])
  }

  lemma OverrunIsBad(buf: bytes, calls: seq<Receive>)
    requires !HeadComplete(buf) && |buf| > MAX_REPLY_HEAD
    ensures ReadFrom(buf, calls).BadReply?
  {
    hide HeadComplete, ParseReply;
  }

  lemma NextSingle(s: bytes, m: nat)
    requires m < |s| && !HeadComplete(s[..m]) && m <= MAX_REPLY_HEAD
    ensures ReadFrom(s[..m], AsCalls(Singles(s[m..]))) == ReadFrom(s[..m + 1], AsCalls(Singles(s[m + 1..])))
  {
    hide HeadComplete, ReadFrom, Singles;
    FirstSingle(s[m..]);
    assert s[m..][1..] == s[m + 1..] && s[..m] + [s[m]] == s[..m + 1];
    var pieces := Singles(s[m..]);
    assert pieces[0] == [s[m]] && pieces[1..] == Singles(s[m + 1..]);
    assert AsCalls(pieces)[0] == Piece([s[m]]) && AsCalls(pieces)[1..] == AsCalls(pieces[1..]);
    PieceRead(s[..m], AsCalls(pieces));
  }

  lemma {:induction false} SinglesOverrun(s: bytes, m: nat)
    requires HttpReply(s) && HeadEnd(s) > MAX_REPLY_HEAD + 1
    requires m <= MAX_REPLY_HEAD + 1
    ensures ReadFrom(s[..m], AsCalls(Singles(s[m..]))).BadReply?
    decreases MAX_REPLY_HEAD + 1 - m
  {
    hide HttpReply, HeadComplete, HeadEnd, ParseReply, ReadFrom, AsCalls, Singles;
    CompleteFromHeadEnd(s, m);
    if m <= MAX_REPLY_HEAD {
      NextSingle(s, m);
      SinglesOverrun(s, m + 1);
    } else {
      OverrunIsBad(s[..m], AsCalls(Singles(s[m..])));
    }
  }

  /** Every cutting gives the whole reply and the whole body exactly when the head is at most
      one byte longer than the limit; a longer head is refused when it arrives byte by byte. */
  lemma HeadReadIff(s: bytes)
    requires HttpReply(s)
    ensures (forall pieces :: IsCutting(pieces, s) ==> ReadsWhole(s, ReadFrom([], AsCalls(pieces))))
       <==> HeadEnd(s) <= 16385
  {
    hide HttpReply, HeadEnd, ReadsWhole, ReadFrom, IsCutting, AsCalls, Singles;
    assert s[..0] == [] && s[0..] == s;
    if HeadEnd(s) <= MAX_REPLY_HEAD + 1 {
      forall pieces | IsCutting(pieces, s)
        ensures ReadsWhole(s, ReadFrom([], AsCalls(pieces)))
      {
        ReadOn(s, 0, pieces);
      }
    } else {
      SinglesOverrun(s, 0);
      BadIsNotWhole(s, ReadFrom([], AsCalls(Singles(s))));
    }
  }

  lemma BadIsNotWhole(s: bytes, r: ReadResult)
    requires HttpReply(s) && r.BadReply?
    ensures !ReadsWhole(s, r)
  {
  }

  // ------------------------------------------------------------------
  // Replies that stop short
  // ------------------------------------------------------------------

  lemma CompleteStays(s: bytes, m: nat)
    requires m <= |s| && HeadComplete(s[..m])
    ensures HeadComplete(s)
  {
    hide Find, HeaderBlock, IsHttp;
    var p := s[..m];
    var i := Find(p, LF);
    FindIs(s, LF, i);
    assert s[..i] == p[..i] && s[i + 1..] == p[i + 1..] + s[m..];
    BlockStable(p[i + 1..], s[m..]);
  }

  lemma {:induction false} ReadTo(s: bytes, m: nat, pieces: seq<bytes>, more: seq<Receive>)
    requires !HeadComplete(s) && |s| <= 16384 && m <= |s| && IsCutting(pieces, s[m..])
    ensures ReadFrom(s[..m], AsCalls(pieces) + more) == ReadFrom(s, more)
    decreases |pieces|
  {
    hide HeadComplete, Finish, IsCutting, ReadFrom;
    if pieces == [] {
      assert s[..m] == s by { NothingCut(s[m..]); }
      assert [] + more == more;
    } else {
      if HeadComplete(s[..m]) { CompleteStays(s, m); }
      StillCut(s, m, pieces);
      var calls := AsCalls(pieces) + more;
      assert calls[0] == Piece(pieces[0]) && calls[1..] == AsCalls(pieces[1..]) + more;
      PieceRead(s[..m], calls);
      ReadTo(s, m + |pieces[0]|, pieces[1..], more);
    }
  }

  lemma PieceRead(buf: bytes, calls: seq<Receive>)
    requires !HeadComplete(buf) && |buf| <= 16384 && calls != [] && calls[0].Piece? && calls[0].data != []
    ensures ReadFrom(buf, calls) == ReadFrom(buf + calls[0].data, calls[1..])
  {
    hide HeadComplete, Finish;
  }

  lemma NothingCut(s: bytes)
    requires IsCutting([], s)
    ensures s == []
  {
  }

  lemma StillCut(s: bytes, m: nat, pieces: seq<bytes>)
    requires m <= |s| && pieces != [] && IsCutting(pieces, s[m..])
    ensures pieces[0] != [] && m + |pieces[0]| <= |s| && s[..m] + pieces[0] == s[..m + |pieces[0]|]
    ensures IsCutting(pieces[1..], s[m + |pieces[0]|..])
  {
  }

  /** Where the head is not complete and the caster falls silent, what is there is taken for the reply if
      it holds a line at all, and otherwise the reading times out; where the caster closes, it is taken in
      any case. */
  lemma StopsShort(s: bytes, pieces: seq<bytes>, rest: seq<Receive>)
    requires !HeadComplete(s) && |s| <= 16384 && IsCutting(pieces, s)
    ensures ReadFrom([], AsCalls(pieces) + ([Quiet] + rest))
         == if 0x0A in s then Replied(ParseReply(s), rest) else TimedOut
    ensures ReadFrom([], AsCalls(pieces) + ([Piece([])] + rest)) == Replied(ParseReply(s), rest)
  {
    hide HeadComplete, ParseReply, IsCutting, AsCalls;
    assert s[..0] == [] && s[0..] == s;
    ReadTo(s, 0, pieces, [Quiet] + rest);
    ReadTo(s, 0, pieces, [Piece([])] + rest);
    assert ([Quiet] + rest)[1..] == rest && ([Piece([])] + rest)[1..] == rest;
    assert 0x0A in s <==> Find(s, LF) < |s|;
  }

  // ------------------------------------------------------------------
  // NTRIP 1.0 replies
  // ------------------------------------------------------------------

  /** A status line that is not HTTP's, and not too long. */
  predicate PlainReply(s: bytes) {
    var i := Find(s, LF);
    i < |s| && i <= 16384 && !HttpStatus(s[..i])
  }

  function Behind(s: bytes): bytes
    requires Find(s, LF) < |s|
  {
    s[Find(s, LF) + 1..]
  }

  /** No complete header line can arrive together with the end of the status line: there is none, or
      it is too long for the rest of one receive call. */
  predicate NoLineTogether(s: bytes)
    requires Find(s, LF) < |s|
  {
    HeaderLine(Behind(s)) == 0 || HeaderLine(Behind(s)) >= 4096
  }

  /** What is parsed of the first m bytes, with the status line complete. */
  lemma PlainParse(s: bytes, m: nat)
    requires PlainReply(s) && Find(s, LF) < m <= |s|
    ensures HeadComplete(s[..m])
    ensures var rest := s[Find(s, LF) + 1..m];
      var size := HeaderBlock(rest).size;
      ParseReply(s[..m]) == Reply(StatusOf(s), rest[..size], rest[size..])
  {
    hide Find, HeaderBlock;
    var i := Find(s, LF);
    FindInPrefix(s, m);
    assert s[..m][..i] == s[..i] && s[..m][i + 1..] == s[i + 1..m];
  }

  /** No header line in front, no header block; one in front is taken. */
  lemma BlockTakesLine(s: bytes)
    ensures HeaderLine(s) == 0 ==> HeaderBlock(s).size == 0
    ensures HeaderLine(s) > 0 ==> HeaderBlock(s).size > 0
  {
    hide HeaderLine, Strip;
  }

  lemma PlainPrefix(s: bytes, m: nat)
    requires PlainReply(s) && NoLineTogether(s) && Find(s, LF) < m <= |s| && m <= Find(s, LF) + RECV_SIZE
    ensures HeadComplete(s[..m])
    ensures ParseReply(s[..m]) == Reply(StatusOf(s), [], s[Find(s, LF) + 1..m])
  {
    hide Find, HeaderLine, HeaderBlock, HeadComplete, StatusOf, IsHttp, ParseReply;
    var rest := s[Find(s, LF) + 1..m];
    PlainParse(s, m);
    CutAt(s, Find(s, LF) + 1, m);
    LineStable(rest, s[m..]);
    BlockTakesLine(rest);
    assert rest[..0] == [] && rest[0..] == rest;
  }

  predicate DataIntact(s: bytes, r: ReadResult) {
    && r.Replied?
    && r.reply.status == StatusOf(s)
    && r.reply.head == []
    && Find(s, LF) < |s|
    && r.reply.leftover + Received(r.unread) == s[Find(s, LF) + 1..]
  }

  lemma PlainIncomplete(s: bytes, m: nat)
    requires m <= |s| && m <= Find(s, LF)
    ensures !HeadComplete(s[..m])
  {
  }

  lemma CutAt(s: bytes, i: nat, m: nat)
    requires i <= m <= |s|
    ensures s[i..m] + s[m..] == s[i..]
  {
  }

  /** However it is cut, such a reply leaves the data behind its status line intact. */
  lemma {:induction false} PlainReadOn(s: bytes, m: nat, pieces: seq<bytes>)
    requires PlainReply(s) && NoLineTogether(s) && m <= Find(s, LF) + RECV_SIZE
    requires m <= |s| && IsCutting(pieces, s[m..])
    ensures DataIntact(s, ReadFrom(s[..m], AsCalls(pieces)))
    decreases |pieces|
  {
    hide Find, HeaderLine, HeaderBlock, ParseReply, StatusOf, IsHttp, NoLineTogether;
    var i := Find(s, LF);
    if i < m {
      PlainPrefix(s, m);
      ReceivedIsConcat(pieces);
      CutAt(s, i + 1, m);
    } else {
      PlainIncomplete(s, m);
      PieceFits(s, m, pieces);
      ReadPiece(s, m, pieces);
      PlainReadOn(s, m + |pieces[0]|, pieces[1..]);
    }
  }

  lemma PieceFits(s: bytes, m: nat, pieces: seq<bytes>)
    requires m < |s| && IsCutting(pieces, s[m..])
    ensures pieces != [] && |pieces[0]| <= RECV_SIZE
  {
    hide AsCalls;
    NextPiece(s, m, pieces);
  }

  // ------------------------------------------------------------------
  // ...and when the cutting matters
  // ------------------------------------------------------------------

  lemma CuttingJoined(a: seq<bytes>, x: bytes, b: seq<bytes>, y: bytes)
    requires IsCutting(a, x) && IsCutting(b, y)
    ensures IsCutting(a + b, x + y)
  {
    hide Concat;
    ConcatAppend(a, b);
  }

  /** Receiving the status line byte by byte, up to i. */
  lemma {:induction false} ReadSingles(s: bytes, m: nat, i: nat, tail: seq<bytes>)
    requires m <= i <= Find(s, LF) <= MAX_REPLY_HEAD && i <= |s| && IsCutting(tail, s[i..])
    ensures IsCutting(Singles(s[m..i]) + tail, s[m..])
    ensures ReadFrom(s[..m], AsCalls(Singles(s[m..i]) + tail)) == ReadFrom(s[..i], AsCalls(tail))
    decreases i - m
  {
    hide Find, HeadComplete, ReadFrom, AsCalls, IsCutting;
    CuttingJoined(Singles(s[m..i]), s[m..i], tail, s[i..]);
    assert s[m..i] + s[i..] == s[m..];
    if m == i {
      assert s[m..i] == [];
      assert [] + tail == tail;
    } else {
      var pieces := Singles(s[m..i]) + tail;
      assert s[m..i][1..] == s[m + 1..i] && s[m..i][0] == s[m];
      assert Singles(s[m..i]) == [[s[m]]] + Singles(s[m + 1..i]);
      assert pieces[0] == [s[m]] && pieces[1..] == Singles(s[m + 1..i]) + tail;
      PlainIncomplete(s, m);
      ReadPiece(s, m, pieces);
      ReadSingles(s, m + 1, i, tail);
    }
  }

  /** A cutting in which a header line of h bytes arrives together with the end of the status line. */
  function Together(s: bytes, i: nat, h: nat): seq<bytes>
    requires i + 1 + h <= |s|
  {
    Singles(s[0..i]) + ([s[i..i + 1 + h]] + Singles(s[i + 1 + h..]))
  }

  lemma LineTaken(s: bytes, h: nat)
    requires PlainReply(s) && h == HeaderLine(Behind(s)) && 0 < h < RECV_SIZE
    ensures var i := Find(s, LF);
      IsCutting(Together(s, i, h), s) && !DataIntact(s, ReadFrom([], AsCalls(Together(s, i, h))))
  {
    hide Find, HeaderLine, HeadComplete, ParseReply, StatusOf, IsHttp, Singles, IsCutting;
    var i := Find(s, LF);
    var m := i + 1 + h;
    var tail := [s[i..m]] + Singles(s[m..]);
    OnePiece(s[i..m]);
    CuttingJoined([s[i..m]], s[i..m], Singles(s[m..]), s[m..]);
    assert s[i..m] + s[m..] == s[i..];
    assert s[..0] == [] && s[0..] == s;
    ReadSingles(s, 0, i, tail);
    PlainIncomplete(s, i);
    ReadPiece(s, i, tail);
    LineRead(s, h);
  }

  lemma LineRead(s: bytes, h: nat)
    requires PlainReply(s) && h == HeaderLine(Behind(s)) && h > 0
    ensures var m := Find(s, LF) + 1 + h; HeadComplete(s[..m]) && ParseReply(s[..m]).head != []
  {
    hide Find, HeaderLine, HeaderBlock, PlainReply, ParseReply;
    LineInPlainReply(s);
    var m := Find(s, LF) + 1 + h;
    var line := s[Find(s, LF) + 1..m];
    PlainParse(s, m);
    assert Behind(s) == line + s[m..];
    LineStable(line, s[m..]);
    BlockTakesLine(line);
  }

  /** Two readings that agree on the reply, and on the data behind it. */
  predicate SameReply(a: ReadResult, b: ReadResult) {
    && a.Replied? && b.Replied? && a.reply.status == b.reply.status && a.reply.head == b.reply.head
    && a.reply.leftover + Received(a.unread) == b.reply.leftover + Received(b.unread)
  }

  /** Every two cuttings of a version 1 reply are read alike if and only if no header line is short
      enough to arrive together with the end of the status line. */
  lemma PlainReadIff(s: bytes)
    requires PlainReply(s)
    ensures (forall a, b :: IsCutting(a, s) && IsCutting(b, s) ==>
              SameReply(ReadFrom([], AsCalls(a)), ReadFrom([], AsCalls(b))))
       <==> NoLineTogether(s)
  {
    hide ReadFrom, IsCutting, AsCalls, Singles, StatusOf, HeaderLine;
    assert s[..0] == [] && s[0..] == s;
    if NoLineTogether(s) {
      forall a, b | IsCutting(a, s) && IsCutting(b, s)
        ensures SameReply(ReadFrom([], AsCalls(a)), ReadFrom([], AsCalls(b)))
      {
        PlainReadOn(s, 0, a);
        PlainReadOn(s, 0, b);
      }
    } else {
      var h := HeaderLine(Behind(s));
      LineTaken(s, h);
      SinglesIntact(s);
      var a, b := Singles(s), Together(s, Find(s, LF), h);
      hide Find, Together, NoLineTogether, PlainReply;
      assert IsCutting(a, s) && IsCutting(b, s);
      NotTheSame(s, ReadFrom([], AsCalls(a)), ReadFrom([], AsCalls(b)));
    }
  }

  lemma NotTheSame(s: bytes, a: ReadResult, b: ReadResult)
    requires DataIntact(s, a) && !DataIntact(s, b)
    ensures !SameReply(a, b)
  {
    hide StatusOf, Find;
  }

  /** Byte by byte, the status line is read alone. */
  lemma SinglesIntact(s: bytes)
    requires PlainReply(s)
    ensures IsCutting(Singles(s), s) && DataIntact(s, ReadFrom([], AsCalls(Singles(s))))
  {
    hide Find, HeadComplete, IsHttp, StatusOf, ReadFrom, AsCalls, DataIntact, PlainReply;
    LineInPlainReply(s);
    var i := Find(s, LF);
    var tail := Singles(s[i..]);
    SinglesSplit(s, i);
    assert s[..0] == [] && s[0..] == s && s[0..i] == s[..i];
    ReadSingles(s, 0, i, tail);
    LastSingle(s);
  }

  lemma LastSingle(s: bytes)
    requires PlainReply(s)
    ensures var i := Find(s, LF); DataIntact(s, ReadFrom(s[..i], AsCalls(Singles(s[i..]))))
  {
    hide Find, HeadComplete, IsHttp, StatusOf, ReadFrom, AsCalls, DataIntact, PlainReply, IsCutting, Singles;
    LineInPlainReply(s);
    var i := Find(s, LF);
    PlainIncomplete(s, i);
    FirstSingle(s[i..]);
    assert s[i..][0] == s[i] && s[i..][1..] == s[i + 1..];
    ReadPiece(s, i, Singles(s[i..]));
    assert Singles(s[i..])[1..] == Singles(s[i + 1..]);
    StatusAlone(s, Singles(s[i + 1..]));
  }

  /** With nothing but the status line and its line break read, reading ends. */
  lemma StatusAlone(s: bytes, pieces: seq<bytes>)
    requires PlainReply(s) && Find(s, LF) < |s| && IsCutting(pieces, s[Find(s, LF) + 1..])
    ensures DataIntact(s, ReadFrom(s[..Find(s, LF) + 1], AsCalls(pieces)))
  {
    hide Find, HeadComplete, IsHttp, StatusOf, PlainReply, ParseReply, AsCalls;
    AloneIsPlain(s);
    ReceivedIsConcat(pieces);
    assert [] + s[Find(s, LF) + 1..] == s[Find(s, LF) + 1..];
  }

  lemma AloneIsPlain(s: bytes)
    requires PlainReply(s)
    ensures var m := Find(s, LF) + 1; HeadComplete(s[..m]) && ParseReply(s[..m]) == Reply(StatusOf(s), [], [])
  {
    hide Find, HeaderLine, HeaderBlock, PlainReply, ParseReply;
    LineInPlainReply(s);
    var m := Find(s, LF) + 1;
    PlainParse(s, m);
    assert s[m..m] == [];
  }

  lemma LineInPlainReply(s: bytes)
    requires PlainReply(s)
    ensures Find(s, LF) < |s| && Find(s, LF) <= MAX_REPLY_HEAD
  {
  }

  lemma OnePiece(x: bytes)
    requires 1 <= |x| <= RECV_SIZE
    ensures IsCutting([x], x)
  {
    assert [x][1..] == [] && x + [] == x;
  }

  lemma {:induction false} SinglesSplit(s: bytes, i: nat)
    requires i <= |s|
    ensures Singles(s) == Singles(s[..i]) + Singles(s[i..])
    decreases i
  {
    hide IsCutting;
    if i == 0 {
      assert s[..0] == [] && s[0..] == s;
    } else {
      assert s[1..][..i - 1] == s[..i][1..] && s[1..][i - 1..] == s[i..];
      SinglesSplit(s[1..], i - 1);
      FirstSingle(s);
      FirstSingle(s[..i]);
      hide Singles;
    }
  }

  lemma FirstSingle(s: bytes)
    requires s != []
    ensures Singles(s) == [[s[0]]] + Singles(s[1..])
  {
  }

  /** RTCM data right behind the status line never looks like a header line. */
  lemma RtcmIsNoHeader(s: bytes)
    requires s == [] || s[0] == 0xD3
    ensures HeaderLine(s) == 0
  {
  }

  lemma RtcmBehindStatusIntact(status: bytes, data: bytes, pieces: seq<bytes>)
    requires 0x0A !in status && !HttpStatus(status) && |status| <= 16384
    requires data == [] || data[0] == 0xD3
    requires IsCutting(pieces, status + [LF] + data)
    ensures DataIntact(status + [LF] + data, ReadFrom([], AsCalls(pieces)))
    ensures ReadFrom([], AsCalls(pieces)).reply.leftover
      + Received(ReadFrom([], AsCalls(pieces)).unread) == data
  {
    hide HeaderLine, ReadFrom, IsCutting, AsCalls;
    var s := status + [LF] + data;
    FindIs(s, LF, |status|);
    assert s[..|status|] == status && s[|status| + 1..] == data;
    RtcmIsNoHeader(data);
    assert s[..0] == [] && s[0..] == s;
    PlainReadOn(s, 0, pieces);
  }
}
