/** The stream from one relay's destination, over a caster, into another relay's input:
    frames in, messages, chunked coding, arbitrary socket reads, frames out. */
module StreamPath {
  import opened Bytes
  import opened FrameExtraction
  import opened ChunkedBody
  import opened ChunkedFormat
  import opened CasterReply
  import opened CasterReplyCuts
  import opened HeaderFields

  datatype Relayed = Relayed(frames: seq<ParsedFrame>, decoder: DecoderState, tail: bytes) | Corrupt

  function Ahead(frames: seq<ParsedFrame>, r: Relayed): Relayed {
    if r.Relayed? then r.(frames := frames + r.frames) else Corrupt
  }

  /** Each read is de-chunked; what comes out, if anything, is a chunk for the hub's extractor. */
  function Relay(decoder: DecoderState, tail: bytes, received: seq<bytes>): Relayed
    decreases |received|
  {
    if received == [] then Relayed([], decoder, tail)
    else
      var body := Feed(decoder, received[0]);
      if body.Raised? then Corrupt
      else if body.out == [] then Relay(body.state, tail, received[1..])
      else
        var parsed := ParseBuffer(tail + body.out);
        Ahead(parsed.frames, Relay(body.state, parsed.rest, received[1..]))
  }

  /** Decoding and extracting read by read is decoding and extracting the whole. */
  lemma {:induction false} RelayIsWhole(decoder: DecoderState, tail: bytes, received: seq<bytes>)
    requires Settled(tail) && FeedAll(decoder, received).Decoded?
    ensures var body := FeedAll(decoder, received);
      var parsed := ParseBuffer(tail + body.out);
      Relay(decoder, tail, received) == Relayed(parsed.frames, body.state, parsed.rest)
    decreases |received|
  {
    hide Feed, ParseBuffer, Settled;
    if received == [] {
      SettledTail(tail);
      assert tail + [] == tail;
    } else {
      var first := Feed(decoder, received[0]);
      var later := FeedAll(first.state, received[1..]);
      if first.out == [] {
        RelayIsWhole(first.state, tail, received[1..]);
        assert first.out + later.out == later.out;
      } else {
        var parsed := ParseBuffer(tail + first.out);
        RestIsSettled(tail + first.out);
        RelayIsWhole(first.state, parsed.rest, received[1..]);
        ParseSplit(tail + first.out, later.out);
        assert tail + (first.out + later.out) == (tail + first.out) + later.out;
      }
    }
  }

  /** Any bytes, cut into any non-empty messages, written as chunks, received in any pieces: the
      frames the bytes hold come out, whatever lies between them, and the tail that waits. */
  lemma AnyPath(messages: seq<bytes>, received: seq<bytes>)
    requires NonEmpty(messages) && Printable(messages) && Concat(received) == EncodeAll(messages)
    ensures var p := ParseBuffer(Concat(messages)); Relay(FRESH, [], received) == Relayed(p.frames, FRESH, p.rest)
  {
    hide Printable, NonEmpty, Relay, ParseBuffer, EncodeAll, FeedAll;
    EncodedReads(messages, received);
    RelayIsWhole(FRESH, [], received);
    assert [] + Concat(messages) == Concat(messages);
  }

  /** In particular, of frames nothing is left over: exactly the frames come out, in order, with their
      numbers, and both buffers end up empty. */
  lemma WholePath(frames: seq<bytes>, messages: seq<bytes>, received: seq<bytes>)
    requires AllFrameBytes(frames)
    requires Concat(messages) == Concat(frames) && NonEmpty(messages) && Printable(messages)
    requires Concat(received) == EncodeAll(messages)
    ensures Relay(FRESH, [], received) == Relayed(AllParsed(frames), FRESH, [])
  {
    hide AllFrameBytes, Printable, NonEmpty, Relay, ParseBuffer, EncodeAll;
    AnyPath(messages, received);
    FramesComeBack(frames);
  }

  // ------------------------------------------------------------------
  // With the caster's reply in front
  // ------------------------------------------------------------------

  function PiecesOf(calls: seq<Receive>): seq<bytes> {
    if calls == [] then []
    else (if calls[0].Piece? then [calls[0].data] else []) + PiecesOf(calls[1..])
  }

  lemma {:induction false} PiecesConcat(calls: seq<Receive>)
    ensures Concat(PiecesOf(calls)) == Received(calls)
  {
    if calls != [] {
      PiecesConcat(calls[1..]);
      if calls[0].Piece? {
        assert PiecesOf(calls)[1..] == PiecesOf(calls[1..]);
      } else {
        assert PiecesOf(calls) == PiecesOf(calls[1..]);
      }
    }
  }

  /** A status line of HTTP, header fields and a blank line, and nothing more. */
  ghost predicate ReplyHead(head: bytes) {
    |head| <= 16385 && exists status, fields, crlf :: WrittenHead(head, status, fields, crlf)
  }

  lemma StatusFound(status: bytes, rest: bytes)
    requires 0x0A !in status
    ensures var s := status + [0x0A] + rest;
      Find(s, LF) == |status| && s[..|status|] == status && s[|status| + 1..] == rest
  {
    FindIs(status + [0x0A] + rest, LF, |status|);
  }

  /** It is read as that. */
  lemma HeadIsRead(head: bytes)
    requires ReplyHead(head)
    ensures HttpReply(head) && HeadEnd(head) == |head|
  {
    hide Find, HeaderBlock, GoodFields, FieldLines, HttpStatus, IsHttp;
    var status, fields, crlf :| WrittenHead(head, status, fields, crlf);
    var block := FieldLines(fields) + LineEnd(crlf);
    assert head == status + [0x0A] + block;
    StatusFound(status, block);
    HttpIff(status);
    assert block[..|block|] == block;
    assert WrittenBlock(block, fields, crlf);
    BlockIff(block, |block|);
  }

  lemma BlockBehindStatus(head: bytes)
    requires HttpReply(head) && HeadEnd(head) == |head|
    ensures var i := Find(head, LF);
      i < |head| && HttpStatus(head[..i]) && HeaderBlock(head[i + 1..]) == Block(|head| - i - 1, true)
  {
    hide Find, HeaderBlock, HttpStatus, IsHttp;
    HttpIff(head[..Find(head, LF)]);
  }

  lemma FirstLine(head: bytes, i: nat)
    requires i < |head| && i == Find(head, LF)
    ensures 0x0A !in head[..i] && head == head[..i] + [0x0A] + head[i + 1..]
  {
    hide Find;
  }

  lemma HeadRegrouped(status: bytes, fields: bytes, end: bytes)
    ensures status + [0x0A] + (fields + end) == status + [0x0A] + fields + end
  {
  }

  lemma WholeBlock(block: bytes)
    requires HeaderBlock(block) == Block(|block|, true)
    ensures exists fields, crlf :: WrittenBlock(block, fields, crlf)
  {
    hide HeaderBlock, WrittenBlock;
    BlockIff(block, |block|);
    assert block[..|block|] == block;
  }

  lemma HeadIsWritten(head: bytes)
    requires HttpReply(head) && HeadEnd(head) == |head|
    ensures exists status, fields, crlf :: WrittenHead(head, status, fields, crlf)
  {
    hide Find, HeaderBlock, GoodFields, FieldLines, HttpStatus, HttpReply, HeadEnd, LineEnd;
    BlockBehindStatus(head);
    var i := Find(head, LF);
    FirstLine(head, i);
    WholeBlock(head[i + 1..]);
    var fields, crlf :| WrittenBlock(head[i + 1..], fields, crlf);
    HeadRegrouped(head[..i], FieldLines(fields), LineEnd(crlf));
    assert WrittenHead(head, head[..i], fields, crlf);
  }

  /** And nothing else is. */
  lemma ReplyHeadIff(head: bytes)
    ensures ReplyHead(head) <==> HttpReply(head) && HeadEnd(head) == |head| <= 16385
  {
    hide HttpReply, HeadEnd, WrittenHead;
    if ReplyHead(head) { HeadIsRead(head); }
    if HttpReply(head) && HeadEnd(head) == |head| <= 16385 { HeadIsWritten(head); }
  }

  lemma HeadBeforeBody(head: bytes, body: bytes)
    requires ReplyHead(head)
    ensures HttpReply(head + body) && HeadEnd(head + body) == |head|
  {
    hide Find, HeaderBlock, HttpStatus, IsHttp, ReplyHead;
    HeadIsRead(head);
    var s := head + body;
    var i := Find(head, LF);
    HttpIff(head[..i]);
    FindIs(s, LF, i);
    assert s[..i] == head[..i];
    assert s[i + 1..] == head[i + 1..] + body;
    BlockStable(head[i + 1..], body);
  }

  /** The client's side of a connection: read the reply, then treat what was left over as the first read. */
  function Download(calls: seq<Receive>): Relayed {
    var r := ReadFrom([], calls);
    if r.Replied? then Relay(FRESH, [], [r.reply.leftover] + PiecesOf(r.unread)) else Corrupt
  }

  /** However a reply and the body behind it are cut into receive calls, what the reply reader leaves
      over, with what it leaves unread, is exactly the body. */
  lemma BodyIsIntact(head: bytes, body: bytes, pieces: seq<bytes>)
    requires ReplyHead(head) && IsCutting(pieces, head + body)
    ensures var r := ReadFrom([], AsCalls(pieces));
      r.Replied? && Concat([r.reply.leftover] + PiecesOf(r.unread)) == body
  {
    hide ReplyHead, Relay, IsCutting, ReadFrom, HttpReply, HeadEnd;
    var s := head + body;
    HeadBeforeBody(head, body);
    HeadIsShort(head);
    HeadReadIff(s);
    var r := ReadFrom([], AsCalls(pieces));
    assert ReadsWhole(s, r);
    PiecesConcat(r.unread);
    assert ([r.reply.leftover] + PiecesOf(r.unread))[1..] == PiecesOf(r.unread);
    assert s[|head|..] == body;
  }

  /** No byte of a chunked stream is lost to the reply in front of it, and every frame comes out. */
  lemma WholeDownload(head: bytes, messages: seq<bytes>, pieces: seq<bytes>)
    requires ReplyHead(head) && NonEmpty(messages) && Printable(messages)
    requires IsCutting(pieces, head + EncodeAll(messages))
    ensures var p := ParseBuffer(Concat(messages)); Download(AsCalls(pieces)) == Relayed(p.frames, FRESH, p.rest)
  {
    hide ReplyHead, Printable, NonEmpty, Relay, EncodeAll, IsCutting, ReadFrom, ParseBuffer;
    BodyIsIntact(head, EncodeAll(messages), pieces);
    var r := ReadFrom([], AsCalls(pieces));
    AnyPath(messages, [r.reply.leftover] + PiecesOf(r.unread));
  }

  lemma HeadIsShort(head: bytes)
    requires ReplyHead(head)
    ensures |head| <= 16385
  {
  }
}
