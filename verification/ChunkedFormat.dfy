/** The chunked format itself: what a body is, that the decoder accepts exactly that,
    and that the relay's encoder writes it. */
module ChunkedFormat {
  import opened Bytes
  import opened ChunkedBody
  import opened ChunkedCuts
  import opened SizeNumerals

  // ------------------------------------------------------------------
  // Bodies
  // ------------------------------------------------------------------

  /** A chunk as written: its size line, its data, and which line end closes it. */
  datatype Chunk = Chunk(line: bytes, data: bytes, crlf: bool)

  /** A line without a line break that says n. */
  ghost predicate SizeLine(line: bytes, n: nat) {
    0x0A !in line && Says(line, n)
  }

  ghost predicate ValidChunk(c: Chunk) {
    c.data != [] && SizeLine(c.line, |c.data|)
  }

  ghost predicate ValidChunks(chunks: seq<Chunk>) {
    forall k :: 0 <= k < |chunks| ==> ValidChunk(chunks[k])
  }

  function Write(c: Chunk): bytes { c.line + [0x0A] + c.data + LineEnd(c.crlf) }

  function WriteAll(chunks: seq<Chunk>): bytes {
    if chunks == [] then [] else Write(chunks[0]) + WriteAll(chunks[1..])
  }

  function DataOf(chunks: seq<Chunk>): bytes {
    if chunks == [] then [] else chunks[0].data + DataOf(chunks[1..])
  }

  function Ready(buffer: bytes): DecoderState { DecoderState(buffer, 0, false, false) }

  lemma SizeLineStep(line: bytes, rest: bytes, n: nat)
    requires SizeLine(line, n)
    ensures Find(line + [LF] + rest, LF) == |line|
    ensures Step(Ready(line + [LF] + rest)) ==
      if n > 0 then Progress([], DecoderState(rest, n, false, false))
      else Stop(DecoderState([], 0, false, true))
  {
    hide SizeOfLine, Says;
    SizeIff(line, n);
    var b := line + [LF] + rest;
    FindIs(b, LF, |line|);
    assert b[..|line|] == line && b[|line| + 1..] == rest;
  }

  lemma DataStep(data: bytes, rest: bytes)
    requires data != [] && rest != []
    ensures Step(DecoderState(data + rest, |data|, false, false))
         == Progress(data, DecoderState(rest, 0, true, false))
  {
  }

  lemma LineEndStep(crlf: bool, rest: bytes)
    ensures Step(DecoderState(LineEnd(crlf) + rest, 0, true, false)) == Progress([], Ready(rest))
  {
    var b := LineEnd(crlf) + rest;
    if crlf {
      assert b[..2] == [CR, LF] && b[2..] == rest;
    } else {
      assert b[..1] == [LF] && b[1..] == rest && b[0] == LF;
    }
  }

  lemma ReadChunk(c: Chunk, rest: bytes)
    requires ValidChunk(c)
    ensures Run(Ready(Write(c) + rest)) == Prepend(c.data, Run(Ready(rest)))
  {
    hide Step, SizeLine;
    var tail := LineEnd(c.crlf) + rest;
    assert Write(c) + rest == c.line + [LF] + (c.data + tail);
    SizeLineStep(c.line, c.data + tail, |c.data|);
    DataStep(c.data, tail);
    LineEndStep(c.crlf, rest);
    var s1, s2 := DecoderState(c.data + tail, |c.data|, false, false), DecoderState(tail, 0, true, false);
    PrependNothing(Run(s1));
    PrependNothing(Run(Ready(rest)));
    assert Run(s2) == Run(Ready(rest));
    assert Run(s1) == Prepend(c.data, Run(s2));
  }

  /** Whatever follows a run of chunks, the decoder first hands out their data. */
  lemma {:induction false} ReadChunks(chunks: seq<Chunk>, rest: bytes)
    requires ValidChunks(chunks)
    ensures Run(Ready(WriteAll(chunks) + rest)) == Prepend(DataOf(chunks), Run(Ready(rest)))
  {
    hide Run, Write, ValidChunk;
    if chunks == [] {
      assert WriteAll(chunks) + rest == rest;
      PrependNothing(Run(Ready(rest)));
    } else {
      var later := WriteAll(chunks[1..]) + rest;
      assert WriteAll(chunks) + rest == Write(chunks[0]) + later;
      ReadChunk(chunks[0], later);
      ReadChunks(chunks[1..], rest);
      PrependTwice(chunks[0].data, DataOf(chunks[1..]), Run(Ready(rest)));
    }
  }

  lemma ReadLastLine(line: bytes, rest: bytes)
    requires SizeLine(line, 0)
    ensures Run(Ready(line + [LF] + rest)) == Decoded([], DecoderState([], 0, false, true))
  {
    hide Step, SizeLine;
    SizeLineStep(line, rest, 0);
  }

  /** A body that has ended: chunks, a size line of zero, and whatever comes after it. */
  ghost predicate EndedBody(body: bytes, chunks: seq<Chunk>, last: bytes, junk: bytes) {
    ValidChunks(chunks) && SizeLine(last, 0) && body == WriteAll(chunks) + (last + [0x0A] + junk)
  }

  ghost predicate BodyOf(body: bytes, out: bytes) {
    exists chunks, last, junk :: EndedBody(body, chunks, last, junk) && out == DataOf(chunks)
  }

  /** A size line the decoder has read, taken apart. */
  lemma SizeLineRead(body: bytes) returns (line: bytes, rest: bytes, n: nat)
    requires body != []
    requires Step(Ready(body)).Progress? || (Step(Ready(body)).Stop? && Step(Ready(body)).state.finished)
    ensures body == line + [LF] + rest && SizeLine(line, n)
    ensures n == 0 ==> Step(Ready(body)) == Stop(DecoderState([], 0, false, true))
    ensures n > 0 ==> Step(Ready(body)) == Progress([], DecoderState(rest, n, false, false))
  {
    hide SizeOfLine, Find, Says;
    var i := Find(body, LF);
    line, rest := body[..i], body[i + 1..];
    n := SizeOfLine(line).value;
    SizeIff(line, n);
  }

  /** The data and line end behind it, in a run that ends well. */
  lemma ChunkRead(rest: bytes, n: nat) returns (data: bytes, crlf: bool, later: bytes)
    requires n > 0 && Run(DecoderState(rest, n, false, false)).Decoded?
    requires Run(DecoderState(rest, n, false, false)).state.finished
    ensures |data| == n && rest == data + LineEnd(crlf) + later
    ensures Run(DecoderState(rest, n, false, false)) == Prepend(data, Run(Ready(later)))
  {
    hide Step;
    DataEndsBefore(rest, n);
    data := rest[..n];
    var b := rest[n..];
    assert rest == data + b;
    DataStep(data, b);
    LineEndRead(b);
    crlf := [CR, LF] <= b;
    later := b[|LineEnd(crlf)|..];
    assert b == LineEnd(crlf) + later;
    LineEndStep(crlf, later);
    PrependNothing(Run(Ready(later)));
  }

  lemma DataEndsBefore(rest: bytes, n: nat)
    requires n > 0 && Run(DecoderState(rest, n, false, false)).Decoded?
    requires Run(DecoderState(rest, n, false, false)).state.finished
    ensures n < |rest|
  {
  }

  lemma LineEndRead(b: bytes)
    requires b != [] && Run(DecoderState(b, 0, true, false)).Decoded?
    requires Run(DecoderState(b, 0, true, false)).state.finished
    ensures [CR, LF] <= b || [LF] <= b
  {
  }

  lemma {:induction false} FinishedIsBody(body: bytes) returns (chunks: seq<Chunk>, last: bytes, junk: bytes)
    requires Run(Ready(body)).Decoded? && Run(Ready(body)).state.finished
    ensures EndedBody(body, chunks, last, junk)
    ensures Run(Ready(body)).out == DataOf(chunks)
    decreases |body|
  {
    hide Step, SizeLine, LineEnd;
    assert body != [];
    var line, rest, n := SizeLineRead(body);
    if n == 0 {
      chunks, last, junk := [], line, rest;
      assert body == WriteAll(chunks) + (last + [LF] + junk);
    } else {
      PrependNothing(Run(DecoderState(rest, n, false, false)));
      var data, crlf, later := ChunkRead(rest, n);
      var c := Chunk(line, data, crlf);
      var others;
      others, last, junk := FinishedIsBody(later);
      chunks := [c] + others;
      BodyGrows(c, others, last, junk, later);
      assert body == Write(c) + later;
    }
  }

  lemma BodyGrows(c: Chunk, others: seq<Chunk>, last: bytes, junk: bytes, later: bytes)
    requires ValidChunk(c) && EndedBody(later, others, last, junk)
    ensures EndedBody(Write(c) + later, [c] + others, last, junk)
    ensures DataOf([c] + others) == c.data + DataOf(others)
  {
    hide ValidChunk, Write, SizeLine;
    assert ([c] + others)[1..] == others;
    assert Write(c) + (WriteAll(others) + (last + [LF] + junk)) == (Write(c) + WriteAll(others)) + (last + [LF] + junk);
  }

  /** The decoder reports the end of a body exactly for bodies of the format, and then has
      handed out exactly the data of their chunks. */
  lemma FinishesIff(body: bytes, out: bytes)
    ensures BodyOf(body, out) <==>
      Feed(FRESH, body) == Decoded(out, DecoderState([], 0, false, true))
  {
    hide Run, WriteAll, DataOf, ValidChunks, SizeLine;
    assert With(FRESH, body) == Ready(body) by { assert [] + body == body; }
    if BodyOf(body, out) {
      var chunks, last, junk :| EndedBody(body, chunks, last, junk) && out == DataOf(chunks);
      ReadChunks(chunks, last + [LF] + junk);
      ReadLastLine(last, junk);
      assert out + [] == out;
    }
    if Feed(FRESH, body) == Decoded(out, DecoderState([], 0, false, true)) {
      var chunks, last, junk := FinishedIsBody(body);
      assert EndedBody(body, chunks, last, junk) && out == DataOf(chunks);
    }
  }

  /** What breaks the format behind some chunks: a line that says no size, more than 256 bytes without a
      line break, or data with no line end behind it. */
  ghost predicate BreaksFormat(bad: bytes) {
    || (0x0A !in bad && |bad| > 256)
    || (exists line, rest :: NoSizeLine(bad, line, rest))
    || (exists line, n, data, rest :: NoLineEnd(bad, line, n, data, rest))
  }

  ghost predicate NoSizeLine(bad: bytes, line: bytes, rest: bytes) {
    bad == line + [0x0A] + rest && 0x0A !in line && forall n: nat :: !Says(line, n)
  }

  ghost predicate NoLineEnd(bad: bytes, line: bytes, n: nat, data: bytes, rest: bytes) {
    && bad == line + [0x0A] + data + rest
    && SizeLine(line, n) && |data| == n > 0
    && |rest| >= 2 && rest[0] != 0x0A && !(rest[0] == 0x0D && rest[1] == 0x0A)
  }

  ghost predicate BrokenBody(body: bytes, chunks: seq<Chunk>, bad: bytes) {
    ValidChunks(chunks) && BreaksFormat(bad) && body == WriteAll(chunks) + bad
  }

  lemma BadSizeLine(bad: bytes, line: bytes, rest: bytes)
    requires NoSizeLine(bad, line, rest)
    ensures bad != [] && Step(Ready(bad)) == Fail && Leaves(Ready(bad)) == Ready(rest)
  {
    hide SizeOfLine, Says;
    FindIs(bad, LF, |line|);
    assert bad[..|line|] == line && bad[|line| + 1..] == rest;
    var size := SizeOfLine(line);
    if size.Some? && size.value >= 0 { SizeIff(line, size.value); }
  }

  lemma BadLineEnd(bad: bytes, line: bytes, n: nat, data: bytes, rest: bytes)
    requires NoLineEnd(bad, line, n, data, rest)
    ensures Run(Ready(bad)) == Raised
  {
    hide Step, SizeLine;
    assert bad == line + [LF] + (data + rest);
    SizeLineStep(line, data + rest, n);
    DataStep(data, rest);
    LineEndMissing(rest);
    var s1, s2 := DecoderState(data + rest, n, false, false), DecoderState(rest, 0, true, false);
    assert Run(s2) == Raised;
    assert Run(s1) == Raised;
  }

  lemma LineEndMissing(rest: bytes)
    requires |rest| >= 2 && rest[0] != LF && !(rest[0] == CR && rest[1] == LF)
    ensures Step(DecoderState(rest, 0, true, false)) == Fail
  {
  }

  lemma TooLong(bad: bytes)
    requires LF !in bad && |bad| > 256
    ensures Step(Ready(bad)) == Fail
  {
    FindIs(bad, LF, |bad|);
  }

  lemma BrokenRaises(body: bytes, chunks: seq<Chunk>, bad: bytes)
    requires BrokenBody(body, chunks, bad)
    ensures Run(Ready(body)) == Raised
  {
    hide Step, ValidChunks, WriteAll, DataOf, NoSizeLine, NoLineEnd;
    ReadChunks(chunks, bad);
    if 0x0A !in bad && |bad| > 256 {
      TooLong(bad);
    } else if exists line, rest :: NoSizeLine(bad, line, rest) {
      var line, rest :| NoSizeLine(bad, line, rest);
      BadSizeLine(bad, line, rest);
    } else {
      var line, n, data, rest :| NoLineEnd(bad, line, n, data, rest);
      BadLineEnd(bad, line, n, data, rest);
    }
  }

  /** What is in front of the decoder when it raises on a size line. */
  lemma SizeLineFails(body: bytes)
    requires body != [] && Step(Ready(body)) == Fail
    ensures BreaksFormat(body)
  {
    hide SizeOfLine, Says, Find;
    var i := Find(body, LF);
    if i < |body| {
      var line, rest := body[..i], body[i + 1..];
      forall n: nat ensures !Says(line, n) { SizeIff(line, n); }
      assert NoSizeLine(body, line, rest);
    }
  }

  /** Behind a size line: the data with a good line end, or with a missing one. */
  lemma ChunkOrBreak(rest: bytes, n: nat) returns (good: bool, data: bytes, crlf: bool, later: bytes)
    requires n > 0 && Run(DecoderState(rest, n, false, false)) == Raised
    ensures |data| == n
    ensures good ==> rest == data + LineEnd(crlf) + later && Run(Ready(later)) == Raised
    ensures !good ==> rest == data + later && |later| >= 2 && later[0] != LF && !(later[0] == CR && later[1] == LF)
  {
    hide Step;
    DataRaisesBehind(rest, n);
    data := rest[..n];
    later, crlf := rest[n..], false;
    assert rest == data + later;
    DataStep(data, later);
    assert Run(DecoderState(later, 0, true, false)) == Raised;
    EndRaises(later);
    good := [CR, LF] <= later || [LF] <= later;
    if good {
      crlf := [CR, LF] <= later;
      var b := later[|LineEnd(crlf)|..];
      assert later == LineEnd(crlf) + b;
      LineEndStep(crlf, b);
      later := b;
    }
  }

  lemma DataRaisesBehind(rest: bytes, n: nat)
    requires n > 0 && Run(DecoderState(rest, n, false, false)) == Raised
    ensures n < |rest|
  {
  }

  lemma EndRaises(b: bytes)
    requires b != [] && Run(DecoderState(b, 0, true, false)) == Raised
    ensures [CR, LF] <= b || [LF] <= b || (|b| >= 2 && b[0] != LF && !(b[0] == CR && b[1] == LF))
  {
  }

  lemma {:induction false} RaisedIsBroken(body: bytes) returns (chunks: seq<Chunk>, bad: bytes)
    requires Run(Ready(body)) == Raised
    ensures BrokenBody(body, chunks, bad)
    decreases |body|
  {
    hide Step, SizeLine, LineEnd, BreaksFormat, Write, NoLineEnd, ValidChunk;
    assert body != [];
    if Step(Ready(body)) == Fail {
      SizeLineFails(body);
      chunks, bad := [], body;
      assert WriteAll([]) + body == body;
    } else {
      var line, rest, n := SizeLineRead(body);
      var good, data, crlf, later := ChunkOrBreak(rest, n);
      if good {
        var c, others := Chunk(line, data, crlf), [];
        others, bad := RaisedIsBroken(later);
        chunks := [c] + others;
        BrokenGrows(c, others, bad, later);
        WrittenChunk(c, later);
        assert body == Write(c) + later;
      } else {
        chunks, bad := [], body;
        assert WriteAll([]) + body == body;
        MissingEnd(body, line, n, data, later);
      }
    }
  }

  lemma WrittenChunk(c: Chunk, later: bytes)
    ensures Write(c) + later == c.line + [LF] + (c.data + LineEnd(c.crlf) + later)
  {
  }

  lemma MissingEnd(body: bytes, line: bytes, n: nat, data: bytes, rest: bytes)
    requires body == line + [LF] + (data + rest) && SizeLine(line, n) && |data| == n > 0
    requires |rest| >= 2 && rest[0] != LF && !(rest[0] == CR && rest[1] == LF)
    ensures BreaksFormat(body)
  {
    hide SizeLine;
    assert body == line + [0x0A] + data + rest;
    assert NoLineEnd(body, line, n, data, rest);
  }

  lemma BrokenGrows(c: Chunk, others: seq<Chunk>, bad: bytes, later: bytes)
    requires c.data != [] && SizeLine(c.line, |c.data|) && BrokenBody(later, others, bad)
    ensures BrokenBody(Write(c) + later, [c] + others, bad)
  {
    hide SizeLine, Write, BreaksFormat;
    assert ([c] + others)[1..] == others;
    assert Write(c) + (WriteAll(others) + bad) == (Write(c) + WriteAll(others)) + bad;
  }

  /** The decoder raises exactly where the format is broken behind some chunks. */
  lemma RaisesIff(body: bytes)
    ensures Feed(FRESH, body) == Raised <==> exists chunks, bad :: BrokenBody(body, chunks, bad)
  {
    hide Run, BrokenBody;
    assert With(FRESH, body) == Ready(body) by { assert [] + body == body; }
    if Feed(FRESH, body) == Raised {
      var chunks, bad := RaisedIsBroken(body);
    }
    if exists chunks, bad :: BrokenBody(body, chunks, bad) {
      var chunks, bad :| BrokenBody(body, chunks, bad);
      BrokenRaises(body, chunks, bad);
    }
  }

  /** Data is handed out as it comes: of a chunk that is not all there, what there is. */
  lemma PartOfChunk(line: bytes, n: nat, part: bytes)
    requires SizeLine(line, n) && |part| < n
    ensures Run(Ready(line + [LF] + part)) == Decoded(part, DecoderState([], n - |part|, false, false))
  {
    hide Step, SizeLine;
    SizeLineStep(line, part, n);
    if part != [] {
      PartStep(part, n);
      assert Run(DecoderState(part, n, false, false)) == Decoded(part + [], DecoderState([], n - |part|, false, false));
      assert part + [] == part;
    }
  }

  lemma PartStep(part: bytes, n: nat)
    requires part != [] && |part| < n
    ensures Step(DecoderState(part, n, false, false)) == Progress(part, DecoderState([], n - |part|, false, false))
  {
  }

  // ------------------------------------------------------------------
  // The encoder
  // ------------------------------------------------------------------

  predicate IsDigit(b: byte) {
    0x30 <= b <= 0x39 || 0x61 <= b <= 0x66
  }

  lemma DigitValue(d: nat)
    requires d < 16
    ensures IsDigit(LOWER[d]) && HexDigit(LOWER[d]) == Some(d)
  {
  }

  /** A length in lower-case hexadecimal. */
  function Hex(n: nat): (h: bytes)
    ensures h != []
  {
    if n < 16 then [LOWER[n]] else Hex(n / 16) + [LOWER[n % 16]]
  }

  predicate AllDigits(s: bytes) {
    forall k :: 0 <= k < |s| ==> IsDigit(s[k])
  }

  lemma DigitsAreDigits(b: byte)
    requires IsDigit(b)
    ensures b != UNDERSCORE && b != 0x2B && b != 0x2D && b != 0x78 && b != 0x58
    ensures b != SEMICOLON && b != LF && !IsSpace(b)
  {
  }

  lemma OneMoreDigit(h: bytes, v: nat, b: byte, d: nat)
    requires h != [] && h[|h| - 1] != UNDERSCORE && HexValue(h) == Some(v) && HexDigit(b) == Some(d)
    ensures HexValue(h + [b]) == Some(16 * v + d)
  {
    hide HexDigit;
    var s := h + [b];
    assert s[|h|] == b && s[|h| - 1] == h[|h| - 1] && s[..|h|] == h;
    assert HexValue(s) == Some(16 * HexValue(s[..|h|]).value + d);
  }

  lemma LastDigit(n: nat)
    ensures n == 16 * (n / 16) + n % 16
    ensures n >= 16 ==> Hex(n) == Hex(n / 16) + [LOWER[n % 16]]
    ensures n < 16 ==> Hex(n) == [LOWER[n]]
  {
  }

  lemma DigitAppended(h: bytes, v: nat, d: nat)
    requires h != [] && AllDigits(h) && HexValue(h) == Some(v) && d < 16
    ensures AllDigits(h + [LOWER[d]]) && HexValue(h + [LOWER[d]]) == Some(16 * v + d)
  {
    hide HexDigit, IsDigit, HexValue;
    DigitValue(d);
    DigitsAreDigits(h[|h| - 1]);
    OneMoreDigit(h, v, LOWER[d], d);
  }

  lemma SingleDigit(n: nat)
    requires n < 16
    ensures AllDigits([LOWER[n]]) && HexValue([LOWER[n]]) == Some(n)
  {
  }

  /** Every length is read back from its hexadecimal form. */
  lemma {:induction false} HexRoundTrip(n: nat)
    ensures AllDigits(Hex(n)) && HexValue(Hex(n)) == Some(n)
  {
    hide AllDigits, HexValue, Hex;
    LastDigit(n);
    if n < 16 {
      SingleDigit(n);
    } else {
      HexRoundTrip(n / 16);
      DigitAppended(Hex(n / 16), n / 16, n % 16);
    }
  }

  lemma SizeLineOfHex(n: nat)
    ensures SizeLine(Hex(n) + [CR], n)
  {
    hide Hex, HexDigit, HexValue, IsSpace, IsDigit, Says;
    HexRoundTrip(n);
    SizeIff(Hex(n) + [CR], n);
    var h := Hex(n);
    var line := h + [CR];
    forall k | 0 <= k < |h| ensures h[k] != SEMICOLON && h[k] != LF { DigitsAreDigits(h[k]); }
    FindIs(line, SEMICOLON, |line|);
    assert line[..|line|] == line;
    DigitsAreDigits(h[0]);
    DigitsAreDigits(h[|h| - 1]);
    if |h| >= 2 { DigitsAreDigits(h[1]); }
    CrIsSpace();
    assert line[..|line| - 1] == h;
    assert Strip(line) == h;
  }

  lemma CrIsSpace()
    ensures IsSpace(CR)
  {
  }

  /** What the relay puts on the wire for one message. */
  function Encode(data: bytes): bytes {
    Hex(|data|) + [CR, LF] + data + [CR, LF]
  }

  function EncodeAll(messages: seq<bytes>): bytes {
    if messages == [] then [] else Encode(messages[0]) + EncodeAll(messages[1..])
  }

  predicate NonEmpty(messages: seq<bytes>) {
    forall k :: 0 <= k < |messages| ==> messages[k] != []
  }

  function ChunksOf(messages: seq<bytes>): seq<Chunk> {
    if messages == [] then []
    else [Chunk(Hex(|messages[0]|) + [CR], messages[0], true)] + ChunksOf(messages[1..])
  }

  /** The encoder writes chunks of the format. */
  lemma {:induction false} EncodedIsWritten(messages: seq<bytes>)
    requires NonEmpty(messages)
    ensures ValidChunks(ChunksOf(messages))
    ensures EncodeAll(messages) == WriteAll(ChunksOf(messages))
    ensures Concat(messages) == DataOf(ChunksOf(messages))
  {
    hide Hex, SizeLine;
    if messages != [] {
      var m := messages[0];
      SizeLineOfHex(|m|);
      EncodedIsWritten(messages[1..]);
      var c := Chunk(Hex(|m|) + [CR], m, true);
      assert Write(c) == Encode(m);
      assert ChunksOf(messages)[1..] == ChunksOf(messages[1..]);
    }
  }

  /** Any list of non-empty messages comes back whole; the decoder is then ready for another
      size line and has not ended. */
  lemma EncodeRoundTrip(messages: seq<bytes>)
    requires NonEmpty(messages)
    ensures Feed(FRESH, EncodeAll(messages)) == Decoded(Concat(messages), FRESH)
  {
    hide WriteAll, DataOf, ValidChunks, ChunksOf;
    EncodedIsWritten(messages);
    var wire := EncodeAll(messages);
    ReadChunks(ChunksOf(messages), []);
    assert wire + [] == wire && [] + wire == wire && Concat(messages) + [] == Concat(messages);
  }

  /** An empty message is written as the last chunk: everything behind it is lost to the reader. */
  lemma EmptyMessageEnds(before: seq<bytes>, rest: bytes)
    requires NonEmpty(before)
    ensures Feed(FRESH, EncodeAll(before) + (Encode([]) + rest))
         == Decoded(Concat(before), DecoderState([], 0, false, true))
  {
    hide WriteAll, DataOf, ValidChunks, ChunksOf, SizeLine, Hex;
    hide Run;
    EncodedIsWritten(before);
    ReadChunks(ChunksOf(before), Encode([]) + rest);
    SizeLineOfHex(0);
    ReadLastLine(Hex(0) + [CR], [CR, LF] + rest);
    assert Encode([]) + rest == Hex(0) + [CR] + [LF] + ([CR, LF] + rest);
    var wire := EncodeAll(before) + (Encode([]) + rest);
    assert [] + wire == wire && Concat(before) + [] == Concat(before);
  }

  /** The number is in lower case, with no zero in front. */
  predicate Plain(h: bytes, n: nat) {
    && Spells(h, n) && (n > 0 ==> h[0] != 0x30) && (n == 0 ==> h == [0x30])
    && (forall k :: 0 <= k < |h| ==> !(0x41 <= h[k] <= 0x5A))
  }

  lemma {:induction false} HexIsPlain(n: nat)
    ensures Plain(Hex(n), n)
  {
    LastDigit(n);
    if n < 16 {
      PlainDigit(n);
    } else {
      hide Hex;
      HexIsPlain(n / 16);
      PlainDigit(n % 16);
      SpellsOneMore(Hex(n / 16), LOWER[n % 16], n);
    }
  }

  lemma PlainDigit(d: nat)
    requires d < 16
    ensures DigitFor(LOWER[d], d) && !(0x41 <= LOWER[d] <= 0x5A) && (d > 0 ==> LOWER[d] != 0x30) && Plain([LOWER[d]], d)
  {
  }

  /** On the wire a message is its length in lower-case hexadecimal, CR LF, itself, and CR LF. */
  lemma EncodedForm(data: bytes)
    ensures exists h :: Plain(h, |data|) && Encode(data) == h + [0x0D, 0x0A] + data + [0x0D, 0x0A]
  {
    hide Plain, Hex;
    HexIsPlain(|data|);
  }

  // ------------------------------------------------------------------
  // Size lines of encoded messages
  // ------------------------------------------------------------------

  function SixteenTo(k: nat): nat {
    if k == 0 then 1 else 16 * SixteenTo(k - 1)
  }

  lemma {:induction false} HexIsShort(n: nat, k: nat)
    requires 0 < k && n < SixteenTo(k)
    ensures |Hex(n)| <= k
  {
    if n >= 16 {
      assert n / 16 < SixteenTo(k - 1);
      HexIsShort(n / 16, k - 1);
    }
  }

  /** Messages shorter than 16^255 bytes: their size line fits. */
  predicate Printable(messages: seq<bytes>) {
    forall k :: 0 <= k < |messages| ==> |messages[k]| < SixteenTo(255)
  }

  lemma FitChunk(c: Chunk, rest: bytes)
    requires ValidChunk(c) && |c.line| <= MAX_SIZE_LINE
    ensures LinesFit(Ready(rest)) ==> LinesFit(Ready(Write(c) + rest))
  {
    hide Step, SizeLine, Find;
    var tail := LineEnd(c.crlf) + rest;
    assert Write(c) + rest == c.line + [LF] + (c.data + tail);
    SizeLineStep(c.line, c.data + tail, |c.data|);
    DataStep(c.data, tail);
    LineEndStep(c.crlf, rest);
    var s1, s2 := DecoderState(c.data + tail, |c.data|, false, false), DecoderState(tail, 0, true, false);
    assert LinesFit(s2) == LinesFit(Ready(rest));
    assert LinesFit(s1) == LinesFit(s2);
  }

  lemma {:induction false} EncodedFits(messages: seq<bytes>)
    requires NonEmpty(messages) && Printable(messages)
    ensures BodyFits(EncodeAll(messages))
  {
    hide LinesFit, Hex, SizeLine, SixteenTo;
    var wire := EncodeAll(messages);
    assert With(FRESH, wire) == Ready(wire) by { assert [] + wire == wire; }
    if messages == [] {
      NothingFits();
    } else {
      EncodedFits(messages[1..]);
      var m, later := messages[0], EncodeAll(messages[1..]);
      assert [] + later == later;
      SizeLineOfHex(|m|);
      HexIsShort(|m|, 255);
      var c := Chunk(Hex(|m|) + [CR], m, true);
      FitChunk(c, later);
      assert Write(c) == Encode(m);
    }
  }

  lemma NothingFits()
    ensures LinesFit(Ready([]))
  {
  }

  /** However the encoded messages are cut into reads, decoding them gives the messages' bytes. */
  lemma EncodedReads(messages: seq<bytes>, received: seq<bytes>)
    requires NonEmpty(messages) && Printable(messages)
    requires Concat(received) == EncodeAll(messages)
    ensures FeedAll(FRESH, received) == Decoded(Concat(messages), FRESH)
  {
    hide LinesFit, Hex;
    EncodedFits(messages);
    EncodeRoundTrip(messages);
    CutsIrrelevantIff(EncodeAll(messages));
  }
}
