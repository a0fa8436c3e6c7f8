/** Cutting a byte stream into RTCM frames: what the relay's extractors compute,
    stated on whole buffers. */
module FrameExtraction {
  import opened Bytes
  import opened RtcmDecoder
  import Crc24qDivision

  datatype ParsedFrame = ParsedFrame(id: nat, data: bytes)

  /** The frames found in a buffer, and the tail kept for the next call. */
  datatype Parse = Parse(frames: seq<ParsedFrame>, rest: bytes)

  /** What an extractor does with the byte in front of it. */
  datatype Slot = Skip | Wait | Emit(size: nat)

  function SlotOf(buf: bytes): (s: Slot)
    requires buf != []
    ensures s.Emit? ==> 8 <= s.size <= |buf|
  {
    if buf[0] != PREAMBLE then Skip
    else if 3 > |buf| then Wait
    else
      var length := PayloadLength(buf[1], buf[2]);
      if length > MAX_PAYLOAD then Skip
      else if 3 + length + 3 > |buf| then Wait
      else if IsValidRtcmFrame(buf[..3 + length + 3]) then Emit(3 + length + 3)
      else Skip
  }

  function IdOf(frame: bytes): nat
    requires |frame| >= 8
  {
    MessageNumber(frame[3], frame[4])
  }

  function ParsedOf(frame: bytes): (p: ParsedFrame)
    requires |frame| >= 8
    ensures p.data == frame
  {
    ParsedFrame(IdOf(frame), frame)
  }

  function ParseBuffer(buf: bytes): Parse {
    if buf == [] then Parse([], [])
    else
      match SlotOf(buf)
      case Skip => ParseBuffer(buf[1..])
      case Wait => Parse([], buf)
      case Emit(n) => Before([ParsedOf(buf[..n])], ParseBuffer(buf[n..]))
  }

  function Before(frames: seq<ParsedFrame>, p: Parse): Parse {
    Parse(frames + p.frames, p.rest)
  }

  /** One step of an extractor that has come to offset p. */
  lemma StepAtOffset(buf: bytes, p: nat)
    requires p < |buf|
    ensures SlotOf(buf[p..]) == Skip ==> ParseBuffer(buf[p..]) == ParseBuffer(buf[p + 1..])
    ensures SlotOf(buf[p..]) == Wait ==> ParseBuffer(buf[p..]) == Parse([], buf[p..])
    ensures SlotOf(buf[p..]).Emit? ==>
      var n := SlotOf(buf[p..]).size;
      ParseBuffer(buf[p..]) == Before([ParsedOf(buf[p..p + n])], ParseBuffer(buf[p + n..]))
  {
    hide SlotOf, ParsedOf;
    assert buf[p..][1..] == buf[p + 1..];
    if SlotOf(buf[p..]).Emit? {
      var n := SlotOf(buf[p..]).size;
      assert buf[p..][n..] == buf[p + n..] && buf[p..][..n] == buf[p..p + n];
    }
  }

  lemma StartOfBuffer(buf: bytes)
    ensures Before([], ParseBuffer(buf[0..])) == ParseBuffer(buf)
  {
  }

  /** Where the extractor stops, what it has taken is the result and the rest is kept. */
  lemma EndOfScan(buf: bytes, p: nat, taken: seq<ParsedFrame>)
    requires p <= |buf| && (p < |buf| ==> SlotOf(buf[p..]) == Wait)
    requires Before(taken, ParseBuffer(buf[p..])) == ParseBuffer(buf)
    ensures ParseBuffer(buf) == Parse(taken, buf[p..])
  {
  }

  lemma BeforeAgain(a: seq<ParsedFrame>, b: seq<ParsedFrame>, p: Parse)
    ensures Before(a, Before(b, p)) == Before(a + b, p)
  {
  }

  /** A tail that waits for more bytes (or nothing at all): what is kept between calls. */
  predicate Settled(buf: bytes) {
    buf == [] || SlotOf(buf) == Wait
  }

  /** A kept tail is empty or starts like a frame, and is one byte short of the longest frame at most. */
  lemma SettledTail(buf: bytes)
    requires Settled(buf)
    ensures buf == [] || (buf[0] == PREAMBLE && |buf| < MAX_FRAME)
    ensures ParseBuffer(buf) == Parse([], buf)
  {
  }

  lemma {:induction false} RestIsSettled(buf: bytes)
    ensures Settled(ParseBuffer(buf).rest)
  {
    if buf != [] {
      match SlotOf(buf)
      case Skip => RestIsSettled(buf[1..]);
      case Wait =>
      case Emit(n) => RestIsSettled(buf[n..]);
    }
  }

  // ------------------------------------------------------------------
  // Cutting the stream
  // ------------------------------------------------------------------

  /** Once a byte's fate is decided, more data does not change it. */
  lemma SlotStable(a: bytes, b: bytes)
    requires a != [] && SlotOf(a) != Wait
    ensures SlotOf(a + b) == SlotOf(a)
  {
    hide IsValidRtcmFrame, PayloadLength;
    if a[0] == PREAMBLE && 3 <= |a| {
      var n := 3 + PayloadLength(a[1], a[2]) + 3;
      if n <= |a| {
        assert (a + b)[..n] == a[..n];
      }
    }
  }

  lemma {:induction false} ParseSplit(a: bytes, b: bytes)
    ensures ParseBuffer(a + b) == Before(ParseBuffer(a).frames, ParseBuffer(ParseBuffer(a).rest + b))
  {
    hide SlotOf, IdOf;
    if a == [] {
      assert a + b == b;
    } else {
      match SlotOf(a)
      case Wait =>
      case Skip =>
        SlotStable(a, b);
        assert (a + b)[1..] == a[1..] + b;
        ParseSplit(a[1..], b);
      case Emit(n) =>
        SlotStable(a, b);
        assert (a + b)[n..] == a[n..] + b && (a + b)[..n] == a[..n];
        ParseSplit(a[n..], b);
    }
  }

  /** Feeding chunks one at a time, keeping the tail in between. */
  function ParseChunks(buf: bytes, chunks: seq<bytes>): Parse
    decreases |chunks|
  {
    if chunks == [] then Parse([], buf)
    else
      var first := ParseBuffer(buf + chunks[0]);
      Before(first.frames, ParseChunks(first.rest, chunks[1..]))
  }

  /** However the stream is cut, the frames and the final tail are those of the whole stream. */
  lemma {:induction false} ChunkingIrrelevant(buf: bytes, chunks: seq<bytes>)
    requires Settled(buf)
    ensures ParseChunks(buf, chunks) == ParseBuffer(buf + Concat(chunks))
    decreases |chunks|
  {
    hide ParseBuffer, SlotOf;
    if chunks == [] {
      SettledTail(buf);
      assert Concat(chunks) == [];
      assert buf + Concat(chunks) == buf;
    } else {
      var first := ParseBuffer(buf + chunks[0]);
      RestIsSettled(buf + chunks[0]);
      ChunkingIrrelevant(first.rest, chunks[1..]);
      ParseSplit(buf + chunks[0], Concat(chunks[1..]));
      assert buf + Concat(chunks) == (buf + chunks[0]) + Concat(chunks[1..]);
    }
  }

  // ------------------------------------------------------------------
  // Greedy leftmost selection
  // ------------------------------------------------------------------

  predicate HeaderAt(s: bytes, p: nat) {
    p + 3 <= |s| && s[p] == PREAMBLE
  }

  /** The size a frame starting at p declares. */
  function SpanAt(s: bytes, p: nat): (n: nat)
    requires p + 3 <= |s|
    ensures n <= MAX_FRAME
  {
    6 + PayloadLength(s[p + 1], s[p + 2])
  }

  predicate FrameAt(s: bytes, p: nat) {
    HeaderAt(s, p) && p + SpanAt(s, p) <= |s| && IsFrame(s[p..p + SpanAt(s, p)])
  }

  /** A frame may start at p, but the bytes that would decide it have not all arrived. */
  predicate PendingAt(s: bytes, p: nat) {
    p < |s| && s[p] == PREAMBLE && (p + 3 > |s| || p + SpanAt(s, p) > |s|)
  }

  /** No frame starts in [a, b), and every byte there is decided. */
  ghost predicate Quiet(s: bytes, a: nat, b: nat) {
    forall q :: a <= q < b ==> !FrameAt(s, q) && !PendingAt(s, q)
  }

  /** `starts` are the frames taken by a reader who, from `from` on, always takes the first frame
      there is, continues behind it, and stops at the first byte not yet decided. */
  ghost predicate Greedy(s: bytes, from: nat, starts: seq<nat>, end: nat)
    decreases |starts|
  {
    if starts == [] then
      from <= end <= |s| && Quiet(s, from, end) && (end == |s| || PendingAt(s, end))
    else
      && from <= starts[0]
      && Quiet(s, from, starts[0])
      && FrameAt(s, starts[0])
      && Greedy(s, starts[0] + SpanAt(s, starts[0]), starts[1..], end)
  }

  datatype Selection = Selection(starts: seq<nat>, end: nat)

  function Select(s: bytes, p: nat): Selection
    requires p <= |s|
    decreases |s| - p
  {
    if p == |s| || PendingAt(s, p) then Selection([], p)
    else if FrameAt(s, p) then
      var later := Select(s, p + SpanAt(s, p));
      Selection([p] + later.starts, later.end)
    else Select(s, p + 1)
  }

  lemma FramesAreDecided(s: bytes, p: nat)
    requires FrameAt(s, p)
    ensures SpanAt(s, p) >= 8 && !PendingAt(s, p)
  {
  }

  lemma GreedyFromEarlier(s: bytes, p: nat, starts: seq<nat>, end: nat)
    requires Greedy(s, p + 1, starts, end) && !FrameAt(s, p) && !PendingAt(s, p)
    ensures Greedy(s, p, starts, end)
  {
  }

  /** There is a greedy selection... */
  lemma {:induction false} SelectIsGreedy(s: bytes, p: nat)
    requires p <= |s|
    ensures Greedy(s, p, Select(s, p).starts, Select(s, p).end)
    decreases |s| - p
  {
    hide FrameAt, PendingAt, PayloadLength, SpanAt;
    if p < |s| && !PendingAt(s, p) {
      if FrameAt(s, p) {
        FrameFits(s, p);
        SelectIsGreedy(s, p + SpanAt(s, p));
        assert Select(s, p).starts[1..] == Select(s, p + SpanAt(s, p)).starts;
      } else {
        SelectIsGreedy(s, p + 1);
        GreedyFromEarlier(s, p, Select(s, p + 1).starts, Select(s, p + 1).end);
      }
    }
  }

  lemma FrameFits(s: bytes, p: nat)
    requires FrameAt(s, p)
    ensures p + 8 <= p + SpanAt(s, p) <= |s|
  {
  }

  /** ...and only one. */
  lemma {:induction false} GreedyIsUnique(s: bytes, p: nat, starts: seq<nat>, end: nat)
    requires Greedy(s, p, starts, end)
    ensures p <= |s| && Selection(starts, end) == Select(s, p)
    decreases |s| - p
  {
    hide IsFrame, PayloadLength;
    if starts != [] { FramesAreDecided(s, starts[0]); }
    if p < |s| && FrameAt(s, p) {
      FramesAreDecided(s, p);
      GreedyIsUnique(s, p + SpanAt(s, p), starts[1..], end);
      assert starts == [p] + starts[1..];
    } else if p < |s| && !PendingAt(s, p) {
      GreedyIsUnique(s, p + 1, starts, end);
    }
  }

  function FrameBytes(s: bytes, p: nat): (f: bytes)
    requires FrameAt(s, p)
    ensures IsFrame(f)
  {
    s[p..p + SpanAt(s, p)]
  }

  ghost predicate AllFrames(s: bytes, starts: seq<nat>) {
    forall k :: 0 <= k < |starts| ==> FrameAt(s, starts[k])
  }

  ghost function FramesAt(s: bytes, starts: seq<nat>): seq<ParsedFrame>
    requires AllFrames(s, starts)
  {
    if starts == [] then [] else [ParsedOf(FrameBytes(s, starts[0]))] + FramesAt(s, starts[1..])
  }

  lemma SlotAtOffset(s: bytes, p: nat)
    requires p < |s|
    ensures SlotOf(s[p..]) == Wait <==> PendingAt(s, p)
    ensures SlotOf(s[p..]).Emit? <==> FrameAt(s, p)
    ensures FrameAt(s, p) ==> SlotOf(s[p..]) == Emit(SpanAt(s, p))
  {
    hide IsFrame, IsValidRtcmFrame, PayloadLength;
    if HeaderAt(s, p) {
      var n := SpanAt(s, p);
      if p + n <= |s| {
        assert s[p..][..n] == s[p..p + n];
        FrameAccepted(s[p..p + n]);
      }
    }
  }

  /** What the extractor makes of the stream from p on, said with stream positions. */
  ghost predicate ParsedAsSelected(s: bytes, p: nat)
    requires p <= |s|
  {
    var chosen := Select(s, p);
    && AllFrames(s, chosen.starts) && chosen.end <= |s|
    && ParseBuffer(s[p..]) == Parse(FramesAt(s, chosen.starts), s[chosen.end..])
  }

  lemma ParseEmits(s: bytes, p: nat)
    requires p < |s| && FrameAt(s, p) && p + SpanAt(s, p) <= |s|
    requires ParsedAsSelected(s, p + SpanAt(s, p))
    ensures ParsedAsSelected(s, p)
  {
    hide IsFrame, SlotOf, ParsedOf, PayloadLength;
    SlotAtOffset(s, p);
    var n := SpanAt(s, p);
    var later := Select(s, p + n).starts;
    assert ([p] + later)[1..] == later;
    assert s[p..][n..] == s[p + n..] && s[p..][..n] == FrameBytes(s, p);
  }

  lemma {:induction false} ParseIsSelection(s: bytes, p: nat)
    requires p <= |s|
    ensures ParsedAsSelected(s, p)
    decreases |s| - p
  {
    hide IsFrame, FrameAt, PendingAt, SlotOf, ParsedOf, FramesAt;
    if p < |s| {
      SlotAtOffset(s, p);
      if PendingAt(s, p) {
        NothingSelected(s);
      } else if FrameAt(s, p) {
        FrameFits(s, p);
        ParseIsSelection(s, p + SpanAt(s, p));
        ParseEmits(s, p);
      } else {
        ParseIsSelection(s, p + 1);
        assert s[p..][1..] == s[p + 1..];
      }
    } else {
      NothingSelected(s);
    }
  }

  lemma NothingSelected(s: bytes)
    ensures AllFrames(s, []) && FramesAt(s, []) == []
  {
  }

  /** The extractor returns exactly the greedy leftmost selection, and keeps exactly what follows it. */
  lemma ExtractionIsGreedy(s: bytes, starts: seq<nat>, end: nat)
    requires Greedy(s, 0, starts, end)
    ensures AllFrames(s, starts) && end <= |s|
    ensures ParseBuffer(s) == Parse(FramesAt(s, starts), s[end..])
  {
    hide Greedy, Select, ParseBuffer, FramesAt, AllFrames;
    GreedyIsUnique(s, 0, starts, end);
    ParseIsSelection(s, 0);
    assert s[0..] == s;
  }

  // ------------------------------------------------------------------
  // Resynchronisation
  // ------------------------------------------------------------------

  /** Frame k of a selection is the frame that starts at p, or one that starts earlier and reaches over it. */
  ghost predicate Accounts(s: bytes, starts: seq<nat>, k: nat, p: nat) {
    k < |starts| && FrameAt(s, starts[k]) && starts[k] <= p < starts[k] + SpanAt(s, starts[k])
  }

  lemma {:induction false} GreedyCovers(s: bytes, from: nat, starts: seq<nat>, end: nat, p: nat) returns (k: nat)
    requires Greedy(s, from, starts, end)
    requires FrameAt(s, p) && from <= p < end
    ensures Accounts(s, starts, k, p)
    decreases |starts|
  {
    hide IsFrame, PendingAt, PayloadLength;
    var n := SpanAt(s, starts[0]);
    if p < starts[0] + n {
      k := 0;
    } else {
      var j := GreedyCovers(s, starts[0] + n, starts[1..], end, p);
      k := j + 1;
    }
  }

  /** Whatever came before, once 1029 bytes from p on have arrived a frame starting at p has been
      emitted, or is overlapped by an emitted frame that starts earlier. */
  lemma BoundedDelay(s: bytes, p: nat) returns (k: nat)
    requires FrameAt(s, p) && p + MAX_FRAME <= |s|
    ensures AllFrames(s, Select(s, 0).starts)
    ensures ParseBuffer(s).frames == FramesAt(s, Select(s, 0).starts)
    ensures Accounts(s, Select(s, 0).starts, k, p)
  {
    SelectIsGreedy(s, 0);
    ParseIsSelection(s, 0);
    assert s[0..] == s;
    var chosen := Select(s, 0);
    GreedyEnd(s, 0, chosen.starts, chosen.end);
    k := GreedyCovers(s, 0, chosen.starts, chosen.end, p);
  }

  lemma {:induction false} GreedyEnd(s: bytes, from: nat, starts: seq<nat>, end: nat)
    requires Greedy(s, from, starts, end)
    ensures end == |s| || PendingAt(s, end)
    decreases |starts|
  {
    if starts != [] {
      GreedyEnd(s, starts[0] + SpanAt(s, starts[0]), starts[1..], end);
    }
  }

  // ------------------------------------------------------------------
  // Streams made of frames only
  // ------------------------------------------------------------------

  predicate AllFrameBytes(frames: seq<bytes>) {
    forall k :: 0 <= k < |frames| ==> IsFrame(frames[k])
  }

  function AllParsed(frames: seq<bytes>): (p: seq<ParsedFrame>)
    requires AllFrameBytes(frames)
  {
    if frames == [] then [] else [ParsedOf(frames[0])] + AllParsed(frames[1..])
  }

  lemma FrameIsEmitted(f: bytes, later: bytes)
    requires IsFrame(f)
    ensures SlotOf(f + later) == Emit(|f|)
  {
    hide IsValidRtcmFrame, Crc24qDivision.Remainder, PayloadLength;
    FrameAccepted(f);
    assert (f + later)[..|f|] == f;
  }

  /** Concatenated frames come back one by one, with nothing left over. */
  lemma {:induction false} FramesComeBack(frames: seq<bytes>)
    requires AllFrameBytes(frames)
    ensures ParseBuffer(Concat(frames)) == Parse(AllParsed(frames), [])
  {
    hide SlotOf, IsFrame, ParsedOf;
    if frames != [] {
      var f, later := frames[0], Concat(frames[1..]);
      FramesComeBack(frames[1..]);
      FrameIsEmitted(f, later);
      assert (f + later)[..|f|] == f && (f + later)[|f|..] == later;
    }
  }

  predicate Genuine(p: ParsedFrame) {
    IsFrame(p.data) && ExtractMessageId(p.data) == Some(p.id)
  }

  predicate AllGenuine(frames: seq<ParsedFrame>) {
    forall k :: 0 <= k < |frames| ==> Genuine(frames[k])
  }

  lemma EmittedIsGenuine(buf: bytes)
    requires buf != [] && SlotOf(buf).Emit?
    ensures Genuine(ParsedOf(buf[..SlotOf(buf).size]))
  {
    hide IsFrame, IsValidRtcmFrame, ExtractMessageId, MessageNumber, PayloadLength;
    var f := buf[..SlotOf(buf).size];
    assert f[1] == buf[1] && f[2] == buf[2];
    FrameAccepted(f);
  }

  /** Every frame an extractor hands out is a frame, so its message number is always found. */
  lemma {:induction false} EmittedAreGenuine(buf: bytes)
    ensures AllGenuine(ParseBuffer(buf).frames)
  {
    hide SlotOf, Genuine, ParsedOf;
    if buf != [] {
      match SlotOf(buf)
      case Wait =>
      case Skip => EmittedAreGenuine(buf[1..]);
      case Emit(n) =>
        EmittedAreGenuine(buf[n..]);
        EmittedIsGenuine(buf);
    }
  }
}
