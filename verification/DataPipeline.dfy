/** The older single-destination pipeline: its own extractor, and the decode it runs per frame. */
module DataPipeline {
  import opened Bytes
  import opened RtcmDecoder
  import opened FrameExtraction
  import Crc24qDivision

  // ------------------------------------------------------------------
  // Message numbers of a whole buffer
  // ------------------------------------------------------------------

  /** Message numbers of the frames in a buffer, skipping a whole declared frame at a time. */
  function AllMessageIds(data: bytes): seq<nat> {
    if data == [] then []
    else if data[0] != PREAMBLE then AllMessageIds(data[1..])
    else if |data| < 8 then []
    else
      var n := 3 + PayloadLength(data[1], data[2]) + 3;
      if |data| < n then []
      else
        var id := ExtractMessageId(data[..n]);
        (if id.Some? then [id.value] else []) + AllMessageIds(data[n..])
  }

  /** One string at a time. */
  lemma IdsUnfold(data: bytes)
    ensures data == [] ==> AllMessageIds(data) == []
    ensures data != [] && data[0] != PREAMBLE ==> AllMessageIds(data) == AllMessageIds(data[1..])
    ensures data != [] && data[0] == PREAMBLE && |data| < 8 ==> AllMessageIds(data) == []
    ensures |data| >= 8 && data[0] == PREAMBLE ==>
      var n := 3 + PayloadLength(data[1], data[2]) + 3;
      AllMessageIds(data) ==
        if |data| < n then []
        else (if ExtractMessageId(data[..n]).Some? then [ExtractMessageId(data[..n]).value] else [])
             + AllMessageIds(data[n..])
  {
    hide ExtractMessageId, PayloadLength;
  }

  lemma IdTaken(ids: seq<nat>, id: Option<nat>, later: seq<nat>)
    ensures ids + ((if id.Some? then [id.value] else []) + later)
         == (if id.Some? then ids + [id.value] else ids) + later
  {
  }

  method ExtractAllMessageIds(data: bytes) returns (ids: seq<nat>)
    ensures ids == AllMessageIds(data)
  {
    hide ExtractMessageId, PayloadLength, AllMessageIds;
    ids := [];
    var offset := 0;
    assert data[0..] == data;
    IdsUnfold([]);
    while offset < |data|
      invariant offset <= |data|
      invariant ids + AllMessageIds(data[offset..]) == AllMessageIds(data)
    {
      var tail := data[offset..];
      IdsUnfold(tail);
      if data[offset] != PREAMBLE {
        assert tail[1..] == data[offset + 1..];
        offset := offset + 1;
        continue;
      }
      var remaining := |data| - offset;
      if remaining < 8 {
        assert ids + [] == ids;
        return;
      }
      var n := 3 + PayloadLength(data[offset + 1], data[offset + 2]) + 3;
      if remaining < n {
        assert ids + [] == ids;
        return;
      }
      var frame := data[offset..offset + n];
      assert tail[..n] == frame && tail[n..] == data[offset + n..];
      var id := ExtractMessageId(frame);
      IdTaken(ids, id, AllMessageIds(data[offset + n..]));
      if id.Some? {
        ids := ids + [id.value];
      }
      offset := offset + n;
    }
    assert data[offset..] == [] && ids + [] == ids;
  }

  function Ids(frames: seq<ParsedFrame>): seq<nat> {
    if frames == [] then [] else [frames[0].id] + Ids(frames[1..])
  }

  lemma IdComesFirst(f: bytes, later: bytes)
    requires IsFrame(f)
    ensures AllMessageIds(f + later) == [IdOf(f)] + AllMessageIds(later)
  {
    hide IsValidRtcmFrame, ExtractMessageId, PayloadLength, MessageNumber;
    FrameAccepted(f);
    assert (f + later)[..|f|] == f && (f + later)[|f|..] == later;
  }

  /** On frames laid end to end the numbers come back in order: those the extractor reports. */
  lemma {:induction false} IdsComeBack(frames: seq<bytes>)
    requires AllFrameBytes(frames)
    ensures AllMessageIds(Concat(frames)) == Ids(AllParsed(frames))
  {
    hide IsFrame, AllMessageIds, IdOf;
    if frames == [] {
      assert AllMessageIds([]) == [] by { NoIds(); }
    } else {
      IdsComeBack(frames[1..]);
      IdComesFirst(frames[0], Concat(frames[1..]));
      assert AllParsed(frames)[1..] == AllParsed(frames[1..]);
    }
  }

  lemma NoIds()
    ensures AllMessageIds([]) == []
  {
  }

  /** A genuine frame decodes to exactly its own number. */
  lemma FrameHasOneId(p: ParsedFrame)
    requires Genuine(p)
    ensures AllMessageIds(p.data) == [p.id]
  {
    hide IsValidRtcmFrame, PayloadLength, MessageNumber;
    FrameAccepted(p.data);
    IdComesFirst(p.data, []);
    assert p.data + [] == p.data;
    NoIds();
  }

  /** A byte that starts no frame, or a string of the size it declares, valid or not. */
  predicate Segment(s: bytes) {
    || (|s| == 1 && s[0] != 0xD3)
    || (|s| >= 8 && s[0] == 0xD3 && |s| == 6 + PayloadLength(s[1], s[2]))
  }

  predicate Segments(segments: seq<bytes>) {
    forall k :: 0 <= k < |segments| ==> Segment(segments[k])
  }

  /** The numbers of the valid ones. */
  function NumbersIn(segments: seq<bytes>): seq<nat> {
    if segments == [] then []
    else (if IsFrame(segments[0]) then [IdOf(segments[0])] else []) + NumbersIn(segments[1..])
  }

  lemma SegmentFirst(s: bytes, rest: bytes)
    requires Segment(s)
    ensures AllMessageIds(s + rest) == (if IsFrame(s) then [IdOf(s)] else []) + AllMessageIds(rest)
  {
    hide IsValidRtcmFrame, PayloadLength, MessageNumber, Crc24qDivision.Remainder, ValidateCrc24q;
    var data := s + rest;
    assert data[|s|..] == rest && data[..|s|] == s;
    if |s| >= 8 {
      FrameAccepted(s);
      OnlyFramesHaveIds(s);
    } else {
      assert data[1..] == rest;
      assert [] + AllMessageIds(rest) == AllMessageIds(rest);
    }
  }

  lemma OnlyFramesHaveIds(s: bytes)
    requires |s| >= 8 && s[0] == PREAMBLE && |s| == 6 + PayloadLength(s[1], s[2])
    ensures ExtractMessageId(s) == if IsFrame(s) then Some(IdOf(s)) else None
  {
    hide PayloadLength, MessageNumber, Crc24qDivision.Remainder;
    assert s[..|s|] == s;
    FrameAccepted(s);
  }

  /** Whatever a buffer is made of, the loop finds exactly the numbers of the valid ones among its
      declared strings: damaged ones and bytes in between are passed over. */
  lemma {:induction false} IdsOfSegments(segments: seq<bytes>, rest: bytes)
    requires Segments(segments)
    ensures AllMessageIds(Concat(segments) + rest) == NumbersIn(segments) + AllMessageIds(rest)
    decreases |segments|
  {
    hide Segment, IsFrame, IdOf, AllMessageIds;
    if segments == [] {
      assert [] + rest == rest;
    } else {
      var later := Concat(segments[1..]) + rest;
      assert Concat(segments) + rest == segments[0] + later;
      SegmentFirst(segments[0], later);
      IdsOfSegments(segments[1..], rest);
    }
  }

  function FrameBytesOf(frames: seq<ParsedFrame>): seq<bytes> {
    if frames == [] then [] else [frames[0].data] + FrameBytesOf(frames[1..])
  }

  lemma {:induction false} FrameBytesOfAppend(a: seq<ParsedFrame>, b: seq<ParsedFrame>)
    ensures FrameBytesOf(a + b) == FrameBytesOf(a) + FrameBytesOf(b)
  {
    if a == [] {
      assert a + b == b;
    } else {
      assert (a + b)[1..] == a[1..] + b;
      FrameBytesOfAppend(a[1..], b);
    }
  }

  lemma FrameBytesOfAll(frames: seq<ParsedFrame>)
    ensures |FrameBytesOf(frames)| == |frames|
    ensures forall k :: 0 <= k < |frames| ==> FrameBytesOf(frames)[k] == frames[k].data
  {
  }

  class Pipeline {
    var frameBuffer: bytes
    var decodedIds: seq<nat>      // one entry for each increment of a message-number counter
    var decodeFailures: nat

    constructor ()
      ensures frameBuffer == [] && decodedIds == [] && decodeFailures == 0
    {
      frameBuffer, decodedIds, decodeFailures := [], [], 0;
    }

    /** The second extractor returns the frames of the first, and keeps the same tail. */
    method ExtractCompleteRtcmFrames() returns (frames: seq<bytes>)
      modifies this`frameBuffer
      ensures frames == FrameBytesOf(ParseBuffer(old(frameBuffer)).frames)
      ensures frameBuffer == ParseBuffer(old(frameBuffer)).rest
    {
      hide ParseBuffer, IsValidRtcmFrame, PayloadLength, ParsedOf, Before;
      frames := [];
      ghost var buf := frameBuffer;
      ghost var taken: seq<ParsedFrame> := [];
      var offset := 0;
      var bufferLen := |frameBuffer|;
      StartOfBuffer(buf);
      while offset < bufferLen
        invariant offset <= bufferLen == |buf| && frameBuffer == buf
        invariant frames == FrameBytesOf(taken)
        invariant Before(taken, ParseBuffer(buf[offset..])) == ParseBuffer(buf)
      {
        StepAtOffset(buf, offset);
        if frameBuffer[offset] != PREAMBLE {
          offset := offset + 1;
          continue;
        }
        if offset + 3 > bufferLen {
          break;
        }
        var length := PayloadLength(frameBuffer[offset + 1], frameBuffer[offset + 2]);
        var n := 3 + length + 3;
        if length > MAX_PAYLOAD {
          offset := offset + 1;
          continue;
        }
        if offset + n > bufferLen {
          break;
        }
        var frame := frameBuffer[offset..offset + n];
        assert buf[offset..][..n] == frame;
        if IsValidRtcmFrame(frame) {
          BeforeAgain(taken, [ParsedOf(frame)], ParseBuffer(buf[offset + n..]));
          FrameBytesOfAppend(taken, [ParsedOf(frame)]);
          taken := taken + [ParsedOf(frame)];
          frames := frames + [frame];
          offset := offset + n;
        } else {
          offset := offset + 1;
        }
      }
      EndOfScan(buf, offset, taken);
      frameBuffer := frameBuffer[offset..];
    }

    /** What the coordinator does with a chunk after sending it: no frame ever fails to decode. */
    method CountMessages(data: bytes)
      modifies this
      ensures decodeFailures == old(decodeFailures)
      ensures decodedIds == old(decodedIds) + Ids(ParseBuffer(old(frameBuffer) + data).frames)
      ensures frameBuffer == ParseBuffer(old(frameBuffer) + data).rest
    {
      hide ParseBuffer, Genuine, AllMessageIds;
      frameBuffer := frameBuffer + data;
      ghost var parsed := ParseBuffer(frameBuffer).frames;
      EmittedAreGenuine(frameBuffer);
      var frames := ExtractCompleteRtcmFrames();
      FrameBytesOfAll(parsed);
      for i := 0 to |frames|
        invariant decodeFailures == old(decodeFailures)
        invariant decodedIds == old(decodedIds) + Ids(parsed[..i])
        invariant frameBuffer == ParseBuffer(old(frameBuffer) + data).rest
      {
        var ids := ExtractAllMessageIds(frames[i]);
        if |ids| > 0 {
          decodedIds := decodedIds + ids;
        } else {
          decodeFailures := decodeFailures + 1;
        }
        FrameHasOneId(parsed[i]);
        IdsAppend(parsed[..i], parsed[i]);
        assert parsed[..i + 1] == parsed[..i] + [parsed[i]];
      }
      assert parsed[..|frames|] == parsed;
    }
  }

  lemma {:induction false} IdsAppend(frames: seq<ParsedFrame>, p: ParsedFrame)
    ensures Ids(frames + [p]) == Ids(frames) + [p.id]
  {
    if frames != [] {
      assert (frames + [p])[1..] == frames[1..] + [p];
      IdsAppend(frames[1..], p);
    }
  }
}
