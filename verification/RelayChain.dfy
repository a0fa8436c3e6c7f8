/** Two relays in a row: what a destination of one hub is offered, what of it gets onto the wire, and
    what the hub at the other end makes of it. */
module RelayChain {
  import opened Bytes
  import opened RtcmDecoder
  import opened FrameExtraction
  import opened MessageFilter
  import opened ChunkedBody
  import opened ChunkedFormat
  import opened StreamPath
  import D = DestinationRun
  import DestinationOrder
  import HubRun
  import opened BaseDestination

  /** The frames that pass a filter, with their numbers. */
  function Passing(c: FilterConfig, frames: seq<ParsedFrame>): seq<ParsedFrame> {
    if frames == [] then []
    else (if ShouldPass(c, frames[0].id) then [frames[0]] else []) + Passing(c, frames[1..])
  }

  lemma GenuineIsParsed(p: ParsedFrame)
    requires Genuine(p)
    ensures IsFrame(p.data) && ParsedOf(p.data) == p
  {
    hide IsValidRtcmFrame, PayloadLength, MessageNumber;
    FrameAccepted(p.data);
  }

  /** What a filter accepts of genuine frames are frames, and they parse as what passed. */
  lemma {:induction false} AcceptedAreFrames(c: FilterConfig, frames: seq<ParsedFrame>)
    requires AllGenuine(frames)
    ensures AllFrameBytes(Accepted(c, frames))
    ensures AllParsed(Accepted(c, frames)) == Passing(c, frames)
  {
    hide IsFrame, ShouldPass, Genuine, ParsedOf;
    if frames != [] {
      AcceptedAreFrames(c, frames[1..]);
      GenuineIsParsed(frames[0]);
      var later := Accepted(c, frames[1..]);
      if ShouldPass(c, frames[0].id) {
        assert Accepted(c, frames) == [frames[0].data] + later;
        assert Accepted(c, frames)[1..] == later;
      } else {
        assert Accepted(c, frames) == later;
      }
    }
  }

  /** Frames are messages that can be sent. */
  lemma FramesAreMessages(frames: seq<bytes>)
    requires AllFrameBytes(frames)
    ensures NonEmpty(frames) && Printable(frames)
  {
    hide SixteenTo;
    SixteenToGrows(3, 255);
    assert SixteenTo(3) == 4096 by { PowersOfSixteen(); }
    forall k | 0 <= k < |frames| ensures frames[k] != [] && |frames[k]| < SixteenTo(255) {
      FrameSize(frames[k]);
    }
  }

  lemma FrameSize(f: bytes)
    requires IsFrame(f)
    ensures 8 <= |f| <= 1029
  {
  }

  lemma PowersOfSixteen()
    ensures SixteenTo(3) == 4096
  {
    assert SixteenTo(1) == 16 && SixteenTo(2) == 256;
  }

  lemma {:induction false} SixteenToGrows(j: nat, k: nat)
    requires j <= k
    ensures SixteenTo(j) <= SixteenTo(k)
    decreases k - j
  {
    if j < k {
      SixteenToGrows(j + 1, k);
    }
  }

  /** Frames sent one by one arrive as exactly those frames. */
  lemma FramesArrive(frames: seq<bytes>, received: seq<bytes>)
    requires AllFrameBytes(frames) && Concat(received) == EncodeAll(frames)
    ensures Relay(FRESH, [], received) == Relayed(AllParsed(frames), FRESH, [])
  {
    hide AllFrameBytes, NonEmpty, Printable, Relay, EncodeAll;
    FramesAreMessages(frames);
    WholePath(frames, frames, received);
  }

  // ------------------------------------------------------------------
  // From a hub to the next relay
  // ------------------------------------------------------------------

  /** What a destination was offered after it had been offered `before`. */
  function Since(before: seq<bytes>, offered: seq<bytes>): seq<bytes> {
    if |before| <= |offered| then offered[|before|..] else []
  }

  /** Whatever stream a hub is fed, in whatever chunks and with whatever in its buffer, while anything
      else comes and goes: the relay that receives what a filtering destination is offered sees exactly
      the frames of the stream that its filter lets through, in order, with their numbers. */
  lemma FilteredChain<S>(h: HubRun.Hub<S>, k: nat, events: seq<HubRun.Event<S>>) returns (k': nat)
    requires HubRun.Coherent(h) && h.running && k < |h.dests|
    requires var d := h.dests[k];
      && d.enabled && d.filter.mode != PassAll
      && HubRun.Undisturbed(d.name, events) && HubRun.RemoveDest(d.name) !in events
    ensures k' < |HubRun.Run(h, events).dests|
    ensures var d, n := h.dests[k], HubRun.Run(h, events).dests[k'];
      var stream := h.buffer + Concat(HubRun.Chunks(events));
      && AllFrameBytes(Since(d.offered, n.offered))
      && forall received :: Concat(received) == EncodeAll(Since(d.offered, n.offered)) ==>
           Relay(FRESH, [], received) == Relayed(Passing(d.filter, ParseBuffer(stream).frames), FRESH, [])
  {
    hide HubRun.Run, HubRun.Coherent, HubRun.Undisturbed, HubRun.Chunks, ParseBuffer, Accepted, Passing, Relay,
         EncodeAll, AllFrameBytes, AllParsed, AllGenuine, RequiresParsing;
    k' := HubRun.FilteredGetsItsFrames(h, k, events);
    var d := h.dests[k];
    var frames := ParseBuffer(h.buffer + Concat(HubRun.Chunks(events))).frames;
    EmittedAreGenuine(h.buffer + Concat(HubRun.Chunks(events)));
    AcceptedAreFrames(d.filter, frames);
    var sent := Accepted(d.filter, frames);
    assert Since(d.offered, d.offered + sent) == sent;
    forall received | Concat(received) == EncodeAll(sent)
      ensures Relay(FRESH, [], received) == Relayed(Passing(d.filter, frames), FRESH, [])
    {
      FramesArrive(sent, received);
    }
  }

  /** A pass_all destination hands the stream itself on: the next relay sees the frames in the chunks,
      whatever lies between them, and keeps their tail. */
  lemma PassAllChain<S>(h: HubRun.Hub<S>, k: nat, events: seq<HubRun.Event<S>>) returns (k': nat)
    requires HubRun.Coherent(h) && h.running && k < |h.dests|
    requires var d := h.dests[k];
      && d.enabled && d.filter.mode == PassAll
      && HubRun.Undisturbed(d.name, events) && HubRun.RemoveDest(d.name) !in events
    requires NonEmpty(HubRun.Chunks(events)) && Printable(HubRun.Chunks(events))
    ensures k' < |HubRun.Run(h, events).dests|
    ensures var d, n := h.dests[k], HubRun.Run(h, events).dests[k'];
      var p := ParseBuffer(Concat(HubRun.Chunks(events)));
      forall received :: Concat(received) == EncodeAll(Since(d.offered, n.offered)) ==>
        Relay(FRESH, [], received) == Relayed(p.frames, FRESH, p.rest)
  {
    hide HubRun.Run, HubRun.Coherent, HubRun.Undisturbed, HubRun.Chunks, ParseBuffer, Relay, EncodeAll, NonEmpty,
         Printable, RequiresParsing;
    k' := HubRun.PassAllGetsEveryChunk(h, k, events);
    var d, chunks := h.dests[k], HubRun.Chunks(events);
    var p := ParseBuffer(Concat(chunks));
    assert Since(d.offered, d.offered + chunks) == chunks;
    forall received | Concat(received) == EncodeAll(chunks)
      ensures Relay(FRESH, [], received) == Relayed(p.frames, FRESH, p.rest)
    {
      AnyPath(chunks, received);
    }
  }

  // ------------------------------------------------------------------
  // With the destination's queue in between
  // ------------------------------------------------------------------

  lemma PartsAreFrames(items: seq<D.Item>, offered: seq<D.Item>)
    requires D.DistinctPartOf(items, offered) && AllFrameBytes(Payloads(offered))
    ensures AllFrameBytes(Payloads(items))
  {
    hide IsFrame;
    forall k | 0 <= k < |items| ensures IsFrame(Payloads(items)[k]) {
      assert Payloads(items)[k] == Payloads(offered)[items[k].number];
    }
  }

  lemma EndIsPart(items: seq<D.Item>, k: nat, offered: seq<D.Item>)
    requires k <= |items| && D.DistinctPartOf(items, offered)
    ensures D.DistinctPartOf(items[k..], offered)
  {
  }

  lemma EndIsInOrder(items: seq<D.Item>, k: nat, offered: seq<D.Item>)
    requires k <= |items| && DestinationOrder.InOrderPartOf(items, offered)
    ensures DestinationOrder.InOrderPartOf(items[k..], offered)
  {
  }

  /** What is on the wire is a part of what was offered, in order unless a start came too early. */
  lemma WireIsPart(capacity: nat, events: seq<D.Event>)
    ensures var d := D.Run(D.New(capacity), events);
      && D.DistinctPartOf(d.wire, d.offered)
      && (DestinationOrder.NoOverlap(D.New(capacity), events) ==>
            DestinationOrder.InOrderPartOf(d.wire, d.offered) && DestinationOrder.Ordered(d.wire))
  {
    hide D.Run, D.DistinctPartOf, DestinationOrder.NoOverlap, D.Queued, D.Hands;
    var d := D.Run(D.New(capacity), events);
    D.Ledger(capacity, events);
    EndIsPart(d.sent, |d.sent| - |d.wire|, d.offered);
    if DestinationOrder.NoOverlap(D.New(capacity), events) {
      DestinationOrder.OrderKept(capacity, events);
      EndIsInOrder(d.sent, |d.sent| - |d.wire|, d.offered);
    }
  }

  /** A destination that is offered frames, with everything that can happen to them on the way: the
      relay that receives what has been sent since the last connect sees exactly those frames. They
      are a duplicate-free part of the frames offered, and, if no start ever happens while an earlier
      loop is alive, an in-order part. */
  lemma WireChain(capacity: nat, events: seq<D.Event>, received: seq<bytes>)
    requires var d := D.Run(D.New(capacity), events);
      AllFrameBytes(Payloads(d.offered)) && Concat(received) == EncodeAll(Payloads(d.wire))
    ensures var d := D.Run(D.New(capacity), events);
      && AllFrameBytes(Payloads(d.wire))
      && Relay(FRESH, [], received) == Relayed(AllParsed(Payloads(d.wire)), FRESH, [])
      && D.DistinctPartOf(d.wire, d.offered)
      && (DestinationOrder.NoOverlap(D.New(capacity), events) ==> DestinationOrder.InOrderPartOf(d.wire, d.offered))
  {
    hide D.Run, Payloads, AllFrameBytes, Relay, EncodeAll, D.DistinctPartOf, DestinationOrder.NoOverlap,
         DestinationOrder.InOrderPartOf, D.Queued, D.Hands;
    var d := D.Run(D.New(capacity), events);
    WireIsPart(capacity, events);
    PartsAreFrames(d.wire, d.offered);
    FramesArrive(Payloads(d.wire), received);
  }

  lemma {:induction false} ParsedAt(frames: seq<bytes>, i: nat)
    requires AllFrameBytes(frames) && i < |frames|
    ensures |AllParsed(frames)| == |frames| && AllParsed(frames)[i] == ParsedOf(frames[i])
  {
    hide ParsedOf, IsFrame;
    if frames[1..] == [] {
      assert AllParsed(frames[1..]) == [];
    } else {
      ParsedAt(frames[1..], if i == 0 then 0 else i - 1);
    }
  }

  /** The frames seen are those that passed at the places the items were offered at, and no place
      comes twice. */
  ghost predicate SeenAtPlaces(seen: seq<ParsedFrame>, items: seq<D.Item>, passing: seq<ParsedFrame>) {
    && |seen| == |items|
    && (forall i :: 0 <= i < |items| ==> items[i].number < |passing| && seen[i] == passing[items[i].number])
    && (forall i, j :: 0 <= i < j < |items| ==> items[i].number != items[j].number)
  }

  /** What is parsed of a part of the items offered is that part of what all of them parse as. */
  lemma PartIsSeen(items: seq<D.Item>, offered: seq<D.Item>)
    requires D.DistinctPartOf(items, offered) && AllFrameBytes(Payloads(offered))
    ensures AllFrameBytes(Payloads(items))
    ensures SeenAtPlaces(AllParsed(Payloads(items)), items, AllParsed(Payloads(offered)))
  {
    hide IsFrame, ParsedOf, AllFrameBytes, AllParsed;
    PartsAreFrames(items, offered);
    if items == [] {
      assert Payloads(items) == [];
      NothingParsed();
    } else {
      ParsedAt(Payloads(items), 0);
    }
    forall i | 0 <= i < |items|
      ensures items[i].number < |AllParsed(Payloads(offered))|
      ensures AllParsed(Payloads(items))[i] == AllParsed(Payloads(offered))[items[i].number]
    {
      ParsedAt(Payloads(items), i);
      ParsedAt(Payloads(offered), items[i].number);
    }
  }

  lemma NothingParsed()
    ensures AllFrameBytes([]) && AllParsed([]) == []
  {
  }

  /** Hub, queue, threads and wire together. A destination of any filter that parses starts with nothing
      offered; its queue is offered what the hub offers it, and its life takes any course. Then the relay
      that receives what has been sent since the last connect sees exactly frames of the hub's stream that
      pass the filter, each at most once, and in the stream's order if no start comes while an earlier
      loop is alive. */
  lemma HubToWire<S>(h: HubRun.Hub<S>, k: nat, events: seq<HubRun.Event<S>>, capacity: nat, life: seq<D.Event>)
    returns (k': nat)
    requires HubRun.Coherent(h) && h.running && k < |h.dests|
    requires var d := h.dests[k];
      && d.enabled && d.filter.mode != PassAll && d.offered == []
      && HubRun.Undisturbed(d.name, events) && HubRun.RemoveDest(d.name) !in events
    ensures k' < |HubRun.Run(h, events).dests|
    ensures var d, n := D.Run(D.New(capacity), life), HubRun.Run(h, events).dests[k'];
      var stream := h.buffer + Concat(HubRun.Chunks(events));
      Payloads(d.offered) == n.offered ==>
      && AllFrameBytes(Payloads(d.wire))
      && var seen := AllParsed(Payloads(d.wire));
      && SeenAtPlaces(seen, d.wire, Passing(h.dests[k].filter, ParseBuffer(stream).frames))
      && (DestinationOrder.NoOverlap(D.New(capacity), life) ==> DestinationOrder.Ordered(d.wire))
      && forall received :: Concat(received) == EncodeAll(Payloads(d.wire)) ==>
           Relay(FRESH, [], received) == Relayed(seen, FRESH, [])
  {
    hide HubRun.Run, HubRun.Coherent, HubRun.Undisturbed, HubRun.Chunks, ParseBuffer, Accepted, Passing, Relay,
         EncodeAll, AllFrameBytes, AllParsed, AllGenuine, RequiresParsing, D.Run, Payloads, D.DistinctPartOf,
         D.Queued, D.Hands, SeenAtPlaces, DestinationOrder.NoOverlap, DestinationOrder.Ordered;
    k' := HubRun.FilteredGetsItsFrames(h, k, events);
    var stream := h.buffer + Concat(HubRun.Chunks(events));
    var accepted := Accepted(h.dests[k].filter, ParseBuffer(stream).frames);
    EmittedAreGenuine(stream);
    AcceptedAreFrames(h.dests[k].filter, ParseBuffer(stream).frames);
    assert [] + accepted == accepted;
    var d := D.Run(D.New(capacity), life);
    if Payloads(d.offered) == HubRun.Run(h, events).dests[k'].offered {
      WireIsPart(capacity, life);
      PartIsSeen(d.wire, d.offered);
      forall received | Concat(received) == EncodeAll(Payloads(d.wire))
        ensures Relay(FRESH, [], received) == Relayed(AllParsed(Payloads(d.wire)), FRESH, [])
      {
        FramesArrive(Payloads(d.wire), received);
      }
    }
  }
}
