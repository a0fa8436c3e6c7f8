/** From the stream a hub receives to what a frame subscriber reads. */
module SubscriberStream {
  import opened Bytes
  import opened FrameExtraction
  import opened FrameSubscription
  import HubRun

  /** A subscriber that is attached with nothing offered yet is offered every frame of the stream. What
      its reader has got and can still get are an in-order part of the wanted frames among those that came
      while it was open, each at most once, and the drop counter is exactly how many are missing. Without
      a close and without a bound, none is. */
  lemma SubscriberReadsStream<S>(
      h: HubRun.Hub<S>, k: nat, events: seq<HubRun.Event<S>>, ids: Option<set<nat>>, capacity: nat, calls: seq<Call>)
    returns (k': nat)
    requires HubRun.Coherent(h) && h.running && k < |h.subs| && HubRun.DistinctSubs(h.subs) && h.subs[k].offered == []
    requires HubRun.Start !in events && HubRun.Stop !in events && HubRun.StopFails !in events
    requires HubRun.RemoveSub(h.subs[k].id) !in events
    ensures k' < |HubRun.Run(h, events).subs|
    ensures var l, n := Lives(Born(ids, capacity), calls), HubRun.Run(h, events).subs[k'];
      var frames := ParseBuffer(h.buffer + Concat(HubRun.Chunks(events))).frames;
      FramesOffered(calls) == n.offered ==>
      && OfferedWhileOpen(calls) <= frames
      && (Close !in calls ==> OfferedWhileOpen(calls) == frames)
      && var wanted := Wanted(ids, OfferedWhileOpen(calls));
      && PartOf(l.read + Frames(l.sub.queue), wanted)
      && |l.read| + |Frames(l.sub.queue)| + l.sub.dropped == |wanted|
      && (capacity == 0 ==> l.read + Frames(l.sub.queue) == wanted)
  {
    hide HubRun.Coherent, HubRun.Run, HubRun.Chunks, ParseBuffer, Lives, Frames, PartOf, Wanted;
    k' := HubRun.SubscriberGetsEveryFrame(h, k, events);
    var l := Lives(Born(ids, capacity), calls);
    BornIsSound(ids, capacity);
    SoundForLife(Born(ids, capacity), calls);
    WantedFromCalls(Born(ids, capacity), calls);
    OpenUntilClosed(calls);
    var wanted := Wanted(ids, OfferedWhileOpen(calls));
    assert [] + wanted == wanted;
    assert forall s: seq<ParsedFrame> :: [] + s == s;
    if capacity == 0 {
      FullPart(l.kept, wanted);
    }
  }
}
