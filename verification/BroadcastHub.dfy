/** The hub object: fan-out loops, the frame extractor over its buffer field, and registration,
    each proved to be one step of HubRun. */
module BroadcastHub {
  import opened Bytes
  import opened RtcmDecoder
  import opened FrameExtraction
  import opened MessageFilter
  import opened FrameSubscription
  import opened BaseDestination
  import opened HubRun
  import DestinationRun

  ghost function ShownDest(d: BaseDestination): Dest
    reads d
  {
    Dest(d.name, d.filter, d.enabled, d.Offers(), d.messagesFiltered)
  }

  ghost function ShownSub(s: FrameSubscriber): Sub<FrameSubscriber>
    reads s
  {
    Sub(s, s.offers)
  }

  ghost function ShownDests(ds: seq<BaseDestination>): seq<Dest>
    reads ds
  {
    seq(|ds|, i requires 0 <= i < |ds| reads ds => ShownDest(ds[i]))
  }

  ghost function ShownSubs(ss: seq<FrameSubscriber>): seq<Sub<FrameSubscriber>>
    reads ss
  {
    seq(|ss|, i requires 0 <= i < |ss| reads ss => ShownSub(ss[i]))
  }

  function Dropped(ss: seq<FrameSubscriber>): nat
    reads ss`dropped
  {
    if ss == [] then 0 else ss[0].dropped + Dropped(ss[1..])
  }

  class BroadcastHub {
    var destinations: seq<BaseDestination>
    var subscribers: seq<FrameSubscriber>
    var running: bool
    var anyNeedsParsing: bool
    var frameBuffer: bytes
    var framesParsed: nat
    var removedSubscriberDrops: nat

    ghost predicate Objects()
      reads this, destinations, subscribers
    {
      && (forall i :: 0 <= i < |destinations| ==> destinations[i].Valid())
      && (forall i, j :: 0 <= i < j < |destinations| ==> destinations[i] != destinations[j])
      && (forall i, j :: 0 <= i < j < |subscribers| ==> subscribers[i] != subscribers[j])
    }

    ghost function View(): Hub<FrameSubscriber>
      reads this, destinations, subscribers
    {
      Hub(ShownDests(destinations), ShownSubs(subscribers), running, anyNeedsParsing, frameBuffer, framesParsed)
    }

    ghost predicate Valid()
      reads this, destinations, subscribers
    {
      Objects() && Coherent(View())
    }

    constructor (ds: seq<BaseDestination>)
      requires forall i :: 0 <= i < |ds| ==> ds[i].Valid()
      requires forall i, j :: 0 <= i < j < |ds| ==> ds[i] != ds[j]
      ensures Valid() && destinations == ds
      ensures View() == Hub(ShownDests(ds), [], false, Filters(ShownDests(ds)), [], 0)
      ensures TotalDrops() == 0
    {
      destinations, subscribers, running, frameBuffer, framesParsed := ds, [], false, [], 0;
      removedSubscriberDrops, anyNeedsParsing := 0, false;
      new;
      RecalculateNeedsParsing();
      EmptyIsSettled();
      hide Settled;
    }

    method EnqueueIfEnabled(d: BaseDestination, data: bytes)
      requires d.Valid()
      modifies d`queue, d`messagesDropped, d`view
      ensures d.Valid()
      ensures ShownDest(d) == Raw(old(ShownDest(d)), data)
    {
      if d.enabled {
        var _ := d.Enqueue(data);
      }
    }

    method DistributeRaw(data: bytes)
      requires Objects()
      modifies destinations
      ensures Objects()
      ensures ShownDests(destinations) == AllRaw(old(ShownDests(destinations)), data)
    {
      for i := 0 to |destinations|
        invariant Objects()
        invariant forall j :: 0 <= j < i ==> ShownDest(destinations[j]) == Raw(old(ShownDest(destinations[j])), data)
        invariant forall j :: i <= j < |destinations| ==> unchanged(destinations[j])
      {
        EnqueueIfEnabled(destinations[i], data);
      }
    }

    method ExtractCompleteRtcmFrames() returns (results: seq<ParsedFrame>)
      modifies this`frameBuffer, this`framesParsed
      ensures Parse(results, frameBuffer) == ParseBuffer(old(frameBuffer))
      ensures framesParsed == old(framesParsed) + |results|
    {
      hide ParseBuffer, IsValidRtcmFrame, PayloadLength, Before, ExtractMessageId, IsFrame, MessageNumber;
      results := [];
      var offset := 0;
      var buf := frameBuffer;
      StartOfBuffer(buf);
      while offset < |buf|
        invariant offset <= |buf| && frameBuffer == buf
        invariant Before(results, ParseBuffer(buf[offset..])) == ParseBuffer(buf)
        invariant framesParsed == old(framesParsed) + |results|
      {
        StepAtOffset(buf, offset);
        if buf[offset] != PREAMBLE {
          offset := offset + 1;
          continue;
        }
        if offset + 3 > |buf| {
          break;
        }
        var length := PayloadLength(buf[offset + 1], buf[offset + 2]);
        if length > MAX_PAYLOAD {
          offset := offset + 1;
          continue;
        }
        var n := 3 + length + 3;
        if offset + n > |buf| {
          break;
        }
        var frame := buf[offset..offset + n];
        assert buf[offset..][..n] == frame;
        if IsValidRtcmFrame(frame) {
          EmittedIsGenuine(buf[offset..]);
          BeforeAgain(results, [ParsedOf(frame)], ParseBuffer(buf[offset + n..]));
          var id := ExtractMessageId(frame);
          if id.Some? {
            results := results + [ParsedFrame(id.value, frame)];
            framesParsed := framesParsed + 1;
          }
          offset := offset + n;
        } else {
          offset := offset + 1;
        }
      }
      EndOfScan(buf, offset, results);
      frameBuffer := buf[offset..];
    }

    method ParseFrames(data: bytes) returns (results: seq<ParsedFrame>)
      modifies this`frameBuffer, this`framesParsed
      ensures Parse(results, frameBuffer) == ParseBuffer(old(frameBuffer) + data)
      ensures framesParsed == old(framesParsed) + |results|
    {
      frameBuffer := frameBuffer + data;
      results := ExtractCompleteRtcmFrames();
    }

    method OfferToSubscribers(frame: ParsedFrame)
      requires Objects()
      modifies subscribers
      ensures forall j :: 0 <= j < |subscribers| ==> subscribers[j].offers == old(subscribers[j].offers) + [frame]
      ensures forall j :: 0 <= j < |subscribers| ==>
        subscribers[j].State() == Offered(old(subscribers[j].State()), frame)
    {
      for i := 0 to |subscribers|
        invariant forall j :: 0 <= j < i ==> subscribers[j].offers == old(subscribers[j].offers) + [frame]
        invariant forall j :: 0 <= j < i ==> subscribers[j].State() == Offered(old(subscribers[j].State()), frame)
        invariant forall j :: i <= j < |subscribers| ==> unchanged(subscribers[j])
      {
        var _ := subscribers[i].Offer(frame);
      }
    }

    /** The share of one enabled destination on the parsing path. */
    method Sort(d: BaseDestination, data: bytes, frames: seq<ParsedFrame>)
      requires d.Valid()
      modifies d`queue, d`messagesDropped, d`view, d`messagesFiltered
      ensures d.Valid()
      ensures ShownDest(d) == Sorted(old(ShownDest(d)), data, frames)
    {
      hide Accepted;
      if !d.enabled {
        return;
      }
      if !RequiresParsing(d.filter) {
        var _ := d.Enqueue(data);
        return;
      }
      if frames == [] {
        NothingAccepted(d.filter);
        assert d.Offers() + [] == d.Offers();
        return;
      }
      var accepted := FilterFrames(d.filter, frames);
      AcceptedSize(d.filter, frames);
      d.messagesFiltered := d.messagesFiltered + (|frames| - |accepted|);
      for i := 0 to |accepted|
        invariant d.Valid()
        invariant d.Offers() == old(d.Offers()) + accepted[..i]
        invariant d.messagesFiltered == old(d.messagesFiltered) + (|frames| - |accepted|)
      {
        var _ := d.Enqueue(accepted[i]);
        assert accepted[..i + 1] == accepted[..i] + [accepted[i]];
      }
      assert accepted[..|accepted|] == accepted;
    }

    /** Subscribers see every frame, before any destination's filter. */
    method OfferFrames(frames: seq<ParsedFrame>)
      requires Objects()
      modifies subscribers
      ensures ShownSubs(subscribers) == AllShown(old(ShownSubs(subscribers)), frames)
      ensures forall j :: 0 <= j < |subscribers| ==>
        subscribers[j].State() == OfferedAll(old(subscribers[j].State()), frames)
    {
      hide Offered;
      for i := 0 to |frames|
        invariant forall j :: 0 <= j < |subscribers| ==> subscribers[j].offers == old(subscribers[j].offers) + frames[..i]
        invariant forall j :: 0 <= j < |subscribers| ==>
          subscribers[j].State() == OfferedAll(old(subscribers[j].State()), frames[..i])
      {
        label Before:
        OfferToSubscribers(frames[i]);
        assert frames[..i + 1] == frames[..i] + [frames[i]];
        forall j | 0 <= j < |subscribers|
          ensures subscribers[j].State() == OfferedAll(old(subscribers[j].State()), frames[..i + 1])
        {
          assert subscribers[j].State() == Offered(old@Before(subscribers[j].State()), frames[i]);
          OfferedOneMore(old(subscribers[j].State()), frames[..i], frames[i]);
        }
      }
      assert frames[..|frames|] == frames;
    }

    method DistributeFiltered(data: bytes)
      requires Objects()
      modifies this`frameBuffer, this`framesParsed, destinations, subscribers
      ensures Objects()
      ensures frameBuffer == ParseBuffer(old(frameBuffer) + data).rest
      ensures var frames := ParseBuffer(old(frameBuffer) + data).frames;
        && framesParsed == old(framesParsed) + |frames|
        && ShownSubs(subscribers) == AllShown(old(ShownSubs(subscribers)), frames)
        && ShownDests(destinations) == AllSorted(old(ShownDests(destinations)), data, frames)
        && (forall j :: 0 <= j < |subscribers| ==>
              subscribers[j].State() == OfferedAll(old(subscribers[j].State()), frames))
    {
      hide ParseBuffer, AllSorted, AllShown, OfferedAll;
      var frames := ParseFrames(data);
      OfferFrames(frames);
      SortAll(data, frames);
    }

    method SortAll(data: bytes, frames: seq<ParsedFrame>)
      requires Objects()
      modifies destinations
      ensures Objects()
      ensures ShownDests(destinations) == AllSorted(old(ShownDests(destinations)), data, frames)
    {
      hide Sorted;
      for i := 0 to |destinations|
        invariant Objects()
        invariant forall j :: 0 <= j < i ==>
          ShownDest(destinations[j]) == Sorted(old(ShownDest(destinations[j])), data, frames)
        invariant forall j :: i <= j < |destinations| ==> unchanged(destinations[j])
      {
        Sort(destinations[i], data, frames);
      }
    }

    /** The broadcast loop's work on one chunk. */
    method Broadcast(data: bytes)
      requires Valid() && running
      modifies this`frameBuffer, this`framesParsed, destinations, subscribers
      ensures Valid()
      ensures View() == Step(old(View()), Chunk(data))
      ensures running && destinations == old(destinations) && subscribers == old(subscribers)
    {
      hide ParseBuffer, AllSorted, AllRaw, AllShown, Coherent, OfferedAll;
      CoherentStep(View(), Chunk(data));
      if anyNeedsParsing {
        DistributeFiltered(data);
      } else {
        DistributeRaw(data);
      }
    }

    method RecalculateNeedsParsing()
      modifies this`anyNeedsParsing, this`frameBuffer
      ensures View() == Recalculated(old(View()))
    {
      var wasParsing := anyNeedsParsing;
      var needed := |subscribers| > 0;
      ghost var shown := ShownDests(destinations);
      for i := 0 to |destinations|
        invariant needed <==> subscribers != [] || exists j :: 0 <= j < i && RequiresParsing(shown[j].filter)
      {
        assert shown[i].filter == destinations[i].filter;
        needed := needed || RequiresParsing(destinations[i].filter);
      }
      anyNeedsParsing := needed;
      if wasParsing && !anyNeedsParsing {
        frameBuffer := [];
      }
    }

    method FindDestination(name: string) returns (k: nat)
      ensures k == Place(Names(ShownDests(destinations)), name)
      ensures k <= |destinations| && (k < |destinations| ==> destinations[k].name == name)
      ensures forall j :: 0 <= j < k ==> destinations[j].name != name
    {
      k := 0;
      while k < |destinations| && destinations[k].name != name
        invariant k <= |destinations|
        invariant forall j :: 0 <= j < k ==> destinations[j].name != name
      {
        k := k + 1;
      }
      ghost var names := Names(ShownDests(destinations));
      assert forall j :: 0 <= j < |names| ==> names[j] == destinations[j].name;
    }

    /** The part of a hot-add done under the lock. */
    method Register(d: BaseDestination) returns (ok: bool)
      requires Valid() && d.Valid()
      modifies this
      ensures Valid()
      ensures View() == Step(old(View()), AddDest(ShownDest(d)))
      ensures ok <==> old(forall i :: 0 <= i < |destinations| ==> destinations[i].name != d.name)
      ensures destinations == if ok then old(destinations) + [d] else old(destinations)
      ensures running == old(running) && subscribers == old(subscribers)
    {
      hide Coherent, Recalculated, Place, ShownDest;
      CoherentStep(View(), AddDest(ShownDest(d)));
      var k := FindDestination(d.name);
      ghost var h := View();
      NameShown(d);
      if k < |destinations| {
        assert Step(h, AddDest(ShownDest(d))) == h;
        return false;
      }
      assert ShownDests(destinations + [d]) == ShownDests(destinations) + [ShownDest(d)];
      destinations := destinations + [d];
      assert View() == h.(dests := h.dests + [ShownDest(d)]);
      RecalculateNeedsParsing();
      return true;
    }

    /** Hot-add; refused (with an exception) when the name is taken. */
    method AddDestination(d: BaseDestination) returns (ok: bool)
      requires Valid() && d.Valid()
      modifies this, d`running, d`view
      ensures Valid()
      ensures View() == Step(old(View()), AddDest(old(ShownDest(d))))
      ensures ok <==> old(forall i :: 0 <= i < |destinations| ==> destinations[i].name != d.name)
      ensures ok && running ==> d.running
    {
      hide Coherent, Step;
      ok := Register(d);
      if ok && running {
        label Before:
        d.Start();
        assert ShownDests(destinations) == old@Before(ShownDests(destinations));
      }
    }

    /** The part of a hot-remove done under the lock. */
    method Unregister(name: string) returns (removed: Option<BaseDestination>)
      requires Valid()
      modifies this
      ensures Valid()
      ensures View() == Step(old(View()), RemoveDest(name))
      ensures removed.None? ==> destinations == old(destinations)
      ensures removed.Some? ==>
        exists k :: 0 <= k < |old(destinations)| && removed.value == old(destinations)[k]
                    && removed.value.name == name && destinations == Without(old(destinations), k)
      ensures running == old(running) && subscribers == old(subscribers)
    {
      hide Coherent, Recalculated, Place, ShownDest;
      CoherentStep(View(), RemoveDest(name));
      var k := FindDestination(name);
      ghost var h := View();
      if k == |destinations| {
        assert Step(h, RemoveDest(name)) == h;
        return None;
      }
      removed := Some(destinations[k]);
      assert ShownDests(Without(destinations, k)) == Without(ShownDests(destinations), k);
      destinations := Without(destinations, k);
      assert View() == h.(dests := Without(h.dests, k));
      RecalculateNeedsParsing();
    }

    /** Hot-remove: the removed destination is stopped; no other is touched. */
    method RemoveDestination(name: string) returns (removed: Option<BaseDestination>)
      requires Valid()
      modifies this, destinations
      ensures Valid()
      ensures View() == Step(old(View()), RemoveDest(name))
      ensures removed.Some? ==> removed.value in old(destinations) && !removed.value.running
      ensures forall d :: d in destinations ==> d in old(destinations) && unchanged(d)
    {
      hide Coherent, Step;
      removed := Unregister(name);
      if removed.Some? {
        label Before:
        var _ := removed.value.Stop(None);
        assert ShownDests(destinations) == old@Before(ShownDests(destinations));
      }
    }

    method Switch(d: BaseDestination, on: bool)
      requires d.Valid()
      modifies d
      ensures d.Valid() && d.running == on
      ensures ShownDest(d) == old(ShownDest(d)).(enabled := on)
    {
      d.enabled := on;
      if on {
        d.Start();
      } else {
        var _ := d.Stop(None);
      }
    }

    /** Stop or restart one destination, which stays registered. */
    method SetDestinationEnabled(name: string, on: bool) returns (found: bool)
      requires Valid()
      modifies destinations
      ensures Valid()
      ensures View() == Step(old(View()), SetEnabled(name, on))
      ensures found <==> exists i :: 0 <= i < |destinations| && destinations[i].name == name
    {
      hide Coherent, Recalculated, Place, ShownDest;
      CoherentStep(View(), SetEnabled(name, on));
      var k := FindDestination(name);
      ghost var h := View();
      if k == |destinations| {
        assert Step(h, SetEnabled(name, on)) == h;
        return false;
      }
      Switch(destinations[k], on);
      assert ShownDests(destinations) == h.dests[k := h.dests[k].(enabled := on)];
      return true;
    }

    /** Refused unless the hub is running; a refused subscription is closed. */
    method AddFrameSubscriber(s: FrameSubscriber) returns (accepted: bool)
      requires Valid() && s !in subscribers
      modifies this, s`closed, s`queue
      ensures Valid()
      ensures View() == Step(old(View()), AddSub(old(ShownSub(s))))
      ensures accepted <==> old(running)
      ensures subscribers == if accepted then old(subscribers) + [s] else old(subscribers)
      ensures if accepted then s.State() == old(s.State()) else s.closed
      ensures TotalDrops() == old(TotalDrops()) + if accepted then s.dropped else 0
      ensures removedSubscriberDrops == old(removedSubscriberDrops)
    {
      hide Coherent, Recalculated, Place;
      CoherentStep(View(), AddSub(ShownSub(s)));
      ghost var h := View();
      SubscriberPlace(subscribers, s, |subscribers|);
      accepted := running;
      if accepted {
        DroppedAppend(subscribers, s);
        assert ShownSubs(subscribers + [s]) == ShownSubs(subscribers) + [ShownSub(s)];
        subscribers := subscribers + [s];
        assert View() == h.(subs := h.subs + [ShownSub(s)]);
        RecalculateNeedsParsing();
      } else {
        s.Close();
      }
    }

    ghost function TotalDrops(): nat
      reads this, subscribers
    {
      removedSubscriberDrops + Dropped(subscribers)
    }

    method FrameSubscriberDrops() returns (n: nat)
      ensures n == TotalDrops()
    {
      n := removedSubscriberDrops;
      assert subscribers[0..] == subscribers;
      for i := 0 to |subscribers|
        invariant n + Dropped(subscribers[i..]) == TotalDrops()
      {
        n := n + subscribers[i].dropped;
        assert subscribers[i..][1..] == subscribers[i + 1..];
      }
    }

    method FindSubscriber(s: FrameSubscriber) returns (k: nat)
      ensures k <= |subscribers| && s !in subscribers[..k] && (k < |subscribers| ==> subscribers[k] == s)
      ensures k == Place(Ids(ShownSubs(subscribers)), s)
    {
      k := 0;
      while k < |subscribers| && subscribers[k] != s
        invariant k <= |subscribers|
        invariant s !in subscribers[..k]
      {
        k := k + 1;
      }
      SubscriberPlace(subscribers, s, k);
    }

    /** Take a subscriber off the list, keeping its drops. */
    method Detach(k: nat)
      requires Objects() && k < |subscribers|
      modifies this`subscribers, this`removedSubscriberDrops
      ensures Objects() && subscribers == Without(old(subscribers), k)
      ensures View() == old(View()).(subs := Without(old(View()).subs, k))
      ensures TotalDrops() == old(TotalDrops())
      ensures removedSubscriberDrops == old(removedSubscriberDrops + subscribers[k].dropped)
    {
      hide Dropped, ShownDests, ShownSub;
      DroppedWithout(subscribers, k);
      assert ShownSubs(Without(subscribers, k)) == Without(ShownSubs(subscribers), k);
      removedSubscriberDrops := removedSubscriberDrops + subscribers[k].dropped;
      subscribers := Without(subscribers, k);
    }

    /** Unknown subscriptions are ignored; the drops of a known one stay in the total. */
    method RemoveFrameSubscriber(s: FrameSubscriber)
      requires Valid()
      modifies this`subscribers, this`anyNeedsParsing, this`frameBuffer, this`removedSubscriberDrops
      ensures Valid()
      ensures View() == Step(old(View()), RemoveSub(s))
      ensures TotalDrops() == old(TotalDrops())
      ensures forall x :: x in subscribers <==> x in old(subscribers) && x != s
      ensures removedSubscriberDrops == old(removedSubscriberDrops) + if s in old(subscribers) then s.dropped else 0
      ensures old(subscribers) != [] && old(subscribers)[0] == s ==> subscribers == old(subscribers)[1..]
    {
      hide Coherent, Recalculated, Place, Dropped, ShownDests, ShownSub, Ids, Step;
      CoherentStep(View(), RemoveSub(s));
      RemovedSub(View(), s);
      var k := FindSubscriber(s);
      if k < |subscribers| {
        Detach(k);
      }
      RecalculateNeedsParsing();
    }

    method StartDestinations()
      requires Objects()
      modifies destinations
      ensures Objects() && ShownDests(destinations) == old(ShownDests(destinations))
      ensures forall j :: 0 <= j < |destinations| ==> destinations[j].running
    {
      for i := 0 to |destinations|
        invariant Objects()
        invariant forall j :: 0 <= j < i ==>
          destinations[j].running && ShownDest(destinations[j]) == old(ShownDest(destinations[j]))
        invariant forall j :: i <= j < |destinations| ==> unchanged(destinations[j])
      {
        destinations[i].Start();
      }
    }

    method StopDestinations()
      requires Objects()
      modifies destinations
      ensures Objects() && ShownDests(destinations) == old(ShownDests(destinations))
      ensures forall j :: 0 <= j < |destinations| ==> !destinations[j].running
      ensures View() == old(View()) && TotalDrops() == old(TotalDrops())
    {
      hide DestinationRun.Run, DestinationRun.Step;
      for i := 0 to |destinations|
        invariant Objects()
        invariant forall j :: 0 <= j < i ==>
          !destinations[j].running && ShownDest(destinations[j]) == old(ShownDest(destinations[j]))
        invariant forall j :: i <= j < |destinations| ==> unchanged(destinations[j])
      {
        var _ := destinations[i].Stop(None);
      }
    }

    /** Starting fails, with an exception, where the input does not connect. */
    method Start(inputConnects: bool) returns (ok: bool)
      requires Valid()
      modifies this`running, this`frameBuffer, destinations
      ensures Valid() && (ok <==> old(running) || inputConnects)
      ensures View() == if ok then Step(old(View()), HubRun.Start) else old(View())
      ensures ok && !old(running) ==> forall j :: 0 <= j < |destinations| ==> destinations[j].running
      ensures !ok || old(running) ==> forall j :: 0 <= j < |destinations| ==> unchanged(destinations[j])
    {
      hide Coherent;
      CoherentStep(View(), HubRun.Start);
      if running {
        return true;
      }
      if !inputConnects {
        return false;
      }
      StartDestinations();
      running := true;
      frameBuffer := [];
      return true;
    }

    /** Close a subscription, which detaches itself. */
    method Release(s: FrameSubscriber)
      requires Valid()
      modifies this`subscribers, this`anyNeedsParsing, this`frameBuffer, this`removedSubscriberDrops
      modifies s`closed, s`queue
      ensures Valid() && View() == Step(old(View()), RemoveSub(s))
      ensures s.closed && TotalDrops() == old(TotalDrops())
      ensures forall x :: x in subscribers <==> x in old(subscribers) && x != s
      ensures removedSubscriberDrops == old(removedSubscriberDrops) + if s in old(subscribers) then s.dropped else 0
      ensures old(subscribers) != [] && old(subscribers)[0] == s ==> subscribers == old(subscribers)[1..]
    {
      hide Coherent, Step, Dropped, ShownDests;
      ghost var shown := ShownSubs(subscribers);
      s.Close();
      assert ShownSubs(subscribers) == shown by {
        assert forall j :: 0 <= j < |shown| ==> ShownSub(subscribers[j]) == shown[j];
      }
      RemoveFrameSubscriber(s);
    }

    /** Close every subscription; each detaches itself. */
    method EndSubscriptions()
      requires Valid()
      modifies this`subscribers, this`anyNeedsParsing, this`frameBuffer, this`removedSubscriberDrops, subscribers
      ensures Valid() && subscribers == []
      ensures View() == Hub(old(View()).dests, [], running, Filters(old(View()).dests), frameBuffer, framesParsed)
      ensures forall s :: s in old(subscribers) ==> s.closed && s.dropped == old(s.dropped)
      ensures TotalDrops() == old(TotalDrops())
    {
      hide Coherent, Step, Dropped, ShownSubs;
      var ending := subscribers;
      for i := 0 to |ending|
        invariant Valid() && subscribers == ending[i..]
        invariant forall j :: 0 <= j < i ==> ending[j].closed
        invariant forall j :: 0 <= j < |ending| ==> ending[j].dropped == old(ending[j].dropped)
        invariant TotalDrops() == old(TotalDrops())
      {
        Release(ending[i]);
      }
      NothingShown();
      NoSubscribers(View());
    }

    /** Stopping ends every destination and every subscription; no drop is forgotten. Where the second
        put of the pill for the broadcast thread fails, it ends there with an exception. */
    method Stop(putFails: bool) returns (raised: bool)
      requires Valid()
      modifies this, destinations, subscribers
      ensures Valid() && !running && (raised <==> old(running) && putFails)
      ensures View() == Step(old(View()), if raised then HubRun.StopFails else HubRun.Stop)
      ensures old(running) && !raised ==>
        && (forall j :: 0 <= j < |destinations| ==> !destinations[j].running)
        && subscribers == [] && (forall s :: s in old(subscribers) ==> s.closed && s.dropped == old(s.dropped))
      ensures raised || !old(running) ==>
        && removedSubscriberDrops == old(removedSubscriberDrops)
        && destinations == old(destinations) && (forall j :: 0 <= j < |destinations| ==> unchanged(destinations[j]))
        && subscribers == old(subscribers) && (forall j :: 0 <= j < |subscribers| ==> unchanged(subscribers[j]))
      ensures TotalDrops() == old(TotalDrops())
    {
      hide Coherent, Step, Dropped;
      FlagIsRight(View());
      StoppedHub(View());
      if !running {
        CoherentStep(View(), HubRun.Stop);
        return false;
      }
      if putFails {
        CoherentStep(View(), HubRun.StopFails);
        running := false;
        return true;
      }
      CoherentStep(View(), HubRun.Stop);
      StopAll();
      return false;
    }

    /** What a stop does that goes on to its end. */
    method StopAll()
      requires Valid()
      modifies this, destinations, subscribers
      ensures Valid() && destinations == old(destinations)
      ensures View() == Hub(old(View()).dests, [], false, Filters(old(View()).dests), [], old(framesParsed))
      ensures forall j :: 0 <= j < |destinations| ==> !destinations[j].running
      ensures subscribers == []
      ensures forall s :: s in old(subscribers) ==> s.closed && s.dropped == old(s.dropped)
      ensures TotalDrops() == old(TotalDrops())
    {
      hide Coherent, Step, Dropped, Filters, ShownDest, ShownDests, ShownSubs;
      StopThreads();
      EndSubscriptions();
      ClearBuffer();
    }

    method ClearBuffer()
      requires Valid()
      modifies this`frameBuffer
      ensures Valid() && View() == old(View()).(buffer := [])
    {
      SameButBuffer(View());
      hide Coherent;
      frameBuffer := [];
    }

    method StopThreads()
      requires Valid()
      modifies this`running, destinations
      ensures Valid() && View() == old(View()).(running := false)
      ensures forall j :: 0 <= j < |destinations| ==> !destinations[j].running
      ensures TotalDrops() == old(TotalDrops())
    {
      hide Coherent, Step, Dropped, ShownDest;
      CoherentStep(View(), HubRun.StopFails);
      StoppedHub(View());
      running := false;
      StopDestinations();
    }
  }

  lemma SubscriberPlace(ss: seq<FrameSubscriber>, s: FrameSubscriber, k: nat)
    requires k <= |ss| && s !in ss[..k] && (k < |ss| ==> ss[k] == s)
    ensures Place(Ids(ShownSubs(ss)), s) == k
  {
    var ids := Ids(ShownSubs(ss));
    assert forall j :: 0 <= j < |ids| ==> ids[j] == ss[j];
    assert forall j :: 0 <= j < k ==> ss[..k][j] == ss[j];
  }

  lemma {:induction false} DroppedAppend(ss: seq<FrameSubscriber>, s: FrameSubscriber)
    ensures Dropped(ss + [s]) == Dropped(ss) + s.dropped
  {
    if ss == [] {
      assert ss + [s] == [s];
    } else {
      assert (ss + [s])[1..] == ss[1..] + [s];
      DroppedAppend(ss[1..], s);
    }
  }

  lemma {:induction false} DroppedWithout(ss: seq<FrameSubscriber>, k: nat)
    requires k < |ss|
    ensures Dropped(ss) == Dropped(Without(ss, k)) + ss[k].dropped
  {
    if k == 0 {
      assert Without(ss, 0) == ss[1..];
    } else {
      DroppedWithout(ss[1..], k - 1);
      assert Without(ss, k)[1..] == Without(ss[1..], k - 1);
    }
  }

  lemma NothingShown()
    ensures ShownSubs([]) == []
  {
  }

  lemma NameShown(d: BaseDestination)
    ensures ShownDest(d).name == d.name
  {
  }

  lemma NothingAccepted(c: FilterConfig)
    ensures Accepted(c, []) == []
  {
  }
}
