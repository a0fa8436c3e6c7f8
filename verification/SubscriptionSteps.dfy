/** What the hub and its subscriptions do, as steps in the race of subscribing, closing and stopping. */
module SubscriptionSteps {
  import opened Bytes
  import opened FrameExtraction
  import opened FrameSubscription
  import opened BroadcastHub
  import S = SubscribeStop

  /** Nobody is in the middle of a call. */
  predicate AtRest(h: S.Hub) {
    h.flagged == 0 && h.offering == None
    && forall k :: 0 <= k < |h.subs| ==> S.Settled(h.subs[k]) && !(h.subs[k].attached && h.subs[k].closed)
  }

  function Idle(attached: bool, closed: bool, dropped: nat): S.Subscriber {
    S.Subscriber(attached, closed, dropped, 0, 0, 0, 0)
  }

  /** The objects are in the state h of the race; the subscriptions in the order they were added. */
  ghost predicate Shows(hub: BroadcastHub, added: seq<FrameSubscriber>, h: S.Hub)
    reads hub, hub.subscribers, added
  {
    && AtRest(h) && h.running == hub.running && h.removedDrops == hub.removedSubscriberDrops
    && S.ReportedDrops(h) == hub.TotalDrops()
    && |h.subs| == |added|
    && (forall i, j :: 0 <= i < j < |added| ==> added[i] != added[j])
    && (forall s :: s in hub.subscribers ==> s in added)
    && (forall k :: 0 <= k < |added| ==>
          h.subs[k] == Idle(added[k] in hub.subscribers, added[k].closed, added[k].dropped))
  }

  // ------------------------------------------------------------------
  // Calls that nothing interrupts
  // ------------------------------------------------------------------

  function Closing(k: S.Name): seq<S.Event> {
    [S.Close(k), S.Enter(k), S.Mark(k), S.Detach(k), S.Wake(k)]
  }

  function AfterClose(h: S.Hub, k: S.Name): S.Hub
    requires k < |h.subs|
  {
    var s := h.subs[k];
    if s.closed then h
    else h.(subs := h.subs[k := Idle(false, true, s.dropped)],
            removedDrops := h.removedDrops + if s.attached then s.dropped else 0)
  }

  lemma CloseFirstHalf(h: S.Hub, k: S.Name)
    requires k < |h.subs| && S.Settled(h.subs[k])
    ensures var s := h.subs[k];
      S.Step(S.Step(h, S.Close(k)), S.Enter(k)) == if s.closed then h else h.(subs := h.subs[k := s.(marking := 1)])
  {
    var s := h.subs[k];
    var n := S.Step(S.Step(h, S.Close(k)), S.Enter(k));
    assert h.subs[k := s] == h.subs;
    assert n.subs == h.subs[k := if s.closed then s else s.(marking := 1)];
  }

  lemma CloseSecondHalf(h: S.Hub, k: S.Name)
    requires k < |h.subs| && S.Settled(h.subs[k].(marking := 0)) && h.subs[k].marking <= 1
    ensures var s := h.subs[k];
      S.Step(S.Step(S.Step(h, S.Mark(k)), S.Detach(k)), S.Wake(k)) ==
      if s.marking == 0 then h
      else h.(subs := h.subs[k := Idle(false, true, s.dropped)],
              removedDrops := h.removedDrops + if s.attached then s.dropped else 0)
  {
    var s := h.subs[k];
    var n := S.Step(S.Step(S.Step(h, S.Mark(k)), S.Detach(k)), S.Wake(k));
    assert h.subs[k := s] == h.subs;
    assert n.subs == h.subs[k := if s.marking == 0 then s else Idle(false, true, s.dropped)];
  }

  lemma CloseRuns(h: S.Hub, k: S.Name)
    requires k < |h.subs| && S.Settled(h.subs[k])
    ensures S.Run(h, Closing(k)) == AfterClose(h, k)
  {
    hide S.Step;
    CloseFirstHalf(h, k);
    var m := S.Step(S.Step(h, S.Close(k)), S.Enter(k));
    assert m.subs[k] == if h.subs[k].closed then h.subs[k] else h.subs[k].(marking := 1);
    CloseSecondHalf(m, k);
    S.RunAll(h, S.Close(k), S.Enter(k), S.Mark(k), S.Detach(k), S.Wake(k));
    assert m.subs[k := Idle(false, true, h.subs[k].dropped)] == h.subs[k := Idle(false, true, h.subs[k].dropped)];
  }

  /** What is still to do for the subscriptions from number k on, once a stop has collected them. */
  function Ending(subs: seq<S.Subscriber>, k: nat): seq<S.Event>
    decreases |subs| - k
  {
    if k >= |subs| then []
    else (if subs[k].attached then [S.Enter(k), S.Mark(k), S.Detach(k), S.Wake(k)] else []) + Ending(subs, k + 1)
  }

  function Ended(s: S.Subscriber): S.Subscriber {
    if s.attached then Idle(false, true, s.dropped) else s
  }

  /** A stop has collected the subscriptions of h, and has ended those before number k. */
  predicate Ends(h: S.Hub, n: S.Hub, k: nat) {
    && !n.running && n.flagged == 0 && n.failed == h.failed && n.offering == None && |n.subs| == |h.subs|
    && (forall j :: 0 <= j < |h.subs| ==>
          n.subs[j] == if j < k then Ended(h.subs[j]) else S.Collected(h.subs[j]))
  }

  lemma EndOne(h: S.Hub, n: S.Hub, k: nat)
    requires AtRest(h) && Ends(h, n, k) && k < |h.subs| && h.subs[k].attached
    ensures Ends(h, S.Step(S.Step(S.Step(S.Step(n, S.Enter(k)), S.Mark(k)), S.Detach(k)), S.Wake(k)), k + 1)
  {
    var s := h.subs[k];
    assert n.subs[k] == s.(entering := 1);
    var m := S.Step(n, S.Enter(k));
    assert m.subs == n.subs[k := s.(marking := 1)] && m.flagged == 0 && !m.running && m.failed == h.failed;
    CloseSecondHalf(m, k);
    hide S.Step;
    assert S.Step(S.Step(S.Step(m, S.Mark(k)), S.Detach(k)), S.Wake(k)).subs == m.subs[k := Ended(s)];
  }

  lemma {:induction false} EndingRuns(h: S.Hub, n: S.Hub, k: nat)
    requires AtRest(h) && Ends(h, n, k) && k <= |h.subs|
    ensures Ends(h, S.Run(n, Ending(h.subs, k)), |h.subs|)
    decreases |h.subs| - k
  {
    hide S.Step, Ends, S.Run, AtRest;
    if k == |h.subs| {
      NothingRuns(n);
    } else if h.subs[k].attached {
      var four := [S.Enter(k), S.Mark(k), S.Detach(k), S.Wake(k)];
      EndOne(h, n, k);
      S.RunFour(n, S.Enter(k), S.Mark(k), S.Detach(k), S.Wake(k));
      S.RunAppend(n, four, Ending(h.subs, k + 1));
      EndingRuns(h, S.Run(n, four), k + 1);
    } else {
      SkipOne(h, n, k);
      assert [] + Ending(h.subs, k + 1) == Ending(h.subs, k + 1);
      EndingRuns(h, n, k + 1);
    }
  }

  lemma NothingRuns(n: S.Hub)
    ensures S.Run(n, []) == n
  {
  }

  lemma SkipOne(h: S.Hub, n: S.Hub, k: nat)
    requires Ends(h, n, k) && k < |h.subs| && !h.subs[k].attached
    ensures Ends(h, n, k + 1)
  {
  }

  /** A stop that nothing interrupts. */
  function Stopping(h: S.Hub): seq<S.Event> {
    [S.StopFlag, S.Collect] + Ending(h.subs, 0)
  }

  lemma StopRuns(h: S.Hub)
    requires AtRest(h) && h.running
    ensures var n := S.Run(h, Stopping(h));
      && Ends(h, n, |h.subs|) && AtRest(n) && S.ReportedDrops(n) == S.ReportedDrops(h) == n.removedDrops
  {
    var m := S.Step(S.Step(h, S.StopFlag), S.Collect);
    assert Ends(h, m, 0);
    hide S.Step;
    S.RunTwo(h, S.StopFlag, S.Collect);
    S.RunAppend(h, [S.StopFlag, S.Collect], Ending(h.subs, 0));
    EndingRuns(h, m, 0);
    var n := S.Run(h, Stopping(h));
    StoppingKeepsTotal(h, Stopping(h));
    NoneAttached(n.subs);
  }

  lemma NoneAttached(subs: seq<S.Subscriber>)
    requires forall k :: 0 <= k < |subs| ==> !subs[k].attached
    ensures S.AttachedDrops(subs) == 0
  {
  }

  predicate NoOffer(events: seq<S.Event>) {
    forall i :: 0 <= i < |events| ==> !events[i].Offer? && !events[i].OfferTest? && !events[i].OfferPut?
  }

  lemma {:induction false} TotalKept(h: S.Hub, events: seq<S.Event>)
    requires NoOffer(events)
    ensures var n := S.Run(h, events); S.ReportedDrops(n) == S.ReportedDrops(h)
    decreases |events|
  {
    hide S.ReportedDrops;
    if events != [] {
      S.DropsStep(h, events[0]);
      NothingRejected(h, events[0]);
      hide S.Step;
      TotalKept(S.Step(h, events[0]), events[1..]);
    }
  }

  lemma NothingRejected(h: S.Hub, e: S.Event)
    requires !e.Offer? && !e.OfferTest? && !e.OfferPut?
    ensures S.Step(h, e).rejections == h.rejections && S.Step(h, e).late == h.late
  {
  }

  lemma {:induction false} EndingOffersNothing(subs: seq<S.Subscriber>, k: nat)
    ensures NoOffer(Ending(subs, k))
    decreases |subs| - k
  {
    if k < |subs| { EndingOffersNothing(subs, k + 1); }
  }

  lemma StoppingKeepsTotal(h: S.Hub, events: seq<S.Event>)
    requires events == Stopping(h)
    ensures S.ReportedDrops(S.Run(h, events)) == S.ReportedDrops(h)
  {
    EndingOffersNothing(h.subs, 0);
    hide S.ReportedDrops, S.Run;
    TotalKept(h, events);
  }

  // ------------------------------------------------------------------
  // The objects' calls
  // ------------------------------------------------------------------

  /** A new hub. */
  lemma NewShows(hub: BroadcastHub)
    requires hub.subscribers == [] && !hub.running && hub.removedSubscriberDrops == 0
    ensures Shows(hub, [], S.NEW)
  {
  }

  /** Adding a new subscription; a refused one is closed. */
  method Add(hub: BroadcastHub, s: FrameSubscriber, ghost added: seq<FrameSubscriber>, ghost h: S.Hub)
    returns (accepted: bool, ghost n: S.Hub)
    requires hub.Valid() && Shows(hub, added, h) && s !in added && !s.closed && s.dropped == 0
    modifies hub, s
    ensures hub.Valid() && Shows(hub, added + [s], n) && (accepted <==> h.running)
    ensures n == S.Run(h, if accepted then [S.Add] else [S.Add, S.Enter(|added|), S.Mark(|added|), S.Detach(|added|),
                                                         S.Wake(|added|)])
  {
    hide S.Run, S.ReportedDrops, Dropped, S.Step;
    accepted := hub.AddFrameSubscriber(s);
    n := if accepted then S.Run(h, [S.Add])
         else S.Run(h, [S.Add, S.Enter(|added|), S.Mark(|added|), S.Detach(|added|), S.Wake(|added|)]);
    AddRuns(h);
  }

  lemma AddRuns(h: S.Hub)
    requires AtRest(h)
    ensures var k := |h.subs|;
      var n := S.Run(h, if h.running then [S.Add]
                        else [S.Add, S.Enter(k), S.Mark(k), S.Detach(k), S.Wake(k)]);
      && n == h.(subs := h.subs + [Idle(h.running, !h.running, 0)]) && S.ReportedDrops(n) == S.ReportedDrops(h)
  {
    var k := |h.subs|;
    var n := S.Step(h, S.Add);
    assert n.subs[k] == S.Subscriber(h.running, false, 0, if h.running then 0 else 1, 0, 0, 0);
    S.DropsAppended(h.subs, Idle(h.running, !h.running, 0));
    if h.running {
      S.RunOne(h, S.Add);
    } else {
      var m := S.Step(n, S.Enter(k));
      assert m.subs == h.subs + [Idle(false, false, 0).(marking := 1)];
      CloseSecondHalf(m, k);
      hide S.Step;
      S.RunAll(h, S.Add, S.Enter(k), S.Mark(k), S.Detach(k), S.Wake(k));
      assert m.subs[k := Idle(false, true, 0)] == h.subs + [Idle(false, true, 0)];
    }
  }

  lemma ClosedKeepsTotal(h: S.Hub, k: nat)
    requires k < |h.subs| && AtRest(h)
    ensures S.ReportedDrops(AfterClose(h, k)) == S.ReportedDrops(h)
  {
    hide S.AttachedDrops;
    S.DropsUpdated(h.subs, k, Idle(false, true, h.subs[k].dropped));
  }

  /** A subscription closes itself, and so leaves the hub. */
  method Close(hub: BroadcastHub, s: FrameSubscriber, ghost k: nat, ghost added: seq<FrameSubscriber>, ghost h: S.Hub)
    returns (ghost n: S.Hub)
    requires hub.Valid() && Shows(hub, added, h) && k < |added| && added[k] == s
    modifies hub, s
    ensures hub.Valid() && Shows(hub, added, n) && s.closed && s !in hub.subscribers
    ensures n == S.Run(h, Closing(k))
  {
    n := S.Run(h, Closing(k));
    hide S.Run, S.ReportedDrops, Closing;
    CloseRuns(h, k);
    if s.closed {
      return;
    }
    hub.Release(s);
    ClosedKeepsTotal(h, k);
  }

  lemma OfferRuns(h: S.Hub, k: nat, full: bool)
    requires AtRest(h) && k < |h.subs| && h.subs[k].attached
    ensures var s, n := h.subs[k], S.Step(h, S.Offer(k, full));
      && n.subs == h.subs[k := s.(dropped := s.dropped + if full then 1 else 0)]
      && AtRest(n) && n.running == h.running && n.removedDrops == h.removedDrops
      && S.ReportedDrops(n) == S.ReportedDrops(h) + if full then 1 else 0
  {
    S.DropsStep(h, S.Offer(k, full));
    S.OfferDrops(h, k, full);
  }

  /** A frame finds a subscription that wants it full. */
  predicate Turned(s: FrameSubscriber, frame: ParsedFrame)
    reads s
  {
    (s.messageIds.None? || frame.id in s.messageIds.value) && s.capacity > 0 && |s.queue| >= s.capacity
  }

  method OfferCounted(hub: BroadcastHub, s: FrameSubscriber, frame: ParsedFrame) returns (ok: bool)
    requires s in hub.subscribers && !s.closed
    requires forall i, j :: 0 <= i < j < |hub.subscribers| ==> hub.subscribers[i] != hub.subscribers[j]
    modifies s
    ensures !s.closed && s.dropped == old(s.dropped) + if old(Turned(s, frame)) then 1 else 0
    ensures hub.TotalDrops() == old(hub.TotalDrops()) + if old(Turned(s, frame)) then 1 else 0
  {
    hide Dropped, Sum;
    ghost var more: nat := if Turned(s, frame) then 1 else 0;
    ghost var place := PlaceIn(hub.subscribers, s);
    ghost var drops := Drops(hub.subscribers);
    DroppedIsSum(hub.subscribers);
    SumUpdated(drops, place, more);
    ok := s.Offer(frame);
    assert Drops(hub.subscribers) == drops[place := drops[place] + more];
    DroppedIsSum(hub.subscribers);
  }

  /** The hub offers a frame to an attached subscription. */
  method Offer(hub: BroadcastHub, s: FrameSubscriber, frame: ParsedFrame, ghost k: nat,
               ghost added: seq<FrameSubscriber>, ghost h: S.Hub)
    returns (ok: bool, ghost n: S.Hub)
    requires Shows(hub, added, h) && k < |added| && added[k] == s && s in hub.subscribers
    requires forall i, j :: 0 <= i < j < |hub.subscribers| ==> hub.subscribers[i] != hub.subscribers[j]
    modifies s
    ensures Shows(hub, added, n) && n == S.Step(h, S.Offer(k, old(Turned(s, frame))))
  {
    ghost var full := Turned(s, frame);
    assert h.subs[k] == Idle(true, s.closed, s.dropped) && !s.closed;
    n := S.Step(h, S.Offer(k, full));
    OfferRuns(h, k, full);
    hide S.Step, S.ReportedDrops, Dropped, Turned;
    ok := OfferCounted(hub, s, frame);
  }

  lemma PlaceIn(ss: seq<FrameSubscriber>, s: FrameSubscriber) returns (k: nat)
    requires s in ss
    ensures k < |ss| && ss[k] == s
  {
    k :| 0 <= k < |ss| && ss[k] == s;
  }

  function Drops(ss: seq<FrameSubscriber>): (drops: seq<nat>)
    reads ss
    ensures |drops| == |ss|
  {
    seq(|ss|, i requires 0 <= i < |ss| reads ss => ss[i].dropped)
  }

  function Sum(drops: seq<nat>): nat {
    if drops == [] then 0 else drops[0] + Sum(drops[1..])
  }

  lemma {:induction false} DroppedIsSum(ss: seq<FrameSubscriber>)
    ensures Dropped(ss) == Sum(Drops(ss))
  {
    if ss != [] {
      DroppedIsSum(ss[1..]);
      assert Drops(ss)[1..] == Drops(ss[1..]);
    }
  }

  lemma {:induction false} SumUpdated(drops: seq<nat>, k: nat, more: nat)
    requires k < |drops|
    ensures Sum(drops[k := drops[k] + more]) == Sum(drops) + more
  {
    if k == 0 {
      assert drops[0 := drops[0] + more][1..] == drops[1..];
    } else {
      assert drops[k := drops[k] + more][1..] == drops[1..][k - 1 := drops[k] + more];
      SumUpdated(drops[1..], k - 1, more);
    }
  }

  method Start(hub: BroadcastHub, ghost added: seq<FrameSubscriber>, ghost h: S.Hub) returns (ghost n: S.Hub)
    requires hub.Valid() && Shows(hub, added, h)
    modifies hub, hub.destinations
    ensures hub.Valid() && Shows(hub, added, n) && n == S.Step(h, S.Start)
  {
    n := S.Step(h, S.Start);
    var _ := hub.Start(true);
  }

  /** A stop; one that fails ends after clearing the flag. */
  method Stop(hub: BroadcastHub, putFails: bool, ghost added: seq<FrameSubscriber>, ghost h: S.Hub)
    returns (raised: bool, ghost n: S.Hub)
    requires hub.Valid() && Shows(hub, added, h)
    modifies hub, hub.destinations, hub.subscribers
    ensures hub.Valid() && Shows(hub, added, n) && (raised <==> h.running && putFails)
    ensures n == S.Run(h, if !h.running then [] else if putFails then [S.StopFlag, S.Fail] else Stopping(h))
  {
    hide S.Run, S.ReportedDrops, Stopping, Dropped;
    NothingRuns(h);
    if h.running {
      StopRuns(h);
      StopFailRuns(h);
    }
    n := S.Run(h, if !h.running then [] else if putFails then [S.StopFlag, S.Fail] else Stopping(h));
    ghost var before := hub.subscribers;
    raised := hub.Stop(putFails);
    NoDrops();
    if old(hub.running) && !raised {
      assert hub.subscribers == [] && hub.TotalDrops() == hub.removedSubscriberDrops;
      forall k | 0 <= k < |added|
        ensures n.subs[k] == Idle(added[k] in hub.subscribers, added[k].closed, added[k].dropped)
      {
        assert h.subs[k] == old(Idle(added[k] in hub.subscribers, added[k].closed, added[k].dropped));
        assert n.subs[k] == Ended(h.subs[k]);
        if added[k] in before {
          assert added[k].closed && added[k].dropped == old(added[k].dropped);
        } else {
          assert added[k].closed == old(added[k].closed);
        }
      }
    }
  }

  lemma NoDrops()
    ensures Dropped([]) == 0
  {
  }

  lemma StopFailRuns(h: S.Hub)
    requires AtRest(h) && h.running
    ensures var n := S.Run(h, [S.StopFlag, S.Fail]);
      n == h.(running := false, failed := h.failed + 1) && S.ReportedDrops(n) == S.ReportedDrops(h)
  {
    S.RunTwo(h, S.StopFlag, S.Fail);
    var m := S.Step(h, S.StopFlag);
    assert m == h.(running := false, flagged := 1);
    assert S.Step(m, S.Fail) == h.(running := false, failed := h.failed + 1);
  }
}
