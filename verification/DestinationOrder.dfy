/** When data can overtake data on its way through a destination. */
module DestinationOrder {
  import opened Bytes
  import opened DestinationRun
  import opened DestinationPaths

  predicate Ordered(items: seq<Item>) {
    forall i, j :: 0 <= i < j < |items| ==> items[i].number < items[j].number
  }

  predicate Before(a: seq<Item>, b: seq<Item>) {
    forall i, j :: 0 <= i < |a| && 0 <= j < |b| ==> a[i].number < b[j].number
  }

  predicate Below(items: seq<Item>, bound: nat) {
    forall i :: 0 <= i < |items| ==> items[i].number < bound
  }

  /** Data in hand is newer than what was sent, older than what waits, and not in two hands. */
  predicate HandsInLine(d: Destination) {
    && (forall i :: 0 <= i < |d.loops| && Holds(d.loops[i]) ==>
          && d.loops[i].item.number < |d.offered|
          && Before(d.sent, [d.loops[i].item]) && Before([d.loops[i].item], Queued(d.queue)))
    && (forall i, j :: 0 <= i < j < |d.loops| && Holds(d.loops[i]) && Holds(d.loops[j]) ==>
          d.loops[i].item.number != d.loops[j].item.number)
  }

  /** Nothing has been overtaken so far. */
  predicate Lined(d: Destination) {
    && Ordered(d.sent) && Ordered(Queued(d.queue)) && Before(d.sent, Queued(d.queue))
    && Below(d.sent, |d.offered|) && Below(Queued(d.queue), |d.offered|)
    && HandsInLine(d)
  }

  /** No other loop has data in its hands. */
  predicate Alone(d: Destination, i: nat) {
    forall j :: 0 <= j < |d.loops| && j != i ==> !Holds(d.loops[j])
  }

  lemma NewIsLined(capacity: nat)
    ensures Lined(New(capacity))
  {
  }

  lemma LinedTail(d: Destination, n: Destination)
    requires Lined(d) && d.queue != [] && n.queue == d.queue[1..]
    requires n.loops == d.loops && n.sent == d.sent && n.offered == d.offered
    ensures Lined(n)
  {
    FrontOfQueue(d.queue);
    hide Queued;
    var front, later := ItemsOf(d.queue[0]), Queued(n.queue);
    assert forall i :: 0 <= i < |later| ==> later[i] == Queued(d.queue)[i + |front|];
  }

  lemma LinedOffered(d: Destination, data: bytes)
    requires Lined(d)
    ensures Lined(Offered(d, data))
  {
    hide Queued;
    var item := Item(|d.offered|, data);
    QueuedAppend(d.queue, [Data(item)]);
    QueuedOne(Data(item));
  }

  lemma LinedTaken(d: Destination, i: nat)
    requires Lined(d) && i < |d.loops|
    ensures Lined(Act(d, i, Get))
  {
    var n := Act(d, i, Get);
    if n != d {
      LinedTail(d, d.(queue := d.queue[1..]));
      if d.queue[0].Data? { FrontInLine(d); }
      hide Queued;
    }
  }

  /** The front of the queue is newer than what was sent or is in hand, and older than the rest. */
  lemma FrontInLine(d: Destination)
    requires Lined(d) && d.queue != [] && d.queue[0].Data?
    ensures var x := d.queue[0].item;
      && x.number < |d.offered| && Before(d.sent, [x]) && Before([x], Queued(d.queue[1..]))
      && (forall j :: 0 <= j < |d.loops| && Holds(d.loops[j]) ==> d.loops[j].item.number < x.number)
  {
    FrontOfQueue(d.queue);
    hide Queued;
    var x, q, later := d.queue[0].item, Queued(d.queue), Queued(d.queue[1..]);
    assert q[0] == x;
    assert forall k :: 0 <= k < |later| ==> later[k] == q[k + 1];
    forall j | 0 <= j < |d.loops| && Holds(d.loops[j]) ensures d.loops[j].item.number < x.number {
      assert Before([d.loops[j].item], q);
      assert [d.loops[j].item][0].number < q[0].number;
    }
  }

  lemma LinedSent(d: Destination, i: nat)
    requires Lined(d) && i < |d.loops|
    requires d.loops[i].Sending? && d.connected ==> Alone(d, i)
    ensures Lined(Act(d, i, Send(true)))
  {
    hide Queued;
  }

  /** A step of a loop that leaves the queue and what was sent as they are. */
  lemma MovesOnly(d: Destination, i: nat, a: LoopAct)
    requires i < |d.loops| && !a.Get? && !a.Clear? && a != Send(true)
    ensures var n := Act(d, i, a);
      && n.sent == d.sent && n.queue == d.queue && n.offered == d.offered && |n.loops| == |d.loops|
      && (Holds(n.loops[i]) ==> Holds(d.loops[i]) && n.loops[i].item == d.loops[i].item)
      && (forall j :: 0 <= j < |d.loops| && j != i ==> n.loops[j] == d.loops[j])
  {
  }

  lemma LinedMoved(d: Destination, i: nat, a: LoopAct)
    requires Lined(d) && i < |d.loops| && !a.Get? && !a.Clear? && a != Send(true)
    ensures Lined(Act(d, i, a))
  {
    hide Queued, Act, Holds;
    MovesOnly(d, i, a);
  }

  lemma LinedActed(d: Destination, i: nat, a: LoopAct)
    requires Lined(d) && i < |d.loops|
    requires d.loops[i].Sending? && d.connected && a == Send(true) ==> Alone(d, i)
    ensures Lined(Act(d, i, a))
  {
    hide Queued, Lined;
    match a
    case Get => LinedTaken(d, i);
    case Clear =>
      if !d.loops[i].Clearing? {
      } else if d.queue != [] {
        LinedTail(d, Drained(d));
      } else {
        LinedCleared(d, i);
      }
    case Send(succeeds) => if succeeds { LinedSent(d, i); } else { LinedMoved(d, i, a); }
    case _ => LinedMoved(d, i, a);
  }

  lemma LinedCleared(d: Destination, i: nat)
    requires Lined(d) && i < |d.loops| && d.loops[i].Clearing? && d.queue == []
    ensures Lined(Act(d, i, Clear))
  {
    hide Queued;
  }

  lemma LinedStopped(d: Destination, j: nat, a: StopAct)
    requires Lined(d) && j < |d.stoppers|
    ensures Lined(StopStep(d, j, a))
  {
    hide Queued, Lined;
    PillHoldsNothing(d.queue);
    if a.MakeRoom? && d.stoppers[j] == MakingRoom && d.queue != [] {
      LinedTail(d, StopStep(d, j, a));
    } else {
      LinedSame(d, StopStep(d, j, a));
    }
  }

  lemma LinedSame(d: Destination, n: Destination)
    requires Lined(d) && Queued(n.queue) == Queued(d.queue) && n.loops == d.loops
    requires n.sent == d.sent && n.offered == d.offered
    ensures Lined(n)
  {
  }

  /** Only a send while another loop has data in its hands can let data overtake. */
  lemma LinedStep(d: Destination, e: Event)
    requires Lined(d)
    requires e.By? && e.act == Send(true) && e.loop < |d.loops| && d.loops[e.loop].Sending? && d.connected ==>
      Alone(d, e.loop)
    ensures Lined(Step(d, e))
  {
    hide Queued, Act, StopStep, Offered;
    match e
    case Offer(data) => LinedOffered(d, data);
    case StopBy(j, stop) => if j < |d.stoppers| { LinedStopped(d, j, stop); }
    case By(i, act) => if i < |d.loops| { LinedActed(d, i, act); }
    case Drain => if d.queue != [] { LinedTail(d, Drained(d)); }
    case _ =>
  }

  // ------------------------------------------------------------------
  // With one loop at a time, nothing is overtaken
  // ------------------------------------------------------------------

  /** No start happens while an earlier loop is still alive. */
  predicate NoOverlap(d: Destination, events: seq<Event>)
    decreases |events|
  {
    events == [] ||
    (&& (events[0] == Start && !d.running ==> LiveCount(d.loops) == 0)
     && NoOverlap(Step(d, events[0]), events[1..]))
  }

  lemma LiveStep(d: Destination, e: Event)
    ensures LiveCount(Step(d, e).loops) <= LiveCount(d.loops) + if e == Start && !d.running then 1 else 0
  {
    hide LiveCount, Act;
    match e
    case Start => OneMoreLoop(d.loops, Checking);
    case By(i, act) => if i < |d.loops| { LiveAct(d, i, act); }
    case _ =>
  }

  lemma OneLiveIsAlone(d: Destination, i: nat)
    requires i < |d.loops| && Live(d.loops[i]) && LiveCount(d.loops) <= 1
    ensures Alone(d, i)
  {
    forall j | 0 <= j < |d.loops| && j != i ensures !Holds(d.loops[j]) {
      if Holds(d.loops[j]) { LiveTwoCount(d.loops, i, j); }
    }
  }

  lemma {:induction false} LinedRun(d: Destination, events: seq<Event>)
    requires Lined(d) && LiveCount(d.loops) <= 1 && NoOverlap(d, events)
    ensures Lined(Run(d, events))
    decreases |events|
  {
    if events != [] {
      var e := events[0];
      if e.By? && e.loop < |d.loops| && Live(d.loops[e.loop]) { OneLiveIsAlone(d, e.loop); }
      LinedStep(d, e);
      LiveStep(d, e);
      hide Lined, Step, LiveCount;
      LinedRun(Step(d, e), events[1..]);
    }
  }

  /** The items are the offered ones at strictly increasing places. */
  ghost predicate InOrderPartOf(items: seq<Item>, offered: seq<Item>) {
    && Ordered(items)
    && (forall k :: 0 <= k < |items| ==> items[k].number < |offered| && offered[items[k].number] == items[k])
  }

  /** In every run in which no start happens while an earlier loop is alive, what is sent is an
      in-order part of what is offered. */
  lemma OrderKept(capacity: nat, events: seq<Event>)
    requires NoOverlap(New(capacity), events)
    ensures var d := Run(New(capacity), events); InOrderPartOf(d.sent, d.offered)
  {
    hide Run, NoOverlap, Queued, HandsInLine, Sound;
    NewIsLined(capacity);
    LinedRun(New(capacity), events);
    NewIsSound(capacity);
    SoundRun(New(capacity), events);
    SentIsDistinct(Run(New(capacity), events));
  }

  // ------------------------------------------------------------------
  // A queue that nobody reads
  // ------------------------------------------------------------------

  function OffersOf(datas: seq<bytes>): seq<Event> {
    if datas == [] then [] else [Offer(datas[0])] + OffersOf(datas[1..])
  }

  /** Data numbered from n on. */
  function Numbers(datas: seq<bytes>, n: nat): seq<Item> {
    if datas == [] then [] else [Item(n, datas[0])] + Numbers(datas[1..], n + 1)
  }

  function AsEntries(items: seq<Item>): seq<Entry> {
    if items == [] then [] else [Data(items[0])] + AsEntries(items[1..])
  }

  /** How many of n a queue has room for; a capacity of 0 is no bound. */
  function RoomFor(d: Destination, n: nat): nat {
    if d.capacity == 0 || |d.queue| + n <= d.capacity then n
    else if |d.queue| <= d.capacity then d.capacity - |d.queue| else 0
  }

  /** What some offers have left: these items kept, and these dropped. */
  predicate Queues(d: Destination, n: Destination, kept: seq<Item>, dropped: seq<Item>) {
    && n.queue == d.queue + AsEntries(kept)
    && n.dropped == d.dropped + dropped
    && n.offered == d.offered + (kept + dropped)
  }

  lemma OneOffer(d: Destination, data: bytes)
    ensures var n, item := Step(d, Offer(data)), Item(|d.offered|, data);
      && n.capacity == d.capacity && n.offered == d.offered + [item]
      && n.queue == (if Full(d) then d.queue else d.queue + [Data(item)])
      && n.dropped == (if Full(d) then d.dropped + [item] else d.dropped)
  {
  }

  lemma OneDropped(d: Destination, n: Destination, e: Destination, item: Item, dropped: seq<Item>)
    requires n.queue == d.queue && n.dropped == d.dropped + [item] && n.offered == d.offered + [item]
    requires Queues(n, e, [], dropped)
    ensures Queues(d, e, [], [item] + dropped)
  {
    hide AsEntries;
    assert [] + dropped == dropped && [] + ([item] + dropped) == [item] + dropped;
    assert (d.dropped + [item]) + dropped == d.dropped + ([item] + dropped);
    assert (d.offered + [item]) + dropped == d.offered + ([item] + dropped);
  }

  lemma OneKept(d: Destination, n: Destination, e: Destination, item: Item, kept: seq<Item>, dropped: seq<Item>)
    requires n.queue == d.queue + [Data(item)] && n.dropped == d.dropped && n.offered == d.offered + [item]
    requires Queues(n, e, kept, dropped)
    ensures Queues(d, e, [item] + kept, dropped)
  {
    EntriesMore(item, kept);
    hide AsEntries;
    assert (d.queue + [Data(item)]) + AsEntries(kept) == d.queue + ([Data(item)] + AsEntries(kept));
    assert (d.offered + [item]) + (kept + dropped) == d.offered + (([item] + kept) + dropped);
  }

  lemma NoneOffered(d: Destination)
    ensures Queues(d, Run(d, OffersOf([])), [], []) && RoomFor(d, 0) == 0 && Numbers([], |d.offered|) == []
  {
    assert d.queue + [] == d.queue && d.dropped + [] == d.dropped && d.offered + ([] + []) == d.offered;
  }

  lemma NumbersFirst(datas: seq<bytes>, n: nat)
    requires datas != []
    ensures Numbers(datas, n) == [Item(n, datas[0])] + Numbers(datas[1..], n + 1)
  {
  }

  lemma {:induction false} NumbersSize(datas: seq<bytes>, n: nat)
    ensures |Numbers(datas, n)| == |datas|
  {
    if datas != [] { NumbersSize(datas[1..], n + 1); }
  }

  lemma RoomBound(d: Destination, n: nat)
    ensures RoomFor(d, n) <= n
  {
  }

  /** The oldest data offered stays, as much as there is room for; the newest is dropped and counted. */
  lemma {:induction false} NewestIsDropped(d: Destination, datas: seq<bytes>)
    ensures var all, m := Numbers(datas, |d.offered|), RoomFor(d, |datas|);
      m <= |all| == |datas| && Queues(d, Run(d, OffersOf(datas)), all[..m], all[m..])
    decreases |datas|
  {
    hide Queues, Step, Run, RoomFor, Numbers, Full;
    NumbersSize(datas, |d.offered|);
    RoomBound(d, |datas|);
    var all, m := Numbers(datas, |d.offered|), RoomFor(d, |datas|);
    if datas == [] {
      NoneOffered(d);
    } else {
      var n, e, item := Step(d, Offer(datas[0])), Run(d, OffersOf(datas)), Item(|d.offered|, datas[0]);
      OneOffer(d, datas[0]);
      NewestIsDropped(n, datas[1..]);
      RunFirst(d, datas);
      NumbersFirst(datas, |d.offered|);
      var later, k := Numbers(datas[1..], |n.offered|), RoomFor(n, |datas| - 1);
      assert all == [item] + later;
      if Full(d) {
        NoRoom(d, |datas|);
        StillFull(d, n);
        NoRoom(n, |datas| - 1);
        assert later[..0] == [] && later[0..] == later && all[..0] == [] && all[0..] == [item] + later;
        OneDropped(d, n, e, item, later);
      } else {
        RoomTaken(d, n, |datas|);
        assert all[..k + 1] == [item] + later[..k] && all[k + 1..] == later[k..];
        OneKept(d, n, e, item, later[..k], later[k..]);
      }
    }
  }

  lemma StillFull(d: Destination, n: Destination)
    requires Full(d) && n.queue == d.queue && n.capacity == d.capacity
    ensures Full(n)
  {
  }

  lemma RunFirst(d: Destination, datas: seq<bytes>)
    requires datas != []
    ensures Run(d, OffersOf(datas)) == Run(Step(d, Offer(datas[0])), OffersOf(datas[1..]))
  {
    hide Step;
    assert OffersOf(datas)[1..] == OffersOf(datas[1..]);
  }

  lemma NoRoom(d: Destination, n: nat)
    requires Full(d)
    ensures RoomFor(d, n) == 0
  {
  }

  lemma RoomTaken(d: Destination, n: Destination, k: nat)
    requires !Full(d) && n.capacity == d.capacity && |n.queue| == |d.queue| + 1 && k > 0
    ensures RoomFor(d, k) == RoomFor(n, k - 1) + 1
  {
  }

  lemma EntriesMore(item: Item, items: seq<Item>)
    ensures AsEntries([item] + items) == [Data(item)] + AsEntries(items)
  {
    assert ([item] + items)[1..] == items;
  }
}
