/** The destination object itself: its bounded queue and counters, updated in place. Every method
    is a run of the atomic steps of DestinationRun that nothing else interferes with. */
module BaseDestination {
  import opened Bytes
  import opened MessageFilter
  import opened DestinationRun

  function Payloads(items: seq<Item>): seq<bytes> {
    seq(|items|, i requires 0 <= i < |items| => items[i].data)
  }

  /** The queue as it is stored: data, or None for a pill. */
  predicate Stores(queue: seq<Option<bytes>>, entries: seq<Entry>) {
    && |queue| == |entries|
    && (forall i :: 0 <= i < |queue| ==>
          queue[i] == if entries[i].Data? then Some(entries[i].item.data) else None)
  }

  lemma StoresNext(queue: seq<Option<bytes>>, entries: seq<Entry>, x: Option<bytes>, e: Entry)
    requires Stores(queue, entries) && Stores([x], [e])
    ensures Stores(queue + [x], entries + [e])
  {
  }

  // ------------------------------------------------------------------
  // Emptying the queue
  // ------------------------------------------------------------------

  function Times(n: nat, e: Event): (events: seq<Event>)
    ensures |events| == n
  {
    seq(n, i => e)
  }

  lemma OnceMore(n: nat, e: Event)
    ensures Times(n + 1, e)[0] == e && Times(n + 1, e)[1..] == Times(n, e)
  {
  }

  function Emptied(d: Destination): Destination {
    d.(queue := [], cleared := d.cleared + Queued(d.queue))
  }

  lemma EmptiedLater(d: Destination)
    requires d.queue != []
    ensures Emptied(Drained(d)) == Emptied(d)
  {
    assert d.cleared + Queued(d.queue) == Drained(d).cleared + Queued(Drained(d).queue);
  }

  /** An event that takes one entry out of the queue empties it when repeated. */
  lemma {:induction false} RepeatedlyDrained(d: Destination, e: Event)
    requires e == Drain || (e.By? && e.act == Clear && e.loop < |d.loops| && d.loops[e.loop].Clearing?)
    ensures Run(d, Times(|d.queue|, e)) == Emptied(d)
    decreases |d.queue|
  {
    if d.queue == [] {
      assert d.cleared + [] == d.cleared;
    } else {
      var n := Step(d, e);
      assert n == Drained(d);
      OnceMore(|n.queue|, e);
      RepeatedlyDrained(n, e);
      EmptiedLater(d);
    }
  }

  lemma {:induction false} ClearsIdle(d: Destination, me: nat, n: nat)
    requires me < |d.loops| && !d.loops[me].Clearing?
    ensures Run(d, Times(n, By(me, Clear))) == d
  {
    if n > 0 {
      OnceMore(n - 1, By(me, Clear));
      ClearsIdle(d, me, n - 1);
    }
  }

  // ------------------------------------------------------------------
  // One pass of a loop
  // ------------------------------------------------------------------

  /** How a connection attempt ends. */
  datatype Outcome = Connects | StaysDown | Raises

  /** A look at the connection, emptying the queue if an attempt connects, and a send. */
  function PassTail(me: nat, waiting: nat, outcome: Outcome, sends: bool): seq<Event> {
    [By(me, Look), By(me, Connect(outcome == Connects))]
    + (Times(waiting, By(me, Clear)) + [By(me, Clear), By(me, Recheck), By(me, Send(sends))])
  }

  /** A read that gets an entry or times out, and what follows. */
  function Pass(d: Destination, me: nat, outcome: Outcome, sends: bool): seq<Event> {
    [By(me, Check), By(me, Get), By(me, Expire)]
    + PassTail(me, if d.queue == [] then 0 else |d.queue| - 1, outcome, sends)
  }

  function AfterSend(d: Destination, item: Item, sends: bool): Destination {
    if sends then d.(sent := d.sent + [item], wire := d.wire + [item])
    else d.(failed := d.failed + [item], connected := false)
  }

  /** What becomes of data in hand. */
  function Handled(d: Destination, item: Item, outcome: Outcome, sends: bool): Destination {
    if d.connected then AfterSend(d, item, sends)
    else if outcome == Connects then AfterSend(Emptied(d).(connected := true, wire := []), item, sends)
    else d.(dropped := d.dropped + [item])
  }

  /** How often handling one piece of data counts as an error. */
  function ErrorsIn(connected: bool, outcome: Outcome, sends: bool): nat {
    if connected || outcome == Connects then (if sends then 0 else 1)
    else if outcome == Raises then 1
    else 0
  }

  /** What a pass comes to. */
  function AfterPass(d: Destination, me: nat, outcome: Outcome, sends: bool): Destination
    requires me < |d.loops|
  {
    if !d.running then At(d, me, Off)
    else if d.queue == [] then d
    else
      var n := d.(queue := d.queue[1..]);
      if d.queue[0].Pill? then At(n, me, Off) else Handled(n, d.queue[0].item, outcome, sends)
  }

  lemma ReadStopped(d: Destination, me: nat)
    requires me < |d.loops| && d.loops[me] == Checking && !d.running
    ensures Step(Step(Step(d, By(me, Check)), By(me, Get)), By(me, Expire)) == At(d, me, Off)
  {
  }

  lemma ReadExpired(d: Destination, me: nat)
    requires me < |d.loops| && d.loops[me] == Checking && d.running && d.queue == []
    ensures Step(Step(Step(d, By(me, Check)), By(me, Get)), By(me, Expire)) == d
  {
    assert d.loops[me := Getting][me := Checking] == d.loops;
  }

  lemma ReadTaken(d: Destination, me: nat)
    requires me < |d.loops| && d.loops[me] == Checking && d.running && d.queue != []
    ensures Step(Step(Step(d, By(me, Check)), By(me, Get)), By(me, Expire))
      == At(d.(queue := d.queue[1..]), me, if d.queue[0].Pill? then Off else Holding(d.queue[0].item))
  {
    assert Step(d, By(me, Check)) == At(d, me, Getting);
  }

  lemma PassRead(d: Destination, me: nat)
    requires me < |d.loops| && d.loops[me] == Checking
    ensures Run(d, [By(me, Check), By(me, Get), By(me, Expire)]) ==
      if !d.running then At(d, me, Off)
      else if d.queue == [] then d
      else At(d.(queue := d.queue[1..]), me, if d.queue[0].Pill? then Off else Holding(d.queue[0].item))
  {
    hide Run, Step;
    RunThree(d, By(me, Check), By(me, Get), By(me, Expire));
    if !d.running {
      ReadStopped(d, me);
    } else if d.queue == [] {
      ReadExpired(d, me);
    } else {
      ReadTaken(d, me);
    }
  }

  lemma PassConnect(d: Destination, me: nat, connects: bool)
    requires me < |d.loops|
    ensures var n := Run(d, [By(me, Look), By(me, Connect(connects))]);
      var l := d.loops[me];
      && (l == Off || l == Checking ==> n == d)
      && (l.Holding? && d.connected ==> n == At(d, me, Sending(l.item)))
      && (l.Holding? && !d.connected && connects ==> n == At(d.(connected := true, wire := []), me, Clearing(l.item)))
      && (l.Holding? && !d.connected && !connects ==> n == At(d, me, Rechecking(l.item)))
  {
    hide Run;
    RunTwo(d, By(me, Look), By(me, Connect(connects)));
  }

  lemma PassEnd(d: Destination, me: nat, sends: bool)
    requires me < |d.loops|
    ensures var n := Run(d, [By(me, Clear), By(me, Recheck), By(me, Send(sends))]);
      var l := d.loops[me];
      && (l == Off || l == Checking ==> n == d)
      && (l.Sending? && d.connected ==> n == At(AfterSend(d, l.item, sends), me, Checking))
      && (l.Clearing? && d.queue == [] && d.connected ==> n == At(AfterSend(d, l.item, sends), me, Checking))
      && (l.Rechecking? && !d.connected ==> n == At(d.(dropped := d.dropped + [l.item]), me, Checking))
  {
    hide Run;
    RunThree(d, By(me, Clear), By(me, Recheck), By(me, Send(sends)));
  }

  lemma PassTailRuns(d: Destination, me: nat, waiting: nat, outcome: Outcome, sends: bool)
    ensures var d1 := Run(d, [By(me, Look), By(me, Connect(outcome == Connects))]);
      Run(d, PassTail(me, waiting, outcome, sends))
      == Run(Run(d1, Times(waiting, By(me, Clear))), [By(me, Clear), By(me, Recheck), By(me, Send(sends))])
  {
    hide Run;
    var end := [By(me, Clear), By(me, Recheck), By(me, Send(sends))];
    RunAppend(d, [By(me, Look), By(me, Connect(outcome == Connects))], Times(waiting, By(me, Clear)) + end);
    RunAppend(Run(d, [By(me, Look), By(me, Connect(outcome == Connects))]), Times(waiting, By(me, Clear)), end);
  }

  /** With a connection to begin with, or none to be had. */
  lemma PassHandlesDirectly(d: Destination, me: nat, outcome: Outcome, sends: bool)
    requires me < |d.loops| && d.loops[me].Holding? && (d.connected || outcome != Connects)
    ensures Run(d, PassTail(me, |d.queue|, outcome, sends))
         == At(Handled(d, d.loops[me].item, outcome, sends), me, Checking)
  {
    hide Run, Step, Emptied, PassTail;
    PassTailRuns(d, me, |d.queue|, outcome, sends);
    PassConnect(d, me, outcome == Connects);
    var d1 := Run(d, [By(me, Look), By(me, Connect(outcome == Connects))]);
    ClearsIdle(d1, me, |d.queue|);
    PassEnd(d1, me, sends);
  }

  /** With a connection that has to be made first. */
  lemma PassHandlesConnecting(d: Destination, me: nat, sends: bool)
    requires me < |d.loops| && d.loops[me].Holding? && !d.connected
    ensures Run(d, PassTail(me, |d.queue|, Connects, sends))
         == At(Handled(d, d.loops[me].item, Connects, sends), me, Checking)
  {
    hide Run, Step, Queued, PassTail;
    PassTailRuns(d, me, |d.queue|, Connects, sends);
    PassConnect(d, me, true);
    var d1 := Run(d, [By(me, Look), By(me, Connect(true))]);
    RepeatedlyDrained(d1, By(me, Clear));
    PassEnd(Emptied(d1), me, sends);
  }

  lemma PassHandles(d: Destination, me: nat, outcome: Outcome, sends: bool)
    requires me < |d.loops| && d.loops[me].Holding?
    ensures Run(d, PassTail(me, |d.queue|, outcome, sends))
         == At(Handled(d, d.loops[me].item, outcome, sends), me, Checking)
  {
    hide Run, Step, PassTail, Handled;
    if d.connected || outcome != Connects {
      PassHandlesDirectly(d, me, outcome, sends);
    } else {
      PassHandlesConnecting(d, me, sends);
    }
  }

  lemma PassIdles(d: Destination, me: nat, waiting: nat, outcome: Outcome, sends: bool)
    requires me < |d.loops| && (d.loops[me] == Off || d.loops[me] == Checking)
    ensures Run(d, PassTail(me, waiting, outcome, sends)) == d
  {
    hide Run, Step, PassTail;
    PassTailRuns(d, me, waiting, outcome, sends);
    PassConnect(d, me, outcome == Connects);
    ClearsIdle(d, me, waiting);
    PassEnd(d, me, sends);
  }

  lemma PassIsRun(d: Destination, me: nat, outcome: Outcome, sends: bool)
    requires me < |d.loops| && d.loops[me] == Checking
    ensures Run(d, Pass(d, me, outcome, sends)) == AfterPass(d, me, outcome, sends)
  {
    hide Run, Handled, PassTail;
    PassRead(d, me);
    var n := Run(d, [By(me, Check), By(me, Get), By(me, Expire)]);
    var waiting := if d.queue == [] then 0 else |d.queue| - 1;
    RunAppend(d, [By(me, Check), By(me, Get), By(me, Expire)], PassTail(me, waiting, outcome, sends));
    if n.loops[me].Holding? {
      PassHandles(n, me, outcome, sends);
      HandledKeepsPlace(d.(queue := d.queue[1..]), me, n.loops[me].item, outcome, sends);
    } else {
      PassIdles(n, me, waiting, outcome, sends);
    }
  }

  lemma HandledKeepsPlace(d: Destination, me: nat, item: Item, outcome: Outcome, sends: bool)
    requires me < |d.loops| && d.loops[me] == Checking
    ensures At(Handled(At(d, me, Holding(item)), item, outcome, sends), me, Checking) == Handled(d, item, outcome, sends)
  {
    hide Queued;
    assert d.loops[me := Holding(item)][me := Checking] == d.loops;
  }

  // ------------------------------------------------------------------
  // Stopping
  // ------------------------------------------------------------------

  /** A stop, and the data another thread may offer just when room for the pill has been made. */
  function StopEvents(d: Destination, overtaking: Option<bytes>): seq<Event> {
    var j := |d.stoppers|;
    [StopFlag, StopBy(j, PutPill), StopBy(j, MakeRoom)]
    + ((if Full(d) && overtaking.Some? then [Offer(overtaking.value)] else [])
    + [StopBy(j, PutPillAgain), StopBy(j, Finish)])
  }

  function Stopped(d: Destination, end: Stopper): Destination {
    d.(running := false, stoppers := d.stoppers + [end])
  }

  lemma StopBegins(d: Destination)
    requires d.running
    ensures var j := |d.stoppers|;
      Run(d, [StopFlag, StopBy(j, PutPill), StopBy(j, MakeRoom)]) ==
      if !Full(d) then Stopped(d, Joining).(queue := d.queue + [Pill])
      else if d.queue == [] then Stopped(d, Joining)
      else Stopped(d, Pilling).(queue := d.queue[1..], discarded := d.discarded + ItemsOf(d.queue[0]))
  {
    hide Run;
    var j := |d.stoppers|;
    RunThree(d, StopFlag, StopBy(j, PutPill), StopBy(j, MakeRoom));
    assert forall s, t :: (d.stoppers + [s])[j := t] == d.stoppers + [t];
  }

  lemma StopEnds(d: Destination, j: nat)
    requires j + 1 == |d.stoppers|
    ensures var before := d.stoppers[..j];
      Run(d, [StopBy(j, PutPillAgain), StopBy(j, Finish)]) ==
      if d.stoppers[j] == Joining then d.(connected := false, stoppers := before + [Finished])
      else if d.stoppers[j] != Pilling then d
      else if Full(d) then d.(stoppers := before + [Raised])
      else d.(connected := false, queue := d.queue + [Pill], stoppers := before + [Finished])
  {
    hide Run;
    RunTwo(d, StopBy(j, PutPillAgain), StopBy(j, Finish));
    assert forall t :: d.stoppers[j := t] == d.stoppers[..j] + [t];
    assert forall s, t :: (d.stoppers[..j] + [s])[j := t] == d.stoppers[..j] + [t];
  }

  lemma StopWithRoom(d: Destination, overtaking: Option<bytes>)
    requires d.running && !Full(d)
    ensures Run(d, StopEvents(d, overtaking))
         == Stopped(d, Finished).(connected := false, queue := d.queue + [Pill])
  {
    hide Run;
    var j := |d.stoppers|;
    StopBegins(d);
    var n := Stopped(d, Joining).(queue := d.queue + [Pill]);
    StopEnds(n, j);
    assert n.stoppers[..j] == d.stoppers;
    var end := [StopBy(j, PutPillAgain), StopBy(j, Finish)];
    assert [] + end == end;
    RunAppend(d, [StopFlag, StopBy(j, PutPill), StopBy(j, MakeRoom)], end);
  }

  function RoomMade(d: Destination): Destination
    requires d.queue != []
  {
    Stopped(d, Pilling).(queue := d.queue[1..], discarded := d.discarded + ItemsOf(d.queue[0]))
  }

  /** A full queue gives up its oldest entry for the pill. */
  lemma StopWhenFull(d: Destination)
    requires d.running && Full(d) && Bounded(d)
    ensures Run(d, StopEvents(d, None))
         == Stopped(d, Finished).(connected := false, queue := d.queue[1..] + [Pill],
                                  discarded := d.discarded + ItemsOf(d.queue[0]))
  {
    hide Run;
    var j, n := |d.stoppers|, RoomMade(d);
    StopBegins(d);
    StopEnds(n, j);
    assert n.stoppers[..j] == d.stoppers;
    var end := [StopBy(j, PutPillAgain), StopBy(j, Finish)];
    assert [] + end == end;
    RunAppend(d, [StopFlag, StopBy(j, PutPill), StopBy(j, MakeRoom)], end);
  }

  /** Where an offer takes the room, stop ends by an exception and leaves the connection alone. */
  lemma StopOvertaken(d: Destination, data: bytes)
    requires d.running && Full(d) && Bounded(d)
    ensures Run(d, StopEvents(d, Some(data)))
         == Offered(RoomMade(d), data).(stoppers := d.stoppers + [Raised])
  {
    hide Run;
    var j, n := |d.stoppers|, RoomMade(d);
    var begin, end := [StopFlag, StopBy(j, PutPill), StopBy(j, MakeRoom)], [StopBy(j, PutPillAgain), StopBy(j, Finish)];
    StopBegins(d);
    var m := Offered(n, data);
    StopEnds(m, j);
    assert m.stoppers[..j] == d.stoppers;
    RunOne(n, Offer(data));
    RunAppend(n, [Offer(data)], end);
    RunAppend(d, begin, [Offer(data)] + end);
  }

  lemma HandSteps(d: Destination, me: nat, connects: bool)
    requires me < |d.loops| && d.loops[me].Holding? && !d.connected
    ensures Run(d, [By(me, Look), By(me, Connect(connects))])
      == if connects then At(d.(connected := true, wire := []), me, Clearing(d.loops[me].item))
         else At(d, me, Rechecking(d.loops[me].item))
  {
    PassConnect(d, me, connects);
  }

  lemma RecheckSteps(d: Destination, me: nat)
    requires me < |d.loops| && d.loops[me].Rechecking?
    ensures Step(d, By(me, Recheck))
      == if d.connected then At(d, me, Sending(d.loops[me].item))
         else At(d.(dropped := d.dropped + [d.loops[me].item]), me, Checking)
  {
  }

  lemma LookSteps(d: Destination, me: nat)
    requires me < |d.loops| && d.loops[me].Holding? && d.connected
    ensures Step(d, By(me, Look)) == At(d, me, Sending(d.loops[me].item))
  {
  }

  lemma SendSteps(d: Destination, me: nat, sends: bool)
    requires me < |d.loops| && d.loops[me].Sending? && d.connected
    ensures Step(d, By(me, Send(sends))) == At(AfterSend(d, d.loops[me].item, sends), me, Checking)
  {
  }

  lemma PayloadsMore(items: seq<Item>, x: Item)
    ensures Payloads(items + [x]) == Payloads(items) + [x.data]
  {
  }

  // ------------------------------------------------------------------
  // The object
  // ------------------------------------------------------------------

  class BaseDestination {
    const name: string
    const filter: FilterConfig
    const capacity: nat
    var enabled: bool
    var queue: seq<Option<bytes>>
    var running: bool
    var connected: bool
    var messagesSent: nat
    var messagesDropped: nat
    var messagesFiltered: nat
    var errors: nat
    var connectionAttempts: nat
    var successfulConnections: nat
    var connectionFailures: nat
    ghost var view: Destination

    ghost predicate Valid()
      reads this
    {
      && view.capacity == capacity && view.running == running && view.connected == connected
      && Stores(queue, view.queue) && Bounded(view)
      && messagesSent == |view.sent| && messagesDropped == |view.dropped|
      && connectionAttempts == successfulConnections + connectionFailures
    }

    /** All data the hub has offered, queued or not. */
    ghost function Offers(): seq<bytes>
      reads this
    {
      Payloads(view.offered)
    }

    constructor (name: string, filter: FilterConfig, capacity: nat)
      ensures Valid() && view == New(capacity)
      ensures this.name == name && this.filter == filter && enabled
      ensures messagesFiltered == 0 && errors == 0 && connectionAttempts == 0
    {
      this.name, this.filter, this.capacity := name, filter, capacity;
      enabled, queue, running, connected := true, [], false, false;
      messagesSent, messagesDropped, messagesFiltered, errors := 0, 0, 0, 0;
      connectionAttempts, successfulConnections, connectionFailures := 0, 0, 0;
      view := New(capacity);
    }

    predicate IsFull()
      reads this
    {
      capacity > 0 && |queue| >= capacity
    }

    method Enqueue(data: bytes) returns (ok: bool)
      requires Valid()
      modifies this`queue, this`messagesDropped, this`view
      ensures Valid()
      ensures view == Step(old(view), Offer(data))
      ensures Offers() == old(Offers()) + [data]
      ensures ok <==> !Full(old(view))
    {
      ok := !IsFull();
      if ok {
        queue := queue + [Some(data)];
      } else {
        messagesDropped := messagesDropped + 1;
      }
      view := Step(view, Offer(data));
    }

    method ClearQueue() returns (cleared: nat)
      requires Valid()
      modifies this`queue, this`view
      ensures Valid() && queue == []
      ensures cleared == |old(queue)|
      ensures view == Emptied(old(view)) == Run(old(view), Times(cleared, Drain))
    {
      hide Run;
      RepeatedlyDrained(view, Drain);
      cleared := 0;
      NothingToEmpty(view);
      while queue != []
        invariant Valid() && cleared + |queue| == |old(queue)|
        invariant Emptied(view) == Emptied(old(view))
        decreases |queue|
      {
        EmptiedLater(view);
        queue := queue[1..];
        cleared := cleared + 1;
        view := Drained(view);
      }
      NothingToEmpty(view);
    }

    /** A start always adds a loop. */
    method Start()
      requires Valid()
      modifies this`running, this`view
      ensures Valid() && running
      ensures view == Step(old(view), DestinationRun.Start)
      ensures Offers() == old(Offers())
    {
      if running {
        return;
      }
      running := true;
      view := Step(view, DestinationRun.Start);
    }

    /** A stop, with what another thread may offer just when room for the pill has been made; `raised`
        tells that the second put failed. */
    method Stop(overtaking: Option<bytes>) returns (raised: bool)
      requires Valid()
      modifies this`running, this`queue, this`connected, this`view
      ensures Valid() && !running
      ensures view == if old(running) then Run(old(view), StopEvents(old(view), overtaking)) else old(view)
      ensures raised <==> old(running) && Full(old(view)) && overtaking.Some?
      ensures Offers() == old(Offers()) + if raised then [overtaking.value] else []
    {
      assert Offers() == Offers() + [];
      if !running {
        return false;
      }
      if IsFull() {
        raised := StopFull(overtaking);
        return;
      }
      hide Run, Step, Payloads;
      StopWithRoom(view, overtaking);
      running := false;
      queue := queue + [None];
      connected := false;
      view := Run(view, StopEvents(view, overtaking));
      return false;
    }

    /** A stop that has to make room for its pill. */
    method StopFull(overtaking: Option<bytes>) returns (raised: bool)
      requires Valid() && running && Full(view)
      modifies this`running, this`queue, this`connected, this`view
      ensures Valid() && !running
      ensures view == Run(old(view), StopEvents(old(view), overtaking))
      ensures raised <==> overtaking.Some?
      ensures Offers() == old(Offers()) + if raised then [overtaking.value] else []
    {
      hide Run, Step, Payloads;
      assert Offers() == Offers() + [];
      running := false;
      queue := queue[1..];
      if overtaking.Some? {
        StopOvertaken(view, overtaking.value);
        PayloadsMore(view.offered, Item(|view.offered|, overtaking.value));
        ghost var item := Item(|view.offered|, overtaking.value);
        StoresNext(queue, view.queue[1..], overtaking, Data(item));
        assert view.offered + [item] == Offered(RoomMade(view), overtaking.value).offered;
        queue := queue + [overtaking];
        view := Run(view, StopEvents(view, overtaking));
        assert view.queue == old(view).queue[1..] + [Data(item)];
        return true;
      }
      StopWhenFull(view);
      StoresNext(queue, view.queue[1..], None, Pill);
      queue := queue + [None];
      connected := false;
      view := Run(view, StopEvents(view, overtaking));
      return false;
    }

    /** A connection attempt of loop `me`; the queue is emptied only when it succeeds. */
    method AttemptConnect(ghost me: nat, outcome: Outcome)
      requires Valid() && me < |view.loops| && view.loops[me].Holding? && !connected
      modifies this`queue, this`connected, this`errors, this`view
      modifies this`connectionAttempts, this`successfulConnections, this`connectionFailures
      ensures Valid()
      ensures connectionAttempts == old(connectionAttempts) + 1
      ensures successfulConnections == old(successfulConnections) + if outcome == Connects then 1 else 0
      ensures errors == old(errors) + if outcome == Raises then 1 else 0
      ensures var n := At(old(view), me, Rechecking(old(view).loops[me].item));
        view == if outcome == Connects then Emptied(n).(connected := true, wire := []) else n
      ensures connected <==> outcome == Connects
    {
      hide Run, Queued, Step;
      HandSteps(view, me, outcome == Connects);
      connectionAttempts := connectionAttempts + 1;
      view := Run(view, [By(me, Look), By(me, Connect(outcome == Connects))]);
      match outcome
      case Connects =>
        connected := true;
        successfulConnections := successfulConnections + 1;
        var cleared := ClearQueue();
        view := At(view, me, Rechecking(view.loops[me].item));
      case StaysDown =>
        connectionFailures := connectionFailures + 1;
      case Raises =>
        connectionFailures := connectionFailures + 1;
        errors := errors + 1;
    }

    /** Send the data loop `me` has in hand; the connection may have been lost since it looked. An
        error disconnects. */
    method Deliver(ghost me: nat, sends: bool)
      requires Valid() && me < |view.loops| && view.loops[me].Sending?
      modifies this`connected, this`errors, this`messagesSent, this`view
      ensures Valid() && view == Step(old(view), By(me, Send(sends)))
      ensures errors == old(errors) + if sends && old(connected) then 0 else 1
    {
      var sent := sends && connected;
      if sent {
        messagesSent := messagesSent + 1;
      } else {
        errors := errors + 1;
        connected := false;
      }
      view := Step(view, By(me, Send(sends)));
    }

    /** Data in hand: connect if need be, then send it or drop it. */
    method Handle(ghost me: nat, outcome: Outcome, sends: bool)
      requires Valid() && me < |view.loops| && view.loops[me].Holding?
      modifies this`queue, this`connected, this`errors, this`view, this`messagesSent, this`messagesDropped
      modifies this`connectionAttempts, this`successfulConnections, this`connectionFailures
      ensures Valid()
      ensures view == At(Handled(old(view), old(view).loops[me].item, outcome, sends), me, Checking)
      ensures errors == old(errors) + ErrorsIn(old(connected), outcome, sends)
      ensures connectionAttempts == old(connectionAttempts) + if old(connected) then 0 else 1
    {
      hide Run, Queued, Step;
      if !connected {
        AttemptConnect(me, outcome);
        RecheckSteps(view, me);
        view := Step(view, By(me, Recheck));
        if !connected {
          messagesDropped := messagesDropped + 1;
          return;
        }
      } else {
        LookSteps(view, me);
        view := Step(view, By(me, Look));
      }
      SendSteps(view, me, sends);
      Deliver(me, sends);
    }

    /** One pass of loop `me`; it goes on as long as `alive`. */
    method OnePass(ghost me: nat, outcome: Outcome, sends: bool) returns (alive: bool)
      requires Valid() && me < |view.loops| && view.loops[me] == Checking
      modifies this`queue, this`connected, this`errors, this`view, this`messagesSent, this`messagesDropped
      modifies this`connectionAttempts, this`successfulConnections, this`connectionFailures
      ensures Valid()
      ensures view == Run(old(view), Pass(old(view), me, outcome, sends))
      ensures me < |view.loops| && (alive <==> view.loops[me] == Checking)
      ensures errors == old(errors)
        + if old(running) && old(queue) != [] && old(queue)[0].Some? then ErrorsIn(old(connected), outcome, sends) else 0
    {
      PassIsRun(view, me, outcome, sends);
      hide Run, Queued, Handled;
      if !running {
        view := At(view, me, Off);
        return false;
      }
      if queue == [] {
        return true;
      }
      var data := queue[0];
      queue := queue[1..];
      ghost var entry, tail := view.queue[0], view.(queue := view.queue[1..]);
      if data == None {
        view := At(tail, me, Off);
        return false;
      }
      view := At(tail, me, Holding(entry.item));
      Handle(me, outcome, sends);
      HandledKeepsPlace(tail, me, entry.item, outcome, sends);
      return true;
    }
  }

  lemma NothingToEmpty(d: Destination)
    ensures d.queue == [] ==> Emptied(d) == d
  {
    assert d.cleared + [] == d.cleared;
  }
}
