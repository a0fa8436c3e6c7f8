/** What stopping and restarting a destination can leave behind. */
module DestinationStop {
  import opened DestinationRun
  import opened DestinationPaths

  // ------------------------------------------------------------------
  // Running without a loop
  // ------------------------------------------------------------------

  ghost predicate SomeClears(d: Destination) {
    exists i :: 0 <= i < |d.loops| && d.loops[i].Clearing?
  }

  /** A loop is alive, and either there are fewer pills than loops or one loop will throw the pills away. */
  ghost predicate Served(d: Destination) {
    LiveCount(d.loops) > 0 && (Pills(d.queue) < LiveCount(d.loops) || SomeClears(d))
  }

  lemma FrontPill(queue: seq<Entry>)
    requires queue != []
    ensures Pills(queue) == (if queue[0].Pill? then 1 else 0) + Pills(queue[1..])
  {
  }

  lemma ServedClear(d: Destination, i: nat)
    requires Served(d) && i < |d.loops| && d.loops[i].Clearing?
    ensures Served(Act(d, i, Clear))
  {
    hide LiveCount, Pills;
    var n := Act(d, i, Clear);
    LiveUpdated(d.loops, i, n.loops[i]);
    if d.queue == [] {
      assert Pills([]) == 0 by { NoPills(); }
    } else {
      assert n.loops[i].Clearing?;
    }
  }

  lemma NoPills()
    ensures Pills([]) == 0
  {
  }

  lemma ServedGet(d: Destination, i: nat)
    requires Served(d) && i < |d.loops|
    ensures Served(Act(d, i, Get))
  {
    hide LiveCount, Pills;
    var n := Act(d, i, Get);
    if n != d {
      FrontPill(d.queue);
      LiveUpdated(d.loops, i, n.loops[i]);
      if SomeClears(d) {
        var k :| 0 <= k < |d.loops| && d.loops[k].Clearing?;
        assert n.loops[k].Clearing?;
        LiveOneCounts(n.loops, k);
      }
    }
  }

  lemma ServedAct(d: Destination, i: nat, a: LoopAct)
    requires d.running && Served(d) && i < |d.loops|
    ensures Served(Act(d, i, a))
  {
    hide LiveCount, Pills;
    if a == Get {
      ServedGet(d, i);
    } else if a == Clear && d.loops[i].Clearing? {
      ServedClear(d, i);
    } else {
      var n := Act(d, i, a);
      LiveUpdated(d.loops, i, n.loops[i]);
      if SomeClears(d) {
        var k :| 0 <= k < |d.loops| && d.loops[k].Clearing?;
        assert n.loops[k].Clearing?;
      }
    }
  }

  lemma ServedStep(d: Destination, e: Event)
    requires Up(d) && Served(d) && e != StopFlag
    ensures Served(Step(d, e))
  {
    hide LiveCount, Pills, Act;
    match e
    case Offer(data) => DataBehindPills(d.queue, Data(Item(|d.offered|, data)));
    case Drain => if d.queue != [] { FrontPill(d.queue); }
    case By(i, act) => if i < |d.loops| { ServedAct(d, i, act); }
    case _ =>
  }

  lemma {:induction false} ServedLasts(d: Destination, events: seq<Event>)
    requires Up(d) && Served(d) && StopFlag !in events
    ensures Served(Run(d, events))
    decreases |events|
  {
    hide Up, Served, Step;
    if events != [] {
      ServedStep(d, events[0]);
      UpStep(d, events[0]);
      ServedLasts(Step(d, events[0]), events[1..]);
    }
  }

  /** Loops that wait on the queue, with a pill for each, all end. */
  lemma {:induction false} PillsEndLoops(d: Destination) returns (events: seq<Event>)
    requires d.running && forall i :: 0 <= i < |d.loops| ==> Waits(d.loops[i])
    requires Pills(d.queue) >= LiveCount(d.loops)
    ensures StopFlag !in events && LiveCount(Run(d, events).loops) == 0
    decreases |d.queue|
  {
    if LiveCount(d.loops) == 0 {
      events := [];
    } else {
      var i := FindLive(d.loops);
      var n := Step(d, By(i, Get));
      RunOne(d, By(i, Get));
      LiveUpdated(d.loops, i, n.loops[i]);
      FrontPill(d.queue);
      hide Run, LiveCount, Pills;
      if n.loops[i] == Off {
        var later := PillsEndLoops(n);
        RunAppend(d, [By(i, Get)], later);
        events := [By(i, Get)] + later;
      } else {
        var back := ToQueue(n, i);
        LiveUpdated(n.loops, i, Getting);
        var later := PillsEndLoops(Run(n, back));
        RunAppend(n, back, later);
        RunAppend(d, [By(i, Get)], back + later);
        events := [By(i, Get)] + (back + later);
      }
    }
  }

  /** A destination that runs undisturbed can be left with no loop at all, if and only if it has none,
      or there are at least as many pills in its queue as loops alive and no loop is clearing it. */
  lemma StrandedIff(d: Destination)
    requires Up(d)
    ensures (exists events :: StopFlag !in events && LiveCount(Run(d, events).loops) == 0)
       <==> LiveCount(d.loops) == 0 || (Pills(d.queue) >= LiveCount(d.loops) && !SomeClears(d))
  {
    hide Run, LiveCount, Pills;
    if Served(d) {
      forall events | StopFlag !in events ensures LiveCount(Run(d, events).loops) != 0 {
        ServedLasts(d, events);
      }
    } else if LiveCount(d.loops) == 0 {
      NothingIsQuiet(d);
      assert StopFlag !in [] && LiveCount(Run(d, []).loops) == 0;
    } else {
      var first := AllToQueue(d, 0);
      var later := PillsEndLoops(Run(d, first));
      RunAppend(d, first, later);
      assert StopFlag !in first + later && LiveCount(Run(d, first + later).loops) == 0;
    }
  }

  /** Such a state is reachable: the loop sees the cleared flag first, so the pill stays behind. */
  lemma RestartBehindPill()
    ensures var d := Run(New(100), [Start, StopFlag, StopBy(0, PutPill), By(0, Check), StopBy(0, Finish), Start]);
      Up(d) && d.queue == [Pill] && d.loops == [Off, Checking]
  {
  }

  // ------------------------------------------------------------------
  // A stop that raises
  // ------------------------------------------------------------------

  predicate HasRaised(d: Destination, j: nat) {
    j < |d.stoppers| && d.stoppers[j] == Raised
  }

  lemma {:induction false} UnboundedNeverRaises(d: Destination, j: nat, events: seq<Event>)
    requires d.capacity == 0 && j < |d.stoppers| && !HasRaised(d, j)
    ensures !HasRaised(Run(d, events), j)
    decreases |events|
  {
    if events != [] {
      UnboundedStep(d, j, events[0]);
      hide Step;
      UnboundedNeverRaises(Step(d, events[0]), j, events[1..]);
    }
  }

  lemma UnboundedStep(d: Destination, j: nat, e: Event)
    requires d.capacity == 0 && j < |d.stoppers| && !HasRaised(d, j)
    ensures Step(d, e).capacity == 0 && j < |Step(d, e).stoppers| && !HasRaised(Step(d, e), j)
  {
    hide Act;
    if e.By? && e.loop < |d.loops| { ActMovesOne(d, e.loop, e.act); }
  }

  lemma {:induction false} FilledUp(d: Destination) returns (events: seq<Event>)
    requires d.capacity > 0
    ensures var n := Run(d, events);
      && Full(n) && n.queue != [] && n.stoppers == d.stoppers && n.capacity == d.capacity
      && (|d.queue| <= d.capacity ==> |n.queue| == n.capacity)
    decreases d.capacity - |d.queue|
  {
    if Full(d) {
      events := [];
    } else {
      var n := Step(d, Offer([]));
      var later := FilledUp(n);
      RunOne(d, Offer([]));
      hide Run;
      RunAppend(d, [Offer([])], later);
      events := [Offer([])] + later;
    }
  }

  /** The offers that let stop j raise. */
  lemma RoomTaken(d: Destination, j: nat) returns (events: seq<Event>)
    requires Bounded(d) && d.capacity > 0 && j < |d.stoppers| && d.stoppers[j] == Flagged
    ensures HasRaised(Run(d, events), j)
  {
    var fill := FilledUp(d);
    var n := Run(d, fill);
    var a := [StopBy(j, PutPill), StopBy(j, MakeRoom)];
    var n1 := Step(Step(n, StopBy(j, PutPill)), StopBy(j, MakeRoom));
    assert n1.stoppers == d.stoppers[j := Pilling] && |n1.queue| == n1.capacity - 1;
    var b := [Offer([]), StopBy(j, PutPillAgain)];
    var n2 := Step(Step(n1, Offer([])), StopBy(j, PutPillAgain));
    assert HasRaised(n2, j);
    hide Run, Step;
    RunTwo(n, StopBy(j, PutPill), StopBy(j, MakeRoom));
    RunTwo(n1, Offer([]), StopBy(j, PutPillAgain));
    RunAppend(n, a, b);
    RunAppend(d, fill, a + b);
    events := fill + (a + b);
  }

  /** A stop that has cleared the flag can end by an exception, without joining or disconnecting, if
      and only if the queue has a bound. */
  lemma StopRaisesIff(d: Destination, j: nat)
    requires Bounded(d) && j < |d.stoppers| && d.stoppers[j] == Flagged
    ensures (exists events :: HasRaised(Run(d, events), j)) <==> d.capacity > 0
  {
    hide Run;
    if d.capacity > 0 {
      var events := RoomTaken(d, j);
    } else {
      forall events ensures !HasRaised(Run(d, events), j) {
        UnboundedNeverRaises(d, j, events);
      }
    }
  }

  /** Events in which nothing is put into the queue, and stop j does nothing. */
  predicate NoPut(j: nat, events: seq<Event>) {
    forall i :: 0 <= i < |events| ==>
      !events[i].Offer? && (events[i].StopBy? ==>
        events[i].stopper != j && events[i].stop != PutPill && events[i].stop != PutPillAgain)
  }

  lemma {:induction false} RoomKept(d: Destination, j: nat, events: seq<Event>)
    requires j < |d.stoppers| && NoPut(j, events)
    ensures var n := Run(d, events);
      j < |n.stoppers| && n.stoppers[j] == d.stoppers[j] && |n.queue| <= |d.queue| && n.capacity == d.capacity
    decreases |events|
  {
    if events != [] {
      RoomStep(d, j, events[0]);
      hide Step;
      RoomKept(Step(d, events[0]), j, events[1..]);
    }
  }

  lemma RoomStep(d: Destination, j: nat, e: Event)
    requires j < |d.stoppers| && NoPut(j, [e])
    ensures var n := Step(d, e);
      j < |n.stoppers| && n.stoppers[j] == d.stoppers[j] && |n.queue| <= |d.queue| && n.capacity == d.capacity
  {
    assert [e][0] == e;
    hide Act;
    if e.By? && e.loop < |d.loops| { ActMovesOne(d, e.loop, e.act); }
  }

  /** If nothing is put into the queue between making room and the second put, stop goes through to
      the end, and disconnects. */
  lemma StopCompletes(d: Destination, j: nat, events: seq<Event>)
    requires Bounded(d) && j < |d.stoppers| && d.stoppers[j] == MakingRoom && NoPut(j, events)
    ensures var n := Run(d, [StopBy(j, MakeRoom)] + events + [StopBy(j, PutPillAgain), StopBy(j, Finish)]);
      j < |n.stoppers| && n.stoppers[j] == Finished && !n.connected
  {
    var d1 := Step(d, StopBy(j, MakeRoom));
    assert |d1.stoppers| == |d.stoppers| && d1.capacity == d.capacity;
    assert d1.stoppers[j] == Joining || (d1.stoppers[j] == Pilling && !Full(d1));
    RoomKept(d1, j, events);
    var d2 := Run(d1, events);
    var d3 := Step(Step(d2, StopBy(j, PutPillAgain)), StopBy(j, Finish));
    assert |d3.stoppers| == |d2.stoppers| && d3.stoppers[j] == Finished && !d3.connected;
    hide Run, Step;
    RunOne(d, StopBy(j, MakeRoom));
    RunAppend(d, [StopBy(j, MakeRoom)], events);
    RunTwo(d2, StopBy(j, PutPillAgain), StopBy(j, Finish));
    RunAppend(d, [StopBy(j, MakeRoom)] + events, [StopBy(j, PutPillAgain), StopBy(j, Finish)]);
  }

  // A run in which that happens: a queue of one, and an offer in the one moment that matters.

  const STARTED: seq<Event> := [Start, Offer([]), By(0, Check), By(0, Get), By(0, Look)]

  const CONNECTED: seq<Event> := [By(0, Connect(true)), By(0, Clear), By(0, Recheck), By(0, Send(true))]

  const STOPPED: seq<Event> := [Offer([]), StopFlag, StopBy(0, PutPill), StopBy(0, MakeRoom)]

  const OVERTAKEN: seq<Event> := [Offer([]), StopBy(0, PutPillAgain), By(0, Check)]

  function Connected(): Destination {
    var a := Item(0, []);
    Destination([], 1, true, true, [Checking], [], [a], [a], [], [], [], [], [a])
  }

  function Reaching(): Destination {
    var a := Item(0, []);
    Destination([], 1, true, false, [Connecting(a)], [], [a], [], [], [], [], [], [])
  }

  lemma StartedByThen()
    ensures Run(New(1), STARTED) == Reaching()
  {
  }

  lemma ConnectedByThen()
    ensures Run(Reaching(), CONNECTED) == Connected()
  {
  }

  function RoomMade(): Destination {
    var offered := [Item(0, []), Item(1, [])];
    Connected().(running := false, stoppers := [Pilling], offered := offered, discarded := [Item(1, [])])
  }

  lemma RoomMadeByThen()
    ensures Run(Connected(), STOPPED) == RoomMade()
  {
  }

  lemma OvertakenByThen()
    ensures var n := Run(RoomMade(), OVERTAKEN);
      n.loops == [Off] && n.stoppers == [Raised] && n.queue == [Data(Item(2, []))] && n.connected && !n.running
  {
  }

  /** It leaves the destination connected, without a loop and without a pill, and stopping it again
      does nothing. */
  lemma RaisingStop()
    ensures var d := Run(Run(Run(Run(New(1), STARTED), CONNECTED), STOPPED), OVERTAKEN);
      && !d.running && LiveCount(d.loops) == 0 && d.connected && HasRaised(d, 0)
      && Pill !in d.queue && Step(d, StopFlag) == d
  {
    hide Run, RoomMade, Connected, Reaching;
    StartedByThen();
    ConnectedByThen();
    RoomMadeByThen();
    OvertakenByThen();
  }

  // Another run to it, without any offer at that moment: a second stop's pill takes the room.

  const FULL: seq<Event> := [Start, Offer([]), StopFlag, StopBy(0, PutPill), StopBy(0, MakeRoom)]

  const STOPPED_TWICE: seq<Event> := [Start, StopFlag, StopBy(1, PutPill), StopBy(0, PutPillAgain)]

  function RoomMadeUnread(): Destination {
    var a := Item(0, []);
    Destination([], 1, false, false, [Checking], [Pilling], [a], [], [], [], [], [a], [])
  }

  lemma FullByThen()
    ensures Run(New(1), FULL) == RoomMadeUnread()
  {
  }

  lemma PillByThen()
    ensures var n := Run(RoomMadeUnread(), STOPPED_TWICE); n.stoppers == [Raised, Joining] && n.queue == [Pill]
  {
  }

  /** A restart and a second stop between the two puts are enough; nothing is offered meanwhile. */
  lemma RaisedBySecondStop()
    ensures (forall i :: 0 <= i < |STOPPED_TWICE| ==> !STOPPED_TWICE[i].Offer?)
    ensures var d := Run(Run(New(1), FULL), STOPPED_TWICE); d.stoppers == [Raised, Joining] && d.queue == [Pill]
  {
    hide Run, RoomMadeUnread;
    FullByThen();
    PillByThen();
  }
}
