/** Exactly when the data of a running destination can come to be sent out of order. */
module DestinationRisk {
  import opened DestinationRun
  import opened DestinationPaths
  import opened DestinationOrder

  /** A loop that can still empty the queue before it sends. */
  predicate CanEmpty(l: Loop) { l.Holding? || l.Connecting? || l.Clearing? }

  /** A loop whose data goes out if there is a connection. */
  predicate AtSend(l: Loop) { l.Rechecking? || l.Sending? }

  ghost predicate SomeCanEmpty(d: Destination) {
    exists i :: 0 <= i < |d.loops| && CanEmpty(d.loops[i])
  }

  ghost predicate TwoAtSend(d: Destination) {
    d.connected && exists i, j :: 0 <= i < j < |d.loops| && AtSend(d.loops[i]) && AtSend(d.loops[j])
  }

  /** Two loops are alive, and either two outlive the pills in front of them, or one can get rid of
      the pills, or two are about to send. */
  ghost predicate AtRisk(d: Destination) {
    && LiveCount(d.loops) >= 2
    && (LiveCount(d.loops) >= LeadingPills(d.queue) + 2 || SomeCanEmpty(d) || TwoAtSend(d))
  }

  /** Calm events that let data overtake. */
  predicate Overtakes(d: Destination, events: seq<Event>) {
    Calm(events) && !Ordered(Run(d, events).sent)
  }

  lemma OvertakesBehind(d: Destination, first: seq<Event>, later: seq<Event>)
    requires Calm(first) && Overtakes(Run(d, first), later)
    ensures Overtakes(d, first + later)
  {
    hide Run, Ordered;
    RunAppend(d, first, later);
  }

  lemma CalmRunsOn(d: Destination, first: seq<Event>, later: seq<Event>)
    requires Calm(first) && Calm(later)
    ensures Calm(first + later) && Run(d, first + later) == Run(Run(d, first), later)
  {
    hide Run;
    RunAppend(d, first, later);
  }

  // ------------------------------------------------------------------
  // At risk, data can overtake
  // ------------------------------------------------------------------

  /** A loop that is clearing empties the queue. */
  lemma {:induction false} EmptyOut(d: Destination, i: nat) returns (events: seq<Event>)
    requires i < |d.loops| && d.loops[i].Clearing?
    ensures Quietly(d, events)
    ensures Run(d, events) == At(d.(queue := [], cleared := Run(d, events).cleared), i, Rechecking(d.loops[i].item))
    decreases |d.queue|
  {
    hide Run, Quietly;
    var n := Step(d, By(i, Clear));
    if d.queue == [] {
      NothingIsQuiet(n);
      QuietlyBehind(d, By(i, Clear), []);
      events := [By(i, Clear)] + [];
    } else {
      var later := EmptyOut(n, i);
      QuietlyBehind(d, By(i, Clear), later);
      events := [By(i, Clear)] + later;
    }
  }

  /** Two loops with data in hand, connected, and the one with the newer data sends first. */
  lemma SendBackwards(d: Destination, i: nat, j: nat) returns (events: seq<Event>)
    requires i < |d.loops| && j < |d.loops| && i != j && d.connected
    requires d.loops[i].Sending? && d.loops[j].Sending? && d.loops[i].item.number < d.loops[j].item.number
    ensures Overtakes(d, events)
  {
    events := [By(j, Send(true)), By(i, Send(true))];
    var x, y := d.loops[i].item, d.loops[j].item;
    var n := Step(Step(d, By(j, Send(true))), By(i, Send(true)));
    assert n.sent == d.sent + [y] + [x];
    assert n.sent[|d.sent|] == y && n.sent[|d.sent| + 1] == x;
    hide Run, Step;
    RunTwo(d, By(j, Send(true)), By(i, Send(true)));
  }

  /** Loop i is about to send, the queue is empty: loop j gets newer data and sends it first. */
  lemma SendNewer(d: Destination, i: nat, j: nat) returns (events: seq<Event>)
    requires i < |d.loops| && j < |d.loops| && i != j && d.connected && d.queue == []
    requires d.loops[i].Sending? && d.loops[i].item.number < |d.offered| && d.loops[j] == Getting
    ensures Overtakes(d, events)
  {
    var first := [Offer([]), By(j, Get), By(j, Look)];
    var n := Step(Step(Step(d, Offer([])), By(j, Get)), By(j, Look));
    assert n.loops[i] == d.loops[i] && n.loops[j] == Sending(Item(|d.offered|, [])) && n.connected;
    hide Run, Step, Overtakes;
    RunThree(d, Offer([]), By(j, Get), By(j, Look));
    var later := SendBackwards(n, i, j);
    OvertakesBehind(d, first, later);
    events := first + later;
  }

  /** Loop i holds data: it makes a connection, which empties the queue, and is about to send. */
  lemma ConnectFirst(d: Destination, i: nat) returns (events: seq<Event>)
    requires i < |d.loops| && d.loops[i].Holding?
    ensures Calm(events)
    ensures var n := Run(d, events);
      n.loops == d.loops[i := Sending(d.loops[i].item)] && n.connected && n.queue == [] && n.offered == d.offered
  {
    var first := [Lose, By(i, Look), By(i, Connect(true))];
    var n := Step(Step(Step(d, Lose), By(i, Look)), By(i, Connect(true)));
    assert n.loops == d.loops[i := Clearing(d.loops[i].item)] && n.connected && n.offered == d.offered;
    RunThree(d, Lose, By(i, Look), By(i, Connect(true)));
    var emptied := EmptyOut(n, i);
    var m := Run(n, emptied);
    assert Step(m, By(i, Recheck)) == At(m, i, Sending(d.loops[i].item));
    hide Run, Step;
    CalmRunsOn(d, first, emptied);
    RunThen(d, first + emptied, By(i, Recheck));
    events := first + emptied + [By(i, Recheck)];
  }

  /** Two loops wait on a queue with no pill in front. */
  lemma OvertakeFromQueue(d: Destination, i: nat, j: nat) returns (events: seq<Event>)
    requires i < |d.loops| && j < |d.loops| && i != j && d.loops[i] == Getting && d.loops[j] == Getting
    requires LeadingPills(d.queue) == 0 && Below(Queued(d.queue), |d.offered|)
    ensures Overtakes(d, events)
  {
    if d.queue == [] {
      var n := Step(d, Offer([]));
      assert n.queue == [Data(Item(|d.offered|, []))];
      RunOne(d, Offer([]));
      var later := OvertakeFromData(n, i, j);
      hide Run, Step, Overtakes;
      OvertakesBehind(d, [Offer([])], later);
      events := [Offer([])] + later;
    } else {
      assert Queued(d.queue)[0] == d.queue[0].item;
      events := OvertakeFromData(d, i, j);
    }
  }

  lemma OvertakeFromData(d: Destination, i: nat, j: nat) returns (events: seq<Event>)
    requires i < |d.loops| && j < |d.loops| && i != j && d.loops[i] == Getting && d.loops[j] == Getting
    requires d.queue != [] && d.queue[0].Data? && d.queue[0].item.number < |d.offered|
    ensures Overtakes(d, events)
  {
    var x := d.queue[0].item;
    var n := Step(d, By(i, Get));
    assert n.loops == d.loops[i := Holding(x)] && n.offered == d.offered;
    RunOne(d, By(i, Get));
    var connect := ConnectFirst(n, i);
    var later := SendNewer(Run(n, connect), i, j);
    hide Run, Step, Overtakes;
    OvertakesBehind(n, connect, later);
    OvertakesBehind(d, [By(i, Get)], connect + later);
    events := [By(i, Get)] + (connect + later);
  }

  /** Loops eat the pills in front; two are left. */
  lemma {:induction false} OvertakeBehindPills(d: Destination) returns (events: seq<Event>)
    requires forall i :: 0 <= i < |d.loops| ==> Waits(d.loops[i])
    requires LiveCount(d.loops) >= LeadingPills(d.queue) + 2 && Below(Queued(d.queue), |d.offered|)
    ensures Overtakes(d, events)
    decreases |d.queue|
  {
    var i := FindLive(d.loops);
    if LeadingPills(d.queue) == 0 {
      var j := FindAnother(d.loops, i);
      events := OvertakeFromQueue(d, i, j);
    } else {
      var n := Step(d, By(i, Get));
      assert n.loops == d.loops[i := Off] && n.queue == d.queue[1..] && n.offered == d.offered;
      LiveUpdated(d.loops, i, Off);
      assert Queued(d.queue) == [] + Queued(n.queue) == Queued(n.queue);
      var later := OvertakeBehindPills(n);
      RunOne(d, By(i, Get));
      hide Run, Step, Overtakes;
      OvertakesBehind(d, [By(i, Get)], later);
      events := [By(i, Get)] + later;
    }
  }

  lemma ToClearing(d: Destination, i: nat) returns (events: seq<Event>)
    requires i < |d.loops| && CanEmpty(d.loops[i])
    ensures Calm(events)
    ensures var n := Run(d, events);
      n.loops == d.loops[i := Clearing(d.loops[i].item)] && n.running == d.running
  {
    if d.loops[i].Clearing? {
      events := [];
    } else if d.loops[i].Connecting? {
      events := [By(i, Connect(true))];
      RunOne(d, By(i, Connect(true)));
    } else {
      events := [Lose, By(i, Look), By(i, Connect(true))];
      RunThree(d, Lose, By(i, Look), By(i, Connect(true)));
    }
  }

  /** One loop gets rid of the whole queue; no loop ends. */
  lemma EmptiedBy(d: Destination, i: nat) returns (events: seq<Event>)
    requires d.running && i < |d.loops| && CanEmpty(d.loops[i])
    ensures Calm(events)
    ensures var n := Run(d, events);
      n.running && n.queue == [] && LiveCount(n.loops) == LiveCount(d.loops)
  {
    hide Run;
    var first := ToClearing(d, i);
    var m := Run(d, first);
    var later := ToQueue(m, i);
    CalmRunsOn(d, first, later);
    LiveUpdated(d.loops, i, m.loops[i]);
    LiveUpdated(m.loops, i, Getting);
    events := first + later;
  }

  lemma OvertakeWithEmptyQueue(d: Destination) returns (events: seq<Event>)
    requires d.running && d.queue == [] && LiveCount(d.loops) >= 2
    ensures Overtakes(d, events)
  {
    hide Run, Overtakes;
    var first := AllToQueue(d, 0);
    var later := OvertakeBehindPills(Run(d, first));
    OvertakesBehind(d, first, later);
    events := first + later;
  }

  lemma OvertakeFromSends(d: Destination) returns (events: seq<Event>)
    requires Lined(d) && TwoAtSend(d)
    ensures Overtakes(d, events)
  {
    var i, j :| 0 <= i < j < |d.loops| && AtSend(d.loops[i]) && AtSend(d.loops[j]);
    var first := [By(i, Recheck), By(j, Recheck)];
    var n := Step(Step(d, By(i, Recheck)), By(j, Recheck));
    var x, y := d.loops[i].item, d.loops[j].item;
    assert n.loops[i] == Sending(x) && n.loops[j] == Sending(y) && n.connected;
    assert |n.loops| == |d.loops| && x.number != y.number;
    hide Run, Overtakes, Lined, Step;
    RunTwo(d, By(i, Recheck), By(j, Recheck));
    var later;
    if x.number < y.number {
      later := SendBackwards(n, i, j);
    } else {
      later := SendBackwards(n, j, i);
    }
    OvertakesBehind(d, first, later);
    events := first + later;
  }

  lemma RiskIsReal(d: Destination) returns (events: seq<Event>)
    requires d.running && Lined(d) && AtRisk(d)
    ensures Overtakes(d, events)
  {
    hide Run, Overtakes, TwoAtSend, LiveCount;
    var n := LiveCount(d.loops);
    if TwoAtSend(d) {
      events := OvertakeFromSends(d);
    } else if SomeCanEmpty(d) {
      var i :| 0 <= i < |d.loops| && CanEmpty(d.loops[i]);
      var first := EmptiedBy(d, i);
      var later := OvertakeWithEmptyQueue(Run(d, first));
      OvertakesBehind(d, first, later);
      events := first + later;
    } else {
      assert forall i :: 0 <= i < |d.loops| ==> !d.loops[i].Clearing?;
      var first := AllToQueue(d, 0);
      var later := OvertakeBehindPills(Run(d, first));
      OvertakesBehind(d, first, later);
      events := first + later;
    }
  }

  // ------------------------------------------------------------------
  // Otherwise it cannot
  // ------------------------------------------------------------------

  /** Two loops are alive, but pills wait for all but one of them. */
  ghost predicate Doomed(d: Destination) {
    && LiveCount(d.loops) <= LeadingPills(d.queue) + 1
    && (forall i :: 0 <= i < |d.loops| ==> !CanEmpty(d.loops[i]))
    && (d.connected ==> forall i, j :: 0 <= i < j < |d.loops| ==> !(AtSend(d.loops[i]) && AtSend(d.loops[j])))
  }

  lemma DoomedAct(d: Destination, i: nat, a: LoopAct)
    requires d.running && Doomed(d) && LiveCount(d.loops) >= 2 && i < |d.loops|
    ensures Doomed(Act(d, i, a))
  {
    hide LiveCount;
    ActMovesOne(d, i, a);
    LiveUpdated(d.loops, i, Act(d, i, a).loops[i]);
  }

  lemma DoomedStep(d: Destination, e: Event)
    requires Up(d) && Doomed(d) && LiveCount(d.loops) >= 2 && e != StopFlag && e != Drain
    ensures Doomed(Step(d, e))
  {
    hide LiveCount, Act;
    match e
    case Offer(data) => DataBehindPills(d.queue, Data(Item(|d.offered|, data)));
    case By(i, act) => if i < |d.loops| { DoomedAct(d, i, act); }
    case _ =>
  }

  lemma DoomedSendsAlone(d: Destination, i: nat)
    requires Doomed(d) && i < |d.loops| && d.loops[i].Sending? && d.connected
    ensures Alone(d, i)
  {
    forall j | 0 <= j < |d.loops| && j != i ensures !Holds(d.loops[j]) {
      assert !CanEmpty(d.loops[j]);
      if j < i { assert !(AtSend(d.loops[j]) && AtSend(d.loops[i])); }
      else { assert !(AtSend(d.loops[i]) && AtSend(d.loops[j])); }
    }
  }

  ghost predicate NotAtRisk(d: Destination) {
    LiveCount(d.loops) <= 1 || Doomed(d)
  }

  lemma {:induction false} NoRiskNoLoss(d: Destination, events: seq<Event>)
    requires Up(d) && Lined(d) && NotAtRisk(d) && Calm(events)
    ensures Lined(Run(d, events))
    decreases |events|
  {
    hide Lined, LiveCount, Step, Doomed, Up;
    if events != [] {
      var e := events[0];
      assert e != StopFlag && e != Drain;
      if e.By? && e.loop < |d.loops| && d.loops[e.loop].Sending? && d.connected {
        if LiveCount(d.loops) <= 1 { OneLiveIsAlone(d, e.loop); } else { DoomedSendsAlone(d, e.loop); }
      }
      LinedStep(d, e);
      LiveStep(d, e);
      assert d.running by { UpRuns(d); }
      UpStep(d, e);
      if LiveCount(d.loops) >= 2 { DoomedStep(d, e); }
      NoRiskNoLoss(Step(d, e), events[1..]);
    }
  }

  lemma UpRuns(d: Destination)
    requires Up(d)
    ensures d.running
  {
  }

  /** While a destination runs undisturbed and nothing has been overtaken so far, data can come to be
      sent out of order if and only if it is at risk. */
  lemma OrderLostIff(d: Destination)
    requires Up(d) && Lined(d)
    ensures (exists events :: Calm(events) && !Ordered(Run(d, events).sent)) <==> AtRisk(d)
  {
    hide Run, Up, HandsInLine, LiveCount;
    if AtRisk(d) {
      UpRuns(d);
      var events := RiskIsReal(d);
      assert Overtakes(d, events);
    } else {
      assert NotAtRisk(d);
      forall events | Calm(events) ensures Ordered(Run(d, events).sent) {
        NoRiskNoLoss(d, events);
      }
    }
  }

  /** If the queue may also be cleared from outside, it is enough that two loops are alive. */
  lemma {:induction false} DrainedOut(d: Destination) returns (events: seq<Event>)
    ensures StopFlag !in events && Run(d, events) == d.(queue := [], cleared := Run(d, events).cleared)
    decreases |d.queue|
  {
    if d.queue == [] {
      events := [];
    } else {
      var later := DrainedOut(Step(d, Drain));
      RunOne(d, Drain);
      RunAppend(d, [Drain], later);
      events := [Drain] + later;
    }
  }

  lemma OrderLostIffTwo(d: Destination)
    requires d.running && Lined(d)
    ensures (exists events :: StopFlag !in events && !Ordered(Run(d, events).sent)) <==> LiveCount(d.loops) >= 2
  {
    hide Run, HandsInLine, LiveCount, Overtakes, Queued;
    if LiveCount(d.loops) >= 2 {
      var first := DrainedOut(d);
      var later := OvertakeWithEmptyQueue(Run(d, first));
      RunAppend(d, first, later);
      assert StopFlag !in later && !Ordered(Run(Run(d, first), later).sent) by { OvertakesMeans(Run(d, first), later); }
      assert StopFlag !in first + later;
    } else {
      forall events | StopFlag !in events ensures Ordered(Run(d, events).sent) {
        RunningNeverOverlaps(d, events);
        LinedRun(d, events);
      }
    }
  }

  lemma OvertakesMeans(d: Destination, events: seq<Event>)
    requires Overtakes(d, events)
    ensures StopFlag !in events && Drain !in events && !Ordered(Run(d, events).sent)
  {
  }

  lemma {:induction false} RunningNeverOverlaps(d: Destination, events: seq<Event>)
    requires d.running && StopFlag !in events
    ensures NoOverlap(d, events)
    decreases |events|
  {
    hide Step;
    if events != [] {
      RunningStays(d, events[0]);
      RunningNeverOverlaps(Step(d, events[0]), events[1..]);
    }
  }

  lemma RunningStays(d: Destination, e: Event)
    requires d.running && e != StopFlag
    ensures Step(d, e).running
  {
  }

  lemma OverlapStarts(d: Destination)
    requires Lined(d) && !d.running && LiveCount(d.loops) > 0
    ensures var n := Step(d, Start); n.running && Lined(n) && LiveCount(n.loops) >= 2
  {
    hide Lined, LiveCount;
    LinedStep(d, Start);
    OneMoreLoop(d.loops, Checking);
  }

  /** Not even clearing from outside is needed: further restarts bring more loops than there are pills. */
  lemma {:induction false} OvertakenByRestarts(d: Destination) returns (events: seq<Event>)
    requires d.running && Lined(d) && LiveCount(d.loops) >= 2
    ensures Drain !in events && !Ordered(Run(d, events).sent)
    decreases LeadingPills(d.queue) + 2 - LiveCount(d.loops)
  {
    hide Run, Overtakes, LiveCount, HandsInLine;
    if LiveCount(d.loops) >= LeadingPills(d.queue) + 2 {
      var first := AllToQueue(d, 0);
      assert LeadingPills([]) == 0;
      var later := OvertakeBehindPills(Run(d, first));
      OvertakesBehind(d, first, later);
      OvertakesMeans(d, first + later);
      events := first + later;
    } else {
      var n := Restarted(d);
      var later := OvertakenByRestarts(n);
      RunTwo(d, StopFlag, Start);
      RunAppend(d, [StopFlag, Start], later);
      events := [StopFlag, Start] + later;
    }
  }

  lemma Restarted(d: Destination) returns (n: Destination)
    requires d.running && Lined(d)
    ensures n == Step(Step(d, StopFlag), Start) && n.running && Lined(n)
    ensures LiveCount(n.loops) == LiveCount(d.loops) + 1 && n.queue == d.queue
  {
    hide Lined, LiveCount;
    n := Step(Step(d, StopFlag), Start);
    LinedStep(d, StopFlag);
    LinedStep(Step(d, StopFlag), Start);
    OneMoreLoop(d.loops, Checking);
  }

  lemma {:induction false} OvertakenAfterOverlap(d: Destination, events: seq<Event>) returns (k: nat, later: seq<Event>)
    requires Lined(d) && LiveCount(d.loops) <= 1 && !NoOverlap(d, events)
    ensures k <= |events| && Drain !in later && !Ordered(Run(d, events[..k] + later).sent)
    decreases |events|
  {
    hide Lined, Ordered, LiveCount, Run, Step;
    var e := events[0];
    var n := Step(d, e);
    RunOne(d, e);
    if e == Start && !d.running && LiveCount(d.loops) > 0 {
      OverlapStarts(d);
      later := OvertakenByRestarts(n);
      k := 1;
      RunAppend(d, [e], later);
      assert events[..1] == [e];
    } else {
      if e.By? && e.loop < |d.loops| && Live(d.loops[e.loop]) { OneLiveIsAlone(d, e.loop); }
      LinedStep(d, e);
      LiveStep(d, e);
      k, later := OvertakenAfterOverlap(n, events[1..]);
      RunAppend(d, [e], events[1..][..k] + later);
      k := k + 1;
      assert events[..k] + later == [e] + (events[1..][..k - 1] + later);
    }
  }

  /** The converse of keeping the order: a run in which a start comes while an earlier loop is alive
      can, from some point of it on, be continued so that data overtakes data, without anybody clearing
      the queue from outside. */
  lemma OverlapLosesOrder(capacity: nat, events: seq<Event>) returns (k: nat, later: seq<Event>)
    requires !NoOverlap(New(capacity), events)
    ensures k <= |events| && Drain !in later && !Ordered(Run(New(capacity), events[..k] + later).sent)
  {
    hide NoOverlap, Ordered, Run, Lined;
    NewIsLined(capacity);
    k, later := OvertakenAfterOverlap(New(capacity), events);
  }

  // ------------------------------------------------------------------
  // A run that ends out of order
  // ------------------------------------------------------------------

  /** A loop holds data when stop gives up waiting for it; a restart adds a second loop. */
  const HOLDING: seq<Event> := [Start, Offer([]), By(0, Check), By(0, Get), Offer([])]

  const RESTARTED: seq<Event> := [StopFlag, StopBy(0, PutPill), StopBy(0, Finish), Start]

  const NEWER_TAKEN: seq<Event> := [By(1, Check), By(1, Get), By(1, Look), By(1, Connect(true))]

  const NEWER_SENT: seq<Event> := [By(1, Clear), By(1, Clear), By(1, Recheck), By(1, Send(true))]

  const OLDER_SENT: seq<Event> := [By(0, Look), By(0, Send(true))]

  function TwoLoops(newer: Loop, queue: seq<Entry>, connected: bool): Destination {
    Destination(queue, 100, true, connected, [Holding(Item(0, [])), newer], [Finished], [Item(0, []), Item(1, [])],
                [], [], [], [], [], [])
  }

  function OneLoop(): Destination {
    var a, b := Item(0, []), Item(1, []);
    Destination([Data(b)], 100, true, false, [Holding(a)], [], [a, b], [], [], [], [], [], [])
  }

  lemma HoldingByThen()
    ensures Run(New(100), HOLDING) == OneLoop()
  {
  }

  lemma RestartedByThen()
    ensures Run(OneLoop(), RESTARTED) == TwoLoops(Checking, [Data(Item(1, [])), Pill], false)
  {
  }

  lemma NewerTaken()
    ensures Run(TwoLoops(Checking, [Data(Item(1, [])), Pill], false), NEWER_TAKEN)
         == TwoLoops(Clearing(Item(1, [])), [Pill], true)
  {
  }

  lemma NewerSent()
    ensures var n := Run(TwoLoops(Clearing(Item(1, [])), [Pill], true), NEWER_SENT);
      n.sent == [Item(1, [])] && n.loops == [Holding(Item(0, [])), Checking] && n.connected
  {
  }

  lemma OlderSent(d: Destination)
    requires d.loops == [Holding(Item(0, [])), Checking] && d.connected
    ensures Run(d, OLDER_SENT).sent == d.sent + [Item(0, [])]
  {
    RunTwo(d, By(0, Look), By(0, Send(true)));
  }

  lemma OutOfOrder()
    ensures var restarted := Run(Run(New(100), HOLDING), RESTARTED);
      Run(Run(Run(restarted, NEWER_TAKEN), NEWER_SENT), OLDER_SENT).sent == [Item(1, []), Item(0, [])]
  {
    hide Run, OneLoop, TwoLoops;
    HoldingByThen();
    RestartedByThen();
    NewerTaken();
    NewerSent();
    OlderSent(Run(TwoLoops(Clearing(Item(1, [])), [Pill], true), NEWER_SENT));
  }
}
