/** Runs that drive a destination's loops where one wants them: what the scheduler, the network and
    the hub can bring about while nobody stops the destination. */
module DestinationPaths {
  import opened DestinationRun

  predicate Live(l: Loop) { l != Off }

  function LiveCount(loops: seq<Loop>): nat {
    if loops == [] then 0 else (if Live(loops[0]) then 1 else 0) + LiveCount(loops[1..])
  }

  lemma {:induction false} LiveUpdated(loops: seq<Loop>, i: nat, l: Loop)
    requires i < |loops|
    ensures LiveCount(loops[i := l]) + (if Live(loops[i]) then 1 else 0)
         == LiveCount(loops) + (if Live(l) then 1 else 0)
  {
    if i == 0 {
      assert loops[0 := l][1..] == loops[1..];
    } else {
      assert loops[i := l][1..] == loops[1..][i - 1 := l];
      LiveUpdated(loops[1..], i - 1, l);
    }
  }

  lemma {:induction false} OneMoreLoop(loops: seq<Loop>, l: Loop)
    ensures LiveCount(loops + [l]) == LiveCount(loops) + if Live(l) then 1 else 0
  {
    if loops == [] {
      assert loops + [l] == [l] && [l][1..] == [];
    } else {
      assert (loops + [l])[1..] == loops[1..] + [l];
      OneMoreLoop(loops[1..], l);
    }
  }

  lemma {:induction false} FindLive(loops: seq<Loop>) returns (i: nat)
    requires LiveCount(loops) > 0
    ensures i < |loops| && Live(loops[i])
  {
    if Live(loops[0]) {
      i := 0;
    } else {
      var k := FindLive(loops[1..]);
      i := k + 1;
    }
  }

  /** A live loop other than loop i. */
  lemma FindAnother(loops: seq<Loop>, i: nat) returns (j: nat)
    requires LiveCount(loops) > 1 && i < |loops|
    ensures j < |loops| && j != i && Live(loops[j])
  {
    LiveUpdated(loops, i, Off);
    j := FindLive(loops[i := Off]);
  }

  lemma {:induction false} LiveOneCounts(loops: seq<Loop>, i: nat)
    requires i < |loops| && Live(loops[i])
    ensures LiveCount(loops) > 0
  {
    LiveUpdated(loops, i, Off);
  }

  lemma LiveTwoCount(loops: seq<Loop>, i: nat, j: nat)
    requires i < |loops| && j < |loops| && i != j && Live(loops[i]) && Live(loops[j])
    ensures LiveCount(loops) > 1
  {
    LiveUpdated(loops, i, Off);
    LiveOneCounts(loops[i := Off], j);
  }

  lemma ActMovesOne(d: Destination, i: nat, a: LoopAct)
    requires i < |d.loops|
    ensures |Act(d, i, a).loops| == |d.loops|
    ensures Act(d, i, a).loops == d.loops[i := Act(d, i, a).loops[i]]
    ensures d.loops[i] == Off ==> Act(d, i, a) == d
    ensures Act(d, i, a).stoppers == d.stoppers && Act(d, i, a).capacity == d.capacity
    ensures |Act(d, i, a).queue| <= |d.queue|
  {
  }

  /** A loop can end but not come back to life. */
  lemma LiveAct(d: Destination, i: nat, a: LoopAct)
    requires i < |d.loops|
    ensures LiveCount(Act(d, i, a).loops) <= LiveCount(d.loops)
  {
    hide Act, LiveCount;
    ActMovesOne(d, i, a);
    LiveUpdated(d.loops, i, Act(d, i, a).loops[i]);
  }

  // ------------------------------------------------------------------
  // Running undisturbed
  // ------------------------------------------------------------------

  /** A stop that will neither put a pill nor take an entry any more. */
  predicate Idle(s: Stopper) { s == Joining || s == Finished || s == Raised }

  /** Running, and no stop is about to touch the queue. */
  predicate Up(d: Destination) {
    d.running && forall j :: 0 <= j < |d.stoppers| ==> Idle(d.stoppers[j])
  }

  /** Nobody stops the destination or clears its queue from outside. */
  predicate Calm(events: seq<Event>) {
    StopFlag !in events && Drain !in events
  }

  lemma UpStep(d: Destination, e: Event)
    requires Up(d) && e != StopFlag
    ensures Up(Step(d, e))
  {
  }

  /** Brought about calmly; nothing is offered or sent on the way. */
  predicate Quietly(d: Destination, events: seq<Event>) {
    var n := Run(d, events);
    Calm(events) && n.sent == d.sent && n.offered == d.offered && n.capacity == d.capacity
    && n.running == d.running && n.stoppers == d.stoppers
  }

  lemma NothingIsQuiet(d: Destination)
    ensures Quietly(d, []) && Run(d, []) == d
  {
  }

  /** A quiet step, and quiet events behind it. */
  lemma QuietlyBehind(d: Destination, e: Event, later: seq<Event>)
    requires e != StopFlag && e != Drain
    requires var n := Step(d, e);
      n.sent == d.sent && n.offered == d.offered && n.capacity == d.capacity && n.running == d.running
      && n.stoppers == d.stoppers && Quietly(n, later)
    ensures Quietly(d, [e] + later) && Run(d, [e] + later) == Run(Step(d, e), later)
  {
    hide Step, Run;
    RunAppend(d, [e], later);
    RunOne(d, e);
  }

  lemma QuietlyTwice(d: Destination, first: seq<Event>, later: seq<Event>)
    requires Quietly(d, first) && Quietly(Run(d, first), later)
    ensures Quietly(d, first + later) && Run(d, first + later) == Run(Run(d, first), later)
  {
    hide Run;
    RunAppend(d, first, later);
  }

  /** How far a loop is from waiting on the queue. */
  function Distance(l: Loop): nat {
    match l
    case Off => 0
    case Getting => 0
    case Checking => 1
    case Sending(_) => 2
    case Rechecking(_) => 3
    case Connecting(_) => 4
    case Clearing(_) => 5
    case Holding(_) => 6
  }

  /** What loop i does next on its way to the queue if nothing works out for it. */
  function NextFor(d: Destination, i: nat): Event
    requires i < |d.loops| && d.loops[i] != Off && d.loops[i] != Getting
  {
    match d.loops[i]
    case Checking => By(i, Check)
    case Sending(_) => By(i, Send(false))
    case Rechecking(_) => if d.connected then Lose else By(i, Recheck)
    case Connecting(_) => By(i, Connect(false))
    case Clearing(_) => By(i, Clear)
    case Holding(_) => if d.connected then Lose else By(i, Look)
  }

  /** Loop i comes back to the queue with empty hands. A loop that is clearing empties the queue first;
      any other leaves it as it is. */
  lemma {:induction false} ToQueue(d: Destination, i: nat) returns (events: seq<Event>)
    requires d.running && i < |d.loops| && Live(d.loops[i])
    ensures Quietly(d, events)
    ensures var n := Run(d, events);
      n.loops == d.loops[i := Getting] && n.queue == if d.loops[i].Clearing? then [] else d.queue
    decreases Distance(d.loops[i]), |d.queue|, d.connected
  {
    hide Run, Quietly;
    if d.loops[i] == Getting {
      events := [];
      NothingIsQuiet(d);
    } else {
      var e := NextFor(d, i);
      var n := Step(d, e);
      var later := ToQueue(n, i);
      events := [e] + later;
      QuietlyBehind(d, e, later);
    }
  }

  predicate Waits(l: Loop) { l == Off || l == Getting }

  /** Every loop alive comes back to the queue; only one that is clearing touches it. */
  lemma {:induction false} AllToQueue(d: Destination, k: nat) returns (events: seq<Event>)
    requires d.running && k <= |d.loops| && forall i :: 0 <= i < k ==> Waits(d.loops[i])
    ensures Quietly(d, events)
    ensures var n := Run(d, events);
      && |n.loops| == |d.loops| && LiveCount(n.loops) == LiveCount(d.loops)
      && (forall i :: 0 <= i < |n.loops| ==> Waits(n.loops[i]))
      && (n.queue == d.queue || n.queue == [])
      && ((forall i :: 0 <= i < |d.loops| ==> !d.loops[i].Clearing?) ==> n.queue == d.queue)
    decreases |d.loops| - k
  {
    hide Run, Quietly, LiveCount;
    if k == |d.loops| {
      events := [];
      NothingIsQuiet(d);
    } else if d.loops[k] == Off {
      events := AllToQueue(d, k + 1);
    } else {
      var first := ToQueue(d, k);
      var n := Run(d, first);
      LiveUpdated(d.loops, k, Getting);
      QuietKeepsRunning(d, first);
      var later := AllToQueue(n, k + 1);
      events := first + later;
      QuietlyTwice(d, first, later);
    }
  }

  lemma QuietKeepsRunning(d: Destination, events: seq<Event>)
    requires Quietly(d, events)
    ensures Run(d, events).running == d.running
  {
  }

  // ------------------------------------------------------------------
  // Pills
  // ------------------------------------------------------------------

  /** Pills in front of the first data. */
  function LeadingPills(queue: seq<Entry>): nat {
    if queue == [] || queue[0].Data? then 0 else 1 + LeadingPills(queue[1..])
  }

  function Pills(queue: seq<Entry>): nat {
    if queue == [] then 0 else (if queue[0].Pill? then 1 else 0) + Pills(queue[1..])
  }

  lemma {:induction false} DataBehindPills(queue: seq<Entry>, e: Entry)
    requires e.Data?
    ensures LeadingPills(queue + [e]) == LeadingPills(queue)
    ensures Pills(queue + [e]) == Pills(queue)
  {
    if queue == [] {
      assert queue + [e] == [e] && [e][1..] == [];
    } else {
      assert (queue + [e])[0] == queue[0] && (queue + [e])[1..] == queue[1..] + [e];
      DataBehindPills(queue[1..], e);
    }
  }
}
