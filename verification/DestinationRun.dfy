/** A destination's life as interleaved atomic steps: the hub offering data, loop threads taking and
    sending it, and whoever starts and stops the destination. Any number of loops can be alive at
    once, because a stop gives up waiting for a loop after a while and a start always adds one. */
module DestinationRun {
  import opened Bytes

  /** Data with its place in the order of offers, so that duplicates and order can be told. */
  datatype Item = Item(number: nat, data: bytes)

  datatype Entry = Data(item: Item) | Pill

  /** Where a loop thread is. */
  datatype Loop =
    | Off
    | Checking                // about to test the running flag
    | Getting                 // waiting on the queue
    | Holding(item: Item)     // has data, about to look at the connection
    | Connecting(item: Item)  // saw no connection
    | Clearing(item: Item)    // just connected, emptying the queue
    | Rechecking(item: Item)  // after a connection attempt
    | Sending(item: Item)

  /** Where a stop is; it ends by disconnecting, or by an exception. */
  datatype Stopper = Flagged | MakingRoom | Pilling | Joining | Finished | Raised

  datatype Destination = Destination(
    queue: seq<Entry>, capacity: nat,
    running: bool, connected: bool,
    loops: seq<Loop>,       // in the order they were started
    stoppers: seq<Stopper>,
    offered: seq<Item>,
    sent: seq<Item>,        // handed to the connection without an error
    dropped: seq<Item>,     // counted in messages_dropped: queue full, or no connection
    failed: seq<Item>,      // the send raised
    cleared: seq<Item>,     // emptied out of the queue on (re)connect
    discarded: seq<Item>,   // taken out by stop to make room for its pill
    wire: seq<Item>)        // sent since the last time a connection was made

  function New(capacity: nat): Destination {
    Destination([], capacity, false, false, [], [], [], [], [], [], [], [], [])
  }

  predicate Full(d: Destination) {
    d.capacity > 0 && |d.queue| >= d.capacity
  }

  /** What a loop thread can do next. */
  datatype LoopAct =
    | Check | Get | Expire | Look | Connect(connects: bool) | Clear | Recheck | Send(succeeds: bool)

  datatype StopAct = PutPill | MakeRoom | PutPillAgain | Finish

  datatype Event =
    | Offer(data: bytes)
    | Start
    | StopFlag
    | StopBy(stopper: nat, stop: StopAct)
    | By(loop: nat, act: LoopAct)
    | Drain  // somebody clears one entry out of the queue
    | Lose   // the other side closes the connection

  function ItemsOf(e: Entry): seq<Item> { if e.Data? then [e.item] else [] }

  function At(d: Destination, i: nat, l: Loop): Destination
    requires i < |d.loops|
  {
    d.(loops := d.loops[i := l])
  }

  function StopAt(d: Destination, j: nat, s: Stopper): Destination
    requires j < |d.stoppers|
  {
    d.(stoppers := d.stoppers[j := s])
  }

  /** One step of loop i; what it cannot do now changes nothing. */
  function Act(d: Destination, i: nat, a: LoopAct): Destination
    requires i < |d.loops|
  {
    var l := d.loops[i];
    match a
    case Check => if l != Checking then d else At(d, i, if d.running then Getting else Off)
    case Get =>
      if l != Getting || d.queue == [] then d
      else At(d.(queue := d.queue[1..]), i, if d.queue[0].Pill? then Off else Holding(d.queue[0].item))
    case Expire => if l == Getting && d.queue == [] then At(d, i, Checking) else d
    case Look => if !l.Holding? then d else At(d, i, if d.connected then Sending(l.item) else Connecting(l.item))
    case Connect(connects) =>
      if !l.Connecting? then d
      else if connects then At(d.(connected := true, wire := []), i, Clearing(l.item))
      else At(d, i, Rechecking(l.item))
    case Clear =>
      if !l.Clearing? then d
      else if d.queue == [] then At(d, i, Rechecking(l.item))
      else Drained(d)
    case Recheck =>
      if !l.Rechecking? then d
      else if d.connected then At(d, i, Sending(l.item))
      else At(d.(dropped := d.dropped + [l.item]), i, Checking)
    case Send(succeeds) =>
      if !l.Sending? then d
      else if succeeds && d.connected then
        At(d.(sent := d.sent + [l.item], wire := d.wire + [l.item]), i, Checking)
      else At(d.(failed := d.failed + [l.item], connected := false), i, Checking)
  }

  function Drained(d: Destination): Destination {
    if d.queue == [] then d else d.(queue := d.queue[1..], cleared := d.cleared + ItemsOf(d.queue[0]))
  }

  /** One step of stop j. */
  function StopStep(d: Destination, j: nat, a: StopAct): Destination
    requires j < |d.stoppers|
  {
    match a
    case PutPill =>
      if d.stoppers[j] != Flagged then d
      else if Full(d) then StopAt(d, j, MakingRoom)
      else StopAt(d.(queue := d.queue + [Pill]), j, Joining)
    case MakeRoom =>
      if d.stoppers[j] != MakingRoom then d
      else if d.queue == [] then StopAt(d, j, Joining)
      else StopAt(d.(queue := d.queue[1..], discarded := d.discarded + ItemsOf(d.queue[0])), j, Pilling)
    case PutPillAgain =>
      // If the room has been taken meanwhile, the put raises and stop ends there.
      if d.stoppers[j] != Pilling then d
      else if Full(d) then StopAt(d, j, Raised)
      else StopAt(d.(queue := d.queue + [Pill]), j, Joining)
    case Finish =>
      // Joining ends when the loop has, or after a while.
      if d.stoppers[j] == Joining then StopAt(d.(connected := false), j, Finished) else d
  }

  function Offered(d: Destination, data: bytes): Destination {
    var item := Item(|d.offered|, data);
    if Full(d) then d.(offered := d.offered + [item], dropped := d.dropped + [item])
    else d.(offered := d.offered + [item], queue := d.queue + [Data(item)])
  }

  function Step(d: Destination, e: Event): Destination {
    match e
    case Offer(data) => Offered(d, data)
    case Start => if d.running then d else d.(running := true, loops := d.loops + [Checking])
    case StopFlag => if d.running then d.(running := false, stoppers := d.stoppers + [Flagged]) else d
    case StopBy(j, stop) => if j < |d.stoppers| then StopStep(d, j, stop) else d
    case By(i, act) => if i < |d.loops| then Act(d, i, act) else d
    case Drain => Drained(d)
    case Lose => d.(connected := false)
  }

  function Run(d: Destination, events: seq<Event>): Destination
    decreases |events|
  {
    if events == [] then d else Run(Step(d, events[0]), events[1..])
  }

  lemma RunOne(d: Destination, e: Event)
    ensures Run(d, [e]) == Step(d, e)
  {
    hide Step;
    assert [e][1..] == [];
  }

  lemma {:induction false} RunAppend(d: Destination, a: seq<Event>, b: seq<Event>)
    ensures Run(d, a + b) == Run(Run(d, a), b)
    decreases |a|
  {
    hide Step;
    if a == [] {
      assert a + b == b;
    } else {
      assert (a + b)[0] == a[0] && (a + b)[1..] == a[1..] + b;
      RunAppend(Step(d, a[0]), a[1..], b);
    }
  }

  /** A run, and one more step. */
  lemma RunThen(d: Destination, events: seq<Event>, e: Event)
    ensures Run(d, events + [e]) == Step(Run(d, events), e)
  {
    hide Step, Run;
    RunAppend(d, events, [e]);
    RunOne(Run(d, events), e);
  }

  lemma RunTwo(d: Destination, a: Event, b: Event)
    ensures Run(d, [a, b]) == Step(Step(d, a), b)
  {
    hide Step, Run;
    assert [a, b] == [a] + [b];
    RunOne(d, a);
    RunThen(d, [a], b);
  }

  lemma RunThree(d: Destination, a: Event, b: Event, c: Event)
    ensures Run(d, [a, b, c]) == Step(Step(Step(d, a), b), c)
  {
    hide Step, Run;
    assert [a, b, c] == [a, b] + [c];
    RunTwo(d, a, b);
    RunThen(d, [a, b], c);
  }

  // ------------------------------------------------------------------
  // The ledger
  // ------------------------------------------------------------------

  function Queued(queue: seq<Entry>): seq<Item> {
    if queue == [] then [] else ItemsOf(queue[0]) + Queued(queue[1..])
  }

  lemma {:induction false} QueuedAppend(a: seq<Entry>, b: seq<Entry>)
    ensures Queued(a + b) == Queued(a) + Queued(b)
  {
    if a == [] {
      assert a + b == b;
    } else {
      assert (a + b)[0] == a[0] && (a + b)[1..] == a[1..] + b;
      QueuedAppend(a[1..], b);
    }
  }

  lemma QueuedOne(e: Entry)
    ensures Queued([e]) == ItemsOf(e)
  {
  }

  lemma PillHoldsNothing(queue: seq<Entry>)
    ensures Queued(queue + [Pill]) == Queued(queue)
  {
    QueuedAppend(queue, [Pill]);
    QueuedOne(Pill);
  }

  /** A loop that has data in its hands. */
  predicate Holds(l: Loop) {
    l.Holding? || l.Connecting? || l.Clearing? || l.Rechecking? || l.Sending?
  }

  function Hand(l: Loop): seq<Item> {
    if Holds(l) then [l.item] else []
  }

  function Hands(loops: seq<Loop>): seq<Item> {
    if loops == [] then [] else Hand(loops[0]) + Hands(loops[1..])
  }

  function Count(items: seq<Item>, x: Item): nat { multiset(items)[x] }

  lemma CountAppend(a: seq<Item>, b: seq<Item>, x: Item)
    ensures Count(a + b, x) == Count(a, x) + Count(b, x)
  {
  }

  lemma CountNone(x: Item)
    ensures Count([], x) == 0
  {
  }

  lemma FirstHand(loops: seq<Loop>, x: Item)
    requires loops != []
    ensures Count(Hands(loops), x) == Count(Hand(loops[0]), x) + Count(Hands(loops[1..]), x)
  {
    hide Hand, Count;
    CountAppend(Hand(loops[0]), Hands(loops[1..]), x);
  }

  lemma {:induction false} HandsUpdated(loops: seq<Loop>, i: nat, l: Loop, x: Item)
    requires i < |loops|
    ensures Count(Hands(loops[i := l]), x) + Count(Hand(loops[i]), x) == Count(Hands(loops), x) + Count(Hand(l), x)
  {
    hide Hand, Hands, Count;
    var n := loops[i := l];
    FirstHand(loops, x);
    FirstHand(n, x);
    if i == 0 {
      assert n[1..] == loops[1..];
    } else {
      assert n[1..] == loops[1..][i - 1 := l];
      HandsUpdated(loops[1..], i - 1, l, x);
    }
  }

  lemma {:induction false} HandsStarted(loops: seq<Loop>)
    ensures Hands(loops + [Checking]) == Hands(loops)
  {
    if loops == [] {
      assert loops + [Checking] == [Checking] && [Checking][1..] == [];
    } else {
      assert (loops + [Checking])[1..] == loops[1..] + [Checking];
      HandsStarted(loops[1..]);
    }
  }

  /** How often an item is among those that are done with. */
  function Done(d: Destination, x: Item): nat {
    Count(d.sent, x) + Count(d.dropped, x) + Count(d.failed, x) + Count(d.cleared, x) + Count(d.discarded, x)
  }

  /** In how many places an item is. */
  function Places(d: Destination, x: Item): nat {
    Done(d, x) + Count(Queued(d.queue), x) + Count(Hands(d.loops), x)
  }

  ghost predicate Balanced(d: Destination) {
    forall x: Item :: Places(d, x) == Count(d.offered, x)
  }

  predicate Numbered(d: Destination) {
    forall k :: 0 <= k < |d.offered| ==> d.offered[k].number == k
  }

  predicate Bounded(d: Destination) {
    d.capacity > 0 ==> |d.queue| <= d.capacity
  }

  /** What is on the wire since the last connect is the end of what was sent. */
  predicate WireEndsSent(d: Destination) {
    |d.wire| <= |d.sent| && d.wire == d.sent[|d.sent| - |d.wire|..]
  }

  ghost predicate Sound(d: Destination) {
    Balanced(d) && Numbered(d) && Bounded(d) && WireEndsSent(d)
  }

  // One lemma for each way an item can move; what moves is a sequence of at most one item.

  /** Items leave the front of the queue for a place where they are done with. */
  lemma FrontIsDone(d: Destination, n: Destination, moved: seq<Item>, x: Item)
    requires Queued(d.queue) == moved + Queued(n.queue) && n.loops == d.loops
    requires Done(n, x) == Done(d, x) + Count(moved, x)
    ensures Places(n, x) == Places(d, x)
  {
    hide Count, Done, Hands, Queued;
    CountAppend(moved, Queued(n.queue), x);
  }

  /** An item leaves a loop's hands for a place where it is done with. */
  lemma HandIsDone(d: Destination, n: Destination, i: nat, l: Loop, x: Item)
    requires i < |d.loops| && n.loops == d.loops[i := l] && Hand(l) == []
    requires n.queue == d.queue && Done(n, x) == Done(d, x) + Count(Hand(d.loops[i]), x)
    ensures Places(n, x) == Places(d, x)
  {
    hide Count, Done, Hands, Queued, Hand;
    HandsUpdated(d.loops, i, l, x);
    CountNone(x);
  }

  /** What leaves the front of the queue comes into a loop's hands. */
  lemma FrontIsTaken(d: Destination, n: Destination, i: nat, l: Loop, x: Item)
    requires i < |d.loops| && n.loops == d.loops[i := l] && Hand(d.loops[i]) == []
    requires Queued(d.queue) == Hand(l) + Queued(n.queue) && Done(n, x) == Done(d, x)
    ensures Places(n, x) == Places(d, x)
  {
    hide Count, Done, Hands, Queued, Hand;
    HandsUpdated(d.loops, i, l, x);
    CountAppend(Hand(l), Queued(n.queue), x);
    CountNone(x);
  }

  /** A loop moves on with what it has. */
  lemma HandStays(d: Destination, n: Destination, i: nat, l: Loop, x: Item)
    requires i < |d.loops| && n.loops == d.loops[i := l] && Hand(l) == Hand(d.loops[i])
    requires Queued(n.queue) == Queued(d.queue) && Done(n, x) == Done(d, x)
    ensures Places(n, x) == Places(d, x)
  {
    hide Count, Done, Hands, Queued, Hand;
    HandsUpdated(d.loops, i, l, x);
  }

  lemma FrontOfQueue(queue: seq<Entry>)
    requires queue != []
    ensures Queued(queue) == ItemsOf(queue[0]) + Queued(queue[1..])
  {
  }

  lemma OneMoreDone(d: Destination, moved: seq<Item>, x: Item)
    ensures Done(d.(sent := d.sent + moved), x) == Done(d, x) + Count(moved, x)
    ensures Done(d.(dropped := d.dropped + moved), x) == Done(d, x) + Count(moved, x)
    ensures Done(d.(failed := d.failed + moved), x) == Done(d, x) + Count(moved, x)
    ensures Done(d.(cleared := d.cleared + moved), x) == Done(d, x) + Count(moved, x)
    ensures Done(d.(discarded := d.discarded + moved), x) == Done(d, x) + Count(moved, x)
  {
    hide Count;
    CountAppend(d.sent, moved, x);
    CountAppend(d.dropped, moved, x);
    CountAppend(d.failed, moved, x);
    CountAppend(d.cleared, moved, x);
    CountAppend(d.discarded, moved, x);
  }

  lemma PlacesDrained(d: Destination, x: Item)
    ensures Places(Drained(d), x) == Places(d, x)
  {
    hide Count, Queued, Hands, Places;
    if d.queue != [] {
      FrontOfQueue(d.queue);
      OneMoreDone(d, ItemsOf(d.queue[0]), x);
      FrontIsDone(d, Drained(d), ItemsOf(d.queue[0]), x);
    }
  }

  lemma PlacesSent(d: Destination, i: nat, a: LoopAct, x: Item)
    requires i < |d.loops| && (a.Send? || a.Recheck?)
    ensures Places(Act(d, i, a), x) == Places(d, x)
  {
    hide Count, Queued, Hands, Places;
    var n := Act(d, i, a);
    if n != d {
      OneMoreDone(d, Hand(d.loops[i]), x);
      if a.Recheck? && d.connected {
        HandStays(d, n, i, n.loops[i], x);
      } else {
        HandIsDone(d, n, i, Checking, x);
      }
    }
  }

  lemma PlacesAct(d: Destination, i: nat, a: LoopAct, x: Item)
    requires i < |d.loops|
    ensures Places(Act(d, i, a), x) == Places(d, x)
  {
    hide Count, Queued, Hands, Places, Drained;
    var l, n := d.loops[i], Act(d, i, a);
    match a
    case Send(_) => PlacesSent(d, i, a, x);
    case Recheck => PlacesSent(d, i, a, x);
    case Get =>
      if n != d {
        FrontOfQueue(d.queue);
        FrontIsTaken(d, n, i, n.loops[i], x);
      }
    case Clear =>
      if l.Clearing? && d.queue != [] {
        PlacesDrained(d, x);
      } else if l.Clearing? {
        HandStays(d, n, i, n.loops[i], x);
      }
    case _ =>
      if n != d {
        HandStays(d, n, i, n.loops[i], x);
      }
  }

  lemma PlacesStop(d: Destination, j: nat, a: StopAct, x: Item)
    requires j < |d.stoppers|
    ensures Places(StopStep(d, j, a), x) == Places(d, x)
  {
    hide Count, Queued, Hands;
    PillHoldsNothing(d.queue);
    if a.MakeRoom? && d.stoppers[j] == MakingRoom && d.queue != [] {
      FrontOfQueue(d.queue);
      OneMoreDone(d, ItemsOf(d.queue[0]), x);
      FrontIsDone(d, StopStep(d, j, a), ItemsOf(d.queue[0]), x);
    }
  }

  lemma PlacesOffered(d: Destination, data: bytes, x: Item)
    ensures Places(Offered(d, data), x) - Count(Offered(d, data).offered, x) == Places(d, x) - Count(d.offered, x)
  {
    hide Count, Queued, Hands;
    var item := Item(|d.offered|, data);
    CountAppend(d.offered, [item], x);
    OneMoreDone(d, [item], x);
    QueuedAppend(d.queue, [Data(item)]);
    QueuedOne(Data(item));
    CountAppend(Queued(d.queue), [item], x);
  }

  /** Only an offer adds an item to account for, and it puts it somewhere. */
  lemma PlacesStep(d: Destination, e: Event, x: Item)
    ensures Places(Step(d, e), x) - Count(Step(d, e).offered, x) == Places(d, x) - Count(d.offered, x)
  {
    hide Count, Queued, Hands, Act, StopStep, Offered, Drained;
    match e
    case Offer(data) => PlacesOffered(d, data, x);
    case Start => HandsStarted(d.loops);
    case StopBy(j, stop) => if j < |d.stoppers| { PlacesStop(d, j, stop, x); OfferedStays(d, e); }
    case By(i, act) => if i < |d.loops| { PlacesAct(d, i, act, x); OfferedStays(d, e); }
    case Drain => PlacesDrained(d, x); OfferedStays(d, e);
    case _ =>
  }

  lemma OfferedStays(d: Destination, e: Event)
    requires !e.Offer?
    ensures Step(d, e).offered == d.offered
  {
    hide Act;
    if e.By? && e.loop < |d.loops| { ActOffersNothing(d, e.loop, e.act); }
  }

  lemma ActOffersNothing(d: Destination, i: nat, a: LoopAct)
    requires i < |d.loops|
    ensures Act(d, i, a).offered == d.offered
  {
  }

  lemma BalancedStep(d: Destination, e: Event)
    requires Balanced(d)
    ensures Balanced(Step(d, e))
  {
    hide Places, Count, Step;
    forall x: Item ensures Places(Step(d, e), x) == Count(Step(d, e).offered, x) {
      PlacesStep(d, e, x);
    }
  }

  lemma NumberedStep(d: Destination, e: Event)
    requires Numbered(d)
    ensures Numbered(Step(d, e))
  {
    hide Step;
    if e.Offer? { OfferedNext(d, e.data); } else { OfferedStays(d, e); }
  }

  lemma OfferedNext(d: Destination, data: bytes)
    ensures Step(d, Offer(data)).offered == d.offered + [Item(|d.offered|, data)]
  {
  }

  lemma BoundedAct(d: Destination, i: nat, a: LoopAct)
    requires Bounded(d) && i < |d.loops|
    ensures Bounded(Act(d, i, a))
  {
  }

  lemma BoundedStop(d: Destination, j: nat, a: StopAct)
    requires Bounded(d) && j < |d.stoppers|
    ensures Bounded(StopStep(d, j, a))
  {
  }

  lemma BoundedStep(d: Destination, e: Event)
    requires Bounded(d)
    ensures Bounded(Step(d, e))
  {
    hide Act, StopStep;
    match e
    case By(i, act) => if i < |d.loops| { BoundedAct(d, i, act); }
    case StopBy(j, stop) => if j < |d.stoppers| { BoundedStop(d, j, stop); }
    case _ =>
  }

  lemma WireAct(d: Destination, i: nat, a: LoopAct)
    requires WireEndsSent(d) && i < |d.loops|
    ensures WireEndsSent(Act(d, i, a))
  {
  }

  lemma WireStep(d: Destination, e: Event)
    requires WireEndsSent(d)
    ensures WireEndsSent(Step(d, e))
  {
    hide Act;
    if e.By? && e.loop < |d.loops| { WireAct(d, e.loop, e.act); }
  }

  /** Whatever happens, with however many loops: each item offered stays in exactly one place, the
      queue keeps its bound, and the wire holds the end of what was sent. */
  lemma SoundStep(d: Destination, e: Event)
    requires Sound(d)
    ensures Sound(Step(d, e))
  {
    hide Balanced, Numbered, Bounded, WireEndsSent, Step;
    BalancedStep(d, e);
    NumberedStep(d, e);
    BoundedStep(d, e);
    WireStep(d, e);
  }

  lemma {:induction false} SoundRun(d: Destination, events: seq<Event>)
    requires Sound(d)
    ensures Sound(Run(d, events))
    decreases |events|
  {
    hide Sound, Step;
    if events != [] {
      SoundStep(d, events[0]);
      SoundRun(Step(d, events[0]), events[1..]);
    }
  }

  lemma NewIsSound(capacity: nat)
    ensures Sound(New(capacity))
  {
  }

  lemma {:induction false} CapacityStays(d: Destination, events: seq<Event>)
    ensures Run(d, events).capacity == d.capacity
    decreases |events|
  {
    hide Step;
    if events != [] {
      CapacityStep(d, events[0]);
      CapacityStays(Step(d, events[0]), events[1..]);
    }
  }

  lemma CapacityStep(d: Destination, e: Event)
    ensures Step(d, e).capacity == d.capacity
  {
  }

  /** The items are offered ones, and no two are the same. */
  ghost predicate DistinctPartOf(items: seq<Item>, offered: seq<Item>) {
    && (forall i, j :: 0 <= i < j < |items| ==> items[i].number != items[j].number)
    && (forall k :: 0 <= k < |items| ==> items[k].number < |offered| && offered[items[k].number] == items[k])
  }

  lemma {:induction false} CountAt(items: seq<Item>, k: nat)
    requires k < |items|
    ensures Count(items, items[k]) >= 1
  {
    assert items[k] in items;
  }

  lemma CountTwice(items: seq<Item>, i: nat, j: nat)
    requires i < j < |items| && items[i] == items[j]
    ensures Count(items, items[i]) >= 2
  {
    hide Count;
    assert items == items[..j] + items[j..];
    CountAppend(items[..j], items[j..], items[i]);
    CountAt(items[..j], i);
    CountAt(items[j..], 0);
  }

  lemma OfferedOnce(d: Destination, x: Item)
    requires Numbered(d)
    ensures Count(d.offered, x) <= 1
    ensures Count(d.offered, x) == 1 ==> x.number < |d.offered| && d.offered[x.number] == x
  {
    var o := d.offered;
    if x in o {
      var k :| 0 <= k < |o| && o[k] == x;
      assert o == o[..k] + [x] + o[k + 1..];
      assert x !in o[..k] && x !in o[k + 1..];
      assert multiset(o[..k])[x] == 0 && multiset(o[k + 1..])[x] == 0;
    }
  }

  lemma SentIsDistinct(d: Destination)
    requires Sound(d)
    ensures DistinctPartOf(d.sent, d.offered)
  {
    hide Count, Queued, Hands;
    forall k | 0 <= k < |d.sent| ensures d.sent[k].number < |d.offered| && d.offered[d.sent[k].number] == d.sent[k] {
      CountAt(d.sent, k);
      OfferedOnce(d, d.sent[k]);
      assert Places(d, d.sent[k]) == Count(d.offered, d.sent[k]);
    }
    forall i, j | 0 <= i < j < |d.sent| ensures d.sent[i].number != d.sent[j].number {
      if d.sent[i].number == d.sent[j].number {
        assert Places(d, d.sent[i]) == Count(d.offered, d.sent[i]);
        OfferedOnce(d, d.sent[i]);
        CountTwice(d.sent, i, j);
      }
    }
  }

  lemma TotalsAgree(d: Destination)
    requires Balanced(d)
    ensures |d.offered| == |d.sent| + |d.dropped| + |d.failed| + |d.cleared| + |d.discarded|
                           + |Queued(d.queue)| + |Hands(d.loops)|
  {
    hide Queued, Hands;
    var all := multiset(d.sent) + multiset(d.dropped) + multiset(d.failed) + multiset(d.cleared)
      + multiset(d.discarded) + multiset(Queued(d.queue)) + multiset(Hands(d.loops));
    forall x: Item ensures multiset(d.offered)[x] == all[x] {
      assert Places(d, x) == Count(d.offered, x);
    }
    assert multiset(d.offered) == all;
    assert |multiset(d.offered)| == |d.offered|;
  }

  /** In every reachable state, with however many loops alive: the counts add up, the queue keeps its
      bound, what was sent is a duplicate-free part of what was offered, and the wire since the last
      connect holds the end of what was sent. */
  lemma Ledger(capacity: nat, events: seq<Event>)
    ensures var d := Run(New(capacity), events);
      && |d.offered| == |d.sent| + |d.dropped| + |d.failed| + |d.cleared| + |d.discarded|
                        + |Queued(d.queue)| + |Hands(d.loops)|
      && (capacity > 0 ==> |d.queue| <= capacity)
      && DistinctPartOf(d.sent, d.offered)
      && |d.wire| <= |d.sent| && d.wire == d.sent[|d.sent| - |d.wire|..]
  {
    hide Run, Queued, Hands, Balanced, Numbered;
    NewIsSound(capacity);
    SoundRun(New(capacity), events);
    CapacityStays(New(capacity), events);
    SentIsDistinct(Run(New(capacity), events));
    TotalsAgree(Run(New(capacity), events));
  }
}
