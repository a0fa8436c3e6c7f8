/** Attaching Frame subscribers while the hub stops and subscribers close themselves. Each step is
    one locked section, or one action outside the lock; any number of calls may be under way. */
module SubscribeStop {
  import opened Bytes

  type Name = nat  // subscriptions are numbered in the order they are passed to add_frame_subscriber

  /** A subscription, with how many close() calls of it are at each of their steps. */
  datatype Subscriber = Subscriber(
    attached: bool, closed: bool, dropped: nat,
    entering: nat,   // about to test the flag
    marking: nat,    // found it clear, about to set it
    detaching: nat,  // set it, about to leave the hub
    waking: nat)     // about to wake a blocked reader

  datatype Hub = Hub(
    running: bool,
    flagged: nat,       // stops that have cleared the flag but not yet collected the subscribers
    failed: nat,        // stops that have ended with an exception in between
    subs: seq<Subscriber>,
    removedDrops: nat,
    offering: Option<Name>,  // the subscription an offer under way has found open
    rejections: nat,    // history: frames turned away because a queue was full
    late: nat)          // history: those of them counted after the subscription had been detached

  const NEW := Hub(false, 0, 0, [], 0, None, 0, 0)

  datatype Event =
    | Start | StopFlag | Collect | Fail
    | Add                                   // the locked section; a refused one goes on to close
    | Close(sub: Name)                      // a call begins
    | Enter(sub: Name) | Mark(sub: Name) | Detach(sub: Name) | Wake(sub: Name)
    | Offer(sub: Name, full: bool)          // an offer that nothing interrupts, or...
    | OfferTest(sub: Name)                  // ...its test of the flag
    | OfferPut(full: bool)                  // ...and its put, which counts a drop on a full queue

  function Collected(s: Subscriber): Subscriber {
    if s.attached then s.(entering := s.entering + 1) else s
  }

  function AllCollected(subs: seq<Subscriber>): seq<Subscriber> {
    seq(|subs|, i requires 0 <= i < |subs| => Collected(subs[i]))
  }

  function SubStep(s: Subscriber, e: Event): Subscriber {
    match e
    case Close(_) => s.(entering := s.entering + 1)
    case Enter(_) =>
      if s.entering == 0 then s
      else if s.closed then s.(entering := s.entering - 1)
      else s.(entering := s.entering - 1, marking := s.marking + 1)
    case Mark(_) =>
      if s.marking == 0 then s
      else s.(closed := true, marking := s.marking - 1, detaching := s.detaching + 1)
    case Detach(_) =>
      if s.detaching == 0 then s
      else s.(attached := false, detaching := s.detaching - 1, waking := s.waking + 1)
    case Wake(_) => if s.waking == 0 then s else s.(waking := s.waking - 1)
    case Offer(_, full) =>
      if s.attached && !s.closed && full then s.(dropped := s.dropped + 1) else s
    case _ => s
  }

  function Step(h: Hub, e: Event): Hub {
    match e
    case Start => h.(running := true)
    case StopFlag => if h.running then h.(running := false, flagged := h.flagged + 1) else h
    case Collect =>
      if h.flagged == 0 then h else h.(flagged := h.flagged - 1, subs := AllCollected(h.subs))
    case Fail => if h.flagged == 0 then h else h.(flagged := h.flagged - 1, failed := h.failed + 1)
    case Add =>
      h.(subs := h.subs + [Subscriber(h.running, false, 0, if h.running then 0 else 1, 0, 0, 0)])
    case OfferTest(k) =>
      if h.offering.None? && k < |h.subs| && h.subs[k].attached && !h.subs[k].closed then h.(offering := Some(k))
      else h
    case OfferPut(full) =>
      if h.offering.None? then h
      else if !full || h.offering.value >= |h.subs| then h.(offering := None)
      else
        var s := h.subs[h.offering.value];
        h.(offering := None, subs := h.subs[h.offering.value := s.(dropped := s.dropped + 1)],
           rejections := h.rejections + 1, late := h.late + if s.attached then 0 else 1)
    case _ =>
      if e.sub >= |h.subs| then h
      else
        var s, n := h.subs[e.sub], SubStep(h.subs[e.sub], e);
        h.(subs := h.subs[e.sub := n],
           removedDrops := h.removedDrops + if s.attached && !n.attached then s.dropped else 0,
           rejections := h.rejections + (n.dropped - s.dropped))
  }

  function Run(h: Hub, events: seq<Event>): Hub
    decreases |events|
  {
    if events == [] then h else Run(Step(h, events[0]), events[1..])
  }

  lemma RunOne(h: Hub, e: Event)
    ensures Run(h, [e]) == Step(h, e)
  {
    hide Step;
    assert [e][1..] == [];
  }

  lemma {:induction false} RunAppend(h: Hub, a: seq<Event>, b: seq<Event>)
    ensures Run(h, a + b) == Run(Run(h, a), b)
    decreases |a|
  {
    hide Step;
    if a == [] {
      assert a + b == b;
    } else {
      assert (a + b)[0] == a[0] && (a + b)[1..] == a[1..] + b;
      RunAppend(Step(h, a[0]), a[1..], b);
    }
  }

  lemma RunThen(h: Hub, events: seq<Event>, e: Event)
    ensures Run(h, events + [e]) == Step(Run(h, events), e)
  {
    hide Step, Run;
    RunAppend(h, events, [e]);
    RunOne(Run(h, events), e);
  }

  lemma RunTwo(h: Hub, a: Event, b: Event)
    ensures Run(h, [a, b]) == Step(Step(h, a), b)
  {
    hide Step, Run;
    RunOne(h, a);
    RunThen(h, [a], b);
    assert [a] + [b] == [a, b];
  }

  lemma RunFour(h: Hub, a: Event, b: Event, c: Event, d: Event)
    ensures Run(h, [a, b, c, d]) == Step(Step(Step(Step(h, a), b), c), d)
  {
    hide Step, Run;
    RunTwo(h, a, b);
    RunThen(h, [a, b], c);
    assert [a, b] + [c] == [a, b, c];
    RunThen(h, [a, b, c], d);
    assert [a, b, c] + [d] == [a, b, c, d];
  }

  lemma RunAll(h: Hub, a: Event, b: Event, c: Event, d: Event, e: Event)
    ensures Run(h, [a, b, c, d, e]) == Step(Step(Step(Step(Step(h, a), b), c), d), e)
  {
    hide Step, Run;
    RunFour(h, a, b, c, d);
    RunThen(h, [a, b, c, d], e);
    assert [a, b, c, d] + [e] == [a, b, c, d, e];
  }

  // ------------------------------------------------------------------
  // No subscription is left open
  // ------------------------------------------------------------------

  /** An open subscription is about to be closed, or is attached to a hub that runs, whose stop has
      yet to collect it, or a stop of which has failed; only a closed one is detached; a closed one is
      detached, or about to be. */
  predicate Watched(s: Subscriber, running: bool, stops: nat) {
    && (!s.closed ==> s.entering + s.marking > 0 || (s.attached && (running || stops > 0)))
    && (s.detaching > 0 ==> s.closed)
    && (s.closed && s.attached ==> s.detaching > 0)
  }

  predicate AllWatched(h: Hub) {
    forall k :: 0 <= k < |h.subs| ==> Watched(h.subs[k], h.running, h.flagged + h.failed)
  }

  lemma WatchedStep(h: Hub, e: Event)
    requires AllWatched(h)
    ensures AllWatched(Step(h, e))
  {
  }

  lemma {:induction false} WatchedRun(h: Hub, events: seq<Event>)
    requires AllWatched(h)
    ensures AllWatched(Run(h, events))
    decreases |events|
  {
    hide AllWatched, Step;
    if events != [] {
      WatchedStep(h, events[0]);
      WatchedRun(Step(h, events[0]), events[1..]);
    }
  }

  /** No close() call of the subscription is under way. */
  predicate Settled(s: Subscriber) {
    s.entering == 0 && s.marking == 0 && s.detaching == 0 && s.waking == 0
  }

  /** In every interleaving: once the hub is stopped, every stop has collected, none has failed, and the close() calls
      of a subscription have returned, that subscription is closed and detached. */
  lemma NoneLeftOpen(events: seq<Event>, k: Name)
    requires var h := Run(NEW, events);
      !h.running && h.flagged == 0 && h.failed == 0 && k < |h.subs| && Settled(h.subs[k])
    ensures var s := Run(NEW, events).subs[k]; s.closed && !s.attached
  {
    hide Run, Step;
    WatchedRun(NEW, events);
  }

  /** A stop that fails between its two halves leaves a subscription open in a stopped hub, with nobody
      about to close it, and a further stop does nothing. */
  lemma LeftOpenByFailure()
    ensures var h := Run(NEW, [Start, Add, StopFlag, Fail]);
      && !h.running && h.flagged == 0 && |h.subs| == 1 && Settled(h.subs[0])
      && !h.subs[0].closed && h.subs[0].attached && Step(h, StopFlag) == h
  {
  }

  // ------------------------------------------------------------------
  // No drop is forgotten
  // ------------------------------------------------------------------

  /** What the attached subscriptions have dropped. */
  function AttachedDrops(subs: seq<Subscriber>): nat {
    if subs == [] then 0
    else (if subs[0].attached then subs[0].dropped else 0) + AttachedDrops(subs[1..])
  }

  function ReportedDrops(h: Hub): nat {
    h.removedDrops + AttachedDrops(h.subs)
  }

  lemma {:induction false} DropsUpdated(subs: seq<Subscriber>, k: nat, s: Subscriber)
    requires k < |subs|
    ensures AttachedDrops(subs[k := s]) + (if subs[k].attached then subs[k].dropped else 0)
         == AttachedDrops(subs) + if s.attached then s.dropped else 0
  {
    if k == 0 {
      assert subs[0 := s][1..] == subs[1..];
    } else {
      assert subs[k := s][1..] == subs[1..][k - 1 := s];
      DropsUpdated(subs[1..], k - 1, s);
    }
  }

  lemma {:induction false} DropsCollected(subs: seq<Subscriber>)
    ensures AttachedDrops(AllCollected(subs)) == AttachedDrops(subs)
  {
    if subs != [] {
      assert AllCollected(subs)[1..] == AllCollected(subs[1..]);
      DropsCollected(subs[1..]);
    }
  }

  lemma {:induction false} DropsAppended(subs: seq<Subscriber>, s: Subscriber)
    ensures AttachedDrops(subs + [s]) == AttachedDrops(subs) + if s.attached then s.dropped else 0
  {
    if subs == [] {
      assert subs + [s] == [s];
    } else {
      assert (subs + [s])[1..] == subs[1..] + [s];
      DropsAppended(subs[1..], s);
    }
  }

  lemma DropsOfOne(h: Hub, e: Event)
    requires e.Close? || e.Enter? || e.Mark? || e.Detach? || e.Wake? || e.Offer?
    ensures var n := Step(h, e);
      ReportedDrops(n) + n.late - n.rejections == ReportedDrops(h) + h.late - h.rejections
    ensures ReportedDrops(Step(h, e)) >= ReportedDrops(h)
  {
    hide AttachedDrops, AllCollected;
    if e.sub < |h.subs| {
      DropsUpdated(h.subs, e.sub, SubStep(h.subs[e.sub], e));
    }
  }

  lemma DropsStep(h: Hub, e: Event)
    ensures var n := Step(h, e);
      ReportedDrops(n) + n.late - n.rejections == ReportedDrops(h) + h.late - h.rejections
    ensures ReportedDrops(Step(h, e)) >= ReportedDrops(h)
  {
    hide AttachedDrops, AllCollected;
    match e
    case Collect => DropsCollected(h.subs);
    case Add => DropsAppended(h.subs, Step(h, e).subs[|h.subs|]);
    case OfferPut(full) =>
      if h.offering.Some? && h.offering.value < |h.subs| {
        var k := h.offering.value;
        DropsUpdated(h.subs, k, h.subs[k].(dropped := h.subs[k].dropped + 1));
      }
    case Start =>
    case StopFlag =>
    case Fail =>
    case OfferTest(_) =>
    case _ => DropsOfOne(h, e);
  }

  /** In every interleaving the reported total never goes down, and is exactly the full-queue
      rejections of every subscription ever attached but for the late ones. */
  lemma {:induction false} DropsAreRejections(h: Hub, events: seq<Event>)
    requires ReportedDrops(h) + h.late == h.rejections
    ensures var n := Run(h, events); ReportedDrops(n) + n.late == n.rejections
    ensures ReportedDrops(Run(h, events)) >= ReportedDrops(h)
    decreases |events|
  {
    hide Step, ReportedDrops;
    if events != [] {
      DropsStep(h, events[0]);
      DropsAreRejections(Step(h, events[0]), events[1..]);
    }
  }

  /** Where an offer that has found subscription k open is not under way, and it is closed. */
  predicate ClosedFor(h: Hub, k: Name) {
    k < |h.subs| && h.subs[k].closed && h.offering != Some(k)
  }

  lemma ClosedStep(h: Hub, e: Event, k: Name)
    requires ClosedFor(h, k)
    ensures ClosedFor(Step(h, e), k) && Step(h, e).subs[k].dropped == h.subs[k].dropped
  {
  }

  /** Once a subscription is closed, and no offer that found it open is under way, it drops nothing more. */
  lemma {:induction false} NoDropsOnceClosed(h: Hub, events: seq<Event>, k: Name)
    requires ClosedFor(h, k)
    ensures ClosedFor(Run(h, events), k) && Run(h, events).subs[k].dropped == h.subs[k].dropped
    decreases |events|
  {
    hide Step;
    if events != [] {
      ClosedStep(h, events[0], k);
      NoDropsOnceClosed(Step(h, events[0]), events[1..], k);
    }
  }

  /** An open, attached subscription drops exactly when an offer finds its queue full. */
  lemma OfferDrops(h: Hub, k: Name, full: bool)
    requires k < |h.subs| && h.subs[k].attached && !h.subs[k].closed
    ensures var n := Step(h, Offer(k, full));
      n.subs[k].dropped == h.subs[k].dropped + (if full then 1 else 0) && n.rejections == h.rejections + if full then 1 else 0
    ensures h.offering == None ==>
      var m := Step(Step(h, OfferTest(k)), OfferPut(full));
      m.subs[k].dropped == h.subs[k].dropped + (if full then 1 else 0) && m.late == h.late
  {
  }

  predicate Uninterrupted(events: seq<Event>) {
    forall i :: 0 <= i < |events| ==> !events[i].OfferTest?
  }

  /** With offers as single steps there are no late ones, so the total is exact. */
  lemma {:induction false} UninterruptedIsExact(h: Hub, events: seq<Event>)
    requires Uninterrupted(events) && h.offering == None && h.late == 0 && ReportedDrops(h) == h.rejections
    ensures ReportedDrops(Run(h, events)) == Run(h, events).rejections
    decreases |events|
  {
    if events != [] {
      DropsStep(h, events[0]);
      hide ReportedDrops;
      UninterruptedIsExact(Step(h, events[0]), events[1..]);
    }
  }

  /** One subscription on a running hub, with its close() call at one of its steps. */
  function Alone(s: Subscriber, offering: Option<Name>): Hub {
    Hub(true, 0, 0, [s], 0, offering, 0, 0)
  }

  const OPEN := Subscriber(true, false, 0, 0, 0, 0, 0)

  lemma OfferUnderWay()
    ensures Run(NEW, [Start, Add, OfferTest(0)]) == Alone(OPEN, Some(0))
  {
  }

  lemma ClosedMeanwhile()
    ensures Run(Alone(OPEN, Some(0)), [Close(0), Enter(0), Mark(0)])
      == Alone(OPEN.(closed := true, detaching := 1), Some(0))
  {
  }

  lemma CountedLate()
    ensures var h := Run(Alone(OPEN.(closed := true, detaching := 1), Some(0)), [Detach(0), OfferPut(true), Wake(0)]);
      h == Alone(Subscriber(false, true, 1, 0, 0, 0, 0), None).(rejections := 1, late := 1)
  {
  }

  /** An offer that finds the subscription open, and its queue full only after a close has detached
      it: that drop never reaches the total. */
  lemma LateDropForgotten()
    ensures var offering := Run(NEW, [Start, Add, OfferTest(0)]);
      var closed := Run(offering, [Close(0), Enter(0), Mark(0)]);
      var h := Run(closed, [Detach(0), OfferPut(true), Wake(0)]);
      h.rejections == 1 && ReportedDrops(h) == 0
  {
    hide Step, Run;
    OfferUnderWay();
    ClosedMeanwhile();
    CountedLate();
  }
}
