/** Frame subscribers: bounded queues that drop the newest frame and never block the hub. */
module FrameSubscription {
  import opened Bytes
  import opened FrameExtraction

  /** A queue entry: a frame, or the wake-up that `close` leaves for a blocked reader. */
  datatype Entry = Queued(frame: ParsedFrame) | WakeUp

  datatype Subscription = Subscription(
    wanted: Option<set<nat>>, capacity: nat, queue: seq<Entry>, closed: bool, dropped: nat)

  predicate Wants(s: Subscription, f: ParsedFrame) {
    s.wanted.None? || f.id in s.wanted.value
  }

  /** A capacity of 0 is a queue without a bound. */
  predicate Full(s: Subscription) {
    s.capacity > 0 && |s.queue| >= s.capacity
  }

  function Offered(s: Subscription, f: ParsedFrame): Subscription {
    if s.closed || !Wants(s, f) then s
    else if Full(s) then s.(dropped := s.dropped + 1)
    else s.(queue := s.queue + [Queued(f)])
  }

  function OfferedAll(s: Subscription, frames: seq<ParsedFrame>): Subscription
    decreases |frames|
  {
    if frames == [] then s else OfferedAll(Offered(s, frames[0]), frames[1..])
  }

  lemma {:induction false} OfferedOneMore(s: Subscription, frames: seq<ParsedFrame>, f: ParsedFrame)
    ensures OfferedAll(s, frames + [f]) == Offered(OfferedAll(s, frames), f)
    decreases |frames|
  {
    hide Offered;
    if frames == [] {
      assert frames + [f] == [f] && [f][1..] == [];
    } else {
      assert (frames + [f])[1..] == frames[1..] + [f];
      OfferedOneMore(Offered(s, frames[0]), frames[1..], f);
    }
  }

  function Closed(s: Subscription): Subscription {
    if s.closed then s
    else
      var c := s.(closed := true);
      if Full(c) then c else c.(queue := c.queue + [WakeUp])
  }

  function Frames(queue: seq<Entry>): seq<ParsedFrame> {
    if queue == [] then []
    else (if queue[0].Queued? then [queue[0].frame] else []) + Frames(queue[1..])
  }

  lemma {:induction false} FramesAppend(a: seq<Entry>, b: seq<Entry>)
    ensures Frames(a + b) == Frames(a) + Frames(b)
  {
    if a == [] {
      assert a + b == b;
    } else {
      assert (a + b)[0] == a[0] && (a + b)[1..] == a[1..] + b;
      FramesAppend(a[1..], b);
      FrontFrame(a);
      FrontFrame(a + b);
      hide Frames;
      var first := if a[0].Queued? then [a[0].frame] else [];
      assert first + (Frames(a[1..]) + Frames(b)) == (first + Frames(a[1..])) + Frames(b);
    }
  }

  lemma FrontFrame(queue: seq<Entry>)
    requires queue != []
    ensures Frames(queue) == (if queue[0].Queued? then [queue[0].frame] else []) + Frames(queue[1..])
  {
  }

  class FrameSubscriber {
    const messageIds: Option<set<nat>>
    const capacity: nat
    var queue: seq<Entry>
    var closed: bool
    var dropped: nat
    ghost var offers: seq<ParsedFrame>  // every frame the hub has offered, queued or not

    function State(): Subscription
      reads this
    {
      Subscription(messageIds, capacity, queue, closed, dropped)
    }

    constructor (messageIds: Option<set<nat>>, capacity: nat)
      ensures State() == Subscription(messageIds, capacity, [], false, 0) && offers == []
    {
      this.messageIds, this.capacity := messageIds, capacity;
      queue, closed, dropped, offers := [], false, 0, [];
    }

    method Offer(frame: ParsedFrame) returns (ok: bool)
      modifies this
      ensures State() == Offered(old(State()), frame)
      ensures offers == old(offers) + [frame]
      ensures ok <==> queue != old(queue)
    {
      offers := offers + [frame];
      if closed {
        return false;
      }
      if messageIds.Some? && frame.id !in messageIds.value {
        return false;
      }
      if capacity > 0 && |queue| >= capacity {
        dropped := dropped + 1;
        return false;
      }
      queue := queue + [Queued(frame)];
      return true;
    }

    /** The next frame; None when there is none (yet), or where a wake-up is due. */
    method GetFrame() returns (frame: Option<ParsedFrame>)
      modifies this`queue
      ensures old(queue) == [] ==> frame == None && queue == []
      ensures old(queue) != [] ==>
        queue == old(queue)[1..] && frame == if old(queue)[0].Queued? then Some(old(queue)[0].frame) else None
    {
      if queue == [] {
        return None;
      }
      var item := queue[0];
      queue := queue[1..];
      return if item.Queued? then Some(item.frame) else None;
    }

    /** Everything queued right now (or the first few of it), in order; nothing else leaves the queue. */
    method Drain(maxFrames: Option<nat>) returns (frames: seq<ParsedFrame>)
      modifies this`queue
      ensures frames + Frames(queue) == Frames(old(queue))
      ensures maxFrames.None? ==> queue == []
      ensures maxFrames.Some? ==> |frames| <= maxFrames.value && (queue == [] || |frames| == maxFrames.value)
    {
      hide Frames;
      frames := [];
      while maxFrames.None? || |frames| < maxFrames.value
        invariant frames + Frames(queue) == Frames(old(queue))
        invariant maxFrames.Some? ==> |frames| <= maxFrames.value
        decreases |queue|
      {
        if queue == [] {
          break;
        }
        var item := queue[0];
        FrontFrame(queue);
        queue := queue[1..];
        if item.Queued? {
          frames := frames + [item.frame];
        }
      }
    }

    method Close()
      modifies this`closed, this`queue
      ensures State() == Closed(old(State()))
      ensures closed && dropped == old(dropped)
      ensures queue == old(queue)
        + if old(closed) || (capacity > 0 && old(|queue|) >= capacity) then [] else [WakeUp]
    {
      if closed {
        return;
      }
      closed := true;
      if !(capacity > 0 && |queue| >= capacity) {
        queue := queue + [WakeUp];
      }
    }
  }

  // ------------------------------------------------------------------
  // Over a whole life
  // ------------------------------------------------------------------

  datatype Call = Offer(frame: ParsedFrame) | Take | Close

  /** A subscription with its history: the wanted frames it was offered while open, what it queued of
      them, and what a reader got. */
  datatype Life = Life(
    sub: Subscription, wanted: seq<ParsedFrame>, kept: seq<ParsedFrame>, read: seq<ParsedFrame>)

  function Born(wanted: Option<set<nat>>, capacity: nat): Life {
    Life(Subscription(wanted, capacity, [], false, 0), [], [], [])
  }

  function After(l: Life, c: Call): Life {
    match c
    case Offer(f) =>
      var s := Offered(l.sub, f);
      l.(sub := s,
         wanted := if !l.sub.closed && Wants(l.sub, f) then l.wanted + [f] else l.wanted,
         kept := if |s.queue| > |l.sub.queue| then l.kept + [f] else l.kept)
    case Take =>
      if l.sub.queue == [] then l
      else l.(sub := l.sub.(queue := l.sub.queue[1..]),
              read := l.read + Frames([l.sub.queue[0]]))
    case Close => l.(sub := Closed(l.sub))
  }

  function Lives(l: Life, calls: seq<Call>): Life
    decreases |calls|
  {
    if calls == [] then l else Lives(After(l, calls[0]), calls[1..])
  }

  /** Each of the picked frames stands at its place in the whole, and the places go up. */
  predicate PickedAt(picked: seq<ParsedFrame>, whole: seq<ParsedFrame>, places: seq<nat>) {
    && |places| == |picked|
    && (forall i :: 0 <= i < |places| ==> places[i] < |whole| && picked[i] == whole[places[i]])
    && (forall i, j :: 0 <= i < j < |places| ==> places[i] < places[j])
  }

  /** An in-order part. */
  ghost predicate PartOf(picked: seq<ParsedFrame>, whole: seq<ParsedFrame>) {
    exists places :: PickedAt(picked, whole, places)
  }

  lemma NothingIsPart()
    ensures PartOf([], [])
  {
    var places: seq<nat> := [];
    assert PickedAt([], [], places);
  }

  lemma PartOfMore(picked: seq<ParsedFrame>, whole: seq<ParsedFrame>, f: ParsedFrame)
    requires PartOf(picked, whole)
    ensures PartOf(picked, whole + [f]) && PartOf(picked + [f], whole + [f])
  {
    var places: seq<nat> :| PickedAt(picked, whole, places);
    var more: seq<nat> := places + [|whole|];
    assert PickedAt(picked, whole + [f], places);
    assert PickedAt(picked + [f], whole + [f], more);
  }

  /** A part of the same length is the whole. */
  lemma FullPart(picked: seq<ParsedFrame>, whole: seq<ParsedFrame>)
    requires PartOf(picked, whole) && |picked| == |whole|
    ensures picked == whole
  {
    var places: seq<nat> :| PickedAt(picked, whole, places);
    forall i | 0 <= i < |places| ensures places[i] == i {
      PlacesGoUp(picked, whole, places, i);
    }
  }

  lemma {:induction false} PlacesGoUp(picked: seq<ParsedFrame>, whole: seq<ParsedFrame>, places: seq<nat>, i: nat)
    requires PickedAt(picked, whole, places) && i < |places|
    ensures i <= places[i] <= |whole| - (|places| - i)
  {
    Rises(places, 0, i);
    Rises(places, i, |places| - 1);
  }

  lemma {:induction false} Rises(places: seq<nat>, i: nat, j: nat)
    requires i <= j < |places| && forall i, j :: 0 <= i < j < |places| ==> places[i] < places[j]
    ensures places[j] - places[i] >= j - i
    decreases j
  {
    if i < j {
      Rises(places, i, j - 1);
    }
  }

  /** The wanted frames offered while the subscription was open are those queued and those dropped; the
      queued ones are an in-order part of them, and reach the reader in that order and each at most once,
      after `close` too; the queue never exceeds its bound. */
  ghost predicate Sound(l: Life) {
    && |l.kept| + l.sub.dropped == |l.wanted|
    && PartOf(l.kept, l.wanted)
    && l.read + Frames(l.sub.queue) == l.kept
    && (l.sub.capacity > 0 ==> |l.sub.queue| <= l.sub.capacity)
    && (l.sub.capacity == 0 ==> l.sub.dropped == 0)
  }

  lemma SoundStep(l: Life, c: Call)
    requires Sound(l)
    ensures Sound(After(l, c))
    ensures After(l, c).sub.dropped >= l.sub.dropped
    ensures l.sub.closed ==> After(l, c).sub.closed && After(l, c).kept == l.kept && After(l, c).wanted == l.wanted
  {
    var q := l.sub.queue;
    OneEntry();
    hide Frames, PartOf;
    match c
    case Offer(f) =>
      FramesAppend(q, [Queued(f)]);
      PartOfMore(l.kept, l.wanted, f);
    case Take =>
      if q != [] {
        assert q == [q[0]] + q[1..];
        FramesAppend([q[0]], q[1..]);
      }
    case Close =>
      FramesAppend(q, [WakeUp]);
  }

  lemma OneEntry()
    ensures forall f :: Frames([Queued(f)]) == [f]
    ensures Frames([WakeUp]) == []
  {
  }

  lemma {:induction false} SoundForLife(l: Life, calls: seq<Call>)
    requires Sound(l)
    ensures Sound(Lives(l, calls))
    ensures Lives(l, calls).sub.dropped >= l.sub.dropped
    ensures l.sub.closed ==>
      Lives(l, calls).sub.closed && Lives(l, calls).kept == l.kept && Lives(l, calls).wanted == l.wanted
    decreases |calls|
  {
    hide Sound, After;
    if calls != [] {
      SoundStep(l, calls[0]);
      SoundForLife(After(l, calls[0]), calls[1..]);
    }
  }

  lemma BornIsSound(wanted: Option<set<nat>>, capacity: nat)
    ensures Sound(Born(wanted, capacity))
  {
    NothingIsPart();
  }

  // ------------------------------------------------------------------
  // What was wanted, from the calls
  // ------------------------------------------------------------------

  function FramesOffered(calls: seq<Call>): seq<ParsedFrame> {
    if calls == [] then []
    else (if calls[0].Offer? then [calls[0].frame] else []) + FramesOffered(calls[1..])
  }

  /** Those offered before the first close. */
  function OfferedWhileOpen(calls: seq<Call>): seq<ParsedFrame> {
    if calls == [] || calls[0].Close? then []
    else (if calls[0].Offer? then [calls[0].frame] else []) + OfferedWhileOpen(calls[1..])
  }

  /** The frames of the wanted numbers. */
  function Wanted(ids: Option<set<nat>>, frames: seq<ParsedFrame>): seq<ParsedFrame> {
    if frames == [] then []
    else (if ids.None? || frames[0].id in ids.value then [frames[0]] else []) + Wanted(ids, frames[1..])
  }

  lemma WantedAfter(l: Life, c: Call)
    requires !l.sub.closed
    ensures After(l, c).wanted == l.wanted + (if c.Offer? then Wanted(l.sub.wanted, [c.frame]) else [])
    ensures After(l, c).sub.closed <==> c.Close?
    ensures After(l, c).sub.wanted == l.sub.wanted && After(l, c).sub.capacity == l.sub.capacity
  {
    assert c.Offer? ==> [c.frame][1..] == [];
  }

  lemma {:induction false} WantedFromCalls(l: Life, calls: seq<Call>)
    requires !l.sub.closed
    ensures Lives(l, calls).wanted == l.wanted + Wanted(l.sub.wanted, OfferedWhileOpen(calls))
    ensures Lives(l, calls).sub.capacity == l.sub.capacity
    decreases |calls|
  {
    hide After, Wanted;
    NothingWanted(l.sub.wanted);
    if calls != [] {
      WantedAfter(l, calls[0]);
      var n := After(l, calls[0]);
      if calls[0].Close? {
        ClosedWantsNothing(n, calls[1..]);
      } else {
        WantedFromCalls(n, calls[1..]);
        if calls[0].Offer? {
          OneMoreWanted(l.sub.wanted, calls[0].frame, OfferedWhileOpen(calls[1..]));
        } else {
          assert l.wanted + [] == l.wanted;
          assert OfferedWhileOpen(calls) == OfferedWhileOpen(calls[1..]);
        }
      }
    }
  }

  lemma NothingWanted(ids: Option<set<nat>>)
    ensures Wanted(ids, []) == []
  {
  }

  lemma OneMoreWanted(ids: Option<set<nat>>, f: ParsedFrame, frames: seq<ParsedFrame>)
    ensures Wanted(ids, [f] + frames) == Wanted(ids, [f]) + Wanted(ids, frames)
  {
    assert ([f] + frames)[1..] == frames && [f][1..] == [];
  }

  lemma {:induction false} ClosedWantsNothing(l: Life, calls: seq<Call>)
    requires l.sub.closed
    ensures Lives(l, calls).wanted == l.wanted && Lives(l, calls).sub.capacity == l.sub.capacity
    decreases |calls|
  {
    if calls != [] {
      ClosedWantsNothing(After(l, calls[0]), calls[1..]);
    }
  }

  lemma {:induction false} OpenUntilClosed(calls: seq<Call>)
    ensures OfferedWhileOpen(calls) <= FramesOffered(calls)
    ensures Close !in calls ==> OfferedWhileOpen(calls) == FramesOffered(calls)
  {
    if calls != [] {
      OpenUntilClosed(calls[1..]);
    }
  }

  // ------------------------------------------------------------------
  // A subscription that nobody reads
  // ------------------------------------------------------------------

  function AsQueued(frames: seq<ParsedFrame>): seq<Entry> {
    if frames == [] then [] else [Queued(frames[0])] + AsQueued(frames[1..])
  }

  function RoomFor(s: Subscription, n: nat): nat {
    if s.capacity == 0 || |s.queue| + n <= s.capacity then n
    else if |s.queue| <= s.capacity then s.capacity - |s.queue| else 0
  }

  /** Of the wanted frames offered to an open subscription the first are queued, as many as there is
      room for, and all the others are counted as dropped. */
  lemma {:induction false} FirstAreQueued(s: Subscription, frames: seq<ParsedFrame>)
    requires !s.closed
    ensures var n, wanted := OfferedAll(s, frames), Wanted(s.wanted, frames);
      var m := RoomFor(s, |wanted|);
      n == s.(queue := s.queue + AsQueued(wanted[..m]), dropped := s.dropped + (|wanted| - m))
    decreases |frames|
  {
    if frames == [] {
      assert s.queue + [] == s.queue;
    } else {
      var n := Offered(s, frames[0]);
      FirstAreQueued(n, frames[1..]);
      var later := Wanted(s.wanted, frames[1..]);
      hide OfferedAll;
      OfferedFirst(s, frames);
      if s.wanted.None? || frames[0].id in s.wanted.value {
        var wanted := [frames[0]] + later;
        assert Wanted(s.wanted, frames) == wanted;
        if Full(s) {
          assert wanted[..0] == later[..0] == [];
        } else {
          var m := RoomFor(n, |later|);
          assert wanted[..m + 1] == [frames[0]] + later[..m];
          QueuedMore(frames[0], later[..m]);
          assert (s.queue + [Queued(frames[0])]) + AsQueued(later[..m]) == s.queue + ([Queued(frames[0])] + AsQueued(later[..m]));
        }
      } else {
        assert Wanted(s.wanted, frames) == later;
      }
    }
  }

  lemma OfferedFirst(s: Subscription, frames: seq<ParsedFrame>)
    requires frames != []
    ensures OfferedAll(s, frames) == OfferedAll(Offered(s, frames[0]), frames[1..])
  {
    hide Offered;
  }

  lemma QueuedMore(f: ParsedFrame, frames: seq<ParsedFrame>)
    ensures AsQueued([f] + frames) == [Queued(f)] + AsQueued(frames)
  {
    assert ([f] + frames)[1..] == frames;
  }
}
