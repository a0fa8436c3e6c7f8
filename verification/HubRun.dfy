/** The hub as a state machine: chunks are fanned out while destinations, Frame subscribers and the
    hub itself come and go. What each destination is offered is kept as a history. */
module HubRun {
  import opened Bytes
  import opened FrameExtraction
  import opened MessageFilter
  import RtcmDecoder

  datatype Dest = Dest(name: string, filter: FilterConfig, enabled: bool, offered: seq<bytes>, filtered: nat)

  datatype Sub<S> = Sub(id: S, offered: seq<ParsedFrame>)

  datatype Hub<S> = Hub(
    dests: seq<Dest>, subs: seq<Sub<S>>, running: bool, parsing: bool, buffer: bytes, framesParsed: nat)

  datatype Event<S> =
    | Chunk(data: bytes)
    | AddDest(dest: Dest)
    | RemoveDest(name: string)
    | SetEnabled(name: string, on: bool)
    | AddSub(sub: Sub<S>)
    | RemoveSub(id: S)
    | Start
    | Stop
    | StopFails  // a stop that ends with an exception after clearing the flag

  predicate Filters(dests: seq<Dest>) {
    exists i :: 0 <= i < |dests| && RequiresParsing(dests[i].filter)
  }

  predicate NeedsParsing<S>(h: Hub<S>) {
    h.subs != [] || Filters(h.dests)
  }

  /** Refresh the cached flag; leaving the parsing path drops the partial frame. */
  function Recalculated<S>(h: Hub<S>): Hub<S> {
    h.(parsing := NeedsParsing(h), buffer := if h.parsing && !NeedsParsing(h) then [] else h.buffer)
  }

  function Raw(d: Dest, data: bytes): Dest {
    if d.enabled then d.(offered := d.offered + [data]) else d
  }

  /** What one destination gets on the parsing path. */
  function Sorted(d: Dest, data: bytes, frames: seq<ParsedFrame>): Dest {
    if !d.enabled || !RequiresParsing(d.filter) then Raw(d, data)
    else
      var accepted := Accepted(d.filter, frames);
      AcceptedSize(d.filter, frames);
      d.(offered := d.offered + accepted, filtered := d.filtered + (|frames| - |accepted|))
  }

  function AllRaw(dests: seq<Dest>, data: bytes): seq<Dest> {
    seq(|dests|, i requires 0 <= i < |dests| => Raw(dests[i], data))
  }

  function AllSorted(dests: seq<Dest>, data: bytes, frames: seq<ParsedFrame>): seq<Dest> {
    seq(|dests|, i requires 0 <= i < |dests| => Sorted(dests[i], data, frames))
  }

  function AllShown<S>(subs: seq<Sub<S>>, frames: seq<ParsedFrame>): seq<Sub<S>> {
    seq(|subs|, i requires 0 <= i < |subs| => subs[i].(offered := subs[i].offered + frames))
  }

  /** The first place of a key; the length of the list if it has none. */
  function Place<T(==)>(keys: seq<T>, key: T): (k: nat)
    ensures k <= |keys|
    ensures k < |keys| ==> keys[k] == key
    ensures forall i :: 0 <= i < k ==> keys[i] != key
  {
    if keys == [] then 0 else if keys[0] == key then 0 else 1 + Place(keys[1..], key)
  }

  function Names(dests: seq<Dest>): (names: seq<string>)
    ensures |names| == |dests|
  {
    seq(|dests|, i requires 0 <= i < |dests| => dests[i].name)
  }

  function Ids<S>(subs: seq<Sub<S>>): (ids: seq<S>)
    ensures |ids| == |subs|
  {
    seq(|subs|, i requires 0 <= i < |subs| => subs[i].id)
  }

  lemma NamesAt(dests: seq<Dest>)
    ensures forall i :: 0 <= i < |dests| ==> dests[i].name == Names(dests)[i]
  {
  }

  lemma IdsAt<S>(subs: seq<Sub<S>>)
    ensures forall i :: 0 <= i < |subs| ==> subs[i].id == Ids(subs)[i]
  {
  }

  function Without<T>(s: seq<T>, k: nat): seq<T>
    requires k < |s|
  {
    s[..k] + s[k + 1..]
  }

  function Fanned<S>(h: Hub<S>, data: bytes): Hub<S> {
    if h.parsing then
      var p := ParseBuffer(h.buffer + data);
      h.(dests := AllSorted(h.dests, data, p.frames), subs := AllShown(h.subs, p.frames),
         buffer := p.rest, framesParsed := h.framesParsed + |p.frames|)
    else h.(dests := AllRaw(h.dests, data))
  }

  function Step<S(==)>(h: Hub<S>, e: Event<S>): Hub<S> {
    match e
    case Chunk(data) => if h.running then Fanned(h, data) else h
    case AddDest(d) =>
      if Place(Names(h.dests), d.name) < |h.dests| then h
      else Recalculated(h.(dests := h.dests + [d]))
    case RemoveDest(name) =>
      var k := Place(Names(h.dests), name);
      if k == |h.dests| then h else Recalculated(h.(dests := Without(h.dests, k)))
    case SetEnabled(name, on) =>
      var k := Place(Names(h.dests), name);
      if k == |h.dests| then h else h.(dests := h.dests[k := h.dests[k].(enabled := on)])
    case AddSub(sub) =>
      if h.running && Place(Ids(h.subs), sub.id) == |h.subs| then Recalculated(h.(subs := h.subs + [sub])) else h
    case RemoveSub(id) =>
      var k := Place(Ids(h.subs), id);
      Recalculated(if k == |h.subs| then h else h.(subs := Without(h.subs, k)))
    case Start => if h.running then h else h.(running := true, buffer := [])
    case Stop => if h.running then Recalculated(h.(running := false, subs := [])).(buffer := []) else h
    case StopFails => h.(running := false)
  }

  function Run<S(==)>(h: Hub<S>, events: seq<Event<S>>): Hub<S>
    decreases |events|
  {
    if events == [] then h else Run(Step(h, events[0]), events[1..])
  }

  // ------------------------------------------------------------------
  // The cached flag and the frame buffer
  // ------------------------------------------------------------------

  /** The flag means what it should; the buffer is empty off the parsing path, and otherwise a tail
      that waits for more bytes. */
  predicate Coherent<S>(h: Hub<S>) {
    && (h.parsing <==> NeedsParsing(h))
    && (!h.parsing ==> h.buffer == [])
    && Settled(h.buffer)
  }

  lemma RecalculatedIsCoherent<S>(h: Hub<S>)
    requires !h.parsing ==> h.buffer == []
    requires Settled(h.buffer)
    ensures Coherent(Recalculated(h))
  {
  }

  lemma CoherentFanned<S>(h: Hub<S>, data: bytes)
    requires Coherent(h)
    ensures Coherent(Fanned(h, data))
  {
    hide ParseBuffer, SlotOf, Accepted;
    RestIsSettled(h.buffer + data);
    var n := Fanned(h, data);
    forall i | 0 <= i < |h.dests| ensures n.dests[i].filter == h.dests[i].filter && n.dests[i].name == h.dests[i].name {
    }
    assert Filters(h.dests) <==> Filters(n.dests) by {
      if Filters(h.dests) {
        var i :| 0 <= i < |h.dests| && RequiresParsing(h.dests[i].filter);
        assert RequiresParsing(n.dests[i].filter);
      }
      if Filters(n.dests) {
        var i :| 0 <= i < |n.dests| && RequiresParsing(n.dests[i].filter);
        assert RequiresParsing(h.dests[i].filter);
      }
    }
  }

  lemma CoherentEnabled<S>(h: Hub<S>, k: nat, on: bool)
    requires Coherent(h) && k < |h.dests|
    ensures Coherent(h.(dests := h.dests[k := h.dests[k].(enabled := on)]))
  {
    hide SlotOf;
    var n := h.dests[k := h.dests[k].(enabled := on)];
    assert forall i :: 0 <= i < |n| ==> n[i].filter == h.dests[i].filter && n[i].name == h.dests[i].name;
    if Filters(h.dests) {
      var i :| 0 <= i < |h.dests| && RequiresParsing(h.dests[i].filter);
      assert RequiresParsing(n[i].filter);
    }
    if Filters(n) {
      var i :| 0 <= i < |n| && RequiresParsing(n[i].filter);
      assert RequiresParsing(h.dests[i].filter);
    }
  }

  /** Every step keeps the flag and the buffer right. */
  lemma CoherentStep<S>(h: Hub<S>, e: Event<S>)
    requires Coherent(h)
    ensures Coherent(Step(h, e))
  {
    hide Settled, Fanned, Filters, Recalculated, Names, Ids;
    NamesAt(h.dests);
    match e
    case Chunk(data) => CoherentFanned(h, data);
    case AddDest(d) =>
      if Place(Names(h.dests), d.name) == |h.dests| { RecalculatedIsCoherent(h.(dests := h.dests + [d])); }
    case RemoveDest(name) =>
      var k := Place(Names(h.dests), name);
      if k < |h.dests| { RecalculatedIsCoherent(h.(dests := Without(h.dests, k))); }
    case SetEnabled(name, on) =>
      var k := Place(Names(h.dests), name);
      if k < |h.dests| { CoherentEnabled(h, k, on); }
    case AddSub(sub) =>
      if h.running { RecalculatedIsCoherent(h.(subs := h.subs + [sub])); }
    case RemoveSub(id) =>
      var k := Place(Ids(h.subs), id);
      RecalculatedIsCoherent(if k == |h.subs| then h else h.(subs := Without(h.subs, k)));
    case Start => EmptyIsSettled();
    case Stop =>
      EmptyIsSettled();
      var n := h.(running := false, subs := []);
      RecalculatedIsCoherent(n);
      SameButBuffer(Recalculated(n));
    case StopFails =>
  }

  lemma FlagIsRight<S>(h: Hub<S>)
    requires Coherent(h)
    ensures h.parsing <==> NeedsParsing(h)
  {
  }

  lemma NoSubscribers<S>(h: Hub<S>)
    requires Coherent(h) && h.subs == []
    ensures h.parsing <==> Filters(h.dests)
  {
  }

  lemma RemovedSub<S>(h: Hub<S>, id: S)
    ensures var k := Place(Ids(h.subs), id);
      Step(h, RemoveSub(id)) == Recalculated(if k == |h.subs| then h else h.(subs := Without(h.subs, k)))
  {
    hide Recalculated;
  }

  lemma StoppedHub<S>(h: Hub<S>)
    ensures Step(h, Stop) == if h.running then Hub(h.dests, [], false, Filters(h.dests), [], h.framesParsed) else h
    ensures Step(h, StopFails) == h.(running := false)
  {
  }

  lemma EmptyIsSettled()
    ensures Settled([])
  {
  }

  lemma SameButBuffer<S>(h: Hub<S>)
    requires Coherent(h)
    ensures Coherent(h.(buffer := []))
  {
  }

  lemma {:induction false} CoherentRun<S>(h: Hub<S>, events: seq<Event<S>>)
    requires Coherent(h)
    ensures Coherent(Run(h, events))
    decreases |events|
  {
    hide Coherent, Step;
    if events != [] {
      CoherentStep(h, events[0]);
      CoherentRun(Step(h, events[0]), events[1..]);
    }
  }

  /** In every reachable state the flag is exact, and what the buffer holds is bounded. */
  lemma FlagAndBuffer<S>(dests: seq<Dest>, events: seq<Event<S>>)
    ensures var h := Run(Hub(dests, [], false, Filters(dests), [], 0), events);
      && (h.parsing <==> h.subs != [] || exists i :: 0 <= i < |h.dests| && h.dests[i].filter.mode != PassAll)
      && (!h.parsing ==> h.buffer == [])
      && (h.buffer == [] || (h.buffer[0] == RtcmDecoder.PREAMBLE && |h.buffer| <= 1028))
  {
    hide Run, SlotOf;
    var start: Hub<S> := Hub(dests, [], false, Filters(dests), [], 0);
    CoherentRun(start, events);
    SettledTail(Run(start, events).buffer);
  }

  /** Subscribers belong to one run of the hub: while it is stopped it has none. */
  predicate WithinRun<S>(h: Hub<S>) { h.running || h.subs == [] }

  lemma {:induction false} WithinRunLasts<S>(h: Hub<S>, events: seq<Event<S>>)
    requires WithinRun(h) && StopFails !in events
    ensures WithinRun(Run(h, events))
    decreases |events|
  {
    if events != [] {
      WithinRunStep(h, events[0]);
      hide Step;
      WithinRunLasts(Step(h, events[0]), events[1..]);
    }
  }

  lemma WithinRunStep<S>(h: Hub<S>, e: Event<S>)
    requires WithinRun(h) && e != StopFails
    ensures WithinRun(Step(h, e))
  {
    hide ParseBuffer, Place;
  }

  /** A stop breaks that if and only if it fails while somebody is attached; a further stop changes
      nothing then, and the subscribers are still there when the hub runs again. */
  lemma SubscribersOutliveStop<S>(h: Hub<S>)
    requires Coherent(h) && h.running
    ensures WithinRun(Step(h, Stop))
    ensures WithinRun(Step(h, StopFails)) <==> h.subs == []
    ensures Step(Step(h, StopFails), Stop) == Step(h, StopFails)
    ensures Step(Step(h, StopFails), Start) == h.(buffer := [])
  {
  }

  // ------------------------------------------------------------------
  // Non-interference
  // ------------------------------------------------------------------

  /** The stretches of a run that concern one destination: everything but the others' comings and goings. */
  function Alone<S>(d: Dest, running: bool, buffer: bytes, events: seq<Event<S>>): Dest
    decreases |events|
  {
    if events == [] then d
    else
      Alone(AloneStep(d, running, buffer, events[0]), StillRunning(running, events[0]),
            NextBuffer(running, buffer, events[0]), events[1..])
  }

  function AloneStep<S>(d: Dest, running: bool, buffer: bytes, e: Event<S>): Dest {
    match e
    case Chunk(data) =>
      if !running then d
      else if RequiresParsing(d.filter) then Sorted(d, data, ParseBuffer(buffer + data).frames)
      else Raw(d, data)
    case SetEnabled(name, on) => if name == d.name then d.(enabled := on) else d
    case _ => d
  }

  predicate StillRunning<S>(running: bool, e: Event<S>) {
    if e.Start? then true else if e.Stop? || e.StopFails? then false else running
  }

  /** The frame buffer of a hub that keeps parsing. */
  function NextBuffer<S>(running: bool, buffer: bytes, e: Event<S>): bytes {
    if e.Chunk? && running then ParseBuffer(buffer + e.data).rest
    else if (e.Start? && !running) || (e.Stop? && running) then []
    else buffer
  }

  lemma RunningAfter<S>(h: Hub<S>, e: Event<S>)
    ensures Step(h, e).running == StillRunning(h.running, e)
  {
  }

  /** Subscribers, newcomers and the hub's own starts and stops leave the destinations there are alone. */
  lemma OthersKeepDests<S>(h: Hub<S>, e: Event<S>)
    requires !e.Chunk? && !e.RemoveDest? && !e.SetEnabled?
    ensures Step(h, e).dests == h.dests || (e.AddDest? && Step(h, e).dests == h.dests + [e.dest])
  {
  }

  /** A destination is the one its name finds: where names are distinct, every destination is. */
  predicate Leads<S>(h: Hub<S>, k: nat)
    requires k < |h.dests|
  {
    Place(Names(h.dests), h.dests[k].name) == k
  }

  lemma LeadsWhenFirst<S>(h: Hub<S>, k: nat)
    requires k < |h.dests|
    ensures Leads(h, k) <==> forall i :: 0 <= i < k ==> h.dests[i].name != h.dests[k].name
  {
    hide Names;
    NamesAt(h.dests);
  }

  /** Where destination k is after one step. */
  function NextPlace<S(==)>(h: Hub<S>, k: nat, e: Event<S>): nat {
    if e.RemoveDest? && Place(Names(h.dests), e.name) < k then k - 1 else k
  }

  /** After one step it has become what it would have become alone. */
  lemma DestStep<S>(h: Hub<S>, k: nat, e: Event<S>)
    requires Coherent(h) && k < |h.dests| && e != RemoveDest(h.dests[k].name)
    requires e.SetEnabled? && e.name == h.dests[k].name ==> Leads(h, k)
    ensures var k' := NextPlace(h, k, e);
      k' < |Step(h, e).dests| && Step(h, e).dests[k'] == AloneStep(h.dests[k], h.running, h.buffer, e)
    ensures Step(h, e).running == StillRunning(h.running, e)
  {
    hide ParseBuffer, Settled, Accepted, NeedsParsing, Names;
    NamesAt(h.dests);
    RunningAfter(h, e);
    match e
    case Chunk(data) =>
      if RequiresParsing(h.dests[k].filter) { FilterMeansParsing(h, k); }
    case RemoveDest(name) =>
    case SetEnabled(name, on) =>
    case _ =>
      hide Step;
      OthersKeepDests(h, e);
  }

  lemma LeadsByName<S>(h: Hub<S>, k: nat, n: Hub<S>)
    requires k < |h.dests| && Leads(h, k) && Names(n.dests) == Names(h.dests)
    ensures Leads(n, k)
  {
    hide Names;
    NamesAt(h.dests);
    NamesAt(n.dests);
  }

  lemma LeadsAppended<S>(h: Hub<S>, k: nat, n: Hub<S>)
    requires k < |h.dests| && Leads(h, k) && |h.dests| <= |n.dests| && n.dests[..|h.dests|] == h.dests
    ensures Leads(n, k)
  {
    hide Leads;
    LeadsWhenFirst(h, k);
    assert forall i :: 0 <= i < |h.dests| ==> n.dests[..|h.dests|][i] == n.dests[i];
    LeadsWhenFirst(n, k);
  }

  lemma LeadsRemoved<S>(h: Hub<S>, k: nat, j: nat, n: Hub<S>)
    requires k < |h.dests| && Leads(h, k) && j < |h.dests| && j != k && n.dests == Without(h.dests, j)
    ensures Leads(n, if j < k then k - 1 else k)
  {
    hide Leads;
    LeadsWhenFirst(h, k);
    LeadsWhenFirst(n, if j < k then k - 1 else k);
  }

  lemma NamesKept<S>(h: Hub<S>, e: Event<S>)
    requires e.Chunk? || e.SetEnabled?
    ensures Names(Step(h, e).dests) == Names(h.dests)
  {
    hide ParseBuffer, Accepted, AllShown;
  }

  lemma LeadsStep<S>(h: Hub<S>, k: nat, e: Event<S>)
    requires k < |h.dests| && Leads(h, k) && e != RemoveDest(h.dests[k].name)
    ensures NextPlace(h, k, e) < |Step(h, e).dests| && Leads(Step(h, e), NextPlace(h, k, e))
  {
    hide Leads, Names, NeedsParsing;
    NamesAt(h.dests);
    if e.RemoveDest? {
      var j := Place(Names(h.dests), e.name);
      if j < |h.dests| { LeadsRemoved(h, k, j, Step(h, e)); } else { LeadsByName(h, k, Step(h, e)); }
    } else if e.Chunk? || e.SetEnabled? {
      hide Step;
      NamesKept(h, e);
      LeadsByName(h, k, Step(h, e));
    } else {
      hide Step;
      OthersKeepDests(h, e);
      assert Step(h, e).dests[..|h.dests|] == h.dests;
      LeadsAppended(h, k, Step(h, e));
    }
  }

  lemma KeepsDests<S>(h: Hub<S>)
    ensures Recalculated(h).dests == h.dests && Recalculated(h).running == h.running
    ensures Recalculated(h).subs == h.subs && Recalculated(h).framesParsed == h.framesParsed
  {
  }

  lemma BufferStep<S>(h: Hub<S>, e: Event<S>)
    requires Coherent(h) && h.parsing && Step(h, e).parsing
    ensures Step(h, e).buffer == NextBuffer(h.running, h.buffer, e)
  {
  }

  lemma AloneKeeps<S>(d: Dest, running: bool, buffer: bytes, e: Event<S>)
    ensures var n := AloneStep(d, running, buffer, e); n.name == d.name && n.filter == d.filter
  {
  }

  lemma {:induction false} AloneIgnoresBuffer<S>(d: Dest, running: bool, b: bytes, c: bytes, events: seq<Event<S>>)
    requires !RequiresParsing(d.filter)
    ensures Alone(d, running, b, events) == Alone(d, running, c, events)
    decreases |events|
  {
    hide NextBuffer, StillRunning;
    if events != [] {
      AloneKeeps(d, running, b, events[0]);
      AloneIgnoresBuffer(AloneStep(d, running, b, events[0]), StillRunning(running, events[0]),
                         NextBuffer(running, b, events[0]), NextBuffer(running, c, events[0]), events[1..]);
    }
  }

  lemma FilterMeansParsing<S>(h: Hub<S>, k: nat)
    requires Coherent(h) && k < |h.dests| && RequiresParsing(h.dests[k].filter)
    ensures h.parsing
  {
  }

  /** Nobody enables or disables a destination of this name. */
  predicate Untouched<S>(name: string, events: seq<Event<S>>) {
    forall i :: 0 <= i < |events| ==> (events[i].SetEnabled? ==> events[i].name != name)
  }

  /** Over any run in which it is not removed, a destination becomes what it would become in a hub
      of its own, whatever happens to the others. */
  lemma {:induction false} NonInterference<S>(h: Hub<S>, k: nat, events: seq<Event<S>>) returns (k': nat)
    requires Coherent(h) && k < |h.dests| && RemoveDest(h.dests[k].name) !in events
    requires Leads(h, k) || Untouched(h.dests[k].name, events)
    ensures k' < |Run(h, events).dests|
    ensures Run(h, events).dests[k'] == Alone(h.dests[k], h.running, h.buffer, events)
    decreases |events|
  {
    hide Coherent, Step, AloneStep, NextBuffer, StillRunning, RequiresParsing, Leads;
    if events == [] {
      k' := k;
    } else {
      var d, n := h.dests[k], Step(h, events[0]);
      CoherentStep(h, events[0]);
      var j := NextPlace(h, k, events[0]);
      DestStep(h, k, events[0]);
      if Leads(h, k) { LeadsStep(h, k, events[0]); }
      AloneKeeps(d, h.running, h.buffer, events[0]);
      k' := NonInterference(n, j, events[1..]);
      if RequiresParsing(d.filter) {
        FilterMeansParsing(h, k);
        FilterMeansParsing(n, j);
        BufferStep(h, events[0]);
      } else {
        AloneIgnoresBuffer(n.dests[j], n.running, n.buffer, NextBuffer(h.running, h.buffer, events[0]), events[1..]);
      }
    }
  }

  function Chunks<S>(events: seq<Event<S>>): seq<bytes>
    decreases |events|
  {
    if events == [] then []
    else (if events[0].Chunk? then [events[0].data] else []) + Chunks(events[1..])
  }

  /** Neither the hub nor this destination is started or stopped. */
  predicate Undisturbed<S>(name: string, events: seq<Event<S>>) {
    forall i :: 0 <= i < |events| ==>
      !events[i].Start? && !events[i].Stop? && !events[i].StopFails?
      && (events[i].SetEnabled? ==> events[i].name != name)
  }

  lemma UndisturbedIsUntouched<S>(name: string, events: seq<Event<S>>)
    requires Undisturbed(name, events)
    ensures Untouched(name, events)
  {
  }

  lemma {:induction false} AlonePassAll<S>(d: Dest, buffer: bytes, events: seq<Event<S>>)
    requires d.enabled && !RequiresParsing(d.filter) && Undisturbed(d.name, events)
    ensures Alone(d, true, buffer, events) == d.(offered := d.offered + Chunks(events))
    decreases |events|
  {
    hide ParseBuffer;
    if events == [] {
      assert d.offered + [] == d.offered;
    } else {
      var n := AloneStep(d, true, buffer, events[0]);
      AlonePassAll(n, NextBuffer(true, buffer, events[0]), events[1..]);
      if events[0].Chunk? {
        assert d.offered + ([events[0].data] + Chunks(events[1..])) == n.offered + Chunks(events[1..]);
      } else {
        assert Chunks(events) == [] + Chunks(events[1..]) == Chunks(events[1..]);
      }
    }
  }

  /** The frames of a filtering destination: its filter applied to what the whole stream parses to. */
  function AfterFrames(d: Dest, frames: seq<ParsedFrame>): Dest {
    AcceptedSize(d.filter, frames);
    var accepted := Accepted(d.filter, frames);
    d.(offered := d.offered + accepted, filtered := d.filtered + (|frames| - |accepted|))
  }

  lemma AfterFramesTwice(d: Dest, a: seq<ParsedFrame>, b: seq<ParsedFrame>)
    ensures AfterFrames(AfterFrames(d, a), b) == AfterFrames(d, a + b)
  {
    hide Accepted;
    AcceptedAppend(d.filter, a, b);
    var x, y := Accepted(d.filter, a), Accepted(d.filter, b);
    assert (d.offered + x) + y == d.offered + (x + y);
  }

  lemma {:induction false} AloneFiltered<S>(d: Dest, buffer: bytes, events: seq<Event<S>>)
    requires d.enabled && RequiresParsing(d.filter) && Undisturbed(d.name, events) && Settled(buffer)
    ensures Alone(d, true, buffer, events) == AfterFrames(d, ParseBuffer(buffer + Concat(Chunks(events))).frames)
    decreases |events|
  {
    hide ParseBuffer, Accepted, RequiresParsing, Settled;
    if events == [] {
      assert buffer + [] == buffer;
      SettledTail(buffer);
      NoFrames(d);
    } else if events[0].Chunk? {
      var data := events[0].data;
      var p := ParseBuffer(buffer + data);
      RestIsSettled(buffer + data);
      var n := AfterFrames(d, p.frames);
      AloneFiltered(n, p.rest, events[1..]);
      AfterFramesTwice(d, p.frames, ParseBuffer(p.rest + Concat(Chunks(events[1..]))).frames);
      StreamUnfolds(buffer, events);
    } else {
      AloneFiltered(d, buffer, events[1..]);
      StreamUnfolds(buffer, events);
    }
  }

  /** The first event's share of what the stream parses to. */
  lemma StreamUnfolds<S>(buffer: bytes, events: seq<Event<S>>)
    requires events != []
    ensures var p := ParseBuffer(buffer + Concat(Chunks(events)));
      if events[0].Chunk? then
        var first := ParseBuffer(buffer + events[0].data);
        p == Before(first.frames, ParseBuffer(first.rest + Concat(Chunks(events[1..]))))
      else p == ParseBuffer(buffer + Concat(Chunks(events[1..])))
  {
    hide ParseBuffer;
    if events[0].Chunk? {
      var data, later := events[0].data, Concat(Chunks(events[1..]));
      ParseSplit(buffer + data, later);
      assert Chunks(events)[1..] == Chunks(events[1..]);
      assert buffer + Concat(Chunks(events)) == (buffer + data) + later;
    } else {
      assert Chunks(events) == [] + Chunks(events[1..]) == Chunks(events[1..]);
    }
  }

  lemma NoFrames(d: Dest)
    ensures AfterFrames(d, []) == d
  {
  }

  /** An enabled pass_all destination is offered exactly the chunks, uncut and in order. */
  lemma PassAllGetsEveryChunk<S>(h: Hub<S>, k: nat, events: seq<Event<S>>) returns (k': nat)
    requires Coherent(h) && h.running && k < |h.dests|
    requires var d := h.dests[k];
      d.enabled && d.filter.mode == PassAll && Undisturbed(d.name, events) && RemoveDest(d.name) !in events
    ensures k' < |Run(h, events).dests|
    ensures Run(h, events).dests[k'] == h.dests[k].(offered := h.dests[k].offered + Chunks(events))
  {
    hide Coherent, Run, Alone, Undisturbed, RequiresParsing;
    ParsingIff(h.dests[k].filter);
    UndisturbedIsUntouched(h.dests[k].name, events);
    k' := NonInterference(h, k, events);
    AlonePassAll(h.dests[k], h.buffer, events);
  }

  /** An enabled filtering destination is offered exactly its filter applied to the frames in the
      buffer it found and all chunks since; the other frames are counted as filtered. */
  lemma FilteredGetsItsFrames<S>(h: Hub<S>, k: nat, events: seq<Event<S>>) returns (k': nat)
    requires Coherent(h) && h.running && k < |h.dests|
    requires var d := h.dests[k];
      d.enabled && d.filter.mode != PassAll && Undisturbed(d.name, events) && RemoveDest(d.name) !in events
    ensures k' < |Run(h, events).dests|
    ensures var d, n := h.dests[k], Run(h, events).dests[k'];
      var frames := ParseBuffer(h.buffer + Concat(Chunks(events))).frames;
      && n.offered == d.offered + Accepted(d.filter, frames)
      && n.filtered + |n.offered| == d.filtered + |d.offered| + |frames|
  {
    assert Settled(h.buffer);
    hide Coherent, Run, Alone, Undisturbed, RequiresParsing, Settled, Accepted, ParseBuffer;
    ParsingIff(h.dests[k].filter);
    UndisturbedIsUntouched(h.dests[k].name, events);
    k' := NonInterference(h, k, events);
    AloneFiltered(h.dests[k], h.buffer, events);
  }

  /** With an allowlist these are exactly the listed numbers, with a blocklist exactly the others. */
  lemma ListedFramesOnly<S>(h: Hub<S>, k: nat, events: seq<Event<S>>) returns (k': nat, more: seq<bytes>)
    requires Coherent(h) && h.running && k < |h.dests|
    requires var d := h.dests[k];
      d.enabled && d.filter.mode != PassAll && Undisturbed(d.name, events) && RemoveDest(d.name) !in events
    ensures k' < |Run(h, events).dests|
    ensures var d, frames := h.dests[k], ParseBuffer(h.buffer + Concat(Chunks(events))).frames;
      && Run(h, events).dests[k'].offered == d.offered + more
      && Selects(more, d.filter.messageIds, d.filter.mode == Allowlist, frames)
  {
    hide Coherent, Run, Undisturbed, Accepted, ParseBuffer, Selects;
    k' := FilteredGetsItsFrames(h, k, events);
    var frames := ParseBuffer(h.buffer + Concat(Chunks(events))).frames;
    more := Accepted(h.dests[k].filter, frames);
    ListsSelect(h.dests[k].filter, frames);
  }

  lemma {:induction false} AloneDisabled<S>(d: Dest, running: bool, buffer: bytes, events: seq<Event<S>>)
    requires !d.enabled && Untouched(d.name, events)
    ensures Alone(d, running, buffer, events) == d
    decreases |events|
  {
    hide ParseBuffer;
    if events != [] {
      assert AloneStep(d, running, buffer, events[0]) == d;
      AloneDisabled(d, StillRunning(running, events[0]), NextBuffer(running, buffer, events[0]), events[1..]);
    }
  }

  /** A disabled destination is offered nothing, and nothing is counted for it. */
  lemma DisabledGetsNothing<S>(h: Hub<S>, k: nat, events: seq<Event<S>>) returns (k': nat)
    requires Coherent(h) && k < |h.dests| && !h.dests[k].enabled
    requires Untouched(h.dests[k].name, events) && RemoveDest(h.dests[k].name) !in events
    ensures k' < |Run(h, events).dests| && Run(h, events).dests[k'] == h.dests[k]
  {
    hide Coherent, Run, Alone, Untouched;
    k' := NonInterference(h, k, events);
    AloneDisabled(h.dests[k], h.running, h.buffer, events);
  }

  /** A destination that is stopped is offered nothing from then on, and a restarted one everything again. */
  lemma SwitchedOff<S>(h: Hub<S>, k: nat, events: seq<Event<S>>) returns (k': nat)
    requires Coherent(h) && k < |h.dests| && Leads(h, k)
    requires Untouched(h.dests[k].name, events) && RemoveDest(h.dests[k].name) !in events
    ensures k' < |Run(h, [SetEnabled(h.dests[k].name, false)] + events).dests|
    ensures Run(h, [SetEnabled(h.dests[k].name, false)] + events).dests[k'] == h.dests[k].(enabled := false)
    ensures Step(h, SetEnabled(h.dests[k].name, true)).dests == h.dests[k := h.dests[k].(enabled := true)]
  {
    var name := h.dests[k].name;
    var all := [SetEnabled(name, false)] + events;
    assert all[0] == SetEnabled(name, false) && all[1..] == events;
    var n := Step(h, SetEnabled(name, false));
    assert n.dests == h.dests[k := h.dests[k].(enabled := false)];
    CoherentStep(h, SetEnabled(name, false));
    k' := DisabledGetsNothing(n, k, events);
  }

  // ------------------------------------------------------------------
  // Frame subscribers
  // ------------------------------------------------------------------

  lemma SubStep<S>(h: Hub<S>, k: nat, e: Event<S>) returns (k': nat)
    requires Coherent(h) && k < |h.subs| && DistinctSubs(h.subs)
    requires h.running && !e.Start? && !e.Stop? && !e.StopFails? && e != RemoveSub(h.subs[k].id)
    ensures k' < |Step(h, e).subs| && DistinctSubs(Step(h, e).subs) && Step(h, e).running
    ensures var s, n := h.subs[k], Step(h, e);
      n.subs[k'] == if e.Chunk? then s.(offered := s.offered + ParseBuffer(h.buffer + e.data).frames) else s
    ensures Step(h, e).framesParsed
      == h.framesParsed + if e.Chunk? then |ParseBuffer(h.buffer + e.data).frames| else 0
  {
    hide ParseBuffer, Settled, Accepted, Recalculated, AllSorted, Ids;
    IdsAt(h.subs);
    KeepsDests(h);
    k' := k;
    match e
    case RemoveDest(name) =>
      var j := Place(Names(h.dests), name);
      if j < |h.dests| { KeepsDests(h.(dests := Without(h.dests, j))); }
    case AddDest(d) => KeepsDests(h.(dests := h.dests + [d]));
    case AddSub(sub) => KeepsDests(h.(subs := h.subs + [sub]));
    case RemoveSub(id) =>
      var j := Place(Ids(h.subs), id);
      if j < k { k' := k - 1; }
      if j < |h.subs| { KeepsDests(h.(subs := Without(h.subs, j))); }
    case _ =>
  }

  ghost predicate DistinctSubs<S>(subs: seq<Sub<S>>) {
    forall i, j :: 0 <= i < j < |subs| ==> subs[i].id != subs[j].id
  }

  /** Subscriber k of h, as subscriber k' of a later hub n, has been offered every frame since. */
  ghost predicate Followed<S>(h: Hub<S>, k: nat, events: seq<Event<S>>, n: Hub<S>, k': nat)
    requires k < |h.subs|
  {
    var p := ParseBuffer(h.buffer + Concat(Chunks(events)));
    && k' < |n.subs|
    && n.subs[k'].id == h.subs[k].id
    && n.subs[k'].offered == h.subs[k].offered + p.frames
    && n.framesParsed == h.framesParsed + |p.frames|
    && n.buffer == p.rest
  }

  lemma FollowedFromNext<S>(h: Hub<S>, k: nat, events: seq<Event<S>>, next: Hub<S>, j: nat, n: Hub<S>, k': nat)
    requires events != [] && k < |h.subs| && j < |next.subs|
    requires var e := events[0];
      if e.Chunk? then
        var p := ParseBuffer(h.buffer + e.data);
        && next.subs[j] == h.subs[k].(offered := h.subs[k].offered + p.frames)
        && next.framesParsed == h.framesParsed + |p.frames| && next.buffer == p.rest
      else next.subs[j] == h.subs[k] && next.framesParsed == h.framesParsed && next.buffer == h.buffer
    requires Followed(next, j, events[1..], n, k')
    ensures Followed(h, k, events, n, k')
  {
    hide ParseBuffer, Chunks;
    StreamUnfolds(h.buffer, events);
    if events[0].Chunk? {
      var s, a := h.subs[k], ParseBuffer(h.buffer + events[0].data).frames;
      var b := ParseBuffer(next.buffer + Concat(Chunks(events[1..]))).frames;
      assert (s.offered + a) + b == s.offered + (a + b);
    }
  }

  /** While it is attached, a subscriber is offered every frame of the stream, before any filter;
      the hub counts each once, and keeps the tail of the stream. */
  lemma {:induction false} SubscriberGetsEveryFrame<S>(h: Hub<S>, k: nat, events: seq<Event<S>>) returns (k': nat)
    requires Coherent(h) && h.running && k < |h.subs| && DistinctSubs(h.subs)
    requires Start !in events && Stop !in events && StopFails !in events && RemoveSub(h.subs[k].id) !in events
    ensures Followed(h, k, events, Run(h, events), k')
    decreases |events|
  {
    if events == [] {
      k' := k;
      hide ParseBuffer, SlotOf;
      NoChunks<S>();
      assert h.buffer + [] == h.buffer;
      SettledTail(h.buffer);
    } else {
      hide Coherent, ParseBuffer, Step, Chunks, DistinctSubs, Followed;
      var e, n := events[0], Step(h, events[0]);
      SubsMeanParsing(h);
      CoherentStep(h, e);
      var j := SubStep(h, k, e);
      SubsMeanParsing(n);
      BufferStep(h, e);
      k' := SubscriberGetsEveryFrame(n, j, events[1..]);
      FollowedFromNext(h, k, events, n, j, Run(h, events), k');
    }
  }

  lemma NoChunks<S>()
    ensures Concat(Chunks<S>([])) == []
  {
  }

  lemma SubsMeanParsing<S>(h: Hub<S>)
    requires Coherent(h) && h.subs != []
    ensures h.parsing
  {
  }
}
