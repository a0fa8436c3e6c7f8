/** What one loop makes of a queue of data, pass after pass, in fair and in foul weather. */
module DestinationService {
  import opened Bytes
  import opened DestinationRun
  import opened DestinationOrder
  import opened BaseDestination

  /** n passes of loop `me`, each with the same luck. */
  function Passes(d: Destination, me: nat, n: nat, outcome: Outcome, sends: bool): Destination
    decreases n
  {
    if n == 0 then d else Passes(Run(d, Pass(d, me, outcome, sends)), me, n - 1, outcome, sends)
  }

  /** A running destination with nothing but these items in its queue, and loop `me` about to look. */
  predicate Serving(d: Destination, me: nat, items: seq<Item>) {
    d.running && me < |d.loops| && d.loops[me] == Checking && d.queue == AsEntries(items)
  }

  lemma EntriesFirst(items: seq<Item>)
    ensures items == [] <==> AsEntries(items) == []
    ensures items != [] ==> AsEntries(items)[0] == Data(items[0]) && AsEntries(items)[1..] == AsEntries(items[1..])
  {
  }

  lemma {:induction false} EntriesHold(items: seq<Item>)
    ensures Queued(AsEntries(items)) == items
  {
    if items != [] {
      EntriesHold(items[1..]);
      EntriesFirst(items);
    }
  }

  /** A pass with a connection that sends: the oldest item goes out. */
  lemma PassSends(d: Destination, me: nat, items: seq<Item>, outcome: Outcome)
    requires Serving(d, me, items) && items != [] && d.connected
    ensures Run(d, Pass(d, me, outcome, true))
         == d.(queue := AsEntries(items[1..]), sent := d.sent + [items[0]], wire := d.wire + [items[0]])
  {
    hide Run, Pass, Queued;
    EntriesFirst(items);
    PassIsRun(d, me, outcome, true);
  }

  /** A pass with a connection that breaks: the oldest item has failed, the others wait. */
  lemma PassFails(d: Destination, me: nat, items: seq<Item>, outcome: Outcome)
    requires Serving(d, me, items) && items != [] && d.connected
    ensures Run(d, Pass(d, me, outcome, false))
         == d.(queue := AsEntries(items[1..]), failed := d.failed + [items[0]], connected := false)
  {
    hide Run, Pass, Queued;
    EntriesFirst(items);
    PassIsRun(d, me, outcome, false);
  }

  /** A pass that finds no connection and gets none: the oldest item is dropped. */
  lemma PassDrops(d: Destination, me: nat, items: seq<Item>, outcome: Outcome, sends: bool)
    requires Serving(d, me, items) && items != [] && !d.connected && outcome != Connects
    ensures Run(d, Pass(d, me, outcome, sends))
         == d.(queue := AsEntries(items[1..]), dropped := d.dropped + [items[0]])
  {
    hide Run, Pass, Queued;
    EntriesFirst(items);
    PassIsRun(d, me, outcome, sends);
  }

  /** A pass that makes a connection: what waits is stale and is cleared, the item in hand is sent. */
  lemma PassConnects(d: Destination, me: nat, items: seq<Item>)
    requires Serving(d, me, items) && items != [] && !d.connected
    ensures Run(d, Pass(d, me, Connects, true))
         == d.(queue := [], cleared := d.cleared + items[1..], connected := true,
               sent := d.sent + [items[0]], wire := [items[0]])
  {
    hide Run, Pass, Queued;
    EntriesFirst(items);
    EntriesHold(items[1..]);
    PassIsRun(d, me, Connects, true);
    assert [] + [items[0]] == [items[0]];
  }

  /** A pass that finds a pill, or the destination stopped, ends the loop; one that finds an empty queue
      changes nothing. */
  lemma PassEnds(d: Destination, me: nat, outcome: Outcome, sends: bool)
    requires me < |d.loops| && d.loops[me] == Checking
    ensures var n := Run(d, Pass(d, me, outcome, sends));
      && (!d.running ==> n == d.(loops := d.loops[me := Off]))
      && (d.running && d.queue == [] ==> n == d)
      && (d.running && d.queue != [] && d.queue[0] == Pill ==>
            n == d.(queue := d.queue[1..], loops := d.loops[me := Off]))
  {
    hide Run, Pass, Queued;
    PassIsRun(d, me, outcome, sends);
  }

  /** With a connection that lasts, everything in the queue is sent, in order. */
  lemma {:induction false} SendsAll(d: Destination, me: nat, items: seq<Item>, outcome: Outcome)
    requires Serving(d, me, items) && d.connected
    ensures Passes(d, me, |items|, outcome, true)
         == d.(queue := [], sent := d.sent + items, wire := d.wire + items)
    decreases |items|
  {
    hide Run, Pass;
    EntriesFirst(items);
    if items == [] {
      assert d.sent + [] == d.sent && d.wire + [] == d.wire;
    } else {
      PassSends(d, me, items, outcome);
      SendsAll(Run(d, Pass(d, me, outcome, true)), me, items[1..], outcome);
      assert (d.sent + [items[0]]) + items[1..] == d.sent + items;
      assert (d.wire + [items[0]]) + items[1..] == d.wire + items;
    }
  }

  /** Without one, everything is dropped and counted, and the loop goes on. */
  lemma {:induction false} DropsAll(d: Destination, me: nat, items: seq<Item>, outcome: Outcome, sends: bool)
    requires Serving(d, me, items) && !d.connected && outcome != Connects
    ensures Passes(d, me, |items|, outcome, sends) == d.(queue := [], dropped := d.dropped + items)
    decreases |items|
  {
    hide Run, Pass;
    EntriesFirst(items);
    if items == [] {
      assert d.dropped + [] == d.dropped;
    } else {
      PassDrops(d, me, items, outcome, sends);
      DropsAll(Run(d, Pass(d, me, outcome, sends)), me, items[1..], outcome, sends);
      assert (d.dropped + [items[0]]) + items[1..] == d.dropped + items;
    }
  }
}
