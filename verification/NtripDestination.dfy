/** The NTRIP destination: when it may connect again, and what it puts on the wire. */
module NtripDestination {
  import opened Bytes
  import opened Backoff
  import ChunkedFormat

  const AFTER_SEND_ERROR := 2.0

  /** What has happened, newest last. */
  datatype Mark =
    | Tried(started: real, ended: real, ok: bool)  // a connection attempt that was really made
    | Broke(at: real)                              // a send raised
    | Started

  datatype Backing = Backing(
    connected: bool, retryDelay: real, nextConnectTime: real, history: seq<Mark>)

  function New(p: Policy): Backing { Backing(false, p.initial, 0.0, []) }

  datatype Event =
    | Attempt(now: real, after: real, connects: bool)  // the clock before the attempt and after it
    | SendError(at: real)
    | Start
    | Stop

  function Step(p: Policy, b: Backing, e: Event): Backing {
    match e
    case Attempt(now, after, connects) =>
      if b.connected || now < b.nextConnectTime then b
      else
        var history := b.history + [Tried(now, after, connects)];
        if connects then Backing(true, p.initial, 0.0, history)
        else Backing(false, Min(b.retryDelay * p.multiplier, p.maximum), after + b.retryDelay, history)
    case SendError(at) =>
      if b.connected then
        b.(connected := false, nextConnectTime := at + AFTER_SEND_ERROR, history := b.history + [Broke(at)])
      else b
    case Start => Backing(b.connected, p.initial, 0.0, b.history + [Started])
    case Stop => b.(connected := false)
  }

  function Run(p: Policy, b: Backing, events: seq<Event>): Backing
    decreases |events|
  {
    if events == [] then b else Run(p, Step(p, b, events[0]), events[1..])
  }

  predicate Failed(m: Mark) { m.Tried? && !m.ok }

  /** How many attempts in a row have failed, at the end of a history. */
  function Failures(history: seq<Mark>): nat
    decreases |history|
  {
    if history == [] || !Failed(history[|history| - 1]) then 0
    else 1 + Failures(history[..|history| - 1])
  }

  /** The number of the last failure in its row, from 0. */
  function Row(history: seq<Mark>): nat
    requires history != [] && Failed(history[|history| - 1])
  {
    Failures(history) - 1
  }

  lemma FailuresAppend(history: seq<Mark>, m: Mark)
    ensures Failures(history + [m]) == if Failed(m) then Failures(history) + 1 else 0
  {
  }

  /** When the next attempt is due: after failure number k (from 0) of a row, wait number k after it;
      two seconds after a send error; at once in any other case. */
  function Due(p: Policy, history: seq<Mark>): real {
    if history == [] then 0.0
    else
      match history[|history| - 1]
      case Tried(_, ended, ok) =>
        if ok || Failures(history) == 0 then 0.0 else ended + Wait(p, Failures(history) - 1)
      case Broke(at) => at + AFTER_SEND_ERROR
      case _ => 0.0
  }

  /** Every attempt came late enough after what preceded it. */
  predicate Spaced(p: Policy, history: seq<Mark>) {
    forall i :: 0 <= i < |history| && history[i].Tried? ==> history[i].started >= Due(p, history[..i])
  }

  /** The stored fields say what the history implies. */
  predicate Agrees(p: Policy, b: Backing) {
    && b.retryDelay == Wait(p, Failures(b.history))
    && b.nextConnectTime == Due(p, b.history)
    && (b.connected ==> Failures(b.history) == 0 && Due(p, b.history) == 0.0)
    && Spaced(p, b.history)
  }

  lemma SpacedAppend(p: Policy, history: seq<Mark>, m: Mark)
    requires Spaced(p, history)
    requires m.Tried? ==> m.started >= Due(p, history)
    ensures Spaced(p, history + [m])
  {
    hide Due;
    var h := history + [m];
    forall i | 0 <= i < |h| && h[i].Tried? ensures h[i].started >= Due(p, h[..i]) {
      if i < |history| {
        assert h[..i] == history[..i];
      } else {
        assert h[..i] == history;
      }
    }
  }

  lemma AgreesStep(p: Policy, b: Backing, e: Event)
    requires p.Valid() && Agrees(p, b)
    ensures Agrees(p, Step(p, b, e))
  {
    hide Spaced, Failures, Wait;
    var n := Step(p, b, e);
    if n.history != b.history {
      var m := n.history[|n.history| - 1];
      assert n.history == b.history + [m];
      FailuresAppend(b.history, m);
      SpacedAppend(p, b.history, m);
      NextWait(p, Failures(b.history));
      FirstWait(p);
    }
  }

  lemma {:induction false} AgreesRun(p: Policy, b: Backing, events: seq<Event>)
    requires p.Valid() && Agrees(p, b)
    ensures Agrees(p, Run(p, b, events))
    decreases |events|
  {
    hide Agrees, Step;
    if events != [] {
      AgreesStep(p, b, events[0]);
      AgreesRun(p, Step(p, b, events[0]), events[1..]);
    }
  }

  lemma NewAgrees(p: Policy)
    requires p.Valid()
    ensures Agrees(p, New(p))
  {
  }

  /** Over every run: an attempt that follows failure number k of a row (from 0) starts no earlier
      than min(initial * multiplier^k, maximum) after that failure; one that follows a send error
      starts at least 2 s after it; and while connected the stored delay is the initial one. */
  lemma RetrySpacing(p: Policy, events: seq<Event>, i: nat)
    requires p.Valid()
    ensures var b := Run(p, New(p), events);
      && (b.connected ==> b.retryDelay == p.initial)
      && (0 < i < |b.history| && b.history[i].Tried? ==>
            var last, before := b.history[i - 1], b.history[..i];
            && (Failed(last) ==>
                  Failures(before) > 0 && b.history[i].started >= last.ended + Wait(p, Failures(before) - 1))
            && (last.Broke? ==> b.history[i].started >= last.at + 2.0))
  {
    hide Run, Step, Wait;
    NewAgrees(p);
    AgreesRun(p, New(p), events);
    FirstWait(p);
    var b := Run(p, New(p), events);
    if 0 < i < |b.history| && b.history[i].Tried? {
      assert b.history[..i][|b.history[..i]| - 1] == b.history[i - 1];
      assert b.history[i].started >= Due(p, b.history[..i]);
    }
  }

  /** And in every run the other way round: an attempt without a connection is made as soon as it is
      due, and then its outcome is that of the connection; before that it changes nothing. */
  lemma AttemptedWhenDue(p: Policy, events: seq<Event>, now: real, after: real, connects: bool)
    requires p.Valid()
    ensures var b := Run(p, New(p), events);
      var n := Step(p, b, Attempt(now, after, connects));
      var due :=
        if b.history == [] then 0.0
        else
          match b.history[|b.history| - 1]
          case Tried(_, ended, ok) => if ok then 0.0 else ended + Wait(p, Row(b.history))
          case Broke(at) => at + 2.0
          case Started => 0.0;
      if !b.connected && now >= due
      then n.history == b.history + [Tried(now, after, connects)] && n.connected == connects
      else n == b
  {
    hide Run, Wait, Spaced;
    NewAgrees(p);
    AgreesRun(p, New(p), events);
  }

  // ------------------------------------------------------------------
  // The object
  // ------------------------------------------------------------------

  class NtripDestination {
    const policy: Policy
    const chunked: bool  // version 2.0
    var running: bool
    var connected: bool
    var retryDelay: real
    var nextConnectTime: real
    ghost var history: seq<Mark>
    ghost var wire: bytes  // what the socket has taken

    ghost function View(): Backing
      reads this
    {
      Backing(connected, retryDelay, nextConnectTime, history)
    }

    constructor (policy: Policy, chunked: bool)
      ensures View() == New(policy) && this.policy == policy && this.chunked == chunked && wire == [] && !running
    {
      this.policy, this.chunked := policy, chunked;
      running, connected, retryDelay, nextConnectTime := false, false, policy.initial, 0.0;
      history, wire := [], [];
    }

    method UpdateRetryDelay()
      modifies this`retryDelay
      ensures retryDelay == Min(old(retryDelay) * policy.multiplier, policy.maximum)
    {
      var longer := retryDelay * policy.multiplier;
      retryDelay := if policy.maximum < longer then policy.maximum else longer;
    }

    method ResetRetryDelay()
      modifies this`retryDelay, this`nextConnectTime
      ensures retryDelay == policy.initial && nextConnectTime == 0.0
    {
      retryDelay, nextConnectTime := policy.initial, 0.0;
    }

    /** Called by the run loop only when there is no connection. */
    method AttemptConnect(now: real, after: real, connects: bool)
      requires !connected
      modifies this`connected, this`retryDelay, this`nextConnectTime, this`history
      ensures View() == Step(policy, old(View()), Attempt(now, after, connects))
    {
      if now < nextConnectTime {
        return;
      }
      connected := connects;
      if !connected {
        nextConnectTime := after + retryDelay;
        UpdateRetryDelay();
      } else {
        retryDelay := policy.initial;
        nextConnectTime := 0.0;
      }
      history := history + [Tried(now, after, connects)];
    }

    /** Send one piece of data; `sends` is false when the socket raises, and the run loop then
        disconnects. */
    method SendData(data: bytes, sends: bool, at: real) returns (ok: bool)
      modifies this`connected, this`nextConnectTime, this`history, this`wire
      ensures ok <==> old(connected) && sends
      ensures View() == if old(connected) && !sends then Step(policy, old(View()), SendError(at)) else old(View())
      ensures wire == if !ok then old(wire)
                      else old(wire) + if chunked then ChunkedFormat.Encode(data) else data
    {
      if !connected {
        return false;
      }
      var payload := data;
      if chunked {
        payload := ChunkedFormat.Hex(|data|) + [CR, LF] + data + [CR, LF];
      }
      if !sends {
        nextConnectTime := at + AFTER_SEND_ERROR;
        connected := false;
        history := history + [Broke(at)];
        return false;
      }
      wire := wire + payload;
      return true;
    }

    /** A (re)start connects at once, without backoff; starting what runs already changes nothing. */
    method Start()
      modifies this`running, this`retryDelay, this`nextConnectTime, this`history
      ensures running
      ensures View() == if old(running) then old(View()) else Step(policy, old(View()), Event.Start)
      ensures !old(running) ==> retryDelay == policy.initial && nextConnectTime == 0.0 && connected == old(connected)
    {
      if !running {
        ResetRetryDelay();
        history := history + [Started];
      }
      running := true;
    }

    /** The end of a stop: the connection is given up, and the backoff kept. */
    method Stop()
      modifies this`running, this`connected
      ensures !running
      ensures View() == if old(running) then Step(policy, old(View()), Event.Stop) else old(View())
      ensures old(running) ==>
        !connected && retryDelay == old(retryDelay) && nextConnectTime == old(nextConnectTime)
    {
      if !running {
        return;
      }
      running := false;
      connected := false;
    }
  }
}
