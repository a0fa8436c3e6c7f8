/** An NTRIP input's connect racing any number of disconnects. One thread at a time connects and
    reads; disconnect may run on any thread. Each step is one locked section, or one action
    between two of them. */
module ConnectRace {
  import opened Bytes

  type Socket = nat  // in the order they were opened

  /** Where the connecting thread is. */
  datatype Connector =
    | Idle
    | Cleared(taken: Option<Socket>)        // its own disconnect took a socket to close
    | Ready                               // about to read the generation
    | Opening(generation: nat)
    | Held(generation: nat, sock: Socket) // a socket of its own, not installed
    | Failed                              // the connection or the request failed
    | Losing(taken: Option<Socket>)         // a read found the stream gone, and disconnected
    | Lost                                // about to record that

  /** How a connect ended, and whether a disconnect took the lock after it read the generation. */
  datatype Ending = Ending(connected: bool, disturbed: bool)

  datatype Input = Input(
    generation: nat, socket: Option<Socket>, connected: bool, pending: bytes,
    connector: Connector,
    sockets: nat,                // how many sockets were ever opened
    closing: set<Socket>,   // taken by a disconnect that has yet to close them
    closed: set<Socket>,
    disturbed: bool,             // history: a disconnect since the generation was read
    endings: seq<Ending>)

  const NEW := Input(0, None, false, [], Idle, 0, {}, {}, false, [])

  datatype Event =
    | Connect | CloseOld | ReadGeneration | OpenFails | Open | RequestFails | Install(pending: bytes) | RecordFailure
    | TakePending | Lose | CloseLost | RecordLoss
    | Disconnect | CloseTaken(sock: Socket)

  /** The locked section of disconnect, but for what is done with the socket. */
  function Detached(s: Input): Input {
    s.(generation := s.generation + 1, socket := None, pending := [], connected := false)
  }

  function SetOf(o: Option<Socket>): set<Socket> {
    if o.Some? then {o.value} else {}
  }

  function Step(s: Input, e: Event): Input {
    match e
    case Connect =>
      if s.connector == Idle then Detached(s).(connector := Cleared(s.socket)) else s
    case CloseOld =>
      if s.connector.Cleared? then s.(connector := Ready, closed := s.closed + SetOf(s.connector.taken)) else s
    case ReadGeneration =>
      if s.connector == Ready then s.(connector := Opening(s.generation), disturbed := false) else s
    case OpenFails =>
      if s.connector.Opening? then s.(connector := Failed) else s
    case Open =>
      if s.connector.Opening? then
        s.(connector := Held(s.connector.generation, s.sockets), sockets := s.sockets + 1)
      else s
    case RequestFails =>
      if s.connector.Held? then s.(connector := Failed, closed := s.closed + {s.connector.sock}) else s
    case Install(pending) =>
      if !s.connector.Held? then s
      else if s.connector.generation != s.generation then
        s.(connector := Idle, closed := s.closed + {s.connector.sock},
           endings := s.endings + [Ending(false, s.disturbed)])
      else
        s.(connector := Idle, socket := Some(s.connector.sock), pending := pending, connected := true,
           endings := s.endings + [Ending(true, s.disturbed)])
    case RecordFailure =>
      if s.connector == Failed then s.(connector := Idle, connected := false) else s
    case TakePending =>
      if s.connector == Idle then s.(pending := []) else s
    case Lose =>
      if s.connector == Idle then Detached(s).(connector := Losing(s.socket)) else s
    case CloseLost =>
      if s.connector.Losing? then s.(connector := Lost, closed := s.closed + SetOf(s.connector.taken)) else s
    case RecordLoss =>
      if s.connector == Lost then s.(connector := Idle, connected := false) else s
    case Disconnect =>
      Detached(s).(disturbed := true, closing := s.closing + SetOf(s.socket))
    case CloseTaken(sock) =>
      if sock in s.closing then
        s.(closing := s.closing - {sock}, closed := s.closed + {sock})
      else s
  }

  function Run(s: Input, events: seq<Event>): Input
    decreases |events|
  {
    if events == [] then s else Run(Step(s, events[0]), events[1..])
  }

  lemma RunOne(s: Input, e: Event)
    ensures Run(s, [e]) == Step(s, e)
  {
    hide Step;
    assert [e][1..] == [];
  }

  lemma RunTwo(s: Input, d: Event, e: Event)
    ensures Run(s, [d, e]) == Step(Step(s, d), e)
  {
    hide Step;
    assert [d, e][1..] == [e];
    RunOne(Step(s, d), e);
    assert Run(s, [d, e]) == Run(Step(s, d), [e]);
  }

  lemma RunThree(s: Input, c: Event, d: Event, e: Event)
    ensures Run(s, [c, d, e]) == Step(Step(Step(s, c), d), e)
  {
    hide Step;
    assert [c, d, e][1..] == [d, e];
    RunTwo(Step(s, c), d, e);
    assert Run(s, [c, d, e]) == Run(Step(s, c), [d, e]);
  }

  lemma {:induction false} RunAppend(s: Input, a: seq<Event>, b: seq<Event>)
    ensures Run(s, a + b) == Run(Run(s, a), b)
    decreases |a|
  {
    hide Step;
    if a == [] {
      assert a + b == b;
    } else {
      assert (a + b)[0] == a[0] && (a + b)[1..] == a[1..] + b;
      RunAppend(Step(s, a[0]), a[1..], b);
    }
  }

  /** The steps of a connect up to reading the generation, and those of losing a connection. */
  lemma Begins(s: Input)
    requires s.connector == Idle
    ensures var n := Run(s, [Connect, CloseOld, ReadGeneration]);
      && n.generation == s.generation + 1 && n.socket == None && n.pending == [] && !n.connected
      && n.connector == Opening(n.generation) && n.sockets == s.sockets && !n.disturbed
  {
    hide Run;
    RunThree(s, Connect, CloseOld, ReadGeneration);
  }

  lemma Loses(s: Input)
    requires s.connector == Idle
    ensures var n := Run(s, [Lose, CloseLost, RecordLoss]);
      && n.generation == s.generation + 1 && n.socket == None && n.pending == [] && !n.connected
      && n.connector == Idle && n.sockets == s.sockets
  {
    hide Run;
    RunThree(s, Lose, CloseLost, RecordLoss);
  }

  // ------------------------------------------------------------------
  // Every socket is somewhere, and in one place only
  // ------------------------------------------------------------------

  /** The socket in the hands of the connecting thread: its new one, or an old one it is closing. */
  function InHand(s: Input): Option<Socket> {
    match s.connector
    case Cleared(taken) => taken
    case Held(_, sock) => Some(sock)
    case Losing(taken) => taken
    case _ => None
  }

  /** In how many places a socket is. */
  function Places(s: Input, k: Socket): nat {
    (if InHand(s) == Some(k) then 1 else 0) + (if s.socket == Some(k) then 1 else 0)
    + (if k in s.closing then 1 else 0) + (if k in s.closed then 1 else 0)
  }

  ghost predicate Accounted(s: Input) {
    forall k: Socket :: Places(s, k) == if k < s.sockets then 1 else 0
  }

  /** Connected means a socket is installed; without one no body bytes wait to be read; nothing is
      installed while a connect is under way; the generation tells whether it was disturbed. */
  predicate Consistent(s: Input) {
    && (s.connected <==> s.socket.Some?)
    && (s.socket == None ==> s.pending == [])
    && (s.connector != Idle ==> s.socket == None)
    && (s.connector.Opening? || s.connector.Held? ==>
          s.connector.generation <= s.generation
          && (s.disturbed <==> s.connector.generation != s.generation))
    && (forall i :: 0 <= i < |s.endings| ==> (s.endings[i].connected <==> !s.endings[i].disturbed))
  }

  ghost predicate Sound(s: Input) {
    Accounted(s) && Consistent(s)
  }

  lemma PlacesStep(s: Input, e: Event, k: Socket)
    requires Consistent(s) && Places(s, k) == if k < s.sockets then 1 else 0
    ensures Places(Step(s, e), k) == if k < Step(s, e).sockets then 1 else 0
  {
  }

  lemma AccountedStep(s: Input, e: Event)
    requires Sound(s)
    ensures Accounted(Step(s, e))
  {
    hide Places, Step, Consistent;
    var n := Step(s, e);
    forall k: Socket ensures Places(n, k) == if k < n.sockets then 1 else 0 {
      PlacesStep(s, e, k);
    }
  }

  lemma ConsistentStep(s: Input, e: Event)
    requires Sound(s)
    ensures Consistent(Step(s, e))
  {
  }

  lemma SoundStep(s: Input, e: Event)
    requires Sound(s)
    ensures Sound(Step(s, e))
  {
    hide Accounted, Consistent, Step;
    AccountedStep(s, e);
    ConsistentStep(s, e);
  }

  lemma {:induction false} SoundRun(s: Input, events: seq<Event>)
    requires Sound(s)
    ensures Sound(Run(s, events))
    decreases |events|
  {
    hide Sound, Step;
    if events != [] {
      SoundStep(s, events[0]);
      SoundRun(Step(s, events[0]), events[1..]);
    }
  }

  lemma NewIsSound()
    ensures Sound(NEW)
  {
  }

  /** In every interleaving: each opened socket is in exactly one place; connected means installed;
      and a connect that got its socket returns True if and only if no disconnect has taken the
      lock since it read the generation. */
  lemma ConnectRaceSafety(events: seq<Event>)
    ensures var s := Run(NEW, events);
      && (forall k: Socket :: k < s.sockets ==> Places(s, k) == 1)
      && (s.connected <==> s.socket.Some?)
      && (s.socket == None ==> s.pending == [])
      && (forall i :: 0 <= i < |s.endings| ==> (s.endings[i].connected <==> !s.endings[i].disturbed))
  {
    hide Run, Step;
    NewIsSound();
    SoundRun(NEW, events);
  }

  /** When nobody is at work any more, the one socket that may still be open is the installed one. */
  lemma NothingLeaks(events: seq<Event>, k: Socket)
    requires var s := Run(NEW, events); s.connector == Idle && s.closing == {} && k < s.sockets
    ensures var s := Run(NEW, events); s.socket == Some(k) <==> k !in s.closed
  {
    hide Run, Step;
    ConnectRaceSafety(events);
    assert Places(Run(NEW, events), k) == 1;
  }

  /** A disconnect before the generation is read is not noticed: the connect still succeeds. */
  lemma EarlyDisconnectUnnoticed()
    ensures var s := Run(NEW, [Connect, CloseOld, Disconnect, ReadGeneration, Open, Install([])]);
      s.socket == Some(0) && s.endings == [Ending(true, false)]
  {
  }
}
