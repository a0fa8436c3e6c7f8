/** The NTRIP input: installing a connection, reading from it, losing it. */
module NtripInput {
  import opened Bytes
  import opened FrameExtraction
  import opened ChunkedBody
  import opened ChunkedFormat
  import opened CasterReply
  import opened CasterReplyCuts
  import opened HeaderFields
  import opened StreamPath
  import R = ConnectRace

  /** What the socket has for one read. */
  datatype Arrival =
    | Quiet            // nothing within the timeout
    | Stale            // nothing for longer than the data timeout
    | Broken           // the read failed
    | Closed           // the caster closed the connection
    | Data(data: bytes)

  datatype Outcome = NoData | Body(data: bytes) | DataTimeout | BadBody

  datatype Session = Session(
    generation: nat, socket: Option<nat>, connected: bool, pending: bytes, decoder: Option<DecoderState>)

  function Detached(s: Session): Session {
    s.(generation := s.generation + 1, socket := None, connected := false, pending := [])
  }

  datatype Reading = Reading(session: Session, outcome: Outcome)

  function Dechunked(s: Session, data: bytes): Reading {
    if s.decoder.None? then Reading(s, if data == [] then NoData else Body(data))
    else
      var body := Feed(s.decoder.value, data);
      if body.Raised? then Reading(Detached(s.(decoder := Some(LeftBy(s.decoder.value, data)))), BadBody)
      else
        var n := s.(decoder := Some(body.state));
        Reading(if body.state.finished then Detached(n) else n, if body.out == [] then NoData else Body(body.out))
  }

  function Read(s: Session, got: Arrival): Reading {
    if s.pending != [] then Reading(s.(pending := []), Body(s.pending))
    else if s.socket.None? then Reading(s, NoData)
    else
      match got
      case Quiet => Reading(s, NoData)
      case Stale => Reading(Detached(s), DataTimeout)
      case Broken => Reading(Detached(s), NoData)
      case Closed => Reading(Detached(s), NoData)
      case Data(data) => if data == [] then Reading(Detached(s), NoData) else Dechunked(s, data)
  }

  // ------------------------------------------------------------------
  // What the hub makes of the reads
  // ------------------------------------------------------------------

  function Listen(s: Session, tail: bytes, gots: seq<Arrival>): Relayed
    decreases |gots|
  {
    if gots == [] then Relayed([], if s.decoder.Some? then s.decoder.value else FRESH, tail)
    else
      var r := Read(s, gots[0]);
      match r.outcome
      case NoData => Listen(r.session, tail, gots[1..])
      case Body(data) =>
        var parsed := ParseBuffer(tail + data);
        Ahead(parsed.frames, Listen(r.session, parsed.rest, gots[1..]))
      case _ => Corrupt
  }

  function AsData(pieces: seq<bytes>): seq<Arrival> {
    seq(|pieces|, i requires 0 <= i < |pieces| => Data(pieces[i]))
  }

  predicate AllNonEmpty(pieces: seq<bytes>) {
    forall k :: 0 <= k < |pieces| ==> pieces[k] != []
  }

  lemma {:induction false} FinishedStays(d: DecoderState, pieces: seq<bytes>)
    requires d.finished
    ensures FeedAll(d, pieces) == Decoded([], d)
    decreases |pieces|
  {
    if pieces != [] { FinishedStays(d, pieces[1..]); }
  }

  /** Reads of a chunked body, while the connection lasts, give the hub what decoding the pieces gives. */
  lemma {:induction false} ListenIsRelay(s: Session, tail: bytes, pieces: seq<bytes>)
    requires s.socket.Some? && s.pending == [] && s.decoder.Some? && !s.decoder.value.finished
    requires AllNonEmpty(pieces)
    requires var body := FeedAll(s.decoder.value, pieces); body.Decoded? && !body.state.finished
    ensures Listen(s, tail, AsData(pieces)) == Relay(s.decoder.value, tail, pieces)
    decreases |pieces|
  {
    hide Feed, ParseBuffer;
    if pieces != [] {
      var d := s.decoder.value;
      var first := Feed(d, pieces[0]);
      if first.state.finished { FinishedStays(first.state, pieces[1..]); }
      var n := s.(decoder := Some(first.state));
      assert AsData(pieces)[0] == Data(pieces[0]) && AsData(pieces)[1..] == AsData(pieces[1..]);
      assert Read(s, Data(pieces[0])).session == n;
      if first.out == [] {
        ListenIsRelay(n, tail, pieces[1..]);
      } else {
        ListenIsRelay(n, ParseBuffer(tail + first.out).rest, pieces[1..]);
      }
    }
  }

  /** Without chunked coding the bytes read are the stream itself. */
  lemma {:induction false} ListenRaw(s: Session, tail: bytes, pieces: seq<bytes>)
    requires s.socket.Some? && s.pending == [] && s.decoder == None && AllNonEmpty(pieces) && Settled(tail)
    ensures var p := ParseBuffer(tail + Concat(pieces));
      Listen(s, tail, AsData(pieces)) == Relayed(p.frames, FRESH, p.rest)
    decreases |pieces|
  {
    hide ParseBuffer, Settled;
    if pieces == [] {
      SettledTail(tail);
      assert tail + [] == tail;
    } else {
      var first := ParseBuffer(tail + pieces[0]);
      assert AsData(pieces)[0] == Data(pieces[0]) && AsData(pieces)[1..] == AsData(pieces[1..]);
      RestIsSettled(tail + pieces[0]);
      ListenRaw(s, first.rest, pieces[1..]);
      ParseSplit(tail + pieces[0], Concat(pieces[1..]));
      assert tail + Concat(pieces) == (tail + pieces[0]) + Concat(pieces[1..]);
    }
  }

  /** The session a connect installs: the bytes behind the reply head are decoded at once and wait. */
  function Installed(generation: nat, sock: nat, body: Decoding): Session
    requires body.Decoded?
  {
    Session(generation, Some(sock), true, body.out, Some(body.state))
  }

  /** The reads that fetch what waits, if anything does, and then the rest. */
  function ReadsFor(s: Session, pieces: seq<bytes>): seq<Arrival> {
    (if s.pending == [] then [] else [Arrival.Quiet]) + AsData(pieces)
  }

  lemma PendingFirst(s: Session, tail: bytes, gots: seq<Arrival>)
    requires s.pending != []
    ensures var p := ParseBuffer(tail + s.pending);
      Listen(s, tail, [Arrival.Quiet] + gots) == Ahead(p.frames, Listen(s.(pending := []), p.rest, gots))
  {
  }

  lemma ListenAfterInstall(generation: nat, sock: nat, leftover: bytes, pieces: seq<bytes>)
    requires AllNonEmpty(pieces)
    requires var all := FeedAll(FRESH, [leftover] + pieces); all.Decoded? && !all.state.finished
    ensures Feed(FRESH, leftover).Decoded?
    ensures var s := Installed(generation, sock, Feed(FRESH, leftover));
      Listen(s, [], ReadsFor(s, pieces)) == Relay(FRESH, [], [leftover] + pieces)
  {
    hide Feed, ParseBuffer, FRESH, AllNonEmpty, Listen;
    var received := [leftover] + pieces;
    assert received[1..] == pieces;
    var first := Feed(FRESH, leftover);
    var s := Installed(generation, sock, first);
    if first.state.finished { FinishedStays(first.state, pieces); }
    if first.out == [] {
      assert [] + AsData(pieces) == AsData(pieces);
      ListenIsRelay(s, [], pieces);
    } else {
      PendingFirst(s, [], AsData(pieces));
      ListenIsRelay(s.(pending := []), ParseBuffer([] + first.out).rest, pieces);
    }
  }

  lemma {:induction false} UnreadNotEmpty(buf: bytes, pieces: seq<bytes>)
    requires EachReceivable(pieces)
    ensures var r := ReadFrom(buf, AsCalls(pieces)); r.Replied? ==> AllNonEmpty(PiecesOf(r.unread))
    decreases |pieces|
  {
    hide HeadComplete, ParseReply;
    PiecesOfCalls(pieces);
    if pieces != [] {
      assert AsCalls(pieces)[0] == Piece(pieces[0]) && AsCalls(pieces)[1..] == AsCalls(pieces[1..]);
      UnreadNotEmpty(buf + pieces[0], pieces[1..]);
    }
  }

  lemma {:induction false} PiecesOfCalls(pieces: seq<bytes>)
    ensures PiecesOf(AsCalls(pieces)) == pieces
  {
    if pieces != [] {
      PiecesOfCalls(pieces[1..]);
      assert AsCalls(pieces)[1..] == AsCalls(pieces[1..]);
    }
  }

  /** From connect to the hub: however the caster's answer is cut, the input's reads make the hub see
      exactly the frames in the bytes that were sent, and keep the tail. */
  lemma InputDelivers(head: bytes, messages: seq<bytes>, pieces: seq<bytes>, generation: nat, sock: nat)
    requires ReplyHead(head) && NonEmpty(messages) && Printable(messages)
    requires IsCutting(pieces, head + EncodeAll(messages))
    ensures var r := ReadFrom([], AsCalls(pieces));
      && r.Replied? && Feed(FRESH, r.reply.leftover).Decoded?
      && var s, p := Installed(generation, sock, Feed(FRESH, r.reply.leftover)), ParseBuffer(Concat(messages));
      Listen(s, [], ReadsFor(s, PiecesOf(r.unread))) == Relayed(p.frames, FRESH, p.rest)
  {
    assert EachReceivable(pieces);
    hide ReplyHead, Printable, NonEmpty, Relay, EncodeAll, IsCutting, ReadFrom, Listen, Feed, FeedAll, ParseBuffer;
    BodyIsIntact(head, EncodeAll(messages), pieces);
    var r := ReadFrom([], AsCalls(pieces));
    UnreadNotEmpty([], pieces);
    var received := [r.reply.leftover] + PiecesOf(r.unread);
    AnyPath(messages, received);
    EncodedReads(messages, received);
    ListenAfterInstall(generation, sock, r.reply.leftover, PiecesOf(r.unread));
  }

  // ------------------------------------------------------------------
  // Bodies that are not chunked
  // ------------------------------------------------------------------

  /** The session a connect installs when the body is not chunked. */
  function InstalledRaw(generation: nat, sock: nat, leftover: bytes): Session {
    Session(generation, Some(sock), true, leftover, None)
  }

  lemma ListenRawAfterInstall(generation: nat, sock: nat, leftover: bytes, pieces: seq<bytes>)
    requires AllNonEmpty(pieces)
    ensures var s, p := InstalledRaw(generation, sock, leftover), ParseBuffer(leftover + Concat(pieces));
      Listen(s, [], ReadsFor(s, pieces)) == Relayed(p.frames, FRESH, p.rest)
  {
    hide ParseBuffer, AllNonEmpty, Listen, Settled;
    EmptyTail();
    var s := InstalledRaw(generation, sock, leftover);
    assert [] + leftover == leftover;
    if leftover == [] {
      assert [] + AsData(pieces) == AsData(pieces);
      ListenRaw(s, [], pieces);
    } else {
      PendingFirst(s, [], AsData(pieces));
      RestIsSettled(leftover);
      ListenRaw(s.(pending := []), ParseBuffer(leftover).rest, pieces);
      ParseSplit(leftover, Concat(pieces));
    }
  }

  lemma EmptyTail()
    ensures Settled([])
  {
  }

  /** A reply that leaves the body intact makes the hub see exactly the frames in the body. */
  lemma RawBodyDelivers(body: bytes, pieces: seq<bytes>, generation: nat, sock: nat)
    requires EachReceivable(pieces) && ReadFrom([], AsCalls(pieces)).Replied?
    requires var r := ReadFrom([], AsCalls(pieces)); r.reply.leftover + Received(r.unread) == body
    ensures var r, p := ReadFrom([], AsCalls(pieces)), ParseBuffer(body);
      var s := InstalledRaw(generation, sock, r.reply.leftover);
      Listen(s, [], ReadsFor(s, PiecesOf(r.unread))) == Relayed(p.frames, FRESH, p.rest)
  {
    hide ReadFrom, Listen, ParseBuffer, EachReceivable;
    var r := ReadFrom([], AsCalls(pieces));
    UnreadNotEmpty([], pieces);
    PiecesConcat(r.unread);
    ListenRawAfterInstall(generation, sock, r.reply.leftover, PiecesOf(r.unread));
  }

  /** From connect to the hub, behind an HTTP reply... */
  lemma RawInputDelivers(head: bytes, body: bytes, pieces: seq<bytes>, generation: nat, sock: nat)
    requires ReplyHead(head) && IsCutting(pieces, head + body)
    ensures var r, p := ReadFrom([], AsCalls(pieces)), ParseBuffer(body);
      && r.Replied?
      && var s := InstalledRaw(generation, sock, r.reply.leftover);
      Listen(s, [], ReadsFor(s, PiecesOf(r.unread))) == Relayed(p.frames, FRESH, p.rest)
  {
    assert EachReceivable(pieces);
    hide ReplyHead, IsCutting, ReadFrom, Listen, ParseBuffer, EachReceivable;
    BodyIsIntact(head, body, pieces);
    var r := ReadFrom([], AsCalls(pieces));
    PiecesConcat(r.unread);
    assert ([r.reply.leftover] + PiecesOf(r.unread))[1..] == PiecesOf(r.unread);
    RawBodyDelivers(body, pieces, generation, sock);
  }

  /** ...and behind the bare status line of NTRIP 1.0. */
  lemma PlainInputDelivers(status: bytes, body: bytes, pieces: seq<bytes>, generation: nat, sock: nat)
    requires 0x0A !in status && !HttpStatus(status) && |status| <= 16384
    requires body == [] || body[0] == 0xD3
    requires IsCutting(pieces, status + [LF] + body)
    ensures var r, p := ReadFrom([], AsCalls(pieces)), ParseBuffer(body);
      && r.Replied?
      && var s := InstalledRaw(generation, sock, r.reply.leftover);
      Listen(s, [], ReadsFor(s, PiecesOf(r.unread))) == Relayed(p.frames, FRESH, p.rest)
  {
    assert EachReceivable(pieces);
    hide IsCutting, ReadFrom, Listen, ParseBuffer, EachReceivable;
    RtcmBehindStatusIntact(status, body, pieces);
    RawBodyDelivers(body, pieces, generation, sock);
  }

  // ------------------------------------------------------------------
  // The end of a stream
  // ------------------------------------------------------------------

  /** A read that finds the stream gone: nothing for too long, an error, the caster's end, or a chunked
      body that is corrupt or has ended. Waiting bytes come first. */
  predicate Ends(s: Session, got: Arrival) {
    && s.pending == [] && s.socket.Some?
    && match got
       case Quiet => false
       case Stale => true
       case Broken => true
       case Closed => true
       case Data(data) =>
         data == [] || (s.decoder.Some? && (Feed(s.decoder.value, data).Raised? || Feed(s.decoder.value, data).state.finished))
  }

  /** A session that has been given up after being s. */
  predicate GivenUp(s: Session, n: Session) {
    n.generation == s.generation + 1 && n.socket == None && !n.connected && n.pending == []
  }

  /** The session is given up by exactly these reads, and keeps its socket and generation otherwise. */
  lemma EndsIff(s: Session, got: Arrival)
    ensures var n := Read(s, got).session;
      if Ends(s, got) then GivenUp(s, n)
      else n.generation == s.generation && n.socket == s.socket && n.connected == s.connected && n.pending == []
  {
    hide Feed, LeftBy;
  }

  /** The session after some reads. */
  function After(s: Session, gots: seq<Arrival>): Session
    decreases |gots|
  {
    if gots == [] then s else After(Read(s, gots[0]).session, gots[1..])
  }

  /** A quiet read changes nothing, wherever it comes. */
  lemma QuietRead(s: Session, tail: bytes, gots: seq<Arrival>)
    requires s.pending == []
    ensures Listen(s, tail, [Arrival.Quiet] + gots) == Listen(s, tail, gots)
    ensures After(s, [Arrival.Quiet] + gots) == After(s, gots)
  {
  }

  /** Without a connection reads bring nothing. */
  lemma {:induction false} NothingAfterEnd(s: Session, tail: bytes, gots: seq<Arrival>)
    requires s.socket == None && s.pending == []
    ensures Listen(s, tail, gots) == Relayed([], if s.decoder.Some? then s.decoder.value else FRESH, tail)
    ensures After(s, gots) == s
    decreases |gots|
  {
    if gots != [] { NothingAfterEnd(s, tail, gots[1..]); }
  }

  /** Where the connection breaks or the caster closes it, the hub keeps what it has, and that is all. */
  lemma NothingBehindClose(s: Session, tail: bytes, got: Arrival, gots: seq<Arrival>)
    requires s.socket.Some? && s.pending == [] && (got == Broken || got == Closed || got == Data([]))
    ensures Listen(s, tail, [got] + gots)
         == Relayed([], if s.decoder.Some? then s.decoder.value else FRESH, tail)
    ensures GivenUp(s, After(s, [got] + gots))
  {
    var n := Read(s, got).session;
    assert ([got] + gots)[0] == got && ([got] + gots)[1..] == gots;
    NothingAfterEnd(n, tail, gots);
  }

  lemma ParsedOn(tail: bytes, a: bytes, b: bytes)
    ensures ParseBuffer(tail + (a + b))
         == Before(ParseBuffer(tail + a).frames, ParseBuffer(ParseBuffer(tail + a).rest + b))
  {
    hide ParseBuffer;
    ParseSplit(tail + a, b);
    assert tail + (a + b) == (tail + a) + b;
  }

  /** The read in which a body ends. */
  lemma LastRead(s: Session, tail: bytes, data: bytes, gots: seq<Arrival>)
    requires s.socket.Some? && s.pending == [] && s.decoder.Some? && data != [] && Settled(tail)
    requires var first := Feed(s.decoder.value, data); first.Decoded? && first.state.finished
    ensures var first := Feed(s.decoder.value, data);
      var p := ParseBuffer(tail + first.out);
      Listen(s, tail, [Data(data)] + gots) == Relayed(p.frames, first.state, p.rest)
    ensures GivenUp(s, After(s, [Data(data)] + gots))
  {
    hide Feed, ParseBuffer, Settled;
    var first := Feed(s.decoder.value, data);
    var n := Read(s, Data(data)).session;
    SettledTail(tail);
    assert tail + [] == tail;
    assert ([Data(data)] + gots)[1..] == gots;
    NothingAfterEnd(n, if first.out == [] then tail else ParseBuffer(tail + first.out).rest, gots);
  }

  /** A read before that. */
  lemma EarlierRead(s: Session, tail: bytes, data: bytes, gots: seq<Arrival>)
    requires s.socket.Some? && s.pending == [] && s.decoder.Some? && data != [] && Settled(tail)
    requires var first := Feed(s.decoder.value, data); first.Decoded? && !first.state.finished
    ensures var first := Feed(s.decoder.value, data);
      var n, p := s.(decoder := Some(first.state)), ParseBuffer(tail + first.out);
      Listen(s, tail, [Data(data)] + gots) == Ahead(p.frames, Listen(n, p.rest, gots))
      && After(s, [Data(data)] + gots) == After(n, gots)
  {
    hide Feed, ParseBuffer, Settled;
    var first := Feed(s.decoder.value, data);
    SettledTail(tail);
    assert tail + [] == tail;
    assert ([Data(data)] + gots)[1..] == gots;
    var n := s.(decoder := Some(first.state));
    AheadNothing(Listen(n, tail, gots));
  }

  lemma AheadNothing(r: Relayed)
    ensures Ahead([], r) == r
  {
  }

  /** However a body that has ended is cut, the hub gets the frames of its data, and the input is left
      without a connection. */
  lemma {:induction false} BodyEnds(s: Session, tail: bytes, pieces: seq<bytes>)
    requires s.socket.Some? && s.pending == [] && s.decoder.Some? && !s.decoder.value.finished
    requires AllNonEmpty(pieces) && Settled(tail)
    requires var body := FeedAll(s.decoder.value, pieces); body.Decoded? && body.state.finished
    ensures var body := FeedAll(s.decoder.value, pieces);
      var p := ParseBuffer(tail + body.out);
      Listen(s, tail, AsData(pieces)) == Relayed(p.frames, body.state, p.rest)
    ensures GivenUp(s, After(s, AsData(pieces)))
    decreases |pieces|
  {
    hide Feed, ParseBuffer, Settled, Listen, After;
    assert pieces != [];
    var first, later := Feed(s.decoder.value, pieces[0]), AsData(pieces[1..]);
    assert AsData(pieces) == [Data(pieces[0])] + later;
    if first.state.finished {
      FinishedStays(first.state, pieces[1..]);
      assert first.out + [] == first.out;
      LastRead(s, tail, pieces[0], later);
    } else {
      EarlierRead(s, tail, pieces[0], later);
      RestIsSettled(tail + first.out);
      BodyEnds(s.(decoder := Some(first.state)), ParseBuffer(tail + first.out).rest, pieces[1..]);
      ParsedOn(tail, first.out, FeedAll(first.state, pieces[1..]).out);
    }
  }

  // ------------------------------------------------------------------
  // The object
  // ------------------------------------------------------------------

  /** The fields are those of a state in the race of connect and disconnect. */
  predicate Agrees(s: Session, race: R.Input) {
    && s.generation == race.generation && s.socket == race.socket && s.connected == race.connected
    && s.pending == race.pending
  }

  /** How opening a connection and requesting the stream goes. */
  datatype Attempt = NoConnection | Refused | Accepted(decoder: ChunkedDecoder?, body: bytes)

  datatype Connected = Yes | No | Failing

  function StepsOf(attempt: Attempt, overtaken: bool): seq<R.Event> {
    var meanwhile := if overtaken then [R.Disconnect] else [];
    match attempt
    case NoConnection => meanwhile + [R.OpenFails, R.RecordFailure]
    case Refused => [R.Open] + (meanwhile + [R.RequestFails, R.RecordFailure])
    case Accepted(_, body) => [R.Open] + (meanwhile + [R.Install(body)])
  }

  lemma OpenedThen(s: R.Input, meanwhile: seq<R.Event>, end: seq<R.Event>)
    ensures R.Run(s, [R.Open] + (meanwhile + end)) == R.Run(R.Run(R.Step(s, R.Open), meanwhile), end)
  {
    hide R.Run, R.Step;
    R.RunAppend(s, [R.Open], meanwhile + end);
    R.RunOne(s, R.Open);
    R.RunAppend(R.Step(s, R.Open), meanwhile, end);
  }

  class NtripInputSource {
    var socket: Option<nat>
    var pending: bytes
    var decoder: ChunkedDecoder?
    var generation: nat
    var connected: bool
    var sockets: nat           // numbers the sockets
    ghost var race: R.Input   // this input among everybody who connects, reads and disconnects

    function View(): Session
      reads this, decoder
    {
      Session(generation, socket, connected, pending, if decoder == null then None else Some(decoder.State()))
    }

    ghost predicate Valid()
      reads this, decoder
    {
      Agrees(View(), race) && sockets == race.sockets && R.Sound(race)
    }

    constructor ()
      ensures Valid() && View() == Session(0, None, false, [], None) && race == R.NEW
    {
      socket, pending, decoder, generation, connected, sockets := None, [], null, 0, false, 0;
      race := R.NEW;
      new;
      R.NewIsSound();
    }

    /** The locked section of a disconnect, on whatever thread. */
    method Detach() returns (taken: Option<nat>)
      modifies this`generation, this`socket, this`pending, this`connected
      ensures View() == Detached(old(View())) && taken == old(socket)
    {
      generation := generation + 1;
      taken := socket;
      socket := None;
      pending := [];
      connected := false;
    }

    /** A disconnect on another thread; the caller closes what it gets. */
    method Disconnect() returns (taken: Option<nat>)
      requires Valid()
      modifies this`generation, this`socket, this`pending, this`connected, this`race
      ensures Valid() && race == R.Step(old(race), R.Disconnect)
      ensures View() == Detached(old(View())) && taken == old(socket)
    {
      hide R.Accounted;
      R.SoundStep(race, R.Disconnect);
      taken := Detach();
      race := R.Step(race, R.Disconnect);
    }

    /** The start of connect: give up an old connection, and read the generation. */
    method BeginConnect() returns (seen: nat)
      requires Valid() && race.connector == R.Idle
      modifies this`generation, this`socket, this`pending, this`connected, this`race
      ensures Valid() && race == R.Run(old(race), [R.Connect, R.CloseOld, R.ReadGeneration])
      ensures seen == generation && race.connector == R.Opening(seen) && !race.disturbed
      ensures View() == Detached(old(View()))
    {
      hide R.Accounted, R.Consistent, R.Run, R.Step;
      ghost var events := [R.Connect, R.CloseOld, R.ReadGeneration];
      R.SoundRun(race, events);
      R.Begins(race);
      var _ := Detach();
      race := R.Run(race, events);
      seen := generation;
    }

    method OpenSocket() returns (sock: nat)
      requires Valid() && race.connector.Opening?
      modifies this`sockets, this`race
      ensures Valid() && race == R.Step(old(race), R.Open) && View() == old(View())
      ensures race.connector == R.Held(old(race).connector.generation, sock) && race.disturbed == old(race).disturbed
    {
      hide R.Accounted, R.Consistent;
      R.SoundStep(race, R.Open);
      sock := sockets;
      sockets := sockets + 1;
      race := R.Step(race, R.Open);
    }

    /** The locked section at the end of connect; where it fails the caller's socket is closed. It
        succeeds exactly when nobody has disconnected since the generation was read. */
    method Install(seen: nat, sock: nat, newDecoder: ChunkedDecoder?, body: bytes) returns (ok: bool)
      requires Valid() && race.connector == R.Held(seen, sock)
      modifies this`socket, this`pending, this`decoder, this`connected, this`race
      ensures Valid() && race == R.Step(old(race), R.Install(body))
      ensures race.connector == R.Idle && (ok <==> !old(race).disturbed)
      ensures decoder == if ok then newDecoder else old(decoder)
      ensures ok ==>
        View() == Session(seen, Some(sock), true, body, if newDecoder == null then None else Some(newDecoder.State()))
      ensures !ok ==> View() == old(View())
    {
      hide R.Accounted;
      R.SoundStep(race, R.Install(body));
      ok := seen == generation;
      race := R.Step(race, R.Install(body));
      if ok {
        socket, decoder, pending := Some(sock), newDecoder, body;
        connected := true;
      }
    }

    /** The connection or the request has failed, and that is recorded. */
    method Fail(ghost end: R.Event)
      requires Valid() && (end == R.OpenFails || end == R.RequestFails)
      requires end == R.OpenFails ==> race.connector.Opening?
      requires end == R.RequestFails ==> race.connector.Held?
      modifies this`connected, this`race
      ensures Valid() && race == R.Run(old(race), [end, R.RecordFailure])
      ensures View() == old(View()).(connected := false) && race.connector == R.Idle
    {
      hide R.Accounted, R.Consistent;
      R.SoundRun(race, [end, R.RecordFailure]);
      R.RunTwo(race, end, R.RecordFailure);
      connected := false;
      race := R.Run(race, [end, R.RecordFailure]);
    }

    /** A whole connect, overtaken or not by a disconnect while it opens its connection. */
    method Connect(attempt: Attempt, overtaken: bool) returns (result: Connected)
      requires Valid() && race.connector == R.Idle
      modifies this
      ensures Valid() && race.connector == R.Idle
      ensures race == R.Run(R.Run(old(race), [R.Connect, R.CloseOld, R.ReadGeneration]), StepsOf(attempt, overtaken))
      ensures result == if !attempt.Accepted? then Failing else if overtaken then No else Yes
      ensures result == Yes <==> connected
      ensures result == Yes ==> socket.Some? && pending == attempt.body && decoder == attempt.decoder
      ensures result != Yes ==> socket == None && pending == [] && decoder == old(decoder)
    {
      hide R.Accounted, R.Consistent, R.Run, R.Step, Detached;
      var seen := BeginConnect();
      ghost var start, meanwhile := race, if overtaken then [R.Disconnect] else [];
      if attempt.NoConnection? {
        Overtake(overtaken);
        Fail(R.OpenFails);
        R.RunAppend(start, meanwhile, [R.OpenFails, R.RecordFailure]);
        return Failing;
      }
      var sock := OpenSocket();
      Overtake(overtaken);
      R.RunOne(start, R.Open);
      if attempt.Refused? {
        Fail(R.RequestFails);
        OpenedThen(start, meanwhile, [R.RequestFails, R.RecordFailure]);
        return Failing;
      }
      R.RunOne(race, R.Install(attempt.body));
      var ok := Install(seen, sock, attempt.decoder, attempt.body);
      OpenedThen(start, meanwhile, [R.Install(attempt.body)]);
      return if ok then Yes else No;
    }

    method Overtake(overtaken: bool)
      requires Valid() && race.connector != R.Idle
      modifies this`generation, this`socket, this`pending, this`connected, this`race
      ensures Valid() && race == R.Run(old(race), if overtaken then [R.Disconnect] else [])
      ensures race.disturbed <==> old(race).disturbed || overtaken
      ensures race.connector == old(race).connector && socket == None && pending == [] && !connected
    {
      if overtaken {
        var _ := Disconnect();
      }
    }

    /** The reading thread finds the stream gone: it disconnects, closes the socket and records why. */
    method LoseConnection()
      requires Valid() && race.connector == R.Idle
      modifies this`generation, this`socket, this`pending, this`connected, this`race
      ensures Valid() && race == R.Run(old(race), [R.Lose, R.CloseLost, R.RecordLoss])
      ensures View() == Detached(old(View())) && race.connector == R.Idle
    {
      hide R.Accounted, R.Consistent, R.Run, R.Step;
      R.SoundRun(race, [R.Lose, R.CloseLost, R.RecordLoss]);
      R.Loses(race);
      var _ := Detach();
      race := R.Run(race, [R.Lose, R.CloseLost, R.RecordLoss]);
    }

    method TakePending() returns (data: bytes)
      requires Valid() && race.connector == R.Idle
      modifies this`pending, this`race
      ensures Valid() && race == R.Step(old(race), R.TakePending)
      ensures data == old(pending) && View() == old(View()).(pending := []) && race.connector == R.Idle
    {
      hide R.Accounted;
      R.SoundStep(race, R.TakePending);
      data, pending := pending, [];
      race := R.Step(race, R.TakePending);
    }

    method ReadData(got: Arrival) returns (outcome: Outcome)
      requires Valid() && race.connector == R.Idle
      modifies this`generation, this`socket, this`pending, this`connected, this`race, decoder
      ensures Valid() && race.connector == R.Idle
      ensures Reading(View(), outcome) == Read(old(View()), got)
      ensures race == R.Run(old(race),
        if old(pending) != [] then [R.TakePending]
        else if Ends(old(View()), got) then [R.Lose, R.CloseLost, R.RecordLoss]
        else [])
      ensures decoder == old(decoder)
    {
      hide Feed, LeftBy, R.Sound, R.Step;
      if pending != [] {
        R.RunOne(race, R.TakePending);
        var waiting := TakePending();
        return Body(waiting);
      }
      if socket.None? {
        return NoData;
      }
      match got
      case Quiet =>
        return NoData;
      case Stale =>
        LoseConnection();
        return DataTimeout;
      case Broken =>
        LoseConnection();
        return NoData;
      case Closed =>
        LoseConnection();
        return NoData;
      case Data(data) =>
        if data == [] {
          LoseConnection();
          return NoData;
        }
        var body := data;
        if decoder != null {
          var ok, out := decoder.FeedData(data);
          if !ok {
            LoseConnection();
            return BadBody;
          }
          body := out;
          if decoder.finished {
            LoseConnection();
          }
        }
        return if body == [] then NoData else Body(body);
    }
  }
}
