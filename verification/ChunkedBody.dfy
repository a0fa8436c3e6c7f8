/** Chunked transfer coding (section 7.1 of RFC 9112): the streaming decoder of the
    NTRIP client and the encoder of the NTRIP server. */
module ChunkedBody {
  import opened Bytes

  const MAX_SIZE_LINE: nat := 256
  const SEMICOLON: byte := 0x3B
  const UNDERSCORE: byte := 0x5F

  // ------------------------------------------------------------------
  // Chunk sizes
  // ------------------------------------------------------------------

  function HexDigit(b: byte): (d: Option<nat>)
    ensures d.Some? ==> d.value < 16
  {
    if 0x30 <= b <= 0x39 then Some((b - 0x30) as int)
    else if 0x61 <= b <= 0x66 then Some((b - 0x57) as int)
    else if 0x41 <= b <= 0x46 then Some((b - 0x37) as int)
    else None
  }

  /** Hexadecimal digits, single underscores allowed between them. */
  function HexValue(s: bytes): Option<nat> {
    if s == [] then None
    else
      var n := |s| - 1;
      var d := HexDigit(s[n]);
      if d.None? then None
      else if n == 0 then d
      else
        var higher := HexValue(if s[n - 1] == UNDERSCORE then s[..n - 1] else s[..n]);
        if higher.None? then None else Some(16 * higher.value + d.value)
  }

  predicate HasPrefix0x(s: bytes) {
    |s| >= 2 && s[0] == 0x30 && (s[1] == 0x78 || s[1] == 0x58)
  }

  /** An underscore may stand behind the prefix, too. */
  function AfterPrefix(s: bytes): bytes {
    if !HasPrefix0x(s) then s
    else if |s| > 2 && s[2] == UNDERSCORE then s[3..]
    else s[2..]
  }

  /** What `int(field, 16)` accepts: a sign, a 0x prefix, digits grouped by underscores. */
  function ParseInt16(field: bytes): Option<int> {
    var signed := field != [] && (field[0] == 0x2B || field[0] == 0x2D);
    var unsigned := if signed then field[1..] else field;
    var value := HexValue(AfterPrefix(unsigned));
    if value.None? then None
    else
      var magnitude: int := value.value;
      Some(if signed && field[0] == 0x2D then -magnitude else magnitude)
  }

  predicate IsSpace(b: byte) {
    b == 0x20 || 0x09 <= b <= 0x0D
  }

  function Strip(s: bytes): bytes {
    if s == [] then s
    else if IsSpace(s[0]) then Strip(s[1..])
    else if IsSpace(s[|s| - 1]) then Strip(s[..|s| - 1])
    else s
  }

  /** The first place of b in s, or |s|. */
  function Find(s: bytes, b: byte): (i: nat)
    ensures i <= |s| && (i < |s| ==> s[i] == b)
    ensures forall k :: 0 <= k < i ==> s[k] != b
  {
    if s == [] || s[0] == b then 0 else 1 + Find(s[1..], b)
  }

  lemma FindIs(s: bytes, b: byte, i: nat)
    requires i <= |s| && (i < |s| ==> s[i] == b)
    requires forall k :: 0 <= k < i ==> s[k] != b
    ensures Find(s, b) == i
  {
  }

  /** The size a chunk-size line announces; extensions after a semicolon are ignored. */
  function SizeOfLine(line: bytes): Option<int> {
    ParseInt16(Strip(line[..Find(line, SEMICOLON)]))
  }

  // ------------------------------------------------------------------
  // The decoder, on values
  // ------------------------------------------------------------------

  datatype DecoderState = DecoderState(buffer: bytes, remaining: nat, expectCrlf: bool, finished: bool)

  const FRESH: DecoderState := DecoderState([], 0, false, false)

  datatype Decoding = Decoded(out: bytes, state: DecoderState) | Raised

  datatype StepResult = Progress(out: bytes, state: DecoderState) | Stop(state: DecoderState) | Fail

  predicate AtSizeLine(st: DecoderState) {
    st.remaining == 0 && !st.expectCrlf && !st.finished
  }

  /** One pass of the decoder's loop. */
  function Step(st: DecoderState): (r: StepResult)
    requires st.buffer != [] && !st.finished
    ensures r.Progress? ==> |r.state.buffer| < |st.buffer| && !r.state.finished
  {
    if st.remaining > 0 then
      var taken := if st.remaining < |st.buffer| then st.buffer[..st.remaining] else st.buffer;
      var left := st.remaining - |taken|;
      Progress(taken, st.(buffer := st.buffer[|taken|..], remaining := left,
                          expectCrlf := left == 0 || st.expectCrlf))
    else if st.expectCrlf then
      if |st.buffer| < 2 && st.buffer != [LF] then Stop(st)
      else if [CR, LF] <= st.buffer then Progress([], st.(buffer := st.buffer[2..], expectCrlf := false))
      else if [LF] <= st.buffer then Progress([], st.(buffer := st.buffer[1..], expectCrlf := false))
      else Fail
    else
      var i := Find(st.buffer, LF);
      if i == |st.buffer| then
        if |st.buffer| > MAX_SIZE_LINE then Fail else Stop(st)
      else
        var size := SizeOfLine(st.buffer[..i]);
        if size.None? || size.value < 0 then Fail
        else if size.value == 0 then Stop(st.(finished := true, buffer := []))
        else Progress([], st.(buffer := st.buffer[i + 1..], remaining := size.value))
  }

  function Prepend(out: bytes, r: Decoding): Decoding {
    if r.Decoded? then Decoded(out + r.out, r.state) else Raised
  }

  function Run(st: DecoderState): Decoding
    decreases |st.buffer|
  {
    if st.buffer == [] || st.finished then Decoded([], st)
    else
      match Step(st)
      case Progress(out, next) => Prepend(out, Run(next))
      case Stop(last) => Decoded([], last)
      case Fail => Raised
  }

  /** The fields where a pass raises: a size line that cannot be read has already left the buffer. */
  function FailsIn(st: DecoderState): DecoderState {
    var i := Find(st.buffer, LF);
    if AtSizeLine(st) && i < |st.buffer| then st.(buffer := st.buffer[i + 1..]) else st
  }

  /** The fields the loop leaves behind, whether or not it raises. */
  function Leaves(st: DecoderState): DecoderState
    decreases |st.buffer|
  {
    if st.buffer == [] || st.finished then st
    else
      match Step(st)
      case Progress(_, next) => Leaves(next)
      case Stop(last) => last
      case Fail => FailsIn(st)
  }

  lemma {:induction false} LeavesWhatItReturns(st: DecoderState)
    ensures Run(st).Decoded? ==> Leaves(st) == Run(st).state
    decreases |st.buffer|
  {
    hide Step;
    if st.buffer != [] && !st.finished && Step(st).Progress? {
      LeavesWhatItReturns(Step(st).state);
    }
  }

  function With(st: DecoderState, data: bytes): DecoderState {
    st.(buffer := st.buffer + data)
  }

  function Feed(st: DecoderState, data: bytes): Decoding {
    if st.finished then Decoded([], st) else Run(With(st, data))
  }

  function LeftBy(st: DecoderState, data: bytes): DecoderState {
    if st.finished then st else Leaves(With(st, data))
  }

  /** Feed a stream piece by piece; an error ends it. */
  function FeedAll(st: DecoderState, pieces: seq<bytes>): Decoding
    decreases |pieces|
  {
    if pieces == [] then Decoded([], st)
    else
      var first := Feed(st, pieces[0]);
      if first.Raised? then Raised else Prepend(first.out, FeedAll(first.state, pieces[1..]))
  }

  // ------------------------------------------------------------------
  // The decoder, as the client runs it
  // ------------------------------------------------------------------

  class ChunkedDecoder {
    var buffer: bytes
    var remaining: nat       // data bytes left in the current chunk
    var expectCrlf: bool     // the line end after a chunk's data is due
    var finished: bool       // the last chunk has been seen

    function State(): DecoderState
      reads this
    {
      DecoderState(buffer, remaining, expectCrlf, finished)
    }

    constructor ()
      ensures State() == FRESH
    {
      buffer, remaining, expectCrlf, finished := [], 0, false, false;
    }

    /** Decode the next bytes; `ok` is false where the decoder raises. */
    method FeedData(data: bytes) returns (ok: bool, out: bytes)
      modifies this
      ensures ok <==> Feed(old(State()), data).Decoded?
      ensures ok ==> Decoded(out, State()) == Feed(old(State()), data)
      ensures State() == LeftBy(old(State()), data)
    {
      hide SizeOfLine, Run, Prepend, Leaves;
      out := [];
      if finished {
        return true, [];
      }
      buffer := buffer + data;
      ghost var start := State();
      PrependNothing(Run(start));
      while buffer != []
        invariant !finished
        invariant Run(start) == Prepend(out, Run(State())) && Leaves(start) == Leaves(State())
        decreases |buffer|
      {
        ghost var here := State();
        ghost var sofar := out;
        RunUnfolds(here, sofar);
        LeavesUnfolds(here);
        if remaining > 0 {
          var taken := if remaining < |buffer| then buffer[..remaining] else buffer;
          out := out + taken;
          buffer := buffer[|taken|..];
          remaining := remaining - |taken|;
          if remaining == 0 {
            expectCrlf := true;
          }
        } else if expectCrlf {
          if |buffer| < 2 && buffer != [LF] {
            return true, out;
          }
          if [CR, LF] <= buffer {
            buffer := buffer[2..];
          } else if [LF] <= buffer {
            buffer := buffer[1..];
          } else {
            return false, [];
          }
          expectCrlf := false;
        } else {
          var i := Find(buffer, LF);
          if i == |buffer| {
            if |buffer| > MAX_SIZE_LINE {
              return false, [];
            }
            return true, out;
          }
          var size := SizeOfLine(buffer[..i]);
          buffer := buffer[i + 1..];
          if size.None? || size.value < 0 {
            return false, [];
          }
          if size.value == 0 {
            finished := true;
            buffer := [];
            return true, out;
          }
          remaining := size.value;
        }
      }
      RunOfNothing(State(), out);
      LeavesNothing(State());
      return true, out;
    }
  }

  lemma PrependNothing(r: Decoding)
    ensures Prepend([], r) == r
  {
  }

  lemma PrependTwice(a: bytes, b: bytes, r: Decoding)
    ensures Prepend(a, Prepend(b, r)) == Prepend(a + b, r)
  {
  }

  lemma LeavesNothing(st: DecoderState)
    requires st.buffer == []
    ensures Leaves(st) == st
  {
  }

  lemma LeavesUnfolds(st: DecoderState)
    requires st.buffer != [] && !st.finished
    ensures Leaves(st) ==
      match Step(st)
      case Progress(_, next) => Leaves(next)
      case Stop(last) => last
      case Fail => FailsIn(st)
  {
  }

  lemma RunOfNothing(st: DecoderState, out: bytes)
    requires st.buffer == []
    ensures Prepend(out, Run(st)) == Decoded(out, st)
  {
  }

  /** What one pass of the loop contributes, after `out` has been produced. */
  lemma RunUnfolds(st: DecoderState, out: bytes)
    requires st.buffer != [] && !st.finished
    ensures match Step(st)
      case Progress(more, next) =>
        Prepend(out, Run(st)) == Prepend(out + more, Run(next)) && (more == [] ==> out + more == out)
      case Stop(last) => Prepend(out, Run(st)) == Decoded(out, last)
      case Fail => Prepend(out, Run(st)) == Raised
  {
    hide Step;
    match Step(st)
    case Progress(more, next) => PrependTwice(out, more, Run(next));
    case Stop(last) => assert out + [] == out;
    case Fail =>
  }
}
