/** When the decoder's result does not depend on how the body was cut into reads. */
module ChunkedCuts {
  import opened Bytes
  import opened ChunkedBody

  /** A decoder between two calls: it has nothing left to do with what it holds. */
  predicate Resting(st: DecoderState) {
    Run(st) == Decoded([], st)
  }

  /** Every size line read on the way is within the limit. */
  predicate LinesFit(st: DecoderState)
    decreases |st.buffer|
  {
    st.buffer == [] || st.finished
    || ((AtSizeLine(st) ==> Find(st.buffer, LF) <= 256)
        && (Step(st).Progress? ==> LinesFit(Step(st).state)))
  }

  /** A chunked body whose size lines are all within the limit. */
  predicate BodyFits(body: bytes) {
    LinesFit(With(FRESH, body))
  }

  // ------------------------------------------------------------------
  // More data behind the same step
  // ------------------------------------------------------------------

  lemma FindAppend(s: bytes, t: bytes, b: byte)
    ensures Find(s, b) < |s| ==> Find(s + t, b) == Find(s, b)
    ensures Find(s, b) == |s| ==> Find(s + t, b) >= |s|
  {
    assert forall k :: 0 <= k < |s| ==> (s + t)[k] == s[k];
    if Find(s, b) < |s| {
      FindIs(s + t, b, Find(s, b));
    }
  }

  /** The step takes all the data there is and wants more: the one step that more data changes. */
  predicate TakesAll(st: DecoderState) {
    st.remaining > |st.buffer|
  }

  lemma Behind(b: bytes, more: bytes, k: nat)
    requires k <= |b|
    ensures (b + more)[..k] == b[..k] && (b + more)[k..] == b[k..] + more
  {
  }

  lemma DataStepWithMore(st: DecoderState, more: bytes)
    requires st.buffer != [] && !st.finished && 0 < st.remaining <= |st.buffer|
    ensures Step(st).Progress? && Step(With(st, more)) == Progress(Step(st).out, With(Step(st).state, more))
  {
  }

  lemma LineEndStepWithMore(st: DecoderState, more: bytes)
    requires st.buffer != [] && !st.finished && st.remaining == 0 && st.expectCrlf
    ensures match Step(st)
      case Progress(out, next) => Step(With(st, more)) == Progress(out, With(next, more))
      case Stop(last) => !last.finished
      case Fail => Step(With(st, more)) == Fail
  {
    var b, c := st.buffer, st.buffer + more;
    assert c[0] == b[0] && b[..1] == [b[0]] && c[..1] == [c[0]];
    if |b| >= 2 {
      assert c[1] == b[1] && b[..2] == [b[0], b[1]] && c[..2] == [c[0], c[1]];
      Behind(b, more, 2);
    }
    Behind(b, more, 1);
  }

  lemma SizeStepWithMore(st: DecoderState, more: bytes)
    requires st.buffer != [] && AtSizeLine(st)
    ensures match Step(st)
      case Progress(out, next) => Step(With(st, more)) == Progress(out, With(next, more))
      case Stop(last) => last.finished ==> Step(With(st, more)) == Stop(last)
      case Fail => Step(With(st, more)) == Fail || Find(st.buffer, LF) > MAX_SIZE_LINE
    ensures Find(st.buffer, LF) < |st.buffer| ==> Find(With(st, more).buffer, LF) == Find(st.buffer, LF)
  {
    hide SizeOfLine, Find;
    var i := Find(st.buffer, LF);
    FindAppend(st.buffer, more, LF);
    if i < |st.buffer| {
      Behind(st.buffer, more, i);
      Behind(st.buffer, more, i + 1);
    }
  }

  lemma StepWithMore(st: DecoderState, more: bytes)
    requires st.buffer != [] && !st.finished && !TakesAll(st)
    ensures match Step(st)
      case Progress(out, next) => Step(With(st, more)) == Progress(out, With(next, more))
      case Stop(last) => last.finished ==> Step(With(st, more)) == Stop(last)
      case Fail => Step(With(st, more)) == Fail || (AtSizeLine(st) && Find(st.buffer, LF) > MAX_SIZE_LINE)
    ensures AtSizeLine(st) && Find(st.buffer, LF) < |st.buffer| ==>
      Find(With(st, more).buffer, LF) == Find(st.buffer, LF)
  {
    hide Step, Find;
    if st.remaining > 0 {
      DataStepWithMore(st, more);
    } else if st.expectCrlf {
      LineEndStepWithMore(st, more);
    } else {
      SizeStepWithMore(st, more);
    }
  }

  lemma DataStepsMeet(st: DecoderState, more: bytes)
    requires st.buffer != [] && !st.finished && TakesAll(st) && more != []
    ensures var x, y := With(st, more), With(st.(buffer := [], remaining := st.remaining - |st.buffer|), more);
      && y.buffer == more
      && Step(x).Progress? && Step(y).Progress?
      && Step(x).state == Step(y).state && Step(x).out == st.buffer + Step(y).out
  {
  }

  /** Where the step takes all there is, running on is running the state it leaves. */
  lemma RunWithMoreData(st: DecoderState, more: bytes)
    requires st.buffer != [] && !st.finished && TakesAll(st)
    ensures Step(st) == Progress(st.buffer, st.(buffer := [], remaining := st.remaining - |st.buffer|))
    ensures Run(With(st, more)) == Prepend(st.buffer, Run(With(Step(st).state, more)))
    ensures LinesFit(With(st, more)) == LinesFit(With(Step(st).state, more))
  {
    var b := st.buffer;
    var n := st.remaining - |b|;
    var next := Step(st).state;
    assert Step(st).out == b && next == st.(buffer := [], remaining := n);
    var x, y := With(st, more), With(next, more);
    assert y.buffer == more;
    if more == [] {
      assert x == st;
      assert Run(y) == Decoded([], y);
    } else {
      DataStepsMeet(st, more);
      hide Step;
      PrependTwice(b, Step(y).out, Run(Step(y).state));
    }
  }

  // ------------------------------------------------------------------
  // Cutting in two
  // ------------------------------------------------------------------

  lemma WithNothing(st: DecoderState)
    ensures With(st, []) == st
  {
  }

  /** If the first part does not raise, carrying on with the second is decoding the whole. */
  lemma {:induction false} RunSplit(st: DecoderState, more: bytes)
    requires !st.finished && Run(st).Decoded?
    ensures Run(With(st, more)) == Prepend(Run(st).out, Feed(Run(st).state, more))
    decreases |st.buffer|
  {
    hide Step;
    if st.buffer == [] {
      PrependNothing(Feed(st, more));
    } else if TakesAll(st) {
      RunWithMoreData(st, more);
      RunSplit(Step(st).state, more);
      PrependTwice(Step(st).out, Run(Step(st).state).out, Feed(Run(st).state, more));
    } else {
      StepWithMore(st, more);
      match Step(st)
      case Progress(out, next) =>
        RunSplit(next, more);
        PrependTwice(out, Run(next).out, Feed(Run(st).state, more));
      case Stop(last) =>
        StopKeepsBuffer(st);
        PrependNothing(Feed(last, more));
      case Fail =>
    }
  }

  lemma StopKeepsBuffer(st: DecoderState)
    requires st.buffer != [] && !st.finished && Step(st).Stop?
    ensures Step(st).state == st || Step(st).state.finished
    ensures |Step(st).state.buffer| <= MAX_SIZE_LINE
  {
  }

  /** Between calls a decoder rests, and holds at most one partial line end or size line. */
  lemma {:induction false} RunRests(st: DecoderState)
    requires Run(st).Decoded?
    ensures Resting(Run(st).state)
    ensures !st.finished ==> |Run(st).state.buffer| <= MAX_SIZE_LINE
    decreases |st.buffer|
  {
    hide Step;
    if st.buffer != [] && !st.finished {
      match Step(st)
      case Progress(out, next) => RunRests(next);
      case Stop(last) => StopKeepsBuffer(st);
      case Fail =>
    }
  }

  /** If all size lines of the whole fit, no part of it raises, and the rest still fits. */
  lemma {:induction false} FitSplit(st: DecoderState, more: bytes)
    requires !st.finished && Run(With(st, more)).Decoded? && LinesFit(With(st, more))
    ensures Run(st).Decoded?
    ensures Run(st).state.finished || LinesFit(With(Run(st).state, more))
    decreases |st.buffer|
  {
    hide Step;
    if st.buffer != [] {
      if TakesAll(st) {
        RunWithMoreData(st, more);
        FitSplit(Step(st).state, more);
      } else {
        StepWithMore(st, more);
        match Step(st)
        case Progress(out, next) => FitSplit(next, more);
        case Stop(last) => StopKeepsBuffer(st);
        case Fail => PendingLineTooLong(st, more);
      }
    }
  }

  lemma PendingLineTooLong(st: DecoderState, more: bytes)
    requires AtSizeLine(st) && Find(st.buffer, LF) > MAX_SIZE_LINE
    ensures Find(With(st, more).buffer, LF) > MAX_SIZE_LINE
  {
  }

  // ------------------------------------------------------------------
  // Every cutting
  // ------------------------------------------------------------------

  lemma {:induction false} CutsAgree(st: DecoderState, pieces: seq<bytes>)
    requires Resting(st)
    requires st.finished || Run(With(st, Concat(pieces))).Raised? || LinesFit(With(st, Concat(pieces)))
    ensures FeedAll(st, pieces) == Feed(st, Concat(pieces))
    decreases |pieces|
  {
    hide Run, LinesFit;
    if pieces == [] {
      WithNothing(st);
    } else if st.finished {
      CutsAgree(st, pieces[1..]);
    } else {
      var first, later := pieces[0], Concat(pieces[1..]);
      var here := With(st, first);
      assert With(st, Concat(pieces)) == With(here, later) by {
        assert st.buffer + (first + later) == (st.buffer + first) + later;
      }
      if Run(With(here, later)).Decoded? {
        FitSplit(here, later);
      }
      if Run(here).Decoded? {
        RunSplit(here, later);
        RunRests(here);
        CutsAgree(Run(here).state, pieces[1..]);
      } else {
        RaisedStaysRaised(here, later);
      }
    }
  }

  lemma RaisedStaysRaised(st: DecoderState, more: bytes)
    requires !st.finished && Run(st).Raised?
    requires Run(With(st, more)).Raised? || LinesFit(With(st, more))
    ensures Run(With(st, more)).Raised?
  {
    if Run(With(st, more)).Decoded? {
      FitSplit(st, more);
    }
  }

  ghost predicate StepsAlike(st: DecoderState, k: nat, j: nat)
    requires st.buffer != [] && !st.finished && Step(st).Progress?
    requires |st.buffer| == k + |Step(st).state.buffer| && 0 < k && j <= |Step(st).state.buffer|
  {
    var next := Step(st).state;
    Step(st.(buffer := st.buffer[..k + j])) == Progress(Step(st).out, next.(buffer := next.buffer[..j]))
  }

  lemma CutBehindData(st: DecoderState, k: nat, j: nat)
    requires st.buffer != [] && !st.finished && 0 < st.remaining < |st.buffer|
    requires k == st.remaining && j <= |st.buffer| - k
    ensures StepsAlike(st, k, j)
  {
  }

  lemma CutBehindLineEnd(st: DecoderState, k: nat, j: nat)
    requires st.buffer != [] && !st.finished && st.remaining == 0 && st.expectCrlf && Step(st).Progress?
    requires |st.buffer| == k + |Step(st).state.buffer| && j <= |Step(st).state.buffer|
    ensures 0 < k && StepsAlike(st, k, j)
  {
    var b, c := st.buffer, st.buffer[..k + j];
    if [CR, LF] <= b {
      assert Step(st).state.buffer == b[2..];
    } else {
      assert Step(st).state.buffer == b[1..];
    }
    assert k == if [CR, LF] <= b then 2 else 1;
    assert c[0] == b[0] && (k == 2 ==> c[1] == b[1]);
    assert c[k..] == b[k..][..j];
  }

  lemma CutBehindSize(st: DecoderState, k: nat, j: nat)
    requires st.buffer != [] && AtSizeLine(st) && Step(st).Progress?
    requires |st.buffer| == k + |Step(st).state.buffer| && j <= |Step(st).state.buffer|
    ensures 0 < k && StepsAlike(st, k, j)
  {
    hide SizeOfLine, Find;
    var b, c := st.buffer, st.buffer[..k + j];
    var i := Find(b, LF);
    FindIs(c, LF, i);
    assert c[..i] == b[..i] && c[i + 1..] == b[i + 1..][..j];
  }

  lemma CutBehindStep(st: DecoderState, k: nat, j: nat)
    requires st.buffer != [] && !st.finished && Step(st).Progress? && Step(st).state.buffer != []
    requires |st.buffer| == k + |Step(st).state.buffer| && j <= |Step(st).state.buffer|
    ensures k > 0 && StepsAlike(st, k, j)
  {
    hide SizeOfLine, Find, StepsAlike;
    if st.remaining > 0 {
      CutBehindData(st, k, j);
    } else if st.expectCrlf {
      CutBehindLineEnd(st, k, j);
    } else {
      CutBehindSize(st, k, j);
    }
  }

  lemma LongLineRaises(st: DecoderState)
    requires AtSizeLine(st) && Find(st.buffer, LF) > MAX_SIZE_LINE
    ensures Run(st.(buffer := st.buffer[..Find(st.buffer, LF)])).Raised?
  {
  }

  /** Where a size line is too long, there is a place to cut that makes the decoder raise. */
  lemma {:induction false} LongLineCut(st: DecoderState) returns (i: nat)
    requires !st.finished && Run(st).Decoded? && !LinesFit(st)
    ensures i <= |st.buffer| && Run(st.(buffer := st.buffer[..i])).Raised?
    decreases |st.buffer|
  {
    hide Step, Find;
    if AtSizeLine(st) && Find(st.buffer, LF) > MAX_SIZE_LINE {
      LongLineRaises(st);
      i := Find(st.buffer, LF);
    } else {
      var next := Step(st).state;
      var j := LongLineCut(next);
      var k := |st.buffer| - |next.buffer|;
      CutBehindStep(st, k, j);
      i := k + j;
    }
  }

  lemma FreshRests()
    ensures Resting(FRESH)
  {
  }

  /** The decoder's result is the same for every cutting of a body exactly when the body is
      malformed or all its size lines are within 256 bytes. */
  lemma CutsIrrelevantIff(body: bytes)
    ensures (forall pieces :: Concat(pieces) == body ==> FeedAll(FRESH, pieces) == Feed(FRESH, body))
       <==> (Feed(FRESH, body).Raised? || BodyFits(body))
  {
    hide Run, LinesFit;
    FreshRests();
    if Feed(FRESH, body).Raised? || BodyFits(body) {
      forall pieces | Concat(pieces) == body
        ensures FeedAll(FRESH, pieces) == Feed(FRESH, body)
      {
        CutsAgree(FRESH, pieces);
      }
    } else {
      var i := LongLineCut(With(FRESH, body));
      assert With(FRESH, body).buffer == body;
      var pieces := [body[..i], body[i..]];
      assert pieces[1..] == [body[i..]] && pieces[1..][1..] == [];
      assert Concat(pieces[1..]) == body[i..] + Concat([]);
      assert Concat(pieces) == body;
      assert With(FRESH, body[..i]) == With(FRESH, body).(buffer := body[..i]);
      assert FeedAll(FRESH, pieces) == Raised;
    }
  }
}
