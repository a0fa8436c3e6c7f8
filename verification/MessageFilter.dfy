/** Per-destination message filters. */
module MessageFilter {
  import opened Bytes
  import opened FrameExtraction

  datatype FilterMode = PassAll | Allowlist | Blocklist

  datatype FilterConfig = FilterConfig(mode: FilterMode, messageIds: set<int>)

  /** Build a configuration; None where the constructor raises. */
  function Configure(mode: FilterMode, messageIds: set<int>): (c: Option<FilterConfig>)
    ensures c.Some? <==>
      (if mode == PassAll then messageIds == {} else messageIds != {}) && forall id :: id in messageIds ==> 0 <= id <= 4095
    ensures c.Some? ==> c.value == FilterConfig(mode, messageIds)
  {
    if mode == PassAll && messageIds != {} then None
    else if mode != PassAll && messageIds == {} then None
    else if exists id :: id in messageIds && !(0 <= id <= 4095) then None
    else Some(FilterConfig(mode, messageIds))
  }

  predicate RequiresParsing(c: FilterConfig) { c.mode != PassAll }

  lemma ParsingIff(c: FilterConfig)
    ensures RequiresParsing(c) <==> c.mode == Allowlist || c.mode == Blocklist
  {
  }

  predicate ShouldPass(c: FilterConfig, id: nat) {
    match c.mode
    case PassAll => true
    case Allowlist => id in c.messageIds
    case Blocklist => id !in c.messageIds
  }

  /** The frames a filter lets through, in order. */
  function Accepted(c: FilterConfig, frames: seq<ParsedFrame>): seq<bytes> {
    if frames == [] then []
    else (if ShouldPass(c, frames[0].id) then [frames[0].data] else []) + Accepted(c, frames[1..])
  }

  lemma {:induction false} AcceptedAppend(c: FilterConfig, a: seq<ParsedFrame>, b: seq<ParsedFrame>)
    ensures Accepted(c, a + b) == Accepted(c, a) + Accepted(c, b)
  {
    if a == [] {
      assert a + b == b;
    } else {
      assert (a + b)[1..] == a[1..] + b;
      AcceptedAppend(c, a[1..], b);
    }
  }

  lemma {:induction false} AcceptedSize(c: FilterConfig, frames: seq<ParsedFrame>)
    ensures |Accepted(c, frames)| <= |frames|
  {
    if frames != [] { AcceptedSize(c, frames[1..]); }
  }

  function AllData(frames: seq<ParsedFrame>): seq<bytes> {
    if frames == [] then [] else [frames[0].data] + AllData(frames[1..])
  }

  /** An allowlist and a blocklist of the same numbers share the frames out between them. */
  lemma {:induction false} ListsAreComplements(ids: set<int>, frames: seq<ParsedFrame>)
    ensures multiset(Accepted(FilterConfig(Allowlist, ids), frames))
          + multiset(Accepted(FilterConfig(Blocklist, ids), frames)) == multiset(AllData(frames))
  {
    if frames != [] {
      var a, b := FilterConfig(Allowlist, ids), FilterConfig(Blocklist, ids);
      ListsAreComplements(ids, frames[1..]);
      assert AllData(frames) == [frames[0].data] + AllData(frames[1..]);
      if frames[0].id in ids {
        assert Accepted(a, frames) == [frames[0].data] + Accepted(a, frames[1..]);
        assert Accepted(b, frames) == Accepted(b, frames[1..]);
      } else {
        assert Accepted(b, frames) == [frames[0].data] + Accepted(b, frames[1..]);
        assert Accepted(a, frames) == Accepted(a, frames[1..]);
      }
    }
  }

  lemma {:induction false} PassAllPasses(c: FilterConfig, frames: seq<ParsedFrame>)
    requires c.mode == PassAll
    ensures Accepted(c, frames) == AllData(frames)
  {
    if frames != [] { PassAllPasses(c, frames[1..]); }
  }

  /** The places, in order, of the frames whose number is listed (or, without `keep`, is not). */
  predicate PlacesOf(places: seq<nat>, ids: set<int>, keep: bool, frames: seq<ParsedFrame>) {
    && (forall i, j :: 0 <= i < j < |places| ==> places[i] < places[j])
    && (forall j :: 0 <= j < |places| ==> places[j] < |frames|)
    && (forall k :: 0 <= k < |frames| ==> (k in places <==> ((frames[k].id in ids) <==> keep)))
  }

  predicate DataAt(out: seq<bytes>, frames: seq<ParsedFrame>, places: seq<nat>) {
    |out| == |places| && forall j :: 0 <= j < |places| ==> places[j] < |frames| && out[j] == frames[places[j]].data
  }

  /** The data of exactly the frames whose number is listed, or of exactly the others, in order. */
  ghost predicate Selects(out: seq<bytes>, ids: set<int>, keep: bool, frames: seq<ParsedFrame>) {
    exists places :: PlacesOf(places, ids, keep, frames) && DataAt(out, frames, places)
  }

  lemma SelectsNothing(ids: set<int>, keep: bool)
    ensures Selects([], ids, keep, [])
  {
    var none: seq<nat> := [];
    assert PlacesOf(none, ids, keep, []) && DataAt([], [], none);
  }

  lemma OneMorePlace(places: seq<nat>, ids: set<int>, keep: bool, frames: seq<ParsedFrame>, f: ParsedFrame)
    requires PlacesOf(places, ids, keep, frames) && (f.id in ids <==> keep)
    ensures PlacesOf(places + [|frames|], ids, keep, frames + [f])
  {
    var more, whole := places + [|frames|], frames + [f];
    assert more[|places|] == |frames|;
    forall k | 0 <= k < |whole| ensures k in more <==> ((whole[k].id in ids) <==> keep) {
      if k < |frames| {
        assert whole[k] == frames[k];
        assert k in places <==> k in more;
      }
    }
  }

  lemma NoMorePlace(places: seq<nat>, ids: set<int>, keep: bool, frames: seq<ParsedFrame>, f: ParsedFrame)
    requires PlacesOf(places, ids, keep, frames) && !(f.id in ids <==> keep)
    ensures PlacesOf(places, ids, keep, frames + [f])
  {
    var whole := frames + [f];
    forall k | 0 <= k < |whole| ensures k in places <==> ((whole[k].id in ids) <==> keep) {
      if k < |frames| { assert whole[k] == frames[k]; }
    }
  }

  lemma DataAtMore(out: seq<bytes>, frames: seq<ParsedFrame>, places: seq<nat>, f: ParsedFrame)
    requires DataAt(out, frames, places)
    ensures DataAt(out, frames + [f], places) && DataAt(out + [f.data], frames + [f], places + [|frames|])
  {
  }

  lemma SelectsOneMore(out: seq<bytes>, ids: set<int>, keep: bool, frames: seq<ParsedFrame>, f: ParsedFrame)
    requires Selects(out, ids, keep, frames)
    ensures Selects(out + (if f.id in ids <==> keep then [f.data] else []), ids, keep, frames + [f])
  {
    hide PlacesOf, DataAt;
    var places: seq<nat> :| PlacesOf(places, ids, keep, frames) && DataAt(out, frames, places);
    DataAtMore(out, frames, places, f);
    if f.id in ids <==> keep {
      OneMorePlace(places, ids, keep, frames, f);
    } else {
      NoMorePlace(places, ids, keep, frames, f);
      assert out + [] == out;
    }
  }

  /** An allowlist lets exactly the listed numbers through, a blocklist exactly the others. */
  lemma {:induction false} ListsSelect(c: FilterConfig, frames: seq<ParsedFrame>)
    requires c.mode == Allowlist || c.mode == Blocklist
    ensures Selects(Accepted(c, frames), c.messageIds, c.mode == Allowlist, frames)
    decreases |frames|
  {
    hide Selects, Accepted;
    var keep := c.mode == Allowlist;
    if frames == [] {
      SelectsNothing(c.messageIds, keep);
      assert Accepted(c, []) == [] by { NoneAccepted(c); }
    } else {
      var n := |frames| - 1;
      var f := frames[n];
      ListsSelect(c, frames[..n]);
      SelectsOneMore(Accepted(c, frames[..n]), c.messageIds, keep, frames[..n], f);
      assert frames == frames[..n] + [f];
      AcceptedAppend(c, frames[..n], [f]);
      OneAccepted(c, f);
    }
  }

  lemma NoneAccepted(c: FilterConfig)
    ensures Accepted(c, []) == []
  {
  }

  lemma OneAccepted(c: FilterConfig, f: ParsedFrame)
    requires c.mode == Allowlist || c.mode == Blocklist
    ensures Accepted(c, [f]) == if f.id in c.messageIds <==> c.mode == Allowlist then [f.data] else []
  {
    assert [f][1..] == [];
  }

  method FilterFrames(c: FilterConfig, frames: seq<ParsedFrame>) returns (passed: seq<bytes>)
    ensures passed == Accepted(c, frames)
  {
    if c.mode == PassAll {
      PassAllPasses(c, frames);
      return AllData(frames);
    }
    passed := [];
    var filteredCount := 0;
    for i := 0 to |frames|
      invariant passed == Accepted(c, frames[..i])
      invariant filteredCount == i - |passed|
    {
      assert frames[..i + 1] == frames[..i] + [frames[i]];
      AcceptedAppend(c, frames[..i], [frames[i]]);
      assert Accepted(c, [frames[i]]) == if ShouldPass(c, frames[i].id) then [frames[i].data] else [];
      if ShouldPass(c, frames[i].id) {
        passed := passed + [frames[i].data];
      } else {
        filteredCount := filteredCount + 1;
      }
    }
    assert frames[..|frames|] == frames;
  }
}
