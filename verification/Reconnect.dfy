/** The hub's reconnect loop for its input. What each attempt meets is a script. */
module Reconnect {
  import opened Backoff

  datatype Reason = Connect | Caster | Auth | Mountpoint | DataTimeout

  datatype Outcome = Connected | Refused | Raised(reason: Reason)

  /** One attempt: how it ends, whether the input calls its last failure persistent, and whether
      the hub is told to stop during the wait that follows. */
  datatype Try = Try(outcome: Outcome, persistent: bool, stopped: bool)

  predicate Continues(t: Try) {
    t.outcome != Connected && !t.stopped
  }

  /** Some failure up to number k was persistent. */
  predicate PersistentBy(tries: seq<Try>, k: nat)
    requires k < |tries|
  {
    exists j :: 0 <= j <= k && tries[j].persistent
  }

  function WaitAt(p: Policy, tries: seq<Try>, k: nat): real
    requires k < |tries|
  {
    if PersistentBy(tries, k) then p.maximum else Wait(p, k)
  }

  /** What the stored delay is before attempt number i. */
  function DelayBefore(p: Policy, tries: seq<Try>, i: nat): real
    requires i <= |tries|
  {
    if i > 0 && PersistentBy(tries, i - 1) then p.maximum else Wait(p, i)
  }

  lemma FirstDelay(p: Policy, tries: seq<Try>)
    requires p.Valid()
    ensures DelayBefore(p, tries, 0) == p.initial
  {
  }

  lemma DelayNow(p: Policy, tries: seq<Try>, i: nat)
    requires i < |tries|
    ensures WaitAt(p, tries, i) == if tries[i].persistent then p.maximum else DelayBefore(p, tries, i)
  {
    hide Wait;
    if i > 0 && PersistentBy(tries, i) && !tries[i].persistent {
      var j :| 0 <= j <= i && tries[j].persistent;
      assert 0 <= j <= i - 1;
    }
  }

  lemma DelayNext(p: Policy, tries: seq<Try>, i: nat)
    requires p.Valid() && i < |tries|
    ensures Min(WaitAt(p, tries, i) * p.multiplier, p.maximum) == DelayBefore(p, tries, i + 1)
  {
    hide Wait, PersistentBy;
    NextWait(p, i);
    ProductGrows(p.maximum, p.multiplier);
  }

  /** Waits never get shorter. */
  lemma WaitsNeverShrink(p: Policy, tries: seq<Try>, j: nat, k: nat)
    requires p.Valid() && j <= k < |tries|
    ensures 0.0 < WaitAt(p, tries, j) <= WaitAt(p, tries, k) <= p.maximum
  {
    WaitsGrow(p, j, k);
  }

  function ReasonOf(o: Outcome): Reason {
    if o.Raised? then o.reason else Connect
  }

  function Times(failures: map<Reason, nat>, r: Reason): nat {
    if r in failures then failures[r] else 0
  }

  function Recorded(failures: map<Reason, nat>): nat {
    Times(failures, Connect) + Times(failures, Caster) + Times(failures, Auth) + Times(failures, Mountpoint)
    + Times(failures, DataTimeout)
  }

  function Counted(failures: map<Reason, nat>, r: Reason): map<Reason, nat> {
    failures[r := Times(failures, r) + 1]
  }

  lemma CountedOnce(failures: map<Reason, nat>, r: Reason)
    ensures Recorded(Counted(failures, r)) == Recorded(failures) + 1
  {
  }

  /** The failures of the first n attempts, by reason. */
  function CountedAll(failures: map<Reason, nat>, tries: seq<Try>): map<Reason, nat>
    decreases |tries|
  {
    if tries == [] then failures
    else
      var before := CountedAll(failures, tries[..|tries| - 1]);
      var last := tries[|tries| - 1];
      if last.outcome == Connected then before else Counted(before, ReasonOf(last.outcome))
  }

  /** How many of the attempts failed for a reason: a typed failure for its own, any other for Connect. */
  function FailedFor(tries: seq<Try>, r: Reason): nat {
    if tries == [] then 0
    else
      var last := tries[|tries| - 1].outcome;
      var here := (last == Refused && r == Connect) || last == Raised(r);
      FailedFor(tries[..|tries| - 1], r) + if here then 1 else 0
  }

  /** Each reason's counter grows by exactly the failures for that reason. */
  lemma {:induction false} CountedByReason(failures: map<Reason, nat>, tries: seq<Try>, r: Reason)
    ensures Times(CountedAll(failures, tries), r) == Times(failures, r) + FailedFor(tries, r)
    decreases |tries|
  {
    if tries != [] {
      CountedByReason(failures, tries[..|tries| - 1], r);
    }
  }

  lemma AllCounted(failures: map<Reason, nat>, tries: seq<Try>)
    ensures forall r :: Times(CountedAll(failures, tries), r) == Times(failures, r) + FailedFor(tries, r)
  {
    hide Times, FailedFor, CountedAll;
    forall r ensures Times(CountedAll(failures, tries), r) == Times(failures, r) + FailedFor(tries, r) {
      CountedByReason(failures, tries, r);
    }
  }

  lemma WaitsMean(p: Policy, tries: seq<Try>, waits: seq<real>)
    requires |waits| <= |tries| && forall k :: 0 <= k < |waits| ==> waits[k] == WaitAt(p, tries, k)
    ensures forall k :: 0 <= k < |waits| ==>
      waits[k] == (if exists j :: 0 <= j <= k && tries[j].persistent then p.maximum else Wait(p, k))
  {
    hide Wait;
  }

  class Reconnector {
    const policy: Policy
    var attempts: nat
    var successes: nat
    var failures: map<Reason, nat>

    constructor (policy: Policy)
      ensures this.policy == policy && attempts == 0 && successes == 0 && failures == map[]
    {
      this.policy, attempts, successes, failures := policy, 0, 0, map[];
    }

    method RecordInputFailure(outcome: Outcome)
      modifies this`failures
      ensures failures == Counted(old(failures), ReasonOf(outcome))
      ensures Recorded(failures) == Recorded(old(failures)) + 1
    {
      var reason := if outcome.Raised? then outcome.reason else Connect;
      CountedOnce(failures, reason);
      failures := failures[reason := (if reason in failures then failures[reason] else 0) + 1];
    }

    /** Attempts until one connects or the hub stops (at the latest where the script ends). Wait k is
        the capped exponential until the first persistent failure, and the maximum from then on;
        attempts less successes grow by exactly the failures recorded. */
    method ReconnectInput(tries: seq<Try>) returns (waits: seq<real>, connected: bool, ghost used: nat)
      requires policy.Valid()
      modifies this
      ensures used <= |tries|
      ensures forall j :: 0 <= j < used - 1 ==> tries[j].outcome != Connected && !tries[j].stopped
      ensures used < |tries| ==> used > 0 && (tries[used - 1].outcome == Connected || tries[used - 1].stopped)
      ensures connected <==> used > 0 && tries[used - 1].outcome == Connected
      ensures |waits| == if connected then used - 1 else used
      ensures forall k :: 0 <= k < |waits| ==>
        waits[k] == (if exists j :: 0 <= j <= k && tries[j].persistent then policy.maximum else Wait(policy, k))
      ensures attempts == old(attempts) + used
      ensures successes == old(successes) + if connected then 1 else 0
      ensures failures == CountedAll(old(failures), tries[..used])
      ensures forall r :: Times(failures, r) == Times(old(failures), r) + FailedFor(tries[..used], r)
      ensures attempts - successes - Recorded(failures) == old(attempts - successes - Recorded(failures))
    {
      hide WaitAt, DelayBefore, Recorded, FailedFor;
      var delay := policy.initial;
      FirstDelay(policy, tries);
      waits, connected, used := [], false, 0;
      var i := 0;
      while i < |tries|
        invariant used == i == |waits| <= |tries| && !connected
        invariant forall j :: 0 <= j < i ==> Continues(tries[j])
        invariant delay == DelayBefore(policy, tries, i)
        invariant forall k :: 0 <= k < |waits| ==> waits[k] == WaitAt(policy, tries, k)
        invariant attempts == old(attempts) + i && successes == old(successes)
        invariant failures == CountedAll(old(failures), tries[..i])
        invariant Recorded(failures) == Recorded(old(failures)) + i
      {
        var t := tries[i];
        assert tries[..i + 1][..i] == tries[..i];
        used := i + 1;
        attempts := attempts + 1;
        if t.outcome == Connected {
          successes := successes + 1;
          connected := true;
          AllCounted(old(failures), tries[..used]);
          WaitsMean(policy, tries, waits);
          return;
        }
        RecordInputFailure(t.outcome);
        if t.persistent {
          delay := policy.maximum;
        }
        DelayNow(policy, tries, i);
        waits := waits + [delay];
        if t.stopped {
          AllCounted(old(failures), tries[..used]);
          WaitsMean(policy, tries, waits);
          return;
        }
        DelayNext(policy, tries, i);
        delay := Min(delay * policy.multiplier, policy.maximum);
        i := i + 1;
      }
      assert tries[..|tries|] == tries;
      AllCounted(old(failures), tries);
      WaitsMean(policy, tries, waits);
    }
  }
}
