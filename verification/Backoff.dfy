/** Exponential backoff with a cap. Delays are real numbers; rounding is not modelled. */
module Backoff {

  /** A policy that passed validation. */
  datatype Policy = Policy(initial: real, maximum: real, multiplier: real) {
    predicate Valid() {
      0.0 < initial <= maximum && multiplier > 1.0
    }
  }

  function Min(a: real, b: real): real { if a <= b then a else b }

  /** The initial delay multiplied k times. */
  function Uncapped(p: Policy, k: nat): real {
    if k == 0 then p.initial else Uncapped(p, k - 1) * p.multiplier
  }

  /** The wait after failure number k, counting from 0. */
  function Wait(p: Policy, k: nat): real {
    Min(Uncapped(p, k), p.maximum)
  }

  lemma ProductGrows(a: real, m: real)
    requires a > 0.0 && m > 1.0
    ensures a * m >= a
  {
  }

  lemma {:induction false} UncappedIsPositive(p: Policy, k: nat)
    requires p.Valid()
    ensures Uncapped(p, k) > 0.0
  {
    if k > 0 {
      UncappedIsPositive(p, k - 1);
      ProductGrows(Uncapped(p, k - 1), p.multiplier);
    }
  }

  /** The first wait is the initial delay... */
  lemma FirstWait(p: Policy)
    requires p.Valid()
    ensures Wait(p, 0) == p.initial
  {
  }

  lemma CapTwice(raw: real, m: real, cap: real)
    requires raw > 0.0 && m > 1.0 && cap > 0.0
    ensures Min(Min(raw, cap) * m, cap) == Min(raw * m, cap)
  {
    if raw <= cap {
      assert Min(raw, cap) == raw;
    } else {
      assert Min(raw, cap) == cap;
      ProductGrows(cap, m);
      ProductGrows(raw, m);
    }
  }

  /** ...and each next one the last one multiplied and capped. */
  lemma NextWait(p: Policy, k: nat)
    requires p.Valid()
    ensures Min(Wait(p, k) * p.multiplier, p.maximum) == Wait(p, k + 1)
  {
    var raw, next := Uncapped(p, k), Uncapped(p, k + 1);
    assert next == raw * p.multiplier;
    UncappedIsPositive(p, k);
    CapTwice(raw, p.multiplier, p.maximum);
    assert Wait(p, k) == Min(raw, p.maximum) && Wait(p, k + 1) == Min(next, p.maximum);
  }

  lemma {:induction false} WaitsGrow(p: Policy, j: nat, k: nat)
    requires p.Valid() && j <= k
    ensures 0.0 < Wait(p, j) <= Wait(p, k) <= p.maximum
    decreases k - j
  {
    UncappedIsPositive(p, j);
    if j < k {
      ProductGrows(Uncapped(p, j), p.multiplier);
      assert Uncapped(p, j) <= Uncapped(p, j + 1);
      WaitsGrow(p, j + 1, k);
    }
  }
}
