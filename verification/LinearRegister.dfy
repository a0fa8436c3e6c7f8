/** Shift registers whose step respects addition, over any state that can be added.
    Keeping the state abstract keeps the arithmetic of a concrete register out of the inductions. */
module LinearRegister {

  predicate Flip(a: bool, b: bool) { a != b }

  /** The places where two bit strings differ. */
  function Difference(a: seq<bool>, b: seq<bool>): (d: seq<bool>)
    requires |a| == |b|
    ensures |d| == |a|
    ensures forall i :: 0 <= i < |a| ==> d[i] == (a[i] != b[i])
  {
    seq(|a|, i requires 0 <= i < |a| => Flip(a[i], b[i]))
  }

  function Zeros(n: nat): (z: seq<bool>)
    ensures |z| == n && forall i :: 0 <= i < n ==> !z[i]
  {
    seq(n, _ => false)
  }

  /** Feed bits into the register, first bit first. */
  function Feed<T>(step: (T, bool) -> T, state: T, bits: seq<bool>): T
    decreases |bits|
  {
    if bits == [] then state else Feed(step, step(state, bits[0]), bits[1..])
  }

  function Iterate<T>(f: T -> T, state: T, n: nat): T
    decreases n
  {
    if n == 0 then state else Iterate(f, f(state), n - 1)
  }

  lemma Iterate8<T>(f: T -> T, x: T)
    ensures Iterate(f, x, 8) == f(f(f(f(f(f(f(f(x))))))))
  {
  }

  /** What a register shows at its output over n steps. */
  function Outputs<T>(shows: T -> bool, f: T -> T, state: T, n: nat): seq<bool>
    decreases n
  {
    if n == 0 then [] else [shows(state)] + Outputs(shows, f, f(state), n - 1)
  }

  lemma Outputs8<T>(shows: T -> bool, f: T -> T, x: T)
    ensures Outputs(shows, f, x, 8) == [
      shows(x), shows(f(x)), shows(f(f(x))), shows(f(f(f(x)))), shows(f(f(f(f(x))))),
      shows(f(f(f(f(f(x)))))), shows(f(f(f(f(f(f(x))))))), shows(f(f(f(f(f(f(f(x)))))))) ]
  {
  }

  ghost predicate Additive<T(!new)>(step: (T, bool) -> T, add: (T, T) -> T) {
    forall x, y, p, q {:trigger step(add(x, y), Flip(p, q))} ::
      step(add(x, y), Flip(p, q)) == add(step(x, p), step(y, q))
  }

  ghost predicate AdditiveMap<T(!new)>(f: T -> T, add: (T, T) -> T) {
    forall x, y {:trigger f(add(x, y))} :: f(add(x, y)) == add(f(x), f(y))
  }

  lemma {:induction false} IterateAdditive<T(!new)>(f: T -> T, add: (T, T) -> T, x: T, y: T, n: nat)
    requires AdditiveMap(f, add)
    ensures Iterate(f, add(x, y), n) == add(Iterate(f, x, n), Iterate(f, y, n))
    decreases n
  {
    if n > 0 {
      IterateAdditive(f, add, f(x), f(y), n - 1);
    }
  }

  lemma {:induction false} FeedConcat<T>(step: (T, bool) -> T, state: T, a: seq<bool>, b: seq<bool>)
    ensures Feed(step, state, a + b) == Feed(step, Feed(step, state, a), b)
    decreases |a|
  {
    if a == [] {
      assert a + b == b;
    } else {
      assert (a + b)[1..] == a[1..] + b;
      FeedConcat(step, step(state, a[0]), a[1..], b);
    }
  }

  /** Superposition: the register of a sum of messages is the sum of their registers. */
  lemma {:induction false} FeedAdditive<T(!new)>(step: (T, bool) -> T, add: (T, T) -> T,
                                                 x: T, y: T, a: seq<bool>, b: seq<bool>)
    requires Additive(step, add) && |a| == |b|
    ensures Feed(step, add(x, y), Difference(a, b)) == add(Feed(step, x, a), Feed(step, y, b))
    decreases |a|
  {
    if a != [] {
      assert step(add(x, y), Flip(a[0], b[0])) == add(step(x, a[0]), step(y, b[0]));
      FeedAdditive(step, add, step(x, a[0]), step(y, b[0]), a[1..], b[1..]);
      assert Difference(a, b)[1..] == Difference(a[1..], b[1..]);
    }
  }

  /** Zero bits neither start a cleared register nor clear a running one. */
  lemma {:induction false} FeedZeros<T(!new)>(step: (T, bool) -> T, zero: T, inRange: T -> bool, state: T, n: nat)
    requires forall x :: inRange(x) ==> inRange(step(x, false)) && (step(x, false) == zero <==> x == zero)
    requires inRange(state)
    ensures Feed(step, state, Zeros(n)) == zero <==> state == zero
    decreases n
  {
    if n > 0 {
      assert Zeros(n)[1..] == Zeros(n - 1);
      FeedZeros(step, zero, inRange, step(state, false), n - 1);
    }
  }

  /** A quantity that every set bit flips is, at the end, the parity of the bits fed. */
  lemma {:induction false} FeedParity<T(!new)>(step: (T, bool) -> T, odd: T -> bool, state: T, bits: seq<bool>)
    requires forall x, b :: odd(step(x, b)) == (odd(x) != b)
    ensures odd(Feed(step, state, bits)) == (odd(state) != (CountTrue(bits) % 2 == 1))
    decreases |bits|
  {
    if bits != [] {
      FeedParity(step, odd, step(state, bits[0]), bits[1..]);
    }
  }

  function CountTrue(bits: seq<bool>): nat {
    if bits == [] then 0 else (if bits[0] then 1 else 0) + CountTrue(bits[1..])
  }
}
