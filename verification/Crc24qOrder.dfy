/** Bit strings as polynomials over two elements: squaring keeps multiples of the generator, so
    the remainder of a square is known from the remainder of its root. */
module Crc24qOrder {
  import opened Bytes
  import opened LinearRegister
  import opened Crc24qDivision
  import opened Crc24qDetection

  // ------------------------------------------------------------------
  // Bit strings as polynomials
  // ------------------------------------------------------------------

  /** The remainder of a bit string; it does not see leading zeros. */
  function Rest(w: seq<bool>): bv32 { Feed(BitStep, 0, w) }

  lemma ZerosFirst(n: nat, w: seq<bool>)
    ensures Rest(Zeros(n) + w) == Rest(w)
  {
    hide BitStep;
    FeedConcat(BitStep, 0, Zeros(n), w);
    ZerosKeepNonzero(0, n);
  }

  lemma RestAdds(a: seq<bool>, b: seq<bool>)
    requires |a| == |b|
    ensures Rest(Difference(a, b)) == Xor(Rest(a), Rest(b))
  {
    hide Xor, BitStep;
    BitStepAdditive();
    XorUndoes(0, 0);
    FeedAdditive(BitStep, Xor, 0, 0, a, b);
  }

  /** Two strings of the same length have the same remainder exactly when their sum has none. */
  lemma SameRest(a: seq<bool>, b: seq<bool>)
    requires |a| == |b|
    ensures Rest(a) == Rest(b) <==> Rest(Difference(a, b)) == 0
  {
    hide Xor, Rest;
    RestAdds(a, b);
    XorCancels(Rest(a), Rest(b));
  }

  /** The square of a polynomial: a zero in front of each coefficient. */
  function Square(w: seq<bool>): (s: seq<bool>)
    ensures |s| == 2 * |w|
  {
    if w == [] then [] else [false, w[0]] + Square(w[1..])
  }

  lemma {:induction false} SquareConcat(a: seq<bool>, b: seq<bool>)
    ensures Square(a + b) == Square(a) + Square(b)
  {
    if a == [] {
      assert a + b == b;
    } else {
      assert (a + b)[0] == a[0] && (a + b)[1..] == a[1..] + b;
      SquareConcat(a[1..], b);
    }
  }

  lemma {:induction false} SquareZeros(n: nat)
    ensures Square(Zeros(n)) == Zeros(2 * n)
  {
    if n > 0 {
      assert Zeros(n)[1..] == Zeros(n - 1);
      SquareZeros(n - 1);
    }
  }

  lemma {:induction false} SquareAt(w: seq<bool>, i: nat)
    requires i < 2 * |w|
    ensures Square(w)[i] == (i % 2 == 1 && w[i / 2])
  {
    if i >= 2 {
      SquareAt(w[1..], i - 2);
    }
  }

  lemma SquareAdds(a: seq<bool>, b: seq<bool>)
    requires |a| == |b|
    ensures Square(Difference(a, b)) == Difference(Square(a), Square(b))
  {
    hide Square;
    forall i | 0 <= i < 2 * |a| ensures Square(Difference(a, b))[i] == Difference(Square(a), Square(b))[i] {
      SquareAt(Difference(a, b), i);
      SquareAt(a, i);
      SquareAt(b, i);
    }
  }

  // ------------------------------------------------------------------
  // The square of a multiple of the generator is one, too
  // ------------------------------------------------------------------

  const GENERATOR: seq<bool> := [true,
    true, false, false, false, false, true, true, false, false, true, false, false,
    true, true, false, false, true, true, true, true, true, false, true, true]

  lemma GeneratorBits()
    ensures Zeros(7) + GENERATOR == BitsOf([0x01, 0x86, 0x4C, 0xFB])
  {
    hide ByteBits;
    FourBytes(0x01, 0x86, 0x4C, 0xFB);
    GeneratorBytes();
  }

  lemma GeneratorBytes()
    ensures Zeros(7) + GENERATOR == ByteBits(0x01) + ByteBits(0x86) + ByteBits(0x4C) + ByteBits(0xFB)
  {
  }

  lemma FourBytes(a: byte, b: byte, c: byte, d: byte)
    ensures BitsOf([a, b, c, d]) == ByteBits(a) + ByteBits(b) + ByteBits(c) + ByteBits(d)
  {
    hide ByteBits;
    assert [a, b, c, d][..3] == [a, b, c];
    BitsOfTrailer(a, b, c);
  }

  lemma RemainderMore(data: bytes, b: byte)
    ensures Remainder(data + [b]) == ByteStep(Remainder(data), b)
  {
    hide ByteStep;
    assert (data + [b])[..|data|] == data;
  }

  lemma GeneratorDivides()
    ensures Rest(GENERATOR) == 0
  {
    hide BitStep;
    var f: bytes := [0x01, 0x86, 0x4C, 0xFB];
    assert Remainder([0x01]) == 0x864CFB by {
      RemainderMore([], 0x01);
      assert [] + [0x01] == [0x01];
    }
    assert f[..1] == [0x01];
    TrailerMatchesIffDivides(f);
    RemainderIsFeed(f);
    GeneratorBits();
    ZerosFirst(7, GENERATOR);
  }

  /** The bytes of a squared byte. */
  function High(b: byte): byte {
    ((b & 0x80) >> 1) | ((b & 0x40) >> 2) | ((b & 0x20) >> 3) | ((b & 0x10) >> 4)
  }

  function Low(b: byte): byte {
    ((b & 0x08) << 3) | ((b & 0x04) << 2) | ((b & 0x02) << 1) | (b & 0x01)
  }

  lemma HighBits(b: byte)
    ensures ByteBits(High(b))
      == [false, b & 0x80 != 0, false, b & 0x40 != 0, false, b & 0x20 != 0, false, b & 0x10 != 0]
  {
  }

  lemma LowBits(b: byte)
    ensures ByteBits(Low(b))
      == [false, b & 0x08 != 0, false, b & 0x04 != 0, false, b & 0x02 != 0, false, b & 0x01 != 0]
  {
  }

  lemma SquareTwo(p: bool, q: bool)
    ensures Square([p, q]) == [false, p, false, q]
  {
  }

  lemma SquareFour(p: bool, q: bool, r: bool, s: bool)
    ensures Square([p, q, r, s]) == [false, p, false, q, false, r, false, s]
  {
    hide Square;
    SquareTwo(p, q);
    SquareTwo(r, s);
    SquareConcat([p, q], [r, s]);
    assert [p, q, r, s] == [p, q] + [r, s];
  }

  lemma SquareEight(p: bool, q: bool, r: bool, s: bool, t: bool, u: bool, v: bool, w: bool)
    ensures Square([p, q, r, s, t, u, v, w])
      == [false, p, false, q, false, r, false, s] + [false, t, false, u, false, v, false, w]
  {
    hide Square;
    SquareFour(p, q, r, s);
    SquareFour(t, u, v, w);
    SquareConcat([p, q, r, s], [t, u, v, w]);
    assert [p, q, r, s, t, u, v, w] == [p, q, r, s] + [t, u, v, w];
  }

  lemma SquareByte(b: byte)
    ensures Square(ByteBits(b)) == ByteBits(High(b)) + ByteBits(Low(b))
  {
    hide High, Low, Square;
    HighBits(b);
    LowBits(b);
    SquareEight(b & 0x80 != 0, b & 0x40 != 0, b & 0x20 != 0, b & 0x10 != 0,
                b & 0x08 != 0, b & 0x04 != 0, b & 0x02 != 0, b & 0x01 != 0);
  }

  function SquareBytes(data: bytes): bytes {
    if data == [] then [] else SquareBytes(data[..|data| - 1]) + [High(data[|data| - 1]), Low(data[|data| - 1])]
  }

  lemma {:induction false} SquareOfBytes(data: bytes)
    ensures Square(BitsOf(data)) == BitsOf(SquareBytes(data))
    decreases |data|
  {
    hide ByteBits, High, Low, Square;
    if data == [] {
      assert Square([]) == [] by { SquareZeros(0); assert Zeros(0) == []; }
    } else {
      var before, b := data[..|data| - 1], data[|data| - 1];
      SquareOfBytes(before);
      SquareConcat(BitsOf(before), ByteBits(b));
      SquareByte(b);
      BitsOfConcat(SquareBytes(before), [High(b), Low(b)]);
      BitsOfTwo(High(b), Low(b));
    }
  }

  lemma BitsOfTwo(a: byte, b: byte)
    ensures BitsOf([a, b]) == ByteBits(a) + ByteBits(b)
  {
    hide ByteBits;
    assert [a, b][..1] == [a] && [a][..0] == [];
    assert BitsOf([a]) == [] + ByteBits(a) == ByteBits(a);
  }

  lemma SquaredGeneratorBytes()
    ensures SquareBytes([0x01, 0x86, 0x4C, 0xFB]) == [0x00, 0x01, 0x40, 0x14, 0x10, 0x50, 0x55, 0x45]
  {
    var f: bytes := [0x01, 0x86, 0x4C, 0xFB];
    assert f[..3] == [0x01, 0x86, 0x4C] && f[..3][..2] == [0x01, 0x86] && f[..3][..2][..1] == [0x01];
    assert f[..3][..2][..1][..0] == [];
    assert SquareBytes(f[..3][..2][..1]) == [0x00, 0x01];
    assert SquareBytes(f[..3][..2]) == [0x00, 0x01] + [0x40, 0x14];
    assert SquareBytes(f[..3]) == [0x00, 0x01, 0x40, 0x14] + [0x10, 0x50];
  }

  lemma SquaredGeneratorDivides()
    ensures Rest(Square(GENERATOR)) == 0
  {
    hide BitStep, ByteStep, TrailerValue, Square;
    var f: bytes := [0x00, 0x01, 0x40, 0x14, 0x10, 0x50, 0x55, 0x45];
    assert f[..5] == [0x00, 0x01, 0x40, 0x14, 0x10];
    SquaredGeneratorStart();
    TrailerMatchesIffDivides(f);
    RemainderIsFeed(f);
    GeneratorBits();
    SquaredGeneratorBytes();
    SquareOfBytes([0x01, 0x86, 0x4C, 0xFB]);
    SquareConcat(Zeros(7), GENERATOR);
    SquareZeros(7);
    ZerosFirst(14, Square(GENERATOR));
  }

  lemma GeneratorSteps()
    ensures ByteStep(0x000000, 0x00) == 0x000000
    ensures ByteStep(0x000000, 0x01) == 0x864CFB
    ensures ByteStep(0x864CFB, 0x40) == 0x7F2C9A
    ensures ByteStep(0x7F2C9A, 0x14) == 0x94F0F4
    ensures ByteStep(0x94F0F4, 0x10) == 0x505545
  {
  }

  lemma GeneratorTrailer()
    ensures TrailerValue(0x50, 0x55, 0x45) == 0x505545
  {
  }

  lemma NothingRemains()
    ensures Remainder([]) == 0
  {
  }

  lemma SquaredGeneratorStart()
    ensures Remainder([0x00, 0x01, 0x40, 0x14, 0x10]) == TrailerValue(0x50, 0x55, 0x45)
  {
    hide ByteStep, TrailerValue, Remainder;
    GeneratorSteps();
    assert TrailerValue(0x50, 0x55, 0x45) == 0x505545 by { GeneratorTrailer(); }
    assert Remainder([]) == 0 by { NothingRemains(); }
    var s1: bytes, s2: bytes, s3: bytes := [0x00], [0x00, 0x01], [0x00, 0x01, 0x40];
    var s4: bytes, s5: bytes := [0x00, 0x01, 0x40, 0x14], [0x00, 0x01, 0x40, 0x14, 0x10];
    RemainderMore([], 0x00);
    assert [] + [0x00] == s1;
    RemainderMore(s1, 0x01);
    assert s1 + [0x01] == s2;
    RemainderMore(s2, 0x40);
    assert s2 + [0x40] == s3;
    RemainderMore(s3, 0x14);
    assert s3 + [0x14] == s4;
    RemainderMore(s4, 0x10);
    assert s4 + [0x10] == s5;
  }

  /** Over coefficients 0 and 1 the square of a multiple of the generator is a multiple. */
  lemma {:induction false} SquareDivides(w: seq<bool>)
    requires Rest(w) == 0
    ensures Rest(Square(w)) == 0
    decreases |w|
  {
    hide BitStep, Square, Rest;
    if |w| <= 24 {
      ShortMultiple(w);
      SquareZeros(|w|);
      ZerosRest(2 * |w|);
    } else if !w[0] {
      assert w == Zeros(1) + w[1..];
      ZerosFirst(1, w[1..]);
      SquareDivides(w[1..]);
      SquareConcat(Zeros(1), w[1..]);
      SquareZeros(1);
      ZerosFirst(2, Square(w[1..]));
    } else {
      var g := GENERATOR + Zeros(|w| - 25);
      var d := Difference(w, g);
      GeneratorMultiple(|w| - 25);
      SameRest(w, g);
      assert d == Zeros(1) + d[1..];
      ZerosFirst(1, d[1..]);
      SquareDivides(d[1..]);
      SquareConcat(Zeros(1), d[1..]);
      SquareZeros(1);
      ZerosFirst(2, Square(d[1..]));
      SquareAdds(w, g);
      SameRest(Square(w), Square(g));
    }
  }

  lemma ZerosRest(n: nat)
    ensures Rest(Zeros(n)) == 0
  {
    hide BitStep;
    ZerosKeepNonzero(0, n);
  }

  lemma ZerosBehind(w: seq<bool>, n: nat)
    ensures Rest(w + Zeros(n)) == 0 <==> Rest(w) == 0
  {
    hide BitStep;
    FeedConcat(BitStep, 0, w, Zeros(n));
    FeedInRegister(w);
    ZerosKeepNonzero(Rest(w), n);
  }

  lemma ShortMultiple(w: seq<bool>)
    requires |w| <= 24 && Rest(w) == 0
    ensures w == Zeros(|w|)
  {
    hide BitStep;
    var n := 24 - |w|;
    ZerosFirst(n, w);
    ShortPatternDivides(Zeros(n) + w);
    assert w == (Zeros(n) + w)[n..];
  }

  lemma GeneratorMultiple(n: nat)
    ensures Rest(GENERATOR + Zeros(n)) == 0 && Rest(Square(GENERATOR + Zeros(n))) == 0
  {
    hide Rest, Square;
    GeneratorDivides();
    SquaredGeneratorDivides();
    ZerosBehind(GENERATOR, n);
    SquareConcat(GENERATOR, Zeros(n));
    SquareZeros(n);
    ZerosBehind(Square(GENERATOR), 2 * n);
  }

  /** Squares of strings with the same remainder have the same remainder. */
  lemma SquareKeepsRest(a: seq<bool>, b: seq<bool>)
    requires Rest(a) == Rest(b)
    ensures Rest(Square(a)) == Rest(Square(b))
  {
    hide Rest, Square;
    var p, q := Zeros(|b|) + a, Zeros(|a|) + b;
    ZerosFirst(|b|, a);
    ZerosFirst(|a|, b);
    SameRest(p, q);
    SquareDivides(Difference(p, q));
    SquareAdds(p, q);
    SameRest(Square(p), Square(q));
    SquareConcat(Zeros(|b|), a);
    SquareConcat(Zeros(|a|), b);
    SquareZeros(|a|);
    SquareZeros(|b|);
    ZerosFirst(2 * |b|, Square(a));
    ZerosFirst(2 * |a|, Square(b));
  }

  // ------------------------------------------------------------------
  // Powers of x
  // ------------------------------------------------------------------

  function Power(n: nat): seq<bool> { [true] + Zeros(n) }

  lemma SquareOfPower(n: nat)
    ensures Rest(Square(Power(n))) == Rest(Power(2 * n))
  {
    hide Rest, Square;
    SquareConcat([true], Zeros(n));
    SquareOne(true);
    SquareZeros(n);
    assert [false, true] + Zeros(2 * n) == Zeros(1) + Power(2 * n);
    ZerosFirst(1, Power(2 * n));
  }

  lemma SquareOne(p: bool)
    ensures Square([p]) == [false, p]
  {
  }

  /** The coefficients of a polynomial below degree 24. */
  datatype Poly = Poly(a: byte, b: byte, c: byte)

  function Coefficients(p: Poly): seq<bool> { BitsOf([p.a, p.b, p.c]) }

  /** The square of p leaves the remainder of q. */
  predicate SquaresTo(p: Poly, q: Poly) {
    ByteStep(ByteStep(ByteStep(0, High(p.a)), Low(p.a)), High(p.b))
    == TrailerValue(XorByte(Low(p.b), q.a), XorByte(High(p.c), q.b), XorByte(Low(p.c), q.c))
  }

  lemma ThreeBytes(x: byte, y: byte, z: byte)
    ensures Remainder([x, y, z]) == ByteStep(ByteStep(ByteStep(0, x), y), z)
  {
    hide ByteStep, Remainder;
    NothingRemains();
    RemainderMore([], x);
    RemainderMore([x], y);
    RemainderMore([x, y], z);
    assert [] + [x] == [x] && [x] + [y] == [x, y] && [x, y] + [z] == [x, y, z];
  }

  function XorByte(x: byte, y: byte): byte { x ^ y }

  predicate Masked(b: byte, m: byte) { b & m != 0 }

  function MaskAt(i: nat): byte
    requires i < 8
  {
    if i == 0 then 0x80 else if i == 1 then 0x40 else if i == 2 then 0x20 else if i == 3 then 0x10
    else if i == 4 then 0x08 else if i == 5 then 0x04 else if i == 6 then 0x02 else 0x01
  }

  lemma BitIsMasked(b: byte, i: nat)
    requires i < 8
    ensures ByteBits(b)[i] == Masked(b, MaskAt(i))
  {
  }

  lemma XorMasked(x: byte, y: byte, i: nat)
    requires i < 8
    ensures Masked(XorByte(x, y), MaskAt(i)) == (Masked(x, MaskAt(i)) != Masked(y, MaskAt(i)))
  {
  }

  lemma XorBitAt(x: byte, y: byte, i: nat)
    requires i < 8
    ensures ByteBits(XorByte(x, y))[i] == (ByteBits(x)[i] != ByteBits(y)[i])
  {
    hide XorByte, Masked, MaskAt, ByteBits;
    BitIsMasked(x, i);
    BitIsMasked(y, i);
    BitIsMasked(XorByte(x, y), i);
    XorMasked(x, y, i);
  }

  lemma XorBits(x: byte, y: byte)
    ensures Difference(ByteBits(x), ByteBits(y)) == ByteBits(XorByte(x, y))
  {
    hide XorByte, ByteBits;
    forall i | 0 <= i < 8 ensures Difference(ByteBits(x), ByteBits(y))[i] == ByteBits(XorByte(x, y))[i] {
      XorBitAt(x, y, i);
    }
  }

  lemma XorThreeBytes(x: byte, y: byte, z: byte, p: byte, q: byte, r: byte)
    ensures Difference(BitsOf([x, y, z]), BitsOf([p, q, r])) == BitsOf([XorByte(x, p), XorByte(y, q), XorByte(z, r)])
  {
    hide ByteBits, BitsOf, XorByte;
    BitsOfTrailer(x, y, z);
    BitsOfTrailer(p, q, r);
    BitsOfTrailer(XorByte(x, p), XorByte(y, q), XorByte(z, r));
    XorBits(x, p);
    XorBits(y, q);
    XorBits(z, r);
    DifferenceJoins(ByteBits(x), ByteBits(y), ByteBits(p), ByteBits(q));
    DifferenceJoins(ByteBits(x) + ByteBits(y), ByteBits(z), ByteBits(p) + ByteBits(q), ByteBits(r));
  }

  lemma DifferenceJoins(a: seq<bool>, b: seq<bool>, c: seq<bool>, d: seq<bool>)
    requires |a| == |c| && |b| == |d|
    ensures Difference(a + b, c + d) == Difference(a, c) + Difference(b, d)
  {
  }

  lemma NoDifference(a: seq<bool>)
    ensures Difference(a, Zeros(|a|)) == a
  {
  }

  /** Bytes whose last three are what the others leave, plus the bytes of q, leave what q leaves. */
  lemma BytesLeave(high: bytes, low: bytes, q: Poly)
    requires |low| == 3
    requires Remainder(high) == TrailerValue(XorByte(low[0], q.a), XorByte(low[1], q.b), XorByte(low[2], q.c))
    ensures Rest(BitsOf(high) + BitsOf(low)) == Rest(Coefficients(q))
  {
    hide Rest, TrailerValue, Remainder, BitsOf, XorByte;
    var sum: bytes := [XorByte(low[0], q.a), XorByte(low[1], q.b), XorByte(low[2], q.c)];
    var n := 8 * |high|;
    ZerosFirst(n, Coefficients(q));
    SameRest(BitsOf(high) + BitsOf(low), Zeros(n) + Coefficients(q));
    DifferenceJoins(BitsOf(high), BitsOf(low), Zeros(n), Coefficients(q));
    NoDifference(BitsOf(high));
    assert low == [low[0], low[1], low[2]];
    XorThreeBytes(low[0], low[1], low[2], q.a, q.b, q.c);
    BitsOfConcat(high, sum);
    SumDivides(high, sum);
  }

  lemma SumDivides(high: bytes, sum: bytes)
    requires |sum| == 3 && Remainder(high) == TrailerValue(sum[0], sum[1], sum[2])
    ensures Rest(BitsOf(high + sum)) == 0
  {
    hide TrailerValue, Remainder, BitsOf, BitStep;
    TrailerMatchesIffDivides(high + sum);
    assert (high + sum)[..|high|] == high;
    RemainderIsFeed(high + sum);
  }

  lemma SquareOfPoly(p: Poly, q: Poly)
    requires SquaresTo(p, q)
    ensures Rest(Square(Coefficients(p))) == Rest(Coefficients(q))
  {
    hide Rest, Square, ByteStep, TrailerValue, Remainder, BitsOf, High, Low, XorByte;
    var high: bytes, low: bytes := [High(p.a), Low(p.a), High(p.b)], [Low(p.b), High(p.c), Low(p.c)];
    SquareOfBytes([p.a, p.b, p.c]);
    SquareThreeBytes(p.a, p.b, p.c);
    BitsOfConcat(high, low);
    ThreeBytes(High(p.a), Low(p.a), High(p.b));
    BytesLeave(high, low, q);
  }

  lemma SquareMore(data: bytes, b: byte)
    ensures SquareBytes(data + [b]) == SquareBytes(data) + [High(b), Low(b)]
  {
    assert (data + [b])[..|data|] == data;
  }

  lemma NothingSquared()
    ensures SquareBytes([]) == []
  {
  }

  lemma SquareThreeBytes(a: byte, b: byte, c: byte)
    ensures SquareBytes([a, b, c]) == [High(a), Low(a), High(b)] + [Low(b), High(c), Low(c)]
  {
    hide High, Low, SquareBytes;
    NothingSquared();
    SquareMore([], a);
    SquareMore([a], b);
    SquareMore([a, b], c);
    assert [] + [a] == [a] && [a] + [b] == [a, b] && [a, b] + [c] == [a, b, c];
    Regroup(High(a), Low(a), High(b), Low(b), High(c), Low(c));
  }

  lemma Regroup(p: byte, q: byte, r: byte, s: byte, t: byte, u: byte)
    ensures [] + [p, q] + [r, s] + [t, u] == [p, q, r] + [s, t, u]
  {
  }

  /** One byte further up, p leaves the remainder of q. */
  predicate ShiftsTo(p: Poly, q: Poly) {
    ByteStep(0, p.a) == TrailerValue(XorByte(p.b, q.a), XorByte(p.c, q.b), XorByte(0, q.c))
  }

  lemma ShiftOfPoly(p: Poly, q: Poly)
    requires ShiftsTo(p, q)
    ensures Rest(Coefficients(p) + Zeros(8)) == Rest(Coefficients(q))
  {
    hide Rest, ByteStep, TrailerValue, Remainder, BitsOf, XorByte;
    var low: bytes := [p.b, p.c, 0];
    assert Remainder([p.a]) == ByteStep(0, p.a) by {
      NothingRemains();
      RemainderMore([], p.a);
      assert [] + [p.a] == [p.a];
    }
    FourBytes(p.a, p.b, p.c, 0);
    BitsOfTrailer(p.a, p.b, p.c);
    ZeroByteBits();
    BitsOfConcat([p.a], low);
    assert [p.a] + low == [p.a, p.b, p.c, 0];
    BytesLeave([p.a], low, q);
  }
}
