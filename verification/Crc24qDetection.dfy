/** What CRC-24Q detects: the register seen bit by bit, the trailer that clears it,
    and the error patterns that never do. */
module Crc24qDetection {
  import opened Bytes
  import opened LinearRegister
  import opened Crc24qDivision

  // ------------------------------------------------------------------
  // The register, one message bit at a time
  // ------------------------------------------------------------------

  function Input(b: bool): bv32 { if b then TOP_BIT else 0 }

  function BitStep(crc: bv32, b: bool): bv32 { ShiftBit(Xor(crc, Input(b))) }

  /** A byte's bits in transmission order, most significant first. */
  function ByteBits(b: byte): (bits: seq<bool>)
    ensures |bits| == 8
  {
    [b & 0x80 != 0, b & 0x40 != 0, b & 0x20 != 0, b & 0x10 != 0,
     b & 0x08 != 0, b & 0x04 != 0, b & 0x02 != 0, b & 0x01 != 0]
  }

  function BitsOf(data: bytes): (bits: seq<bool>)
    ensures |bits| == 8 * |data|
  {
    if data == [] then [] else BitsOf(data[..|data| - 1]) + ByteBits(data[|data| - 1])
  }

  lemma InputsAdd(p: bool, q: bool)
    ensures Input(Flip(p, q)) == Xor(Input(p), Input(q))
  {
  }

  lemma XorCommutes(x: bv32, y: bv32)
    ensures Xor(x, y) == Xor(y, x)
  {
  }

  lemma XorAssociates(x: bv32, y: bv32, z: bv32)
    ensures Xor(Xor(x, y), z) == Xor(x, Xor(y, z))
  {
  }

  lemma XorRegroups(x: bv32, y: bv32, u: bv32, v: bv32)
    ensures Xor(Xor(x, y), Xor(u, v)) == Xor(Xor(x, u), Xor(y, v))
  {
    hide Xor;
    XorAssociates(x, y, Xor(u, v));
    XorAssociates(y, u, v);
    XorCommutes(y, u);
    XorAssociates(u, y, v);
    XorAssociates(x, u, Xor(y, v));
  }

  lemma BitStepAdditive()
    ensures Additive(BitStep, Xor)
  {
    hide Xor, ShiftBit, Input;
    forall x, y, p, q
      ensures BitStep(Xor(x, y), Flip(p, q)) == Xor(BitStep(x, p), BitStep(y, q))
    {
      InputsAdd(p, q);
      XorRegroups(x, y, Input(p), Input(q));
      ShiftAdditive();
      assert ShiftBit(Xor(Xor(x, Input(p)), Xor(y, Input(q))))
          == Xor(ShiftBit(Xor(x, Input(p))), ShiftBit(Xor(y, Input(q))));
    }
  }

  predicate TopBit(b: byte) { b & 0x80 != 0 }

  function UpBy1(b: byte): byte { b << 1 }

  function OnTop(b: byte): bv32 { (b as bv32) << 16 }

  lemma TopBitFirst(crc: bv32, b: byte)
    ensures Xor(crc, OnTop(b)) == Xor(Xor(crc, Input(TopBit(b))), OnTop(b & 0x7F))
    ensures ShiftBit(OnTop(b & 0x7F)) == OnTop(UpBy1(b))
  {
  }

  lemma AbsorbBit(crc: bv32, b: byte)
    ensures ShiftBit(Xor(crc, OnTop(b))) == Xor(BitStep(crc, TopBit(b)), OnTop(UpBy1(b)))
  {
    hide Xor, ShiftBit, Input, OnTop, UpBy1, TopBit;
    TopBitFirst(crc, b);
    ShiftAdditive();
    assert ShiftBit(Xor(Xor(crc, Input(TopBit(b))), OnTop(b & 0x7F)))
        == Xor(ShiftBit(Xor(crc, Input(TopBit(b)))), ShiftBit(OnTop(b & 0x7F)));
  }

  lemma {:induction false} AbsorbBits(crc: bv32, b: byte, n: nat)
    ensures Iterate(ShiftBit, Xor(crc, OnTop(b)), n)
         == Xor(Feed(BitStep, crc, Outputs(TopBit, UpBy1, b, n)), OnTop(Iterate(UpBy1, b, n)))
    decreases n
  {
    hide Xor, ShiftBit, Input, OnTop, BitStep, UpBy1, TopBit;
    if n > 0 {
      AbsorbBit(crc, b);
      AbsorbBits(BitStep(crc, TopBit(b)), UpBy1(b), n - 1);
      assert Outputs(TopBit, UpBy1, b, n)[1..] == Outputs(TopBit, UpBy1, UpBy1(b), n - 1);
    }
  }

  lemma BitsReachTop(b: byte)
    ensures TopBit(b) == (b & 0x80 != 0)
    ensures TopBit(UpBy1(b)) == (b & 0x40 != 0)
    ensures TopBit(UpBy1(UpBy1(b))) == (b & 0x20 != 0)
    ensures TopBit(UpBy1(UpBy1(UpBy1(b)))) == (b & 0x10 != 0)
    ensures TopBit(UpBy1(UpBy1(UpBy1(UpBy1(b))))) == (b & 0x08 != 0)
    ensures TopBit(UpBy1(UpBy1(UpBy1(UpBy1(UpBy1(b)))))) == (b & 0x04 != 0)
    ensures TopBit(UpBy1(UpBy1(UpBy1(UpBy1(UpBy1(UpBy1(b))))))) == (b & 0x02 != 0)
    ensures TopBit(UpBy1(UpBy1(UpBy1(UpBy1(UpBy1(UpBy1(UpBy1(b)))))))) == (b & 0x01 != 0)
    ensures UpBy1(UpBy1(UpBy1(UpBy1(UpBy1(UpBy1(UpBy1(UpBy1(b)))))))) == 0
  {
  }

  lemma AllBitsOf(b: byte)
    ensures Outputs(TopBit, UpBy1, b, 8) == ByteBits(b)
    ensures Iterate(UpBy1, b, 8) == 0
  {
    hide UpBy1, TopBit;
    BitsReachTop(b);
    Outputs8(TopBit, UpBy1, b);
    Iterate8(UpBy1, b);
  }

  lemma XorZero(x: bv32)
    ensures Xor(x, OnTop(0)) == x && Xor(x, 0) == x && Xor(0, x) == x && Xor(x, x) == 0
  {
  }

  lemma ByteIsItsBits(crc: bv32, b: byte)
    ensures ByteStep(crc, b) == Feed(BitStep, crc, ByteBits(b))
  {
    hide Xor, ShiftBit, Input, BitStep, ByteBits;
    AbsorbBits(crc, b, 8);
    AllBitsOf(b);
    XorZero(Feed(BitStep, crc, ByteBits(b)));
  }

  /** Dividing byte by byte is feeding the bits one at a time. */
  lemma {:induction false} RemainderIsFeed(data: bytes)
    ensures Remainder(data) == Feed(BitStep, 0, BitsOf(data))
  {
    hide Xor, ShiftBit, Input, BitStep, ByteBits, ByteStep;
    if data != [] {
      var n := |data| - 1;
      RemainderIsFeed(data[..n]);
      FeedConcat(BitStep, 0, BitsOf(data[..n]), ByteBits(data[n]));
      ByteIsItsBits(Remainder(data[..n]), data[n]);
    }
  }

  // ------------------------------------------------------------------
  // The trailer
  // ------------------------------------------------------------------

  /** The checksum as a frame carries it: three bytes, most significant first. */
  function TrailerValue(t0: byte, t1: byte, t2: byte): bv32 {
    ((t0 as bv32) << 16) | ((t1 as bv32) << 8) | (t2 as bv32)
  }

  function Upper(t1: byte, t2: byte): bv32 { ((t1 as bv32) << 8) | (t2 as bv32) }

  function Last(t2: byte): bv32 { (t2 as bv32) << 8 }

  lemma FirstCancels(t0: byte, t1: byte, t2: byte)
    ensures Xor(TrailerValue(t0, t1, t2), (t0 as bv32) << 16) == Upper(t1, t2) <= 0xFFFF
  {
  }

  lemma SecondCancels(t1: byte, t2: byte)
    ensures Xor(Upper(t1, t2) << 8, (t1 as bv32) << 16) == Last(t2) <= 0xFFFF
  {
  }

  lemma LastCancels(t2: byte)
    ensures Xor(Last(t2) << 8, (t2 as bv32) << 16) == 0
  {
  }

  /** A byte that cancels the top of the register leaves only a shift. */
  lemma CancelledStep(crc: bv32, b: byte, low: bv32)
    requires Xor(crc, (b as bv32) << 16) == low && low <= 0xFFFF
    ensures ByteStep(crc, b) == low << 8
  {
  }

  lemma TrailerBytesClear(t0: byte, t1: byte, t2: byte)
    ensures ByteStep(ByteStep(ByteStep(TrailerValue(t0, t1, t2), t0), t1), t2) == 0
  {
    hide Xor, ByteStep, TrailerValue, Upper, Last;
    FirstCancels(t0, t1, t2);
    CancelledStep(TrailerValue(t0, t1, t2), t0, Upper(t1, t2));
    SecondCancels(t1, t2);
    CancelledStep(Upper(t1, t2) << 8, t1, Last(t2));
    LastCancels(t2);
    CancelledStep(Last(t2) << 8, t2, 0);
  }

  lemma BitsOfTrailer(t0: byte, t1: byte, t2: byte)
    ensures BitsOf([t0, t1, t2]) == ByteBits(t0) + ByteBits(t1) + ByteBits(t2)
  {
    hide ByteBits;
    assert [t0, t1, t2][..2] == [t0, t1] && [t0, t1][..1] == [t0] && [t0][..0] == [];
    assert BitsOf([t0]) == ByteBits(t0);
    assert BitsOf([t0, t1]) == ByteBits(t0) + ByteBits(t1);
  }

  lemma TrailerClears(t0: byte, t1: byte, t2: byte)
    ensures Feed(BitStep, TrailerValue(t0, t1, t2), BitsOf([t0, t1, t2])) == 0
  {
    hide Xor, ShiftBit, BitStep, ByteBits, ByteStep, TrailerValue;
    var crc := TrailerValue(t0, t1, t2);
    BitsOfTrailer(t0, t1, t2);
    FeedConcat(BitStep, crc, ByteBits(t0) + ByteBits(t1), ByteBits(t2));
    FeedConcat(BitStep, crc, ByteBits(t0), ByteBits(t1));
    ByteIsItsBits(crc, t0);
    ByteIsItsBits(ByteStep(crc, t0), t1);
    ByteIsItsBits(ByteStep(ByteStep(crc, t0), t1), t2);
    TrailerBytesClear(t0, t1, t2);
  }

  predicate InRegister(x: bv32) { x <= MASK }

  /** A zero bit neither clears a running register nor starts a cleared one. */
  lemma ZeroBitKeepsNonzero(x: bv32)
    requires InRegister(x)
    ensures InRegister(BitStep(x, false)) && (BitStep(x, false) == 0 <==> x == 0)
  {
  }

  lemma ZerosKeepNonzero(x: bv32, n: nat)
    requires InRegister(x)
    ensures Feed(BitStep, x, Zeros(n)) == 0 <==> x == 0
  {
    hide BitStep, InRegister;
    forall y
      ensures InRegister(y) ==> InRegister(BitStep(y, false)) && (BitStep(y, false) == 0 <==> y == 0)
    {
      if InRegister(y) { ZeroBitKeepsNonzero(y); }
    }
    FeedZeros(BitStep, 0, InRegister, x, n);
  }

  lemma TrailerInRegister(t0: byte, t1: byte, t2: byte, crc: bv32)
    requires crc <= MASK
    ensures InRegister(Xor(TrailerValue(t0, t1, t2), crc))
  {
  }

  lemma XorUndoes(x: bv32, y: bv32)
    ensures Xor(x, Xor(x, y)) == y && Xor(0, y) == y && Xor(x, x) == 0
  {
  }

  lemma XorCancels(x: bv32, y: bv32)
    ensures Xor(x, Xor(x, y)) == y
    ensures Xor(x, y) == 0 <==> x == y
    ensures Xor(0, y) == y
  {
    hide Xor;
    XorUndoes(x, y);
    XorUndoes(y, x);
    XorCommutes(x, 0);
    XorUndoes(0, x);
  }

  /** A trailer clears the register exactly when it is the register's own value. */
  lemma ClearsIffMatches(crc: bv32, t0: byte, t1: byte, t2: byte)
    requires crc <= MASK
    ensures Feed(BitStep, crc, BitsOf([t0, t1, t2])) == 0 <==> crc == TrailerValue(t0, t1, t2)
  {
    hide Xor, BitStep, InRegister, TrailerValue, BitsOf;
    var trailer := TrailerValue(t0, t1, t2);
    var bits := BitsOf([t0, t1, t2]);
    XorCancels(trailer, crc);
    XorCancels(0, Feed(BitStep, Xor(trailer, crc), Zeros(24)));
    assert Difference(bits, Zeros(24)) == bits;
    BitStepAdditive();
    FeedAdditive(BitStep, Xor, trailer, Xor(trailer, crc), bits, Zeros(24));
    TrailerClears(t0, t1, t2);
    TrailerInRegister(t0, t1, t2, crc);
    ZerosKeepNonzero(Xor(trailer, crc), 24);
  }

  lemma {:induction false} BitsOfConcat(a: bytes, b: bytes)
    ensures BitsOf(a + b) == BitsOf(a) + BitsOf(b)
    decreases |b|
  {
    hide ByteBits;
    if b == [] {
      assert a + b == a;
    } else {
      var n := |b| - 1;
      assert (a + b)[..|a + b| - 1] == a + b[..n];
      BitsOfConcat(a, b[..n]);
    }
  }

  /** A frame carries its own checksum exactly when it divides evenly, trailer included. */
  lemma TrailerMatchesIffDivides(frame: bytes)
    requires |frame| >= 3
    ensures var n := |frame| - 3;
      Remainder(frame[..n]) == TrailerValue(frame[n], frame[n + 1], frame[n + 2]) <==> Remainder(frame) == 0
  {
    hide BitStep, TrailerValue, BitsOf, Remainder;
    var n := |frame| - 3;
    var trailer := [frame[n], frame[n + 1], frame[n + 2]];
    assert frame == frame[..n] + trailer;
    BitsOfConcat(frame[..n], trailer);
    RemainderIsFeed(frame);
    RemainderIsFeed(frame[..n]);
    FeedConcat(BitStep, 0, BitsOf(frame[..n]), BitsOf(trailer));
    ClearsIffMatches(Remainder(frame[..n]), frame[n], frame[n + 1], frame[n + 2]);
  }

  // ------------------------------------------------------------------
  // Error patterns that never pass
  // ------------------------------------------------------------------

  lemma DifferenceDivides(f: bytes, g: bytes)
    requires |f| == |g|
    ensures Feed(BitStep, 0, Difference(BitsOf(f), BitsOf(g))) == Xor(Remainder(f), Remainder(g))
  {
    hide Xor, BitStep, BitsOf, Remainder;
    BitStepAdditive();
    XorUndoes(0, 0);
    FeedAdditive(BitStep, Xor, 0, 0, BitsOf(f), BitsOf(g));
    RemainderIsFeed(f);
    RemainderIsFeed(g);
  }

  function Weight(b: bool, w: byte): byte { if b then w else 0 }

  function Assemble(p: bool, q: bool, r: bool, s: bool, t: bool, u: bool, v: bool, w: bool): byte {
    Weight(p, 0x80) | Weight(q, 0x40) | Weight(r, 0x20) | Weight(s, 0x10)
    | Weight(t, 0x08) | Weight(u, 0x04) | Weight(v, 0x02) | Weight(w, 0x01)
  }

  function ByteOf(w: seq<bool>): byte
    requires |w| == 8
  {
    Assemble(w[0], w[1], w[2], w[3], w[4], w[5], w[6], w[7])
  }

  lemma BitsOfByteOf(w: seq<bool>)
    requires |w| == 8
    ensures ByteBits(ByteOf(w)) == w
  {
  }

  lemma ByteOfBits(b: byte)
    ensures ByteOf(ByteBits(b)) == b
  {
  }

  lemma ByteOfIsInverse(w: seq<bool>, b: byte)
    requires |w| == 8
    ensures ByteBits(ByteOf(w)) == w
    ensures ByteOf(ByteBits(b)) == b
  {
    hide ByteOf, ByteBits;
    BitsOfByteOf(w);
    ByteOfBits(b);
  }

  lemma {:induction false} BitsOfInjective(f: bytes, g: bytes)
    requires |f| == |g| && BitsOf(f) == BitsOf(g)
    ensures f == g
    decreases |f|
  {
    hide ByteBits, ByteOf;
    if f != [] {
      var n := |f| - 1;
      assert BitsOf(f)[..8 * n] == BitsOf(f[..n]) && BitsOf(f)[8 * n..] == ByteBits(f[n]);
      assert BitsOf(g)[..8 * n] == BitsOf(g[..n]) && BitsOf(g)[8 * n..] == ByteBits(g[n]);
      BitsOfInjective(f[..n], g[..n]);
      ByteOfIsInverse(Zeros(8), f[n]);
      ByteOfIsInverse(Zeros(8), g[n]);
      assert f == f[..n] + [f[n]] && g == g[..n] + [g[n]];
    }
  }

  lemma ZeroTrailerIsZeros(t0: byte, t1: byte, t2: byte)
    requires TrailerValue(t0, t1, t2) == 0
    ensures t0 == 0 && t1 == 0 && t2 == 0
  {
  }

  lemma ZeroByteBits()
    ensures ByteBits(0) == Zeros(8)
  {
  }

  /** No pattern of 24 bits or fewer divides evenly, except silence. */
  lemma ShortPatternDivides(w: seq<bool>)
    requires |w| == 24 && Feed(BitStep, 0, w) == 0
    ensures w == Zeros(24)
  {
    hide BitStep, BitsOf, ByteBits, ByteOf, TrailerValue;
    var t0, t1, t2 := ByteOf(w[..8]), ByteOf(w[8..16]), ByteOf(w[16..]);
    ByteOfIsInverse(w[..8], 0);
    ByteOfIsInverse(w[8..16], 0);
    ByteOfIsInverse(w[16..], 0);
    assert w == w[..8] + w[8..16] + w[16..];
    BitsOfTrailer(t0, t1, t2);
    ClearsIffMatches(0, t0, t1, t2);
    ZeroTrailerIsZeros(t0, t1, t2);
    ZeroByteBits();
  }

  /** Every error burst of up to 24 bits, at any bit offset, breaks the division. */
  lemma BurstNeverDivides(f: bytes, g: bytes, p: nat)
    requires |f| == |g| && f != g && p + 24 <= 8 * |f|
    requires forall i :: 0 <= i < 8 * |f| && !(p <= i < p + 24) ==> BitsOf(f)[i] == BitsOf(g)[i]
    requires Remainder(f) == 0
    ensures Remainder(g) != 0
  {
    hide Xor, BitStep, BitsOf, Remainder;
    var d := Difference(BitsOf(f), BitsOf(g));
    if Remainder(g) == 0 {
      DifferenceDivides(f, g);
      XorUndoes(0, 0);
      var w := d[p..p + 24];
      var rest := |d| - (p + 24);
      assert d == Zeros(p) + (w + Zeros(rest));
      FeedConcat(BitStep, 0, Zeros(p), w + Zeros(rest));
      ZerosKeepNonzero(0, p);
      FeedConcat(BitStep, 0, w, Zeros(rest));
      FeedInRegister(w);
      ZerosKeepNonzero(Feed(BitStep, 0, w), rest);
      ShortPatternDivides(w);
      assert d == Zeros(|d|);
      forall i | 0 <= i < |d| ensures BitsOf(f)[i] == BitsOf(g)[i] {
        assert !d[i];
      }
      assert BitsOf(f) == BitsOf(g);
      BitsOfInjective(f, g);
    }
  }

  lemma BitStepInRegister(x: bv32, b: bool)
    ensures InRegister(BitStep(x, b))
  {
  }

  lemma FeedInRegister(w: seq<bool>)
    ensures InRegister(Feed(BitStep, 0, w))
  {
    hide BitStep;
    if w != [] {
      var n := |w| - 1;
      assert w == w[..n] + [w[n]];
      FeedConcat(BitStep, 0, w[..n], [w[n]]);
      BitStepInRegister(Feed(BitStep, 0, w[..n]), w[n]);
      assert Feed(BitStep, Feed(BitStep, 0, w[..n]), [w[n]]) == BitStep(Feed(BitStep, 0, w[..n]), w[n]);
    }
  }

  // ------------------------------------------------------------------
  // Parity
  // ------------------------------------------------------------------

  function ShiftUp(x: bv32): bv32 { (x << 1) & 0xFFFFFF }

  predicate OnTopBit(x: bv32) { x & TOP_BIT != 0 }

  /** Parity of the n highest bits of the register. */
  predicate OddAmong(x: bv32, n: nat)
    decreases n
  {
    if n == 0 then false else Flip(OnTopBit(x), OddAmong(ShiftUp(x), n - 1))
  }

  predicate Odd(x: bv32) { OddAmong(x, 24) }

  lemma TopBitAdds(x: bv32, y: bv32)
    ensures OnTopBit(Xor(x, y)) == Flip(OnTopBit(x), OnTopBit(y))
  {
  }

  lemma ShiftUpXor(x: bv32, y: bv32)
    ensures ShiftUp(Xor(x, y)) == Xor(ShiftUp(x), ShiftUp(y))
  {
  }

  lemma {:induction false} ParityAdds(x: bv32, y: bv32, n: nat)
    ensures OddAmong(Xor(x, y), n) == Flip(OddAmong(x, n), OddAmong(y, n))
    decreases n
  {
    hide Xor, OnTopBit, ShiftUp;
    if n > 0 {
      TopBitAdds(x, y);
      ShiftUpXor(x, y);
      ParityAdds(ShiftUp(x), ShiftUp(y), n - 1);
    }
  }

  lemma {:induction false} ParityOfOneMore(x: bv32, n: nat)
    ensures OddAmong(x, n + 1) == Flip(OddAmong(x, n), OnTopBit(Iterate(ShiftUp, x, n)))
    decreases n
  {
    hide OnTopBit, ShiftUp;
    if n > 0 {
      ParityOfOneMore(ShiftUp(x), n - 1);
    } else {
      assert OddAmong(ShiftUp(x), 0) == false;
    }
  }

  lemma ShiftUpEight(x: bv32)
    ensures ShiftUp(ShiftUp(ShiftUp(ShiftUp(ShiftUp(ShiftUp(ShiftUp(ShiftUp(x)))))))) == (x << 8) & MASK
  {
  }

  lemma {:induction false} IterateAdds(x: bv32, m: nat, n: nat)
    ensures Iterate(ShiftUp, x, m + n) == Iterate(ShiftUp, Iterate(ShiftUp, x, m), n)
    decreases m
  {
    hide ShiftUp;
    if m > 0 {
      IterateAdds(ShiftUp(x), m - 1, n);
    }
  }

  lemma ShiftedOutOfRegister(x: bv32)
    ensures (((((x << 8) & MASK) << 8) & MASK) << 8) & MASK == 0
    ensures !OnTopBit(0)
  {
  }

  lemma NothingBelow(x: bv32)
    ensures !OnTopBit(Iterate(ShiftUp, x, 24))
  {
    hide ShiftUp, OnTopBit;
    IterateAdds(x, 8, 16);
    Iterate8(ShiftUp, x);
    ShiftUpEight(x);
    var y := (x << 8) & MASK;
    IterateAdds(y, 8, 8);
    Iterate8(ShiftUp, y);
    ShiftUpEight(y);
    var z := (y << 8) & MASK;
    Iterate8(ShiftUp, z);
    ShiftUpEight(z);
    ShiftedOutOfRegister(x);
  }

  lemma {:induction false} ZeroIsEven(n: nat)
    ensures !OddAmong(0, n)
    decreases n
  {
    if n > 0 {
      ZeroIsEven(n - 1);
    }
  }

  /** The generator has an even number of terms, so its low 24 bits have odd parity. */
  lemma GeneratorIsOdd()
    ensures Odd(0x864CFB)
  {
    assert !OddAmong(0xC00000, 2);
    assert OddAmong(0xB00000, 4);
    assert OddAmong(0xEC0000, 6);
    assert OddAmong(0xFB0000, 8);
    assert OddAmong(0x3EC000, 10);
    assert OddAmong(0xCFB000, 12);
    assert OddAmong(0x33EC00, 14);
    assert !OddAmong(0x4CFB00, 16);
    assert OddAmong(0x933EC0, 18);
    assert !OddAmong(0x64CFB0, 20);
    assert !OddAmong(0x1933EC, 22);
    assert OddAmong(0x864CFB, 24);
  }

  lemma InputParity(b: bool)
    ensures Odd(Input(b)) == b
  {
    ZeroIsEven(24);
    ZeroIsEven(23);
  }

  lemma CarryParts(x: bv32)
    requires x & TOP_BIT != 0
    ensures ShiftBit(x) == ShiftUp(x) ^ 0x864CFB
  {
  }

  lemma NoCarryParts(x: bv32)
    requires x & TOP_BIT == 0
    ensures ShiftBit(x) == ShiftUp(x)
  {
  }

  lemma ShiftParts(x: bv32)
    ensures ShiftBit(x) == if OnTopBit(x) then Xor(ShiftUp(x), 0x864CFB) else ShiftUp(x)
  {
    hide ShiftBit, ShiftUp;
    if x & TOP_BIT != 0 { CarryParts(x); } else { NoCarryParts(x); }
  }

  /** A division step keeps the parity of the register. */
  lemma ShiftKeepsParity(x: bv32)
    ensures Odd(ShiftBit(x)) == Odd(x)
  {
    hide Xor, OnTopBit, ShiftUp, ShiftBit;
    ParityOfOneMore(x, 24);
    NothingBelow(x);
    assert OddAmong(x, 25) == Flip(OnTopBit(x), OddAmong(ShiftUp(x), 24));
    ShiftParts(x);
    ParityAdds(ShiftUp(x), 0x864CFB, 24);
    GeneratorIsOdd();
  }

  lemma BitFlipsParity(x: bv32, b: bool)
    ensures Odd(BitStep(x, b)) == (Odd(x) != b)
  {
    hide Xor, ShiftBit, Input, OddAmong;
    ShiftKeepsParity(Xor(x, Input(b)));
    ParityAdds(x, Input(b), 24);
    InputParity(b);
  }

  /** Every error pattern with an odd number of flipped bits breaks the division. */
  lemma OddErrorNeverDivides(f: bytes, g: bytes)
    requires |f| == |g| && Remainder(f) == 0
    requires CountTrue(Difference(BitsOf(f), BitsOf(g))) % 2 == 1
    ensures Remainder(g) != 0
  {
    hide Xor, BitStep, BitsOf, Remainder, Odd;
    forall x, b ensures Odd(BitStep(x, b)) == (Odd(x) != b) {
      BitFlipsParity(x, b);
    }
    DifferenceDivides(f, g);
    FeedParity(BitStep, Odd, 0, Difference(BitsOf(f), BitsOf(g)));
    XorUndoes(0, Remainder(g));
    InputParity(false);
    assert !Odd(0);
  }
}
