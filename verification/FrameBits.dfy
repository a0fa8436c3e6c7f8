/** The fields of a frame as the standard counts them: in bits, the most significant first. */
module FrameBits {
  import opened Bytes
  import opened Crc24qDivision
  import opened Crc24qDetection
  import opened RtcmDecoder
  import opened FrameExtraction

  /** The number some bits stand for. */
  function Value(bits: seq<bool>): nat {
    if bits == [] then 0
    else 2 * Value(bits[..|bits| - 1]) + if bits[|bits| - 1] then 1 else 0
  }

  /** A number in n bits. */
  function Binary(v: nat, n: nat): (bits: seq<bool>)
    ensures |bits| == n
  {
    if n == 0 then [] else Binary(v / 2, n - 1) + [v % 2 == 1]
  }

  function TwoTo(n: nat): nat {
    if n == 0 then 1 else 2 * TwoTo(n - 1)
  }

  lemma {:induction false} ValueOfBinary(v: nat, n: nat)
    requires v < TwoTo(n)
    ensures Value(Binary(v, n)) == v
  {
    if n > 0 {
      ValueOfBinary(v / 2, n - 1);
      assert Binary(v, n)[..n - 1] == Binary(v / 2, n - 1);
    }
  }

  lemma Twice(a: nat, p: nat)
    ensures 2 * (a * p) == a * (2 * p)
  {
  }

  lemma {:induction false} ValueAppend(a: seq<bool>, b: seq<bool>)
    ensures Value(a + b) == Value(a) * TwoTo(|b|) + Value(b)
    decreases |b|
  {
    if b == [] {
      assert a + b == a;
    } else {
      var n := |b| - 1;
      LastBit(a, b);
      LastBit([], b);
      assert [] + b == b && [] + b[..n] == b[..n];
      assert TwoTo(n + 1) == 2 * TwoTo(n);
      hide Value, TwoTo;
      ValueAppend(a, b[..n]);
      Twice(Value(a), TwoTo(n));
    }
  }

  lemma LastBit(a: seq<bool>, b: seq<bool>)
    requires b != []
    ensures Value(a + b) == 2 * Value(a + b[..|b| - 1]) + if b[|b| - 1] then 1 else 0
  {
    assert (a + b)[..|a + b| - 1] == a + b[..|b| - 1];
  }

  lemma PowersOfTwo()
    ensures TwoTo(4) == 16 && TwoTo(8) == 256 && TwoTo(12) == 4096
  {
    assert TwoTo(2) == 4 && TwoTo(6) == 64 && TwoTo(10) == 1024;
  }

  lemma FourBits(p: bool, q: bool, r: bool, s: bool)
    ensures Value([p, q, r, s]) == (if p then 8 else 0) + (if q then 4 else 0) + (if r then 2 else 0) + (if s then 1 else 0)
  {
    assert [p, q, r, s][..3] == [p, q, r] && [p, q, r][..2] == [p, q] && [p, q][..1] == [p] && [p][..0] == [];
    assert Value([p]) == if p then 1 else 0;
    assert Value([p, q]) == 2 * Value([p]) + if q then 1 else 0;
    assert Value([p, q, r]) == 2 * Value([p, q]) + if r then 1 else 0;
  }

  lemma TwoBits(p: bool, q: bool)
    ensures Value([p, q]) == (if p then 2 else 0) + if q then 1 else 0
  {
    assert [p, q][..1] == [p] && [p][..0] == [];
    assert Value([p]) == if p then 1 else 0;
  }

  lemma HighHalf(b: byte)
    ensures (if b & 0x80 != 0 then 8 else 0) + (if b & 0x40 != 0 then 4 else 0) + (if b & 0x20 != 0 then 2 else 0)
            + (if b & 0x10 != 0 then 1 else 0) == b as int / 16
  {
  }

  lemma LowHalf(b: byte)
    ensures (if b & 0x08 != 0 then 8 else 0) + (if b & 0x04 != 0 then 4 else 0) + (if b & 0x02 != 0 then 2 else 0)
            + (if b & 0x01 != 0 then 1 else 0) == b as int % 16
  {
  }

  lemma LowTwo(b: byte)
    ensures (if b & 0x02 != 0 then 2 else 0) + (if b & 0x01 != 0 then 1 else 0) == b as int % 4
  {
  }

  lemma HighOfByte(b: byte)
    ensures Value(ByteBits(b)[..4]) == b as int / 16
  {
    hide Value;
    HighHalf(b);
    FourBits(b & 0x80 != 0, b & 0x40 != 0, b & 0x20 != 0, b & 0x10 != 0);
    assert ByteBits(b)[..4] == [b & 0x80 != 0, b & 0x40 != 0, b & 0x20 != 0, b & 0x10 != 0];
  }

  lemma LowOfByte(b: byte)
    ensures Value(ByteBits(b)[4..]) == b as int % 16
  {
    hide Value;
    LowHalf(b);
    FourBits(b & 0x08 != 0, b & 0x04 != 0, b & 0x02 != 0, b & 0x01 != 0);
    assert ByteBits(b)[4..] == [b & 0x08 != 0, b & 0x04 != 0, b & 0x02 != 0, b & 0x01 != 0];
  }

  lemma LastTwoOfByte(b: byte)
    ensures Value(ByteBits(b)[6..]) == b as int % 4
  {
    hide Value;
    LowTwo(b);
    TwoBits(b & 0x02 != 0, b & 0x01 != 0);
    assert ByteBits(b)[6..] == [b & 0x02 != 0, b & 0x01 != 0];
  }

  lemma ValueOfByte(b: byte)
    ensures Value(ByteBits(b)) == b as int
  {
    hide Value, ByteBits;
    var s := ByteBits(b);
    HighOfByte(b);
    LowOfByte(b);
    ValueAppend(s[..4], s[4..]);
    PowersOfTwo();
    assert s == s[..4] + s[4..];
    assert b as int == 16 * (b as int / 16) + b as int % 16;
  }

  lemma NumberInTwo(b3: byte, b4: byte)
    ensures MessageNumber(b3, b4) == 16 * (b3 as int) + b4 as int / 16
  {
  }

  lemma LengthInTwo(b1: byte, b2: byte)
    ensures PayloadLength(b1, b2) == 256 * (b1 as int % 4) + b2 as int
  {
  }

  // ------------------------------------------------------------------
  // The fields of a frame
  // ------------------------------------------------------------------

  lemma BitAt(f: bytes, k: nat, m: nat)
    requires k < |f| && m < 8
    ensures BitsOf(f)[8 * k + m] == ByteBits(f[k])[m]
  {
    hide ByteBits, BitsOf;
    BitOfByte(f, 8 * k + m);
  }

  /** Bits of a string, the first so many of them in one byte and the others in the next. */
  lemma BitsAcross(f: bytes, k: nat, w: seq<bool>, a: seq<bool>, b: seq<bool>)
    requires k + 2 <= |f| && |a| <= 8 && |b| <= 8
    requires a == ByteBits(f[k])[8 - |a|..] && b == ByteBits(f[k + 1])[..|b|]
    requires w == BitsOf(f)[8 * k + 8 - |a|..8 * k + 8 + |b|]
    ensures Value(w) == Value(a) * TwoTo(|b|) + Value(b)
  {
    hide ByteBits, BitsOf, Value, TwoTo;
    var s := BitsOf(f);
    forall n | 0 <= n < |a| ensures w[n] == a[n] {
      BitAt(f, k, 8 - |a| + n);
    }
    forall n | 0 <= n < |b| ensures w[|a| + n] == b[n] {
      BitAt(f, k + 1, n);
    }
    Joined(w, a, b);
    ValueAppend(a, b);
  }

  lemma Joined(w: seq<bool>, a: seq<bool>, b: seq<bool>)
    requires |w| == |a| + |b|
    requires forall n :: 0 <= n < |a| ==> w[n] == a[n]
    requires forall n :: 0 <= n < |b| ==> w[|a| + n] == b[n]
    ensures w == a + b
  {
    forall n | |a| <= n < |w| ensures w[n] == (a + b)[n] {
      assert w[|a| + (n - |a|)] == b[n - |a|];
    }
  }

  /** Bits 14 to 23: the length. Whatever the six reserved bits before it hold, they do not count. */
  lemma LengthIsTenBits(f: bytes)
    requires |f| >= 3
    ensures PayloadLength(f[1], f[2]) == Value(BitsOf(f)[14..24])
  {
    hide Value, ByteBits, BitsOf, PayloadLength, TwoTo;
    var a, b := ByteBits(f[1])[6..], ByteBits(f[2]);
    assert b == ByteBits(f[2])[..8];
    BitsAcross(f, 1, BitsOf(f)[14..24], a, b);
    LengthParts(f[1], f[2], Value(a), Value(b));
  }

  lemma LengthParts(b1: byte, b2: byte, high: nat, low: nat)
    requires high == Value(ByteBits(b1)[6..]) && low == Value(ByteBits(b2))
    ensures PayloadLength(b1, b2) == high * TwoTo(8) + low
  {
    hide Value, ByteBits, PayloadLength, TwoTo;
    LastTwoOfByte(b1);
    ValueOfByte(b2);
    PowersOfTwo();
    LengthInTwo(b1, b2);
  }

  /** Bits 24 to 35: the message number. */
  lemma NumberIsTwelveBits(f: bytes)
    requires |f| >= 5
    ensures MessageNumber(f[3], f[4]) == Value(BitsOf(f)[24..36])
  {
    hide Value, ByteBits, BitsOf, MessageNumber, TwoTo;
    var a, b := ByteBits(f[3]), ByteBits(f[4])[..4];
    assert a == ByteBits(f[3])[0..];
    BitsAcross(f, 3, BitsOf(f)[24..36], a, b);
    NumberParts(f[3], f[4], Value(a), Value(b));
  }

  lemma NumberParts(b3: byte, b4: byte, high: nat, low: nat)
    requires high == Value(ByteBits(b3)) && low == Value(ByteBits(b4)[..4])
    ensures MessageNumber(b3, b4) == high * TwoTo(4) + low
  {
    hide Value, ByteBits, MessageNumber, TwoTo;
    ValueOfByte(b3);
    HighOfByte(b4);
    PowersOfTwo();
    NumberInTwo(b3, b4);
  }

  /** A frame, field by field: 0xD3, six reserved bits, ten of length, at least two bytes of payload,
      and a checksum that leaves remainder 0. */
  lemma FrameByBits(f: bytes)
    ensures IsFrame(f) <==>
      |f| >= 8 && f[0] == 0xD3 && |f| == 6 + Value(BitsOf(f)[14..24]) && Remainder(f) == 0
    ensures IsFrame(f) ==> ExtractMessageId(f) == Some(Value(BitsOf(f)[24..36]))
  {
    hide Value, BitsOf, Remainder, PayloadLength, MessageNumber, IsValidRtcmFrame, ExtractMessageId;
    if |f| >= 8 {
      LengthIsTenBits(f);
      NumberIsTwelveBits(f);
      if IsFrame(f) { FrameAccepted(f); }
    }
  }

  /** A message whose first twelve bits are a number is printed as a frame with that number. */
  lemma PrintedNumberComesBack(payload: bytes, id: nat)
    requires 2 <= |payload| <= 1023 && id <= 4095 && BitsOf(payload)[..12] == Binary(id, 12)
    ensures ExtractMessageId(ToBytes(payload)) == Some(id)
  {
    hide Value, BitsOf, ByteBits, IsFrame, ExtractMessageId, ToBytes;
    var f := ToBytes(payload);
    PrintedIsFrame(payload);
    PrintedSize(payload);
    FrameByBits(f);
    forall i | 0 <= i < 12 ensures BitsOf(f)[24..36][i] == BitsOf(payload)[..12][i] {
      BitOfByte(f, 24 + i);
      BitOfByte(payload, i);
      assert f[(24 + i) / 8] == f[3..|payload| + 3][i / 8];
    }
    assert BitsOf(f)[24..36] == BitsOf(payload)[..12];
    PowersOfTwo();
    ValueOfBinary(id, 12);
  }

  lemma PrintedSize(payload: bytes)
    requires |payload| <= 1023
    ensures |ToBytes(payload)| == |payload| + 6
  {
  }

  /** Every frame the extractor emits starts with 0xD3, is as long as its length field says, and comes
      with the number in its bits. */
  lemma EmittedByBits(buf: bytes, k: nat)
    requires k < |ParseBuffer(buf).frames|
    ensures var p := ParseBuffer(buf).frames[k];
      && |p.data| >= 8 && p.data[0] == 0xD3 && Remainder(p.data) == 0
      && |p.data| == 6 + Value(BitsOf(p.data)[14..24]) && p.id == Value(BitsOf(p.data)[24..36])
  {
    hide Value, BitsOf, Remainder, IsFrame, IsValidRtcmFrame, ExtractMessageId, ParseBuffer;
    EmittedAreGenuine(buf);
    var p := ParseBuffer(buf).frames[k];
    GenuineIsFrame(p);
    FrameByBits(p.data);
  }

  lemma GenuineIsFrame(p: ParsedFrame)
    requires Genuine(p)
    ensures IsFrame(p.data) && ExtractMessageId(p.data) == Some(p.id)
  {
    hide Remainder, PayloadLength, MessageNumber;
    FrameAccepted(p.data);
  }
}
