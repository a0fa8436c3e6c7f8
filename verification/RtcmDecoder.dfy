/** RTCM 3 frame layer of the relay: length field, frame check, message number. */
module RtcmDecoder {
  import opened Bytes
  import opened Crc24q
  import opened Crc24qDivision
  import opened Crc24qDetection
  import opened Crc24qPeriod
  import opened LinearRegister

  const PREAMBLE: byte := 0xD3
  const MAX_PAYLOAD: nat := 1023
  const MAX_FRAME: nat := 1029

  /** The 10-bit payload length in the second and third byte of a frame. */
  function PayloadLength(b1: byte, b2: byte): (n: nat)
    ensures n <= MAX_PAYLOAD
  {
    ((((b1 & 0x03) as bv16) << 8) | (b2 as bv16)) as int
  }

  // ------------------------------------------------------------------
  // Checksum
  // ------------------------------------------------------------------

  predicate ValidateCrc24q(frame: bytes) {
    && |frame| >= 6
    && (var n := |frame| - 3;
        Remainder(frame[..n]) == TrailerValue(frame[n], frame[n + 1], frame[n + 2]))
  }

  /** The decoder's check, run with the table-driven loop. */
  method CheckCrc24q(frame: bytes) returns (ok: bool)
    ensures ok == ValidateCrc24q(frame)
  {
    if |frame| < 6 { return false; }
    var n := |frame| - 3;
    var computed := CalcCrc24q(frame[..n]);
    ok := computed == TrailerValue(frame[n], frame[n + 1], frame[n + 2]);
  }

  lemma ValidIffDivides(frame: bytes)
    requires |frame| >= 6
    ensures ValidateCrc24q(frame) <==> Remainder(frame) == 0
  {
    hide Remainder, TrailerValue;
    TrailerMatchesIffDivides(frame);
  }

  /** Flipping any non-empty set of bits within 24 consecutive bits of a valid frame is detected. */
  lemma BurstDetected(frame: bytes, damaged: bytes, p: nat)
    requires ValidateCrc24q(frame) && |damaged| == |frame| && damaged != frame
    requires p + 24 <= 8 * |frame|
    requires forall i :: 0 <= i < 8 * |frame| && !(p <= i < p + 24) ==> BitsOf(frame)[i] == BitsOf(damaged)[i]
    ensures !ValidateCrc24q(damaged)
  {
    hide Remainder, TrailerValue, BitsOf;
    ValidIffDivides(frame);
    ValidIffDivides(damaged);
    BurstNeverDivides(frame, damaged, p);
  }

  /** In particular, damage confined to three consecutive bytes is detected. */
  lemma ThreeByteDamageDetected(frame: bytes, damaged: bytes, k: nat)
    requires ValidateCrc24q(frame) && |damaged| == |frame| && damaged != frame
    requires k + 3 <= |frame|
    requires forall i :: 0 <= i < |frame| && !(k <= i < k + 3) ==> frame[i] == damaged[i]
    ensures !ValidateCrc24q(damaged)
  {
    hide ValidateCrc24q, BitsOf;
    forall i | 0 <= i < 8 * |frame| && !(8 * k <= i < 8 * k + 24)
      ensures BitsOf(frame)[i] == BitsOf(damaged)[i]
    {
      BitOfByte(frame, i);
      BitOfByte(damaged, i);
    }
    BurstDetected(frame, damaged, 8 * k);
  }

  lemma {:induction false} BitOfByte(data: bytes, i: nat)
    requires i < 8 * |data|
    ensures BitsOf(data)[i] == ByteBits(data[i / 8])[i % 8]
    decreases |data|
  {
    hide ByteBits;
    var n := |data| - 1;
    if i < 8 * n {
      BitOfByte(data[..n], i);
    }
  }

  lemma OddDamageDetected(frame: bytes, damaged: bytes)
    requires ValidateCrc24q(frame) && |damaged| == |frame|
    requires CountTrue(Difference(BitsOf(frame), BitsOf(damaged))) % 2 == 1
    ensures !ValidateCrc24q(damaged)
  {
    hide Remainder, TrailerValue, BitsOf;
    ValidIffDivides(frame);
    ValidIffDivides(damaged);
    OddErrorNeverDivides(frame, damaged);
  }

  /** Two flipped bits go unnoticed exactly when they are a multiple of 2^23 - 1 bits apart. */
  lemma TwoFlipsPassIff(frame: bytes, damaged: bytes, i: nat, j: nat)
    requires ValidateCrc24q(frame) && |damaged| == |frame|
    requires OnlyAt(Difference(BitsOf(frame), BitsOf(damaged)), i, j)
    ensures ValidateCrc24q(damaged) <==> (j - i) % ORDER == 0
  {
    hide Remainder, TrailerValue, BitsOf, OnlyAt;
    ValidIffDivides(frame);
    ValidIffDivides(damaged);
    TwoFlipsIff(frame, damaged, i, j);
  }

  /** Up to three flipped bits are always noticed; a frame has at most 8232 bits. */
  lemma ThreeFlipsDetected(frame: bytes, damaged: bytes)
    requires ValidateCrc24q(frame) && |damaged| == |frame| && 8 * |frame| <= ORDER
    requires 1 <= CountTrue(Difference(BitsOf(frame), BitsOf(damaged))) <= 3
    ensures !ValidateCrc24q(damaged)
  {
    hide Remainder, TrailerValue, BitsOf, CountTrue;
    ValidIffDivides(frame);
    ValidIffDivides(damaged);
    FewFlipsNeverDivide(frame, damaged);
  }

  // ------------------------------------------------------------------
  // Frames
  // ------------------------------------------------------------------

  predicate IsValidRtcmFrame(data: bytes) {
    && |data| >= 8
    && data[0] == PREAMBLE
    && (var length := PayloadLength(data[1], data[2]);
        && length <= MAX_PAYLOAD
        && |data| >= 3 + length + 3
        && ValidateCrc24q(data[..3 + length + 3]))
  }

  function MessageNumber(b3: byte, b4: byte): (id: nat)
    ensures id <= 4095
  {
    (((b3 as bv16) << 4) | ((b4 as bv16) >> 4)) as int
  }

  function ExtractMessageId(data: bytes): (id: Option<nat>)
    ensures id.Some? ==> id.value <= 4095
  {
    if |data| < 8 then None
    else if data[0] != PREAMBLE then None
    else
      var length := PayloadLength(data[1], data[2]);
      if length > MAX_PAYLOAD then None
      else if |data| < 3 + length + 3 then None
      else if !ValidateCrc24q(data[..3 + length + 3]) then None
      else
        var id := MessageNumber(data[3], data[4]);
        if id > 4095 then None else Some(id)
  }

  /** What the standard calls a frame, with its exact length: preamble, 10-bit length,
      at least two payload bytes, and a checksum that makes the whole divide evenly. */
  predicate IsFrame(f: bytes) {
    && |f| >= 8
    && f[0] == PREAMBLE
    && |f| == 6 + PayloadLength(f[1], f[2])
    && Remainder(f) == 0
  }

  lemma FrameAccepted(f: bytes)
    requires |f| >= 3 && |f| == 6 + PayloadLength(f[1], f[2])
    ensures IsValidRtcmFrame(f) <==> IsFrame(f)
    ensures IsValidRtcmFrame(f) ==> ExtractMessageId(f) == Some(MessageNumber(f[3], f[4]))
  {
    hide Remainder, TrailerValue, PayloadLength, MessageNumber;
    assert f[..|f|] == f;
    ValidIffDivides(f);
  }

  // ------------------------------------------------------------------
  // The frame printer
  // ------------------------------------------------------------------

  /** The 16-bit word that holds a payload length. */
  function LengthWord(n: nat): (w: bv16)
    requires n <= MAX_PAYLOAD
    ensures w as int == n && w <= 1023
  {
    if n == 0 then 0 else LengthWord(n - 1) + 1
  }

  function HighLength(w: bv16): byte { ((w >> 8) & 0x03) as bv8 }

  function LowLength(w: bv16): byte { (w & 0xFF) as bv8 }

  lemma LengthRoundTrip(w: bv16)
    requires w <= 1023
    ensures PayloadLength(HighLength(w), LowLength(w)) == w as int
  {
  }

  function TrailerOf(crc: bv32): (t: bytes)
    requires crc <= MASK
    ensures |t| == 3
  {
    [((crc >> 16) & 0xFF) as bv8, ((crc >> 8) & 0xFF) as bv8, (crc & 0xFF) as bv8]
  }

  lemma TrailerRoundTrip(crc: bv32)
    requires crc <= MASK
    ensures var t := TrailerOf(crc); TrailerValue(t[0], t[1], t[2]) == crc
  {
  }

  lemma TrailerPrintsBack(t0: byte, t1: byte, t2: byte)
    ensures TrailerValue(t0, t1, t2) <= MASK && TrailerOf(TrailerValue(t0, t1, t2)) == [t0, t1, t2]
  {
  }

  function Header(n: nat): (h: bytes)
    requires n <= MAX_PAYLOAD
    ensures |h| == 3
  {
    [PREAMBLE, HighLength(LengthWord(n)), LowLength(LengthWord(n))]
  }

  /** A message printed as a frame. */
  function ToBytes(payload: bytes): bytes
    requires |payload| <= MAX_PAYLOAD
  {
    var message := Header(|payload|) + payload;
    message + TrailerOf(Remainder(message))
  }

  /** A printed message of at least two bytes is a frame, and the frame carries the payload. */
  lemma PrintedIsFrame(payload: bytes)
    requires 2 <= |payload| <= MAX_PAYLOAD
    ensures IsFrame(ToBytes(payload))
    ensures ToBytes(payload)[3..|payload| + 3] == payload
  {
    hide Remainder, TrailerValue, TrailerOf, PayloadLength, HighLength, LowLength;
    var message := Header(|payload|) + payload;
    var f := ToBytes(payload);
    assert f[..|f| - 3] == message;
    LengthRoundTrip(LengthWord(|payload|));
    TrailerRoundTrip(Remainder(message));
    TrailerMatchesIffDivides(f);
  }

  predicate ReservedBitsClear(b1: byte) { b1 & 0xFC == 0 }

  lemma LengthFieldIsWord(b1: byte, b2: byte)
    requires ReservedBitsClear(b1)
    ensures var w := LengthWord(PayloadLength(b1, b2)); HighLength(w) == b1 && LowLength(w) == b2
  {
    var v := (((b1 & 0x03) as bv16) << 8) | (b2 as bv16);
    SameWord(LengthWord(PayloadLength(b1, b2)), v);
  }

  lemma SameWord(v: bv16, w: bv16)
    requires v as int == w as int
    ensures v == w
  {
    assert (v as int) as bv16 == v && (w as int) as bv16 == w;
  }

  lemma HeaderIsPrinted(f: bytes)
    requires IsFrame(f) && ReservedBitsClear(f[1])
    ensures f[..3] == Header(|f| - 6)
  {
    hide Remainder, PayloadLength, HighLength, LowLength, ReservedBitsClear;
    LengthFieldIsWord(f[1], f[2]);
  }

  lemma TrailerIsPrinted(f: bytes)
    requires |f| >= 6 && Remainder(f) == 0
    ensures f[|f| - 3..] == TrailerOf(Remainder(f[..|f| - 3]))
  {
    hide Remainder, TrailerValue, TrailerOf;
    var n := |f| - 3;
    TrailerMatchesIffDivides(f);
    TrailerPrintsBack(f[n], f[n + 1], f[n + 2]);
  }

  /** A frame whose reserved bits are clear is exactly what the printer makes of its payload. */
  lemma FrameIsPrinted(f: bytes)
    requires IsFrame(f) && ReservedBitsClear(f[1])
    ensures f == ToBytes(f[3..|f| - 3])
  {
    hide Remainder, TrailerOf, PayloadLength, ReservedBitsClear, Header;
    HeaderIsPrinted(f);
    TrailerIsPrinted(f);
    var n := |f| - 3;
    assert f[..n] == f[..3] + f[3..n];
    assert f == f[..n] + f[n..];
  }
}
