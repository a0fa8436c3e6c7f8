/** CRC-24Q as bitwise division by the generator polynomial, and what it detects. */
module Crc24qDivision {
  import opened Bytes
  import opened LinearRegister

  const POLYNOMIAL: bv32 := 0x1864CFB
  const MASK: bv32 := 0xFFFFFF
  const TOP_BIT: bv32 := 0x800000

  // ------------------------------------------------------------------
  // Bitwise division
  // ------------------------------------------------------------------

  /** Addition of polynomials with coefficients 0 and 1. */
  function Xor(x: bv32, y: bv32): bv32 { x ^ y }

  /** One step of polynomial long division: shift left, subtract the generator on a carry. */
  function ShiftBit(crc: bv32): bv32 {
    (if crc & TOP_BIT != 0 then (crc << 1) ^ POLYNOMIAL else crc << 1) & MASK
  }

  function Shift8(crc: bv32): bv32 {
    Iterate(ShiftBit, crc, 8)
  }

  function ByteStep(crc: bv32, b: byte): bv32 {
    Shift8(Xor(crc, (b as bv32) << 16))
  }

  /** The remainder of a byte string, dividing bit by bit. */
  function Remainder(data: bytes): (crc: bv32)
    ensures crc <= MASK
  {
    if data == [] then 0
    else ByteStep(Remainder(data[..|data| - 1]), data[|data| - 1])
  }

  // ------------------------------------------------------------------
  // Linearity
  // ------------------------------------------------------------------

  lemma ShiftXorNoCarry(x: bv32, y: bv32)
    requires x & TOP_BIT == 0 && y & TOP_BIT == 0
    ensures ShiftBit(x ^ y) == ShiftBit(x) ^ ShiftBit(y)
  {
  }

  lemma ShiftXorRightCarry(x: bv32, y: bv32)
    requires x & TOP_BIT == 0 && y & TOP_BIT != 0
    ensures ShiftBit(x ^ y) == ShiftBit(x) ^ ShiftBit(y)
  {
  }

  lemma ShiftXorLeftCarry(x: bv32, y: bv32)
    requires x & TOP_BIT != 0 && y & TOP_BIT == 0
    ensures ShiftBit(x ^ y) == ShiftBit(x) ^ ShiftBit(y)
  {
  }

  lemma ShiftXorBothCarry(x: bv32, y: bv32)
    requires x & TOP_BIT != 0 && y & TOP_BIT != 0
    ensures ShiftBit(x ^ y) == ShiftBit(x) ^ ShiftBit(y)
  {
  }

  lemma ShiftXor(x: bv32, y: bv32)
    ensures ShiftBit(x ^ y) == ShiftBit(x) ^ ShiftBit(y)
  {
    if x & TOP_BIT == 0 && y & TOP_BIT == 0 {
      ShiftXorNoCarry(x, y);
    } else if x & TOP_BIT == 0 {
      ShiftXorRightCarry(x, y);
    } else if y & TOP_BIT == 0 {
      ShiftXorLeftCarry(x, y);
    } else {
      ShiftXorBothCarry(x, y);
    }
  }

  lemma ShiftAdditive()
    ensures AdditiveMap(ShiftBit, Xor)
  {
    forall x, y
      ensures ShiftBit(Xor(x, y)) == Xor(ShiftBit(x), ShiftBit(y))
    {
      ShiftXor(x, y);
    }
  }

  lemma Shift8Additive(x: bv32, y: bv32)
    ensures Shift8(Xor(x, y)) == Xor(Shift8(x), Shift8(y))
  {
    hide ShiftBit, Xor;
    ShiftAdditive();
    IterateAdditive(ShiftBit, Xor, x, y, 8);
  }

  lemma Shift8Low(x: bv32)
    requires x <= 0xFFFF
    ensures Shift8(x) == x << 8
  {
  }

  /** What the byte meets at the top of the register: the index of the look-up. */
  function TopByte(crc: bv32, b: byte): bv32 {
    (crc >> 16) ^ (b as bv32)
  }

  lemma TopByteIsByte(crc: bv32, b: byte)
    requires crc <= MASK
    ensures TopByte(crc, b) <= 0xFF
  {
  }

  /** The byte only touches the top of the register... */
  lemma ByteMeetsTop(crc: bv32, b: byte)
    ensures Xor(crc, (b as bv32) << 16) == Xor(crc & 0xFFFF, TopByte(crc, b) << 16)
  {
  }

  /** ...and the rest of it moves up. */
  lemma LowMovesUp(crc: bv32)
    requires crc <= MASK
    ensures crc & 0xFFFF <= 0xFFFF
    ensures (crc & 0xFFFF) << 8 == (crc << 8) & MASK
  {
  }

  lemma ByteStepSplits(crc: bv32, b: byte)
    requires crc <= MASK
    ensures ByteStep(crc, b) == Xor((crc << 8) & MASK, Shift8(TopByte(crc, b) << 16))
  {
    hide ShiftBit, Shift8, Xor, TopByte;
    ByteMeetsTop(crc, b);
    LowMovesUp(crc);
    Shift8Additive(crc & 0xFFFF, TopByte(crc, b) << 16);
    Shift8Low(crc & 0xFFFF);
  }
}
