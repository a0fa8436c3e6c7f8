/** CRC-24Q misses two flipped bits exactly when they are a multiple of 2^23 - 1 bits apart:
    that is the order of x modulo the generator. */
module Crc24qPeriod {
  import opened Bytes
  import opened LinearRegister
  import opened Crc24qDivision
  import opened Crc24qDetection
  import opened Crc24qOrder

  // ------------------------------------------------------------------
  // Which powers of x leave 1
  // ------------------------------------------------------------------

  /** The claim that x^n leaves p. */
  datatype Residue = Residue(n: nat, p: Poly)

  predicate Leaves(r: Residue) { Rest(Power(r.n)) == Rest(Coefficients(r.p)) }

  predicate Follows(r: Residue, s: Residue) {
    (s.n == 2 * r.n && SquaresTo(r.p, s.p)) || (s.n == r.n + 8 && ShiftsTo(r.p, s.p))
  }

  /** Squaring or shifting a known remainder gives the next one. */
  lemma LeavesNext(r: Residue, s: Residue)
    requires Leaves(r) && Follows(r, s)
    ensures Leaves(s)
  {
    hide Rest, Square, SquaresTo, ShiftsTo, Coefficients, Power;
    if s.n == 2 * r.n && SquaresTo(r.p, s.p) {
      SquareKeepsRest(Power(r.n), Coefficients(r.p));
      SquareOfPower(r.n);
      SquareOfPoly(r.p, s.p);
    } else {
      PowerMore(r.n, 8);
      SameShifted(Power(r.n), Coefficients(r.p), 8);
      ShiftOfPoly(r.p, s.p);
    }
  }

  lemma PowerMore(n: nat, k: nat)
    ensures Power(n) + Zeros(k) == Power(n + k)
  {
  }

  /** Shifting both keeps equal remainders equal and different ones different. */
  lemma SameShifted(a: seq<bool>, b: seq<bool>, k: nat)
    ensures Rest(a) == Rest(b) <==> Rest(a + Zeros(k)) == Rest(b + Zeros(k))
  {
    hide Rest;
    var p, q := Zeros(|b|) + a, Zeros(|a|) + b;
    ZerosFirst(|b|, a);
    ZerosFirst(|a|, b);
    ZerosFirst(|b|, a + Zeros(k));
    ZerosFirst(|a|, b + Zeros(k));
    assert Zeros(|b|) + (a + Zeros(k)) == p + Zeros(k) && Zeros(|a|) + (b + Zeros(k)) == q + Zeros(k);
    SameRest(p, q);
    SameRest(p + Zeros(k), q + Zeros(k));
    ZerosBehind(Difference(p, q), k);
    DifferenceJoins(p, Zeros(k), q, Zeros(k));
    NoDifference(Zeros(k));
  }

  lemma LeavesFour(r: Residue, s: Residue, t: Residue, u: Residue, v: Residue)
    requires Leaves(r) && Follows(r, s) && Follows(s, t) && Follows(t, u) && Follows(u, v)
    ensures Leaves(v)
  {
    hide Leaves, Follows;
    LeavesNext(r, s);
    LeavesNext(s, t);
    LeavesNext(t, u);
    LeavesNext(u, v);
  }

  lemma LeavesX()
    ensures Leaves(Residue(1, Poly(0x00, 0x00, 0x02)))
  {
    hide Rest;
    XBits();
    ZerosFirst(22, Power(1));
  }

  lemma XBits()
    ensures Coefficients(Poly(0x00, 0x00, 0x02)) == Zeros(22) + Power(1)
  {
    BitsOfTrailer(0x00, 0x00, 0x02);
    ZeroByteBits();
    assert ByteBits(0x02) == [false, false, false, false, false, false, true, false];
    hide ByteBits, BitsOf;
    assert Zeros(22) == Zeros(8) + Zeros(8) + Zeros(6);
  }

  lemma LeavesAt16()
    requires Leaves(Residue(1, Poly(0x00, 0x00, 0x02)))
    ensures Leaves(Residue(16, Poly(0x01, 0x00, 0x00)))
  {
    hide Leaves;
    LeavesFour(
      Residue(1, Poly(0x00, 0x00, 0x02)),
      Residue(2, Poly(0x00, 0x00, 0x04)),
      Residue(4, Poly(0x00, 0x00, 0x10)),
      Residue(8, Poly(0x00, 0x01, 0x00)),
      Residue(16, Poly(0x01, 0x00, 0x00)));
  }

  lemma LeavesAt256()
    requires Leaves(Residue(16, Poly(0x01, 0x00, 0x00)))
    ensures Leaves(Residue(256, Poly(0xCB, 0x80, 0x0E)))
  {
    hide Leaves;
    LeavesFour(
      Residue(16, Poly(0x01, 0x00, 0x00)),
      Residue(32, Poly(0x66, 0x8F, 0x48)),
      Residue(64, Poly(0x36, 0xEB, 0x3D)),
      Residue(128, Poly(0x62, 0x43, 0xDA)),
      Residue(256, Poly(0xCB, 0x80, 0x0E)));
  }

  lemma LeavesAt4096()
    requires Leaves(Residue(256, Poly(0xCB, 0x80, 0x0E)))
    ensures Leaves(Residue(4096, Poly(0xC5, 0xBF, 0x56)))
  {
    hide Leaves;
    LeavesFour(
      Residue(256, Poly(0xCB, 0x80, 0x0E)),
      Residue(512, Poly(0x7D, 0xB4, 0x3E)),
      Residue(1024, Poly(0xDE, 0xF2, 0x3C)),
      Residue(2048, Poly(0x3D, 0x14, 0x5A)),
      Residue(4096, Poly(0xC5, 0xBF, 0x56)));
  }

  lemma LeavesAt65536()
    requires Leaves(Residue(4096, Poly(0xC5, 0xBF, 0x56)))
    ensures Leaves(Residue(65536, Poly(0xDB, 0xEA, 0x27)))
  {
    hide Leaves;
    LeavesFour(
      Residue(4096, Poly(0xC5, 0xBF, 0x56)),
      Residue(8192, Poly(0x11, 0xE8, 0x98)),
      Residue(16384, Poly(0xEA, 0xCC, 0x65)),
      Residue(32768, Poly(0x08, 0x93, 0xEB)),
      Residue(65536, Poly(0xDB, 0xEA, 0x27)));
  }

  lemma LeavesAt1048576()
    requires Leaves(Residue(65536, Poly(0xDB, 0xEA, 0x27)))
    ensures Leaves(Residue(1048576, Poly(0xDE, 0x2E, 0x52)))
  {
    hide Leaves;
    LeavesFour(
      Residue(65536, Poly(0xDB, 0xEA, 0x27)),
      Residue(131072, Poly(0xEC, 0x11, 0xC0)),
      Residue(262144, Poly(0x6E, 0xC0, 0xED)),
      Residue(524288, Poly(0xE7, 0xB0, 0xEE)),
      Residue(1048576, Poly(0xDE, 0x2E, 0x52)));
  }

  lemma LeavesAt8388608()
    requires Leaves(Residue(1048576, Poly(0xDE, 0x2E, 0x52)))
    ensures Leaves(Residue(8388608, Poly(0x00, 0x00, 0x02)))
  {
    hide Leaves;
    LeavesNext(Residue(1048576, Poly(0xDE, 0x2E, 0x52)),
               Residue(2097152, Poly(0x37, 0xA1, 0xAE)));
    LeavesNext(Residue(2097152, Poly(0x37, 0xA1, 0xAE)),
               Residue(4194304, Poly(0x85, 0xC3, 0x1E)));
    LeavesNext(Residue(4194304, Poly(0x85, 0xC3, 0x1E)),
               Residue(8388608, Poly(0x00, 0x00, 0x02)));
  }

  lemma LeavesAt40()
    requires Leaves(Residue(16, Poly(0x01, 0x00, 0x00)))
    ensures Leaves(Residue(40, Poly(0x83, 0x09, 0xD7)))
  {
    hide Leaves;
    LeavesNext(Residue(16, Poly(0x01, 0x00, 0x00)),
               Residue(32, Poly(0x66, 0x8F, 0x48)));
    LeavesNext(Residue(32, Poly(0x66, 0x8F, 0x48)),
               Residue(40, Poly(0x83, 0x09, 0xD7)));
  }

  lemma LeavesAt80()
    requires Leaves(Residue(40, Poly(0x83, 0x09, 0xD7)))
    ensures Leaves(Residue(80, Poly(0xF5, 0x0B, 0xAF)))
  {
    hide Leaves;
    LeavesNext(Residue(40, Poly(0x83, 0x09, 0xD7)),
               Residue(80, Poly(0xF5, 0x0B, 0xAF)));
  }

  lemma LeavesAt344()
    requires Leaves(Residue(80, Poly(0xF5, 0x0B, 0xAF)))
    ensures Leaves(Residue(344, Poly(0x6E, 0x7A, 0x2C)))
  {
    hide Leaves;
    LeavesFour(
      Residue(80, Poly(0xF5, 0x0B, 0xAF)),
      Residue(160, Poly(0x08, 0x4F, 0x97)),
      Residue(168, Poly(0xEE, 0x16, 0x39)),
      Residue(336, Poly(0x67, 0xE4, 0x77)),
      Residue(344, Poly(0x6E, 0x7A, 0x2C)));
  }

  lemma LeavesAt2784()
    requires Leaves(Residue(344, Poly(0x6E, 0x7A, 0x2C)))
    ensures Leaves(Residue(2784, Poly(0x85, 0x4A, 0xD6)))
  {
    hide Leaves;
    LeavesFour(
      Residue(344, Poly(0x6E, 0x7A, 0x2C)),
      Residue(688, Poly(0xAF, 0xE9, 0x27)),
      Residue(696, Poly(0xE8, 0x4F, 0x63)),
      Residue(1392, Poly(0x08, 0x41, 0xF6)),
      Residue(2784, Poly(0x85, 0x4A, 0xD6)));
  }

  lemma LeavesAt22304()
    requires Leaves(Residue(2784, Poly(0x85, 0x4A, 0xD6)))
    ensures Leaves(Residue(22304, Poly(0x29, 0x45, 0xEC)))
  {
    hide Leaves;
    LeavesFour(
      Residue(2784, Poly(0x85, 0x4A, 0xD6)),
      Residue(5568, Poly(0x58, 0xF3, 0x90)),
      Residue(5576, Poly(0x8E, 0xFC, 0x62)),
      Residue(11152, Poly(0x7B, 0x10, 0x90)),
      Residue(22304, Poly(0x29, 0x45, 0xEC)));
  }

  lemma LeavesAt89240()
    requires Leaves(Residue(22304, Poly(0x29, 0x45, 0xEC)))
    ensures Leaves(Residue(89240, Poly(0xC9, 0xCA, 0x01)))
  {
    hide Leaves;
    LeavesFour(
      Residue(22304, Poly(0x29, 0x45, 0xEC)),
      Residue(44608, Poly(0x75, 0x36, 0x8B)),
      Residue(44616, Poly(0xF3, 0x1D, 0xA8)),
      Residue(89232, Poly(0xF7, 0xB5, 0xCE)),
      Residue(89240, Poly(0xC9, 0xCA, 0x01)));
  }

  lemma LeavesAt1427840()
    requires Leaves(Residue(89240, Poly(0xC9, 0xCA, 0x01)))
    ensures Leaves(Residue(1427840, Poly(0xBD, 0x0E, 0xE1)))
  {
    hide Leaves;
    LeavesFour(
      Residue(89240, Poly(0xC9, 0xCA, 0x01)),
      Residue(178480, Poly(0xE0, 0x8B, 0x39)),
      Residue(356960, Poly(0x85, 0xEC, 0xA2)),
      Residue(713920, Poly(0xC6, 0xA3, 0xB3)),
      Residue(1427840, Poly(0xBD, 0x0E, 0xE1)));
  }

  lemma LeavesAt1427848()
    requires Leaves(Residue(1427840, Poly(0xBD, 0x0E, 0xE1)))
    ensures Leaves(Residue(1427848, Poly(0x40, 0x12, 0xE7)))
  {
    hide Leaves;
    LeavesNext(Residue(1427840, Poly(0xBD, 0x0E, 0xE1)),
               Residue(1427848, Poly(0x40, 0x12, 0xE7)));
  }

  lemma LeavesAt368()
    requires Leaves(Residue(80, Poly(0xF5, 0x0B, 0xAF)))
    ensures Leaves(Residue(368, Poly(0xFF, 0x86, 0xF5)))
  {
    hide Leaves;
    LeavesFour(
      Residue(80, Poly(0xF5, 0x0B, 0xAF)),
      Residue(88, Poly(0xFD, 0x7E, 0x0C)),
      Residue(176, Poly(0x88, 0xBE, 0x4A)),
      Residue(184, Poly(0x2C, 0x8C, 0x9D)),
      Residue(368, Poly(0xFF, 0x86, 0xF5)));
  }

  lemma LeavesAt376()
    requires Leaves(Residue(368, Poly(0xFF, 0x86, 0xF5)))
    ensures Leaves(Residue(376, Poly(0x5B, 0x70, 0x38)))
  {
    hide Leaves;
    LeavesNext(Residue(368, Poly(0xFF, 0x86, 0xF5)),
               Residue(376, Poly(0x5B, 0x70, 0x38)));
  }

  // ------------------------------------------------------------------
  // The order of x
  // ------------------------------------------------------------------

  const ORDER := 8388607

  /** x^d leaves 1. */
  predicate Period(d: nat) { Rest(Power(d)) == Rest(Power(0)) }

  lemma PeriodAdds(d: nat, e: nat)
    requires Period(d)
    ensures Period(d + e) <==> Period(e)
  {
    hide Rest, Power;
    SameShifted(Power(d), Power(0), e);
    PowerMore(d, e);
    PowerMore(0, e);
  }

  lemma {:induction false} PeriodTimes(d: nat, k: nat)
    requires Period(d)
    ensures Period(d * k)
  {
    hide Rest, Power;
    if k > 0 {
      PeriodTimes(d, k - 1);
      PeriodAdds(d, d * (k - 1));
      assert d + d * (k - 1) == d * k;
    }
  }

  /** Euclid's algorithm: a common divisor with its factors, which is a combination of both numbers
      and a period where both are. */
  lemma {:induction false} Euclid(d: nat, e: nat) returns (g: nat, p: nat, q: nat, x: int, y: int)
    requires d > 0 && e > 0
    ensures d == g * p && e == g * q && g == x * d + y * e
    ensures Period(d) && Period(e) ==> Period(g)
    decreases d + e
  {
    hide Period;
    if d == e {
      g, p, q, x, y := d, 1, 1, 1, 0;
    } else if d < e {
      g, p, q, x, y := Euclid(d, e - d);
      EuclidStep(d, e, g, p, q, x, y);
      q, x := p + q, x - y;
    } else {
      g, q, p, y, x := Euclid(e, d - e);
      EuclidStep(e, d, g, q, p, y, x);
      p, y := p + q, y - x;
    }
  }

  lemma EuclidStep(d: nat, e: nat, g: nat, p: nat, q: nat, x: int, y: int)
    requires d < e && d == g * p && e - d == g * q && g == x * d + y * (e - d)
    ensures e == g * (p + q) && g == (x - y) * d + y * e
    ensures Period(d) && Period(e) ==> Period(e - d)
  {
    hide Period;
    if Period(d) {
      PeriodAdds(d, e - d);
    }
  }

  /** Different coefficients leave different remainders. */
  lemma PolysDiffer(p: Poly, q: Poly)
    requires Rest(Coefficients(p)) == Rest(Coefficients(q))
    ensures p == q
  {
    hide Rest, BitsOf;
    var a: bytes, b: bytes := [p.a, p.b, p.c], [q.a, q.b, q.c];
    SameRest(BitsOf(a), BitsOf(b));
    ShortMultiple(Difference(BitsOf(a), BitsOf(b)));
    assert BitsOf(a) == BitsOf(b) by {
      forall i | 0 <= i < 24 ensures BitsOf(a)[i] == BitsOf(b)[i] {
        assert !Difference(BitsOf(a), BitsOf(b))[i];
      }
    }
    BitsOfInjective(a, b);
    assert a[0] == b[0] && a[1] == b[1] && a[2] == b[2];
  }

  lemma OneBits()
    ensures Coefficients(Poly(0x00, 0x00, 0x01)) == Zeros(23) + Power(0)
  {
    BitsOfTrailer(0x00, 0x00, 0x01);
    ZeroByteBits();
    assert ByteBits(0x01) == [false, false, false, false, false, false, false, true];
    hide ByteBits, BitsOf;
    assert Zeros(23) == Zeros(8) + Zeros(8) + Zeros(7);
  }

  /** A power is a period exactly when it leaves the polynomial 1. */
  lemma LeavesOneIffPeriod(r: Residue)
    requires Leaves(r)
    ensures Period(r.n) <==> r.p == Poly(0x00, 0x00, 0x01)
  {
    hide Rest, Power, Coefficients;
    OneBits();
    ZerosFirst(23, Power(0));
    if Period(r.n) {
      PolysDiffer(r.p, Poly(0x00, 0x00, 0x01));
    }
  }

  lemma OrderIsPeriod()
    ensures Period(ORDER)
  {
    hide Rest, Leaves, Power;
    var last := Residue(8388608, Poly(0x00, 0x00, 0x02));
    LeavesX();
    LeavesAt16();
    LeavesAt256();
    LeavesAt4096();
    LeavesAt65536();
    LeavesAt1048576();
    LeavesAt8388608();
    SameLeft(last, Residue(1, Poly(0x00, 0x00, 0x02)));
    PowerMore(ORDER, 1);
    PowerMore(0, 1);
    SameShifted(Power(ORDER), Power(0), 1);
  }

  lemma SameLeft(r: Residue, s: Residue)
    requires Leaves(r) && Leaves(s) && r.p == s.p
    ensures Rest(Power(r.n)) == Rest(Power(s.n))
  {
  }

  lemma SmallPeriods()
    ensures !Period(1) && !Period(47)
  {
    hide Rest, Leaves, Power, Period;
    LeavesX();
    LeavesAt16();
    LeavesAt40();
    LeavesAt80();
    LeavesAt368();
    LeavesAt376();
    LeavesOneIffPeriod(Residue(1, Poly(0x00, 0x00, 0x02)));
    LeavesOneIffPeriod(Residue(376, Poly(0x5B, 0x70, 0x38)));
    if Period(47) {
      PeriodTimes(47, 8);
      assert false;
    }
  }

  lemma LargePeriod()
    ensures !Period(178481)
  {
    hide Rest, Leaves, Power, Period;
    LeavesX();
    LeavesAt16();
    LeavesAt40();
    LeavesAt80();
    LeavesAt344();
    LeavesAt2784();
    LeavesAt22304();
    LeavesAt89240();
    LeavesAt1427840();
    LeavesAt1427848();
    LeavesOneIffPeriod(Residue(1427848, Poly(0x40, 0x12, 0xE7)));
    if Period(178481) {
      PeriodTimes(178481, 8);
      assert false;
    }
  }

  // ------------------------------------------------------------------
  // The divisors of 2^23 - 1 = 47 * 178481
  // ------------------------------------------------------------------

  predicate Divides(t: nat, n: nat) { t > 1 && n % t == 0 }

  predicate NoneOf16(t: nat) {
    && !Divides(t, 178481) && !Divides(t + 1, 178481) && !Divides(t + 2, 178481) && !Divides(t + 3, 178481)
    && !Divides(t + 4, 178481) && !Divides(t + 5, 178481) && !Divides(t + 6, 178481) && !Divides(t + 7, 178481)
    && !Divides(t + 8, 178481) && !Divides(t + 9, 178481) && !Divides(t + 10, 178481) && !Divides(t + 11, 178481)
    && !Divides(t + 12, 178481) && !Divides(t + 13, 178481) && !Divides(t + 14, 178481) && !Divides(t + 15, 178481)
  }

  lemma NoneFrom0()
    ensures NoneOf16(0) && NoneOf16(16) && NoneOf16(32) && NoneOf16(48)
  {
  }

  lemma NoneFrom64()
    ensures NoneOf16(64) && NoneOf16(80) && NoneOf16(96) && NoneOf16(112)
  {
  }

  lemma NoneFrom128()
    ensures NoneOf16(128) && NoneOf16(144) && NoneOf16(160) && NoneOf16(176)
  {
  }

  lemma NoneFrom192()
    ensures NoneOf16(192) && NoneOf16(208) && NoneOf16(224) && NoneOf16(240)
  {
  }

  lemma NoneFrom256()
    ensures NoneOf16(256) && NoneOf16(272) && NoneOf16(288) && NoneOf16(304)
  {
  }

  lemma NoneFrom320()
    ensures NoneOf16(320) && NoneOf16(336) && NoneOf16(352) && NoneOf16(368)
  {
  }

  lemma NoneFrom384()
    ensures NoneOf16(384) && NoneOf16(400) && NoneOf16(416)
  {
  }

  lemma NoneWithin(t: nat, u: nat)
    requires NoneOf16(t) && t <= u < t + 16
    ensures !Divides(u, 178481)
  {
    hide Divides;
    assert u == t + (u - t);
    assert u - t in {0, 1, 2, 3, 4, 5, 6, 7, 8, 9, 10, 11, 12, 13, 14, 15};
  }

  lemma NoSmallDivisor(u: nat)
    requires u < 432
    ensures !Divides(u, 178481)
  {
    hide Divides, NoneOf16;
    NoneFrom0();
    NoneFrom64();
    NoneFrom128();
    NoneFrom192();
    NoneFrom256();
    NoneFrom320();
    NoneFrom384();
    NoneWithin(16 * (u / 16), u);
  }

  lemma FactorDivides(g: nat, q: nat)
    requires g > 1
    ensures Divides(g, g * q)
  {
    var n := g * q;
    DivisionIsUnique(g, q, n / g, n % g);
  }

  lemma DivisionIsUnique(g: nat, q: int, k: int, r: int)
    requires g * q == g * k + r && 0 <= r < g
    ensures r == 0
  {
    MultipleOutside(g, q - k);
    assert r == g * (q - k);
  }

  lemma MultipleOutside(g: nat, z: int)
    ensures g * z == 0 || g * z >= g || g * z + g <= 0
  {
  }

  lemma BothLarge(g: nat, q: nat, m: nat)
    requires g >= m && q >= m
    ensures g * q >= m * m
  {
  }

  lemma LargeFactorIsPrime(g: nat, q: nat)
    requires g * q == 178481
    ensures g == 1 || q == 1
  {
    hide Divides;
    if g >= 432 && q >= 432 {
      BothLarge(g, q, 432);
    } else if g > 1 && q > 1 {
      FactorDivides(g, q);
      FactorDivides(q, g);
      if g < 432 { NoSmallDivisor(g); } else { NoSmallDivisor(q); }
    }
  }

  lemma NoDivisorOf47(t: nat)
    requires t < 7
    ensures !Divides(t, 47)
  {
    assert t in {0, 1, 2, 3, 4, 5, 6};
  }

  lemma SmallFactorIsPrime(g: nat, q: nat)
    requires g * q == 47
    ensures g == 1 || q == 1
  {
    hide Divides;
    if g >= 7 && q >= 7 {
      BothLarge(g, q, 7);
    } else if g > 1 && q > 1 {
      FactorDivides(g, q);
      FactorDivides(q, g);
      if g < 7 { NoDivisorOf47(g); } else { NoDivisorOf47(q); }
    }
  }

  /** No proper divisor of 2^23 - 1 is a period. */
  lemma NoSmallerPeriod(g: nat, q: nat)
    requires g * q == ORDER && Period(g)
    ensures g == ORDER
  {
    hide Period;
    SmallPeriods();
    LargePeriod();
    var h, a, b, x, y := Euclid(g, 178481);
    LargeFactorIsPrime(h, b);
    if h == 1 {
      var k := 47 * x + y * q;
      CoprimeFactor(g, q, x, y);
      assert k > 0;
      SmallFactorIsPrime(g, k);
    } else {
      CommonFactor(a, q);
      SmallFactorIsPrime(a, q);
    }
  }

  lemma CoprimeFactor(g: nat, q: nat, x: int, y: int)
    requires g * q == 47 * 178481 && 1 == x * g + y * 178481
    ensures g * (47 * x + y * q) == 47 && 47 * x + y * q > 0
  {
    assert g * (47 * x + y * q) == 47 * (x * g) + y * (g * q);
  }

  lemma CommonFactor(a: nat, q: nat)
    requires 178481 * a * q == 47 * 178481
    ensures a * q == 47
  {
  }

  /** x^d leaves 1 exactly when 2^23 - 1 divides d. */
  lemma PeriodIff(d: nat)
    ensures Period(d) <==> d % ORDER == 0
  {
    hide Period;
    OrderIsPeriod();
    PeriodTimes(ORDER, d / ORDER);
    assert d % ORDER == 0 ==> d == ORDER * (d / ORDER);
    if Period(d) && d > 0 {
      var g, p, q, x, y := Euclid(d, ORDER);
      NoSmallerPeriod(g, q);
    }
  }

  // ------------------------------------------------------------------
  // Two flipped bits
  // ------------------------------------------------------------------

  predicate OnlyAt(w: seq<bool>, i: nat, j: nat) {
    i < j < |w| && forall k :: 0 <= k < |w| ==> w[k] == (k == i || k == j)
  }

  lemma TwoBitsIff(w: seq<bool>, i: nat, j: nat)
    requires OnlyAt(w, i, j)
    ensures Rest(w) == 0 <==> (j - i) % ORDER == 0
  {
    hide Rest;
    var d, n := j - i, |w| - j - 1;
    var v := Difference(Power(d), Zeros(d) + Power(0));
    assert w == Zeros(i) + (v + Zeros(n));
    ZerosFirst(i, v + Zeros(n));
    ZerosBehind(v, n);
    SameRest(Power(d), Zeros(d) + Power(0));
    ZerosFirst(d, Power(0));
    PeriodIff(d);
  }

  /** Two flipped bits go unnoticed exactly when they are a multiple of 2^23 - 1 bits apart. */
  lemma TwoFlipsIff(f: bytes, g: bytes, i: nat, j: nat)
    requires |f| == |g| && Remainder(f) == 0
    requires OnlyAt(Difference(BitsOf(f), BitsOf(g)), i, j)
    ensures Remainder(g) == 0 <==> (j - i) % ORDER == 0
  {
    hide BitStep, BitsOf, Remainder, OnlyAt, Xor;
    var w := Difference(BitsOf(f), BitsOf(g));
    DifferenceDivides(f, g);
    TwoBitsIff(w, i, j);
    XorUndoes(0, Remainder(g));
  }

  /** The places of two flipped bits. */
  lemma {:induction false} FirstTrue(w: seq<bool>) returns (i: nat)
    requires CountTrue(w) > 0
    ensures i < |w| && w[i] && (forall k :: 0 <= k < i ==> !w[k]) && CountTrue(w[i + 1..]) == CountTrue(w) - 1
  {
    if w[0] {
      i := 0;
    } else {
      i := FirstTrue(w[1..]);
      i := i + 1;
      assert w[1..][i..] == w[i + 1..];
    }
  }

  lemma {:induction false} NoneTrue(w: seq<bool>)
    requires CountTrue(w) == 0
    ensures forall k :: 0 <= k < |w| ==> !w[k]
  {
    if w != [] {
      NoneTrue(w[1..]);
      forall k | 0 < k < |w| ensures !w[k] {
        assert w[k] == w[1..][k - 1];
      }
    }
  }

  lemma TwoTrue(w: seq<bool>) returns (i: nat, j: nat)
    requires CountTrue(w) == 2
    ensures OnlyAt(w, i, j)
  {
    hide CountTrue;
    i := FirstTrue(w);
    var rest := w[i + 1..];
    var m := FirstTrue(rest);
    NoneTrue(rest[m + 1..]);
    j := i + 1 + m;
    forall k | i < k < |w| ensures w[k] == (k == j) {
      assert w[k] == rest[k - i - 1];
      if k > j {
        assert rest[k - i - 1] == rest[m + 1..][k - j - 1];
      }
    }
  }

  /** Up to three flipped bits never go unnoticed in at most 2^23 - 1 bits. */
  lemma FewFlipsNeverDivide(f: bytes, g: bytes)
    requires |f| == |g| && 8 * |f| <= ORDER && Remainder(f) == 0
    requires 1 <= CountTrue(Difference(BitsOf(f), BitsOf(g))) <= 3
    ensures Remainder(g) != 0
  {
    hide BitsOf, Remainder, CountTrue;
    var w := Difference(BitsOf(f), BitsOf(g));
    if CountTrue(w) == 2 {
      var i, j := TwoTrue(w);
      TwoFlipsIff(f, g, i, j);
      assert 0 < j - i < ORDER;
    } else {
      OddErrorNeverDivides(f, g);
    }
  }
}
