/** What a chunk-size line says, written down independently of how the decoder reads it: blanks, a
    hexadecimal numeral, blanks, and an extension behind a semicolon. */
module SizeNumerals {
  import opened Bytes
  import opened ChunkedBody

  const LOWER: bytes := [
    0x30, 0x31, 0x32, 0x33, 0x34, 0x35, 0x36, 0x37, 0x38, 0x39, 0x61, 0x62, 0x63, 0x64, 0x65, 0x66]
  const UPPER: bytes := [
    0x30, 0x31, 0x32, 0x33, 0x34, 0x35, 0x36, 0x37, 0x38, 0x39, 0x41, 0x42, 0x43, 0x44, 0x45, 0x46]

  // ------------------------------------------------------------------
  // Digits
  // ------------------------------------------------------------------

  predicate DigitFor(b: byte, d: nat) {
    d < 16 && (b == LOWER[d] || b == UPPER[d])
  }

  lemma HexDigitIff(b: byte, d: nat)
    ensures HexDigit(b) == Some(d) <==> DigitFor(b, d)
  {
  }

  /** Digits in either case that stand for n; zeros may lead. */
  predicate Spells(s: bytes, n: nat) {
    s != [] && DigitFor(s[|s| - 1], n % 16)
    && if |s| == 1 then n < 16 else Spells(s[..|s| - 1], n / 16)
  }

  /** Underscores stand alone between digits. */
  predicate WellGrouped(s: bytes) {
    && s != [] && s[0] != 0x5F && s[|s| - 1] != 0x5F
    && (forall k :: 0 <= k < |s| - 1 ==> !(s[k] == 0x5F && s[k + 1] == 0x5F))
  }

  function Ungrouped(s: bytes): bytes {
    if s == [] then []
    else Ungrouped(s[..|s| - 1]) + if s[|s| - 1] == 0x5F then [] else [s[|s| - 1]]
  }

  /** Digits of n, with or without underscores between them. */
  predicate Grouped(s: bytes, n: nat) {
    WellGrouped(s) && Spells(Ungrouped(s), n)
  }

  lemma UngroupedOneMore(s: bytes, b: byte)
    ensures Ungrouped(s + [b]) == Ungrouped(s) + if b == 0x5F then [] else [b]
  {
    assert (s + [b])[..|s|] == s;
  }

  lemma SpellsOneMore(s: bytes, b: byte, n: nat)
    ensures Spells(s + [b], n) <==> DigitFor(b, n % 16) && if s == [] then n < 16 else Spells(s, n / 16)
  {
    hide DigitFor;
    assert (s + [b])[..|s|] == s;
  }

  lemma {:induction false} SomethingLeft(s: bytes)
    requires s != [] && s[0] != 0x5F
    ensures Ungrouped(s) != []
  {
    if |s| > 1 {
      SomethingLeft(s[..|s| - 1]);
    }
  }

  lemma GroupedOne(b: byte, n: nat)
    ensures Grouped([b], n) <==> DigitFor(b, n) && n < 16
  {
    hide DigitFor;
    assert [b][..0] == [];
    assert Ungrouped([]) == [];
    UngroupedOneMore([], b);
    assert [] + [b] == [b];
    NoDigit(n % 16);
  }

  lemma NoDigit(d: nat)
    ensures !DigitFor(0x5F, d)
  {
  }

  /** A last digit behind a numeral, or behind a numeral and an underscore. */
  lemma GroupedOneMore(u: bytes, gap: bool, b: byte, n: nat)
    requires u != [] && (gap || u[|u| - 1] != 0x5F)
    ensures Grouped(u + (if gap then [0x5F] else []) + [b], n) <==> DigitFor(b, n % 16) && Grouped(u, n / 16)
  {
    hide DigitFor, Spells, Ungrouped;
    var t := u + if gap then [0x5F] else [];
    NoDigit(n % 16);
    UngroupedOneMore(u, 0x5F);
    UngroupedOneMore(t, b);
    assert !gap ==> t == u;
    assert Ungrouped(t) == Ungrouped(u) by { assert Ungrouped(u) + [] == Ungrouped(u); }
    if b != 0x5F {
      SpellsOneMore(Ungrouped(u), b, n);
      if u[0] != 0x5F { SomethingLeft(u); }
      WellGroupedOneMore(u, gap, b);
    }
  }

  lemma WellGroupedOneMore(u: bytes, gap: bool, b: byte)
    requires u != [] && (gap || u[|u| - 1] != 0x5F) && b != 0x5F
    ensures WellGrouped(u + (if gap then [0x5F] else []) + [b]) <==> WellGrouped(u)
  {
    var s := u + (if gap then [0x5F] else []) + [b];
    assert forall k :: 0 <= k < |u| ==> s[k] == u[k];
    if WellGrouped(s) {
      if gap { assert s[|u|] == 0x5F && s[|u| - 1] == u[|u| - 1]; }
    }
  }

  /** The decoder reads exactly such digits, and reads their number. */
  lemma {:induction false} HexValueIff(s: bytes, n: nat)
    ensures HexValue(s) == Some(n) <==> Grouped(s, n)
  {
    hide HexDigit, DigitFor, Grouped;
    if s == [] {
      NothingGrouped(n);
    } else {
      var m := |s| - 1;
      var b := s[m];
      HexDigitIff(b, n % 16);
      if m == 0 {
        assert s == [b];
        GroupedOne(b, n);
        HexDigitIff(b, n);
        DigitIsSmall(b);
      } else {
        var gap := s[m - 1] == 0x5F;
        var u := if gap then s[..m - 1] else s[..m];
        assert s == u + (if gap then [0x5F] else []) + [b];
        DigitIsSmall(b);
        HexValueIff(u, n / 16);
        if u == [] {
          GapInFront(s, n);
        } else {
          GroupedOneMore(u, gap, b, n);
          OneMoreHexDigit(s, u, n);
        }
      }
    }
  }

  lemma NothingGrouped(n: nat)
    ensures !Grouped([], n)
  {
  }

  lemma GapInFront(s: bytes, n: nat)
    requires s != [] && s[0] == 0x5F
    ensures !Grouped(s, n)
  {
  }

  lemma DigitIsSmall(b: byte)
    ensures HexDigit(b).Some? ==> HexDigit(b).value < 16
  {
  }

  lemma OneMoreHexDigit(s: bytes, u: bytes, n: nat)
    requires |s| >= 2 && u == if s[|s| - 2] == 0x5F then s[..|s| - 2] else s[..|s| - 1]
    ensures HexValue(s) == Some(n) <==> HexDigit(s[|s| - 1]) == Some(n % 16) && HexValue(u) == Some(n / 16)
  {
    hide HexDigit;
    DigitIsSmall(s[|s| - 1]);
  }

  // ------------------------------------------------------------------
  // Numerals
  // ------------------------------------------------------------------

  predicate IsSign(s: bytes) { s == [] || s == [0x2B] || s == [0x2D] }

  predicate IsPrefix(s: bytes) {
    || s == []
    || s == [0x30, 0x78] || s == [0x30, 0x58] || s == [0x30, 0x78, 0x5F] || s == [0x30, 0x58, 0x5F]
  }

  predicate WrittenAs(field: bytes, v: int, sign: bytes, prefix: bytes, digits: bytes, n: int) {
    && n >= 0 && IsSign(sign) && IsPrefix(prefix) && Grouped(digits, n)
    && field == sign + prefix + digits && v == if sign == [0x2D] then -n else n
  }

  /** A sign, 0x or 0X, and digits; only the digits must be there. */
  ghost predicate Numeral(field: bytes, v: int) {
    exists sign, prefix, digits, n :: WrittenAs(field, v, sign, prefix, digits, n)
  }

  predicate DigitByte(b: byte) {
    0x30 <= b <= 0x39 || 0x41 <= b <= 0x46 || 0x61 <= b <= 0x66 || b == 0x5F
  }

  lemma {:induction false} GroupedBytes(s: bytes, n: nat)
    requires HexValue(s) == Some(n)
    ensures s != [] && s[0] != 0x5F && forall k :: 0 <= k < |s| ==> DigitByte(s[k])
  {
    var m := |s| - 1;
    assert DigitByte(s[m]);
    if m > 0 {
      var u := if s[m - 1] == 0x5F then s[..m - 1] else s[..m];
      OneMoreHexDigit(s, u, n);
      GroupedBytes(u, n / 16);
      forall k | 0 <= k < m ensures DigitByte(s[k]) {
        if k < |u| { assert s[k] == u[k]; }
      }
      assert s[0] == u[0];
    }
  }

  lemma PrefixTaken(prefix: bytes, digits: bytes)
    requires IsPrefix(prefix) && digits != [] && digits[0] != 0x5F && forall k :: 0 <= k < |digits| ==> DigitByte(digits[k])
    ensures AfterPrefix(prefix + digits) == digits
  {
    var s := prefix + digits;
    if prefix == [] {
      assert s == digits;
    } else {
      assert s[0] == prefix[0] && s[1] == prefix[1] && s[2] == if |prefix| == 2 then digits[0] else prefix[2];
      assert s[|prefix|..] == digits;
    }
  }

  lemma PrefixSplit(s: bytes) returns (prefix: bytes)
    ensures IsPrefix(prefix) && s == prefix + AfterPrefix(s)
  {
    prefix := s[..|s| - |AfterPrefix(s)|];
  }

  lemma SignTaken(sign: bytes, unsigned: bytes)
    requires IsSign(sign) && unsigned != [] && unsigned[0] != 0x2B && unsigned[0] != 0x2D
    ensures var value, field := HexValue(AfterPrefix(unsigned)), sign + unsigned;
      ParseInt16(field) == if value.None? then None
                           else Some(if sign == [0x2D] then 0 - value.value else value.value)
  {
    hide HexValue, AfterPrefix;
    var field := sign + unsigned;
    assert sign == [] ==> field == unsigned;
    assert sign != [] ==> field[1..] == unsigned && field[0] == sign[0];
  }

  lemma WrittenReads(field: bytes, v: int, sign: bytes, prefix: bytes, digits: bytes, n: int)
    requires WrittenAs(field, v, sign, prefix, digits, n)
    ensures ParseInt16(field) == Some(v)
  {
    hide HexValue, Grouped, ParseInt16, AfterPrefix;
    HexValueIff(digits, n);
    GroupedBytes(digits, n);
    PrefixTaken(prefix, digits);
    var unsigned := prefix + digits;
    assert field == sign + unsigned;
    assert unsigned[0] == if prefix == [] then digits[0] else prefix[0];
    SignTaken(sign, unsigned);
  }

  lemma SignSplit(field: bytes) returns (sign: bytes, unsigned: bytes)
    requires ParseInt16(field).Some?
    ensures IsSign(sign) && field == sign + unsigned
    ensures var value := HexValue(AfterPrefix(unsigned));
      value.Some? && ParseInt16(field).value == if sign == [0x2D] then 0 - value.value else value.value
  {
    hide HexValue, AfterPrefix;
    var signed := field != [] && (field[0] == 0x2B || field[0] == 0x2D);
    sign := if signed then [field[0]] else [];
    unsigned := if signed then field[1..] else field;
  }

  lemma ReadIsWritten(field: bytes, v: int) returns (sign: bytes, prefix: bytes, digits: bytes, n: int)
    requires ParseInt16(field) == Some(v)
    ensures WrittenAs(field, v, sign, prefix, digits, n)
  {
    hide HexValue, Grouped, AfterPrefix, IsPrefix, IsSign, ParseInt16;
    var unsigned;
    sign, unsigned := SignSplit(field);
    prefix := PrefixSplit(unsigned);
    digits := AfterPrefix(unsigned);
    n := HexValue(digits).value;
    HexValueIff(digits, n);
    assert sign + prefix + digits == sign + (prefix + digits);
  }

  /** The decoder's numerals are exactly those. */
  lemma ParseIff(field: bytes, v: int)
    ensures ParseInt16(field) == Some(v) <==> Numeral(field, v)
  {
    hide ParseInt16, WrittenAs;
    if Numeral(field, v) {
      var sign, prefix, digits, n :| WrittenAs(field, v, sign, prefix, digits, n);
      WrittenReads(field, v, sign, prefix, digits, n);
    }
    if ParseInt16(field) == Some(v) {
      var sign, prefix, digits, n := ReadIsWritten(field, v);
    }
  }

  // ------------------------------------------------------------------
  // Size lines
  // ------------------------------------------------------------------

  predicate Blank(b: byte) {
    b == 0x20 || b == 0x09 || b == 0x0A || b == 0x0B || b == 0x0C || b == 0x0D
  }

  predicate AllBlank(s: bytes) {
    forall k :: 0 <= k < |s| ==> Blank(s[k])
  }

  lemma SpaceIsBlank(b: byte)
    ensures IsSpace(b) <==> Blank(b)
  {
  }

  predicate NumeralByte(b: byte) {
    DigitByte(b) || b == 0x2B || b == 0x2D || b == 0x78 || b == 0x58
  }

  lemma NumeralByteIsNothingElse(b: byte)
    requires NumeralByte(b)
    ensures !IsSpace(b) && b != SEMICOLON && b != LF
  {
  }

  lemma SignAndPrefixBytes(sign: bytes, prefix: bytes, k: nat)
    requires IsSign(sign) && IsPrefix(prefix) && k < |sign| + |prefix|
    ensures NumeralByte((sign + prefix)[k])
  {
    if k >= |sign| {
      assert (sign + prefix)[k] == prefix[k - |sign|];
    }
  }

  lemma NumeralBytes(field: bytes, v: int)
    requires Numeral(field, v)
    ensures field != [] && forall k :: 0 <= k < |field| ==> NumeralByte(field[k])
  {
    hide Grouped, HexValue, IsSign, IsPrefix, DigitByte;
    var sign, prefix, digits, n :| WrittenAs(field, v, sign, prefix, digits, n);
    HexValueIff(digits, n);
    GroupedBytes(digits, n);
    var p := |sign| + |prefix|;
    forall k | 0 <= k < |field| ensures NumeralByte(field[k]) {
      if k < p {
        SignAndPrefixBytes(sign, prefix, k);
        assert field[k] == (sign + prefix)[k];
      } else {
        assert field[k] == digits[k - p];
      }
    }
  }

  /** What is stripped off either end is blank. */
  lemma {:induction false} StripSplits(s: bytes) returns (lead: bytes, trail: bytes)
    ensures s == lead + Strip(s) + trail && AllBlank(lead) && AllBlank(trail)
  {
    hide IsSpace, Blank;
    lead, trail := [], [];
    if s != [] {
      SpaceIsBlank(s[0]);
      SpaceIsBlank(s[|s| - 1]);
      if IsSpace(s[0]) {
        lead, trail := StripSplits(s[1..]);
        lead := [s[0]] + lead;
      } else if IsSpace(s[|s| - 1]) {
        lead, trail := StripSplits(s[..|s| - 1]);
        trail := trail + [s[|s| - 1]];
      }
    }
  }

  lemma {:induction false} StripIs(lead: bytes, t: bytes, trail: bytes)
    requires AllBlank(lead) && AllBlank(trail) && t != [] && !IsSpace(t[0]) && !IsSpace(t[|t| - 1])
    ensures Strip(lead + t + trail) == t
    decreases |lead| + |trail|
  {
    hide IsSpace, Blank;
    var s := lead + t + trail;
    if lead != [] {
      SpaceIsBlank(lead[0]);
      assert s[0] == lead[0] && s[1..] == lead[1..] + t + trail;
      StripIs(lead[1..], t, trail);
    } else if trail != [] {
      var m := |trail| - 1;
      SpaceIsBlank(trail[m]);
      assert s[0] == t[0] && s[|s| - 1] == trail[m] && s[..|s| - 1] == lead + t + trail[..m];
      StripIs(lead, t, trail[..m]);
    } else {
      assert s == t;
    }
  }

  /** A line that says v: blanks, a numeral of v, blanks, and nothing or an extension after a semicolon. */
  ghost predicate Says(line: bytes, v: int) {
    exists lead, field, trail, ext :: Parts(line, v, lead, field, trail, ext)
  }

  ghost predicate Parts(line: bytes, v: int, lead: bytes, field: bytes, trail: bytes, ext: bytes) {
    && line == lead + field + trail + ext
    && AllBlank(lead) && Numeral(field, v) && AllBlank(trail)
    && (ext == [] || ext[0] == 0x3B)
  }

  lemma PartsAreRead(line: bytes, v: int, lead: bytes, field: bytes, trail: bytes, ext: bytes)
    requires Parts(line, v, lead, field, trail, ext)
    ensures SizeOfLine(line) == Some(v)
  {
    hide ParseInt16, Numeral, IsSpace, NumeralByte, Strip, Blank;
    var text := lead + field + trail;
    NumeralBytes(field, v);
    NumeralByteIsNothingElse(field[0]);
    NumeralByteIsNothingElse(field[|field| - 1]);
    forall k | 0 <= k < |text| ensures text[k] != SEMICOLON {
      if k < |lead| { BlankIsNoSemicolon(lead[k]); }
      else if k < |lead| + |field| { NumeralByteIsNothingElse(field[k - |lead|]); }
      else { BlankIsNoSemicolon(trail[k - |lead| - |field|]); }
    }
    assert forall k :: 0 <= k < |text| ==> line[k] == text[k];
    FindIs(line, SEMICOLON, |text|);
    assert line[..|text|] == text;
    StripIs(lead, field, trail);
    ParseIff(field, v);
  }

  lemma BlankIsNoSemicolon(b: byte)
    requires Blank(b)
    ensures b != SEMICOLON
  {
  }

  /** The decoder reads a size off exactly those lines that say it. */
  lemma SizeIff(line: bytes, v: int)
    ensures SizeOfLine(line) == Some(v) <==> Says(line, v)
  {
    hide ParseInt16, Numeral, Strip, Find;
    if Says(line, v) {
      var lead, field, trail, ext :| Parts(line, v, lead, field, trail, ext);
      PartsAreRead(line, v, lead, field, trail, ext);
    }
    if SizeOfLine(line) == Some(v) {
      var i := Find(line, SEMICOLON);
      var lead, trail := StripSplits(line[..i]);
      ParseIff(Strip(line[..i]), v);
      assert line == line[..i] + line[i..];
      assert Parts(line, v, lead, Strip(line[..i]), trail, line[i..]);
    }
  }
}
