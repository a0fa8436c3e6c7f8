/** Header blocks written down independently of how a reply is read: fields, and a blank line. */
module HeaderFields {
  import opened Bytes
  import opened ChunkedBody
  import opened SizeNumerals
  import opened CasterReply

  /** The bytes a name is made of: tchar in section 5.6.2 of RFC 9110. */
  predicate TokenByte(b: byte) {
    // ! # $ % & ' * + - . ^ _ ` | ~
    || b == 0x21 || b == 0x23 || b == 0x24 || b == 0x25 || b == 0x26 || b == 0x27 || b == 0x2A || b == 0x2B
    || b == 0x2D || b == 0x2E || b == 0x5E || b == 0x5F || b == 0x60 || b == 0x7C || b == 0x7E
    || 0x30 <= b <= 0x39 || 0x41 <= b <= 0x5A || 0x61 <= b <= 0x7A
  }

  lemma NameByteIff(b: byte)
    ensures IsNameByte(b) <==> TokenByte(b)
  {
  }

  /** A header field as written, and which line end closes it. */
  datatype Field = Field(name: bytes, value: bytes, crlf: bool)

  predicate GoodField(f: Field) {
    && f.name != [] && (forall k :: 0 <= k < |f.name| ==> TokenByte(f.name[k]))
    && (forall k :: 0 <= k < |f.value| ==> f.value[k] != 0x0D && f.value[k] != 0x0A)
  }

  function FieldLine(f: Field): bytes { f.name + [0x3A] + f.value + LineEnd(f.crlf) }

  ghost predicate IsFieldLine(line: bytes) {
    exists f :: GoodField(f) && line == FieldLine(f)
  }

  ghost predicate IsLine(line: bytes) {
    line == LineEnd(true) || line == LineEnd(false) || IsFieldLine(line)
  }

  lemma TokenIsNoOther(b: byte)
    requires TokenByte(b)
    ensures b != COLON && b != CR && b != LF && !IsSpace(b)
  {
  }

  lemma NamePart(s: bytes, f: Field, end: nat)
    requires GoodField(f) && end == |f.name| + 1 + |f.value| < |s| && s[..end] == f.name + [0x3A] + f.value
    requires s[end] == CR || s[end] == LF
    ensures Named(s) && NameLength(s) == |f.name| && ValueEnd(s) == end
  {
    hide IsNameByte, TokenByte, NameLength, ValueLength;
    var m := |f.name|;
    NameIs(s, f.name, end);
    assert s[m] == s[..end][m] == COLON;
    ColonIsNoName();
    NameLengthIs(s, m);
    var v := s[m + 1..];
    forall k | 0 <= k < |f.value| ensures v[k] == f.value[k] {
      assert v[k] == s[..end][m + 1 + k];
    }
    ValueLengthIs(v, |f.value|);
  }

  lemma NameIs(s: bytes, name: bytes, end: nat)
    requires |name| <= end <= |s| && name <= s[..end] && forall k :: 0 <= k < |name| ==> TokenByte(name[k])
    ensures forall k :: 0 <= k < |name| ==> IsNameByte(s[k])
  {
    hide IsNameByte, TokenByte;
    forall k | 0 <= k < |name| ensures IsNameByte(s[k]) {
      assert s[k] == s[..end][k] == name[k];
      NameByteIff(s[k]);
    }
  }

  lemma FieldIsRead(f: Field, rest: bytes)
    requires GoodField(f)
    ensures HeaderLine(FieldLine(f) + rest) == |FieldLine(f)|
  {
    hide HeaderLine, TokenByte;
    var s := FieldLine(f) + rest;
    var end := |f.name| + 1 + |f.value|;
    assert s[..end] == f.name + [0x3A] + f.value;
    assert s[end..] == LineEnd(f.crlf) + rest;
    assert s[end] == s[end..][0];
    NamePart(s, f, end);
    BreakIsRead(f.crlf, rest);
    NoBreakInNamed(s);
    HeaderLineByKind(s);
  }

  lemma BreakIsRead(crlf: bool, rest: bytes)
    ensures BreakLength(LineEnd(crlf) + rest) == |LineEnd(crlf)|
  {
    var s := LineEnd(crlf) + rest;
    assert s[0] == LineEnd(crlf)[0];
    if crlf { assert s[1] == LF; }
  }

  lemma BlankIsRead(crlf: bool, rest: bytes)
    ensures HeaderLine(LineEnd(crlf) + rest) == |LineEnd(crlf)|
  {
    hide HeaderLine, BreakLength;
    BreakIsRead(crlf, rest);
    HeaderLineByKind(LineEnd(crlf) + rest);
  }

  lemma BreakIsWritten(s: bytes)
    requires BreakLength(s) > 0
    ensures s[..BreakLength(s)] == LineEnd(BreakLength(s) == 2)
  {
  }

  /** What is read as a line is one. */
  lemma LineIsWritten(s: bytes)
    requires HeaderLine(s) > 0
    ensures IsLine(s[..HeaderLine(s)])
    ensures BreakLength(s) > 0 <==> !IsFieldLine(s[..HeaderLine(s)])
  {
    hide HeaderLine, BreakLength, IsNameByte, TokenByte;
    HeaderLineByKind(s);
    if BreakLength(s) > 0 {
      BreakIsWritten(s);
      NoFieldInFront(s);
    } else {
      var m, end := NameLength(s), ValueEnd(s);
      var f := Field(s[..m], s[m + 1..end], BreakLength(s[end..]) == 2);
      BreakIsWritten(s[end..]);
      assert s[..HeaderLine(s)] == s[..m] + [s[m]] + s[m + 1..end] + s[end..][..BreakLength(s[end..])];
      forall k | 0 <= k < m ensures TokenByte(f.name[k]) { NameByteIff(s[k]); }
      forall k | 0 <= k < |f.value| ensures f.value[k] != 0x0D && f.value[k] != 0x0A {
        assert f.value[k] == s[m + 1..][k];
      }
      assert GoodField(f) && s[..HeaderLine(s)] == FieldLine(f);
    }
  }

  lemma FirstOfField(f: Field)
    requires GoodField(f)
    ensures FieldLine(f) != [] && TokenByte(FieldLine(f)[0])
  {
    hide TokenByte;
    assert FieldLine(f)[0] == f.name[0];
  }

  lemma NoFieldInFront(s: bytes)
    requires BreakLength(s) > 0
    ensures !IsFieldLine(s[..BreakLength(s)])
  {
    hide TokenByte, GoodField, FieldLine;
    var line := s[..BreakLength(s)];
    if IsFieldLine(line) {
      var f :| GoodField(f) && line == FieldLine(f);
      FirstOfField(f);
      TokenIsNoOther(line[0]);
    }
  }

  /** Lines are read exactly where they are. */
  lemma LineIff(s: bytes, n: nat)
    requires 0 < n <= |s|
    ensures HeaderLine(s) == n <==> IsLine(s[..n])
  {
    hide HeaderLine, GoodField, FieldLine;
    if HeaderLine(s) == n {
      LineIsWritten(s);
    }
    if IsLine(s[..n]) {
      assert s == s[..n] + s[n..];
      if IsFieldLine(s[..n]) {
        var f :| GoodField(f) && s[..n] == FieldLine(f);
        FieldIsRead(f, s[n..]);
      } else {
        BlankIsRead(s[..n] == LineEnd(true), s[n..]);
      }
    }
  }

  // ------------------------------------------------------------------
  // Blocks
  // ------------------------------------------------------------------

  function FieldLines(fields: seq<Field>): bytes {
    if fields == [] then [] else FieldLine(fields[0]) + FieldLines(fields[1..])
  }

  predicate GoodFields(fields: seq<Field>) {
    forall k :: 0 <= k < |fields| ==> GoodField(fields[k])
  }

  ghost predicate NoLine(s: bytes) {
    forall n :: 0 < n <= |s| ==> !IsLine(s[..n])
  }

  lemma BlankStrips(crlf: bool)
    ensures Strip(LineEnd(crlf)) == []
  {
    if crlf { assert [CR, LF][1..] == [LF]; }
    assert [LF][1..] == [];
    assert Strip([LF]) == [];
  }

  lemma StrippedIsBlank(s: bytes)
    requires Strip(s) == []
    ensures AllBlank(s)
  {
    hide Strip, Blank;
    var lead, trail := StripSplits(s);
    assert s == lead + trail;
  }

  lemma FieldDoesNotStrip(f: Field)
    requires GoodField(f)
    ensures Strip(FieldLine(f)) != []
  {
    hide TokenByte, Strip, GoodField, FieldLine, IsSpace, Blank;
    FirstOfField(f);
    TokenIsNoOther(FieldLine(f)[0]);
    SpaceIsBlank(FieldLine(f)[0]);
    if Strip(FieldLine(f)) == [] {
      StrippedIsBlank(FieldLine(f));
    }
  }

  /** One line at a time. */
  lemma BlockUnfolds(s: bytes)
    ensures HeaderBlock(s) ==
      var n := HeaderLine(s);
      if n == 0 then Block(0, false)
      else if Strip(s[..n]) == [] then Block(n, true)
      else Block(n + HeaderBlock(s[n..]).size, HeaderBlock(s[n..]).complete)
  {
  }

  /** However the block goes on behind a field. */
  lemma BlockAfterField(f: Field, rest: bytes)
    requires GoodField(f)
    ensures HeaderBlock(FieldLine(f) + rest)
         == Block(|FieldLine(f)| + HeaderBlock(rest).size, HeaderBlock(rest).complete)
  {
    hide HeaderLine, Strip, GoodField, FieldLine, HeaderBlock;
    var s := FieldLine(f) + rest;
    FieldIsRead(f, rest);
    FieldDoesNotStrip(f);
    BlockUnfolds(s);
    assert s[..|FieldLine(f)|] == FieldLine(f) && s[|FieldLine(f)|..] == rest;
    FieldNotEmpty(f);
  }

  lemma FieldNotEmpty(f: Field)
    ensures FieldLine(f) != []
  {
  }

  lemma BlockAfterBlank(crlf: bool, rest: bytes)
    ensures HeaderBlock(LineEnd(crlf) + rest) == Block(|LineEnd(crlf)|, true)
  {
    hide HeaderLine, Strip, HeaderBlock;
    var s := LineEnd(crlf) + rest;
    BlankIsRead(crlf, rest);
    BlankStrips(crlf);
    BlockUnfolds(s);
    assert s[..|LineEnd(crlf)|] == LineEnd(crlf);
  }

  lemma BlockAfterNothing(s: bytes)
    requires NoLine(s)
    ensures HeaderBlock(s) == Block(0, false)
  {
    hide HeaderLine, Strip, IsLine;
    if HeaderLine(s) > 0 { LineIff(s, HeaderLine(s)); }
  }

  /** A written block is read to its end, whatever follows; without a blank line it stays open. */
  lemma {:induction false} BlockIsRead(fields: seq<Field>, s: bytes)
    requires GoodFields(fields)
    ensures HeaderBlock(FieldLines(fields) + s)
         == Block(|FieldLines(fields)| + HeaderBlock(s).size, HeaderBlock(s).complete)
  {
    hide HeaderBlock, GoodField, FieldLine;
    if fields == [] {
      assert [] + s == s;
    } else {
      var later := FieldLines(fields[1..]) + s;
      assert FieldLines(fields) + s == FieldLine(fields[0]) + later;
      BlockAfterField(fields[0], later);
      BlockIsRead(fields[1..], s);
    }
  }

  /** What is read as a block is one. */
  lemma {:induction false} BlockIsWritten(s: bytes) returns (fields: seq<Field>, crlf: bool)
    ensures GoodFields(fields)
    ensures var b := HeaderBlock(s);
      if b.complete then s[..b.size] == FieldLines(fields) + LineEnd(crlf)
      else s[..b.size] == FieldLines(fields) && NoLine(s[b.size..])
    decreases |s|
  {
    hide HeaderLine, Strip, GoodField, FieldLine, HeaderBlock, IsLine, NoLine;
    fields, crlf := [], false;
    var n := HeaderLine(s);
    BlockUnfolds(s);
    if n == 0 {
      NothingRead(s);
      assert s[0..] == s && s[..0] == [];
    } else {
      LineIff(s, n);
      var isField := KindOf(s, n);
      if !isField {
        crlf := s[..n] == LineEnd(true);
        BlankStrips(crlf);
        assert [] + LineEnd(crlf) == LineEnd(crlf);
      } else {
        var f :| GoodField(f) && s[..n] == FieldLine(f);
        FieldDoesNotStrip(f);
        var later;
        later, crlf := BlockIsWritten(s[n..]);
        fields := [f] + later;
        var b := HeaderBlock(s[n..]);
        assert fields[1..] == later;
        assert s[..n + b.size] == s[..n] + s[n..][..b.size];
        assert s[n + b.size..] == s[n..][b.size..];
      }
    }
  }

  lemma KindOf(s: bytes, n: nat) returns (isField: bool)
    requires 0 < n <= |s| && IsLine(s[..n])
    ensures isField ==> exists f :: GoodField(f) && s[..n] == FieldLine(f)
    ensures !isField ==> s[..n] == LineEnd(s[..n] == LineEnd(true))
  {
    isField := IsFieldLine(s[..n]);
  }

  lemma NothingRead(s: bytes)
    requires HeaderLine(s) == 0
    ensures NoLine(s)
  {
    hide HeaderLine, IsLine;
    forall n | 0 < n <= |s| ensures !IsLine(s[..n]) {
      LineIff(s, n);
    }
  }

  ghost predicate WrittenBlock(s: bytes, fields: seq<Field>, crlf: bool) {
    GoodFields(fields) && s == FieldLines(fields) + LineEnd(crlf)
  }

  lemma WholeBlockRead(s: bytes, n: nat, fields: seq<Field>, crlf: bool)
    requires n <= |s| && WrittenBlock(s[..n], fields, crlf)
    ensures HeaderBlock(s) == Block(n, true)
  {
    hide HeaderBlock, GoodFields, FieldLines, LineEnd;
    var rest := s[n..];
    assert s == FieldLines(fields) + (LineEnd(crlf) + rest);
    BlockIsRead(fields, LineEnd(crlf) + rest);
    BlockAfterBlank(crlf, rest);
  }

  lemma WholeBlockWritten(s: bytes, n: nat) returns (fields: seq<Field>, crlf: bool)
    requires n <= |s| && HeaderBlock(s) == Block(n, true)
    ensures WrittenBlock(s[..n], fields, crlf)
  {
    hide HeaderBlock, GoodFields, FieldLines, LineEnd, NoLine;
    fields, crlf := BlockIsWritten(s);
  }

  /** The reader finds a block complete exactly where fields and a blank line stand in front. */
  lemma BlockIff(s: bytes, n: nat)
    requires n <= |s|
    ensures HeaderBlock(s) == Block(n, true) <==> exists fields, crlf :: WrittenBlock(s[..n], fields, crlf)
  {
    hide HeaderBlock, WrittenBlock;
    if HeaderBlock(s) == Block(n, true) {
      var fields, crlf := WholeBlockWritten(s, n);
    }
    if exists fields, crlf :: WrittenBlock(s[..n], fields, crlf) {
      var fields, crlf :| WrittenBlock(s[..n], fields, crlf);
      WholeBlockRead(s, n, fields, crlf);
    }
  }

  ghost predicate WrittenOpen(s: bytes, n: nat, fields: seq<Field>)
    requires n <= |s|
  {
    GoodFields(fields) && s[..n] == FieldLines(fields) && NoLine(s[n..])
  }

  /** ...and open exactly where only fields do, and no line behind them. */
  lemma OpenBlockIff(s: bytes, n: nat)
    requires n <= |s|
    ensures HeaderBlock(s) == Block(n, false) <==> exists fields :: WrittenOpen(s, n, fields)
  {
    hide HeaderBlock, GoodFields, FieldLines, NoLine;
    if HeaderBlock(s) == Block(n, false) {
      var fields, crlf := BlockIsWritten(s);
      assert WrittenOpen(s, n, fields);
    }
    if exists fields :: WrittenOpen(s, n, fields) {
      var fields :| WrittenOpen(s, n, fields);
      assert s == FieldLines(fields) + s[n..];
      BlockIsRead(fields, s[n..]);
      BlockAfterNothing(s[n..]);
    }
  }

  // ------------------------------------------------------------------
  // Heads
  // ------------------------------------------------------------------

  /** A status line of HTTP starts with these five letters: HTTP/ */
  predicate HttpStatus(status: bytes) { [0x48, 0x54, 0x54, 0x50, 0x2F] <= status }

  lemma HttpIff(status: bytes)
    ensures IsHttp(status) <==> HttpStatus(status)
  {
  }

  predicate WrittenHead(head: bytes, status: bytes, fields: seq<Field>, crlf: bool) {
    && HttpStatus(status) && 0x0A !in status && GoodFields(fields)
    && head == status + [0x0A] + FieldLines(fields) + LineEnd(crlf)
  }
}
