/** Quoted scalars: what YAML 1.1 says they mean (sections 5.6, 9.1.1 and 9.1.2), and printers
    that write any text as such a scalar. */
module Quoted {
  import opened Utf8
  import opened Output

  const SPACE: CodePoint := 0x20
  const LF: CodePoint := 0x0A
  const CR: CodePoint := 0x0D
  const QUOTE: CodePoint := 0x22
  const APOSTROPHE: CodePoint := 0x27
  const BACKSLASH: CodePoint := 0x5C

  type Chars = seq<CodePoint>

  // ---------------------------------------------------------------- reading quoted scalars

  /** A reader within a quoted scalar, with what it has read so far. */
  datatype Reader =
    | Text(out: Chars, blanks: Chars)                        // blanks are dropped if a line break follows
    | Broken(out: Chars, first: CodePoint, more: Chars, cr: bool)  // after line breaks; `cr`: right after a CR
    | Escape(out: Chars)                                     // after a backslash
    | Hex(out: Chars, left: nat, value: int)                 // within an escape of `left` more digits
    | Ended(out: Chars)                                      // after a quote
    | Bad

  predicate Blank(c: CodePoint)
  {
    c == SPACE || c == 0x09
  }

  /** Line breaks are read as line feeds, but for the line and the paragraph separator. */
  function Normal(c: CodePoint): CodePoint
  {
    if c == 0x2028 || c == 0x2029 then c else LF
  }

  /** Line folding: a single line break is a space, the first of several is dropped. */
  function Folded(first: CodePoint, more: Chars): Chars
  {
    (if first != LF then [first] else if more == [] then [SPACE] else []) + more
  }

  /** What the reader has read, if nothing else follows. */
  function Settled(r: Reader): Chars
  {
    match r
    case Text(out, blanks) => out + blanks
    case Broken(out, first, more, _) => out + Folded(first, more)
    case Escape(out) => out
    case Hex(out, _, _) => out
    case Ended(out) => out
    case Bad => []
  }

  /** Blanks and line breaks, which both styles read alike. */
  function ReadWhite(r: Reader, c: CodePoint): Reader
    requires r.Text? || r.Broken?
    requires Blank(c) || Break(c)
  {
    match r
    case Text(out, blanks) => if Blank(c) then Text(out, blanks + [c]) else Broken(out, Normal(c), [], c == CR)
    case Broken(out, first, more, cr) =>
      if Blank(c) || (c == LF && cr) then Broken(out, first, more, false)
      else Broken(out, first, more + [Normal(c)], c == CR)
  }

  function EscapeMeans(c: CodePoint): int
  {
    if c == '0' as int then 0x00 else if c == 'a' as int then 0x07 else if c == 'b' as int then 0x08
    else if c == 't' as int then 0x09 else if c == 0x09 then 0x09 else if c == 'n' as int then 0x0A
    else if c == 'v' as int then 0x0B else if c == 'f' as int then 0x0C else if c == 'r' as int then 0x0D
    else if c == 'e' as int then 0x1B else if c == SPACE then SPACE else if c == QUOTE then QUOTE
    else if c == BACKSLASH then BACKSLASH else if c == 'N' as int then 0x85 else if c == '_' as int then 0xA0
    else if c == 'L' as int then 0x2028 else if c == 'P' as int then 0x2029 else -1
  }

  function HexLength(c: CodePoint): nat
  {
    if c == 'x' as int then 2 else if c == 'u' as int then 4 else if c == 'U' as int then 8 else 0
  }

  function HexValue(c: CodePoint): int
  {
    if 0x30 <= c <= 0x39 then c - 0x30 else if 0x41 <= c <= 0x46 then c - 0x41 + 10 else if 0x61 <= c <= 0x66 then c - 0x61 + 10 else -1
  }

  predicate IsScalar(v: int)
  {
    0 <= v < 0xD800 || 0xE000 <= v < 0x110000
  }

  /** One more character of a double-quoted scalar. */
  function ReadDouble(r: Reader, c: CodePoint): Reader
  {
    match r
    case Text(_, _) => ReadDoubleText(r, c)
    case Broken(_, _, _, _) => ReadDoubleText(r, c)
    case Escape(out) =>
      if HexLength(c) > 0 then Hex(out, HexLength(c), 0)
      else if EscapeMeans(c) >= 0 then Text(out + [EscapeMeans(c)], [])
      else Bad
    case Hex(out, left, value) =>
      var v := value * 16 + HexValue(c);
      if HexValue(c) < 0 || left == 0 then Bad
      else if left > 1 then Hex(out, left - 1, v)
      else if IsScalar(v) then Text(out + [v], [])
      else Bad
    case _ => Bad
  }

  function ReadDoubleText(r: Reader, c: CodePoint): Reader
    requires r.Text? || r.Broken?
  {
    if Blank(c) || Break(c) then ReadWhite(r, c)
    else if c == QUOTE then Ended(Settled(r))
    else if c == BACKSLASH then Escape(Settled(r))
    else Text(Settled(r) + [c], [])
  }

  function RunDouble(r: Reader, s: Chars): Reader
  {
    if s == [] then r else ReadDouble(RunDouble(r, s[..|s| - 1]), s[|s| - 1])
  }

  lemma {:induction false} RunDoubleAppend(r: Reader, a: Chars, b: Chars)
    ensures RunDouble(r, a + b) == RunDouble(RunDouble(r, a), b)
  {
    if b == [] {
      assert a + b == a;
    } else {
      assert (a + b)[..|a + b| - 1] == a + b[..|b| - 1];
      RunDoubleAppend(r, a, b[..|b| - 1]);
    }
  }

  lemma RunDoubleOne(r: Reader, c: CodePoint)
    ensures RunDouble(r, [c]) == ReadDouble(r, c)
  {
    assert RunDouble(r, []) == r;
  }

  // ---------------------------------------------------------------- escapes

  function HexDigit(d: int): CodePoint
    requires 0 <= d < 16
  {
    if d < 10 then 0x30 + d else 0x41 + d - 10
  }

  function HexDigits(v: nat, n: nat): (s: Chars)
    ensures |s| == n
  {
    if n == 0 then [] else HexDigits(v / 16, n - 1) + [HexDigit(v % 16)]
  }

  function Pow16(n: nat): nat
  {
    if n == 0 then 1 else 16 * Pow16(n - 1)
  }

  /** The letter that stands for a code point after a backslash, if there is one. */
  function EscapeLetter(c: CodePoint): int
  {
    if c == 0x00 then '0' as int else if c == 0x07 then 'a' as int else if c == 0x08 then 'b' as int
    else if c == 0x09 then 't' as int else if c == 0x0A then 'n' as int else if c == 0x0B then 'v' as int
    else if c == 0x0C then 'f' as int else if c == 0x0D then 'r' as int else if c == 0x1B then 'e' as int
    else if c == 0x22 then 0x22 else if c == 0x5C then 0x5C else if c == 0x85 then 'N' as int
    else if c == 0xA0 then '_' as int else if c == 0x2028 then 'L' as int else if c == 0x2029 then 'P' as int
    else -1
  }

  function EscapeOf(c: CodePoint): Chars
  {
    [BACKSLASH] + if EscapeLetter(c) >= 0 then [EscapeLetter(c)] else NumericEscape(c)
  }

  /** The letter of a numeric escape, and how many digits follow it. */
  function NumericForm(c: CodePoint): (f: (Byte, nat))
    ensures f.0 < 0x80
  {
    if c <= 0xFF then ('x' as int, 2) else if c <= 0xFFFF then ('u' as int, 4) else ('U' as int, 8)
  }

  function NumericEscape(c: CodePoint): Chars
  {
    [NumericForm(c).0] + HexDigits(c, NumericForm(c).1)
  }

  lemma {:induction false} DigitsRead(out: Chars, v: nat, n: nat, left: nat)
    requires v < Pow16(n) && left > 0
    ensures RunDouble(Hex(out, n + left, 0), HexDigits(v, n)) == Hex(out, left, v)
  {
    if n == 0 {
    } else {
      var s := HexDigits(v, n);
      DigitsRead(out, v / 16, n - 1, left + 1);
      assert s[..|s| - 1] == HexDigits(v / 16, n - 1);
      assert HexValue(HexDigit(v % 16)) == v % 16;
    }
  }

  lemma HexReads(out: Chars, v: CodePoint, n: nat)
    requires v < Pow16(n) && n > 0
    ensures RunDouble(Hex(out, n, 0), HexDigits(v, n)) == Text(out + [v], [])
  {
    hide ReadDouble, HexDigit, HexValue, RunDouble;
    var s := HexDigits(v, n);
    DigitsRead(out, v / 16, n - 1, 1);
    LastDigit(out, v);
    assert s == HexDigits(v / 16, n - 1) + [HexDigit(v % 16)];
    RunDoubleAppend(Hex(out, n, 0), HexDigits(v / 16, n - 1), [HexDigit(v % 16)]);
    RunDoubleOne(Hex(out, 1, v / 16), HexDigit(v % 16));
  }

  lemma LastDigit(out: Chars, v: CodePoint)
    ensures ReadDouble(Hex(out, 1, v / 16), HexDigit(v % 16)) == Text(out + [v], [])
  {
    assert HexValue(HexDigit(v % 16)) == v % 16;
  }

  lemma Powers()
    ensures Pow16(2) == 0x100 && Pow16(4) == 0x10000 && Pow16(8) == 0x1_0000_0000
  {
    assert Pow16(1) == 16 && Pow16(3) == 0x1000 && Pow16(5) == 0x100000 && Pow16(6) == 0x1000000 && Pow16(7) == 0x10000000;
  }

  /** An escape reads as the code point it stands for. */
  lemma EscapeReads(r: Reader, c: CodePoint)
    requires r.Text? || r.Broken?
    ensures RunDouble(r, EscapeOf(c)) == Text(Settled(r) + [c], [])
  {
    hide RunDouble, HexDigits, Settled, Normal, ReadWhite;
    var rest := EscapeOf(c)[1..];
    assert EscapeOf(c) == [BACKSLASH] + rest;
    RunDoubleAppend(r, [BACKSLASH], rest);
    RunDoubleOne(r, BACKSLASH);
    if EscapeLetter(c) >= 0 {
      RunDoubleOne(Escape(Settled(r)), EscapeLetter(c));
    } else {
      var n := NumericForm(c).1;
      assert rest == [rest[0]] + HexDigits(c, n);
      RunDoubleAppend(Escape(Settled(r)), [rest[0]], HexDigits(c, n));
      RunDoubleOne(Escape(Settled(r)), rest[0]);
      Powers();
      HexReads(Settled(r), c, n);
    }
  }

  function ShiftRight(v: nat, digits: nat): nat
  {
    if digits == 0 then v else ShiftRight(v, digits - 1) / 16
  }

  method PutHex(e: Printer, v: nat, n: nat) returns (ok: bool)
    requires e.Valid()
    modifies e`bufferPos, e`flushed, e`failed, e`chars, e`column, e.writer, e.buffer
    ensures e.Valid() && (!ok ==> e.failed)
    ensures ok ==> e.chars == old(e.chars) + HexDigits(v, n) && e.column == old(e.column) + n
  {
    hide EncodeAll;
    ok := true;
    var k := n;
    ShiftedOut(v, n);
    while k > 0
      invariant 0 <= k <= n && e.Valid() && e.column == old(e.column) + n - k
      invariant e.chars == old(e.chars) + HexDigits(ShiftRight(v, k), n - k)
    {
      k := k - 1;
      assert HexDigits(ShiftRight(v, k), n - k) == HexDigits(ShiftRight(v, k + 1), n - k - 1) + [HexDigit(ShiftRight(v, k) % 16)];
      var digit := ShiftRight(v, k) % 16;
      ok := Put(e, if digit < 10 then digit + 0x30 else digit + 0x41 - 10);
      if !ok {
        return;
      }
    }
  }

  lemma ShiftedOut(v: nat, n: nat)
    ensures HexDigits(ShiftRight(v, n), 0) == []
  {
  }

  /** Writes the escape for the character at `i`. */
  method WriteEscape(e: Printer, value: seq<Byte>, i: nat, ghost c: CodePoint) returns (ok: bool, i': nat)
    requires e.Valid() && At(value, i, c)
    modifies e`bufferPos, e`flushed, e`failed, e`chars, e`column, e.writer, e.buffer
    ensures e.Valid() && (!ok ==> e.failed)
    ensures ok ==> i' == i + Length(c) && e.chars == old(e.chars) + EscapeOf(c) && e.column == old(e.column) + |EscapeOf(c)|
  {
    hide HexDigits, EscapeLetter, NumericEscape, EncodeAll;
    var w, v := DecodeAt(value, i, c);
    i' := i + w;
    ok := Put(e, 0x5C);
    if !ok {
      return;
    }
    if EscapeLetter(v) >= 0 {
      LetterIsAscii(v);
      ok := Put(e, EscapeLetter(v));
    } else {
      ok := PutNumeric(e, v);
    }
  }

  lemma LetterIsAscii(v: CodePoint)
    ensures EscapeLetter(v) < 0x80
  {
  }

  method PutNumeric(e: Printer, v: CodePoint) returns (ok: bool)
    requires e.Valid()
    modifies e`bufferPos, e`flushed, e`failed, e`chars, e`column, e.writer, e.buffer
    ensures e.Valid() && (!ok ==> e.failed)
    ensures ok ==> e.chars == old(e.chars) + NumericEscape(v) && e.column == old(e.column) + |NumericEscape(v)|
  {
    hide HexDigits, NumericForm;
    var (letter, n) := NumericForm(v);
    ok := Put(e, letter);
    if ok {
      ok := PutHex(e, v, n);
    }
  }

  // ---------------------------------------------------------------- writing double-quoted scalars

  /** The characters that a double-quoted scalar must escape. */
  predicate MustEscape(cs: Chars, k: nat, unicode: bool)
    requires k < |cs|
  {
    !Printable(cs[k]) || (!unicode && cs[k] >= 0x80) || cs[0] == 0xFEFF || Break(cs[k]) || cs[k] == QUOTE || cs[k] == BACKSLASH
  }

  method NeedsEscape(e: Printer, value: seq<Byte>, i: nat, ghost cs: Chars, ghost k: nat) returns (r: bool)
    requires value == EncodeAll(cs) && k < |cs| && i == Offset(cs, k)
    ensures r <==> MustEscape(cs, k, e.unicode)
    ensures At(value, i, cs[k])
  {
    AtOffset(cs, k);
    AtOffset(cs, 0);
    OffsetEnd(cs, 0);
    TestsAgree(value, i, cs[k]);
    PrintableAgrees(value, i, cs[k]);
    BreakAgrees(value, i, cs[k]);
    BomAgrees(value, i, cs[0]);
    r := !IsPrintable(value, i) || (!e.unicode && !IsAscii(value, i)) || IsBom(value, i) || IsBreak(value, i) || value[i] == 0x22 || value[i] == 0x5C;
  }

  /** The test is true at every place of a text that begins with a byte order mark, and at none of others. */
  lemma BomAgrees(b: seq<Byte>, i: nat, c: CodePoint)
    requires At(b, 0, c)
    ensures Whole(b, 0) && (IsBom(b, i) <==> c == 0xFEFF)
  {
    BytesOf(b, 0, c);
    assert b[0 + 0] == Encode(c)[0];
    assert Length(c) > 1 ==> b[0 + 1] == Encode(c)[1];
    assert Length(c) > 2 ==> b[0 + 2] == Encode(c)[2];
  }

  /** The reader has read the first `k` characters. `spaces`: the last one is a space written as
      such, or as a fold. */
  ghost predicate ReadTo(r: Reader, cs: Chars, k: nat, spaces: bool)
  {
    && k <= |cs| && Settled(r) == cs[..k]
    && match r
       case Text(_, blanks) => !spaces ==> blanks == []
       case Broken(_, first, more, _) => first == LF && more == [] && spaces && k < |cs| && cs[k] != SPACE
       case Escape(_) => spaces && k < |cs| && cs[k] == SPACE && cs[0] != 0xFEFF
       case _ => false
  }

  lemma EscapeStep(r: Reader, cs: Chars, k: nat, spaces: bool, unicode: bool)
    requires ReadTo(r, cs, k, spaces) && k < |cs| && MustEscape(cs, k, unicode)
    ensures ReadTo(RunDouble(r, EscapeOf(cs[k])), cs, k + 1, false)
  {
    hide RunDouble, EscapeOf;
    assert !r.Escape?;
    EscapeReads(r, cs[k]);
    assert cs[..k + 1] == cs[..k] + [cs[k]];
  }

  lemma CharStep(r: Reader, cs: Chars, k: nat, spaces: bool, unicode: bool)
    requires ReadTo(r, cs, k, spaces) && k < |cs| && !MustEscape(cs, k, unicode)
    ensures ReadTo(RunDouble(r, [cs[k]]), cs, k + 1, cs[k] == SPACE)
  {
    RunDoubleOne(r, cs[k]);
    assert cs[..k + 1] == cs[..k] + [cs[k]];
    if cs[k] == SPACE && r.Text? {
      assert r.out + (r.blanks + [SPACE]) == (r.out + r.blanks) + [SPACE];
    }
  }

  lemma {:induction false} SpacesRead(out: Chars, first: CodePoint, more: Chars, n: nat)
    ensures RunDouble(Broken(out, first, more, false), Spaces(n)) == Broken(out, first, more, false)
  {
    if n == 0 {
    } else {
      SpacesRead(out, first, more, n - 1);
      SpacesSnoc(n - 1);
      assert Spaces(n)[..n - 1] == Spaces(n - 1);
    }
  }

  lemma BreakReads(out: Chars, b: LineBreak)
    ensures exists cr :: RunDouble(Text(out, []), BreakChars(b)) == Broken(out, LF, [], cr)
  {
    var s := BreakChars(b);
    RunDoubleOne(Text(out, []), s[0]);
    if b == CrLnBreak {
      assert s == [CR] + [LF];
      RunDoubleAppend(Text(out, []), [CR], [LF]);
      RunDoubleOne(Broken(out, LF, [], true), LF);
      assert RunDouble(Text(out, []), s) == Broken(out, LF, [], false);
    } else {
      assert RunDouble(Text(out, []), s) == Broken(out, LF, [], b == CrBreak);
    }
  }

  lemma FoldReads(r: Reader, cs: Chars, k: nat, b: LineBreak, n: nat)
    requires ReadTo(r, cs, k, false) && k + 1 < |cs| && cs[k] == SPACE && cs[0] != 0xFEFF
    ensures cs[k + 1] != SPACE ==> ReadTo(RunDouble(r, FoldChars(b, n)), cs, k + 1, true)
    ensures cs[k + 1] == SPACE ==> ReadTo(RunDouble(r, FoldChars(b, n) + [BACKSLASH]), cs, k + 1, true)
  {
    hide RunDouble;
    BreakReads(r.out, b);
    var cr :| RunDouble(Text(r.out, []), BreakChars(b)) == Broken(r.out, LF, [], cr);
    assert r == Text(r.out, []);
    RunDoubleAppend(r, BreakChars(b), Spaces(n));
    BlankReads(r.out, cr, n);
    var q := RunDouble(r, BreakChars(b) + Spaces(n));
    RunDoubleAppend(r, BreakChars(b) + Spaces(n), [BACKSLASH]);
    RunDoubleOne(q, BACKSLASH);
    assert cs[..k + 1] == cs[..k] + [SPACE];
  }

  lemma BlankReads(out: Chars, cr: bool, n: nat)
    ensures exists cr' :: RunDouble(Broken(out, LF, [], cr), Spaces(n)) == Broken(out, LF, [], cr')
  {
    if n == 0 {
      assert RunDouble(Broken(out, LF, [], cr), Spaces(n)) == Broken(out, LF, [], cr);
    } else {
      assert Spaces(n) == [SPACE] + Spaces(n - 1);
      RunDoubleAppend(Broken(out, LF, [], cr), [SPACE], Spaces(n - 1));
      RunDoubleOne(Broken(out, LF, [], cr), SPACE);
      SpacesRead(out, LF, [], n - 1);
      assert RunDouble(Broken(out, LF, [], cr), Spaces(n)) == Broken(out, LF, [], false);
    }
  }

  function Margin(e: Printer): int
    reads e
  {
    if e.indent < 0 then 0 else e.indent
  }

  /** The printer has written `body` after `start`, which reads as the first `k` characters. */
  ghost predicate Writing(e: Printer, start: Chars, body: Chars, cs: Chars, k: nat, spaces: bool)
    reads e, e.writer, e.buffer
  {
    && e.Valid() && e.column >= 0 && e.chars == start + body && ReadTo(RunDouble(Text([], []), body), cs, k, spaces)
    && (!e.indention || e.column > Margin(e) || (spaces && e.column >= Margin(e)))
  }

  method EscapeOne(e: Printer, value: seq<Byte>, i: nat, ghost start: Chars, ghost body: Chars, ghost cs: Chars, ghost k: nat, ghost spaces: bool)
    returns (ok: bool, i': nat, ghost body': Chars)
    requires Writing(e, start, body, cs, k, spaces) && k < |cs| && MustEscape(cs, k, e.unicode) && At(value, i, cs[k])
    modifies e`bufferPos, e`flushed, e`failed, e`chars, e`column, e.writer, e.buffer
    ensures e.Valid() && (!ok ==> e.failed)
    ensures ok ==> Writing(e, start, body', cs, k + 1, false) && i' == i + Length(cs[k])
    ensures ok ==> body' == body + EscapeOf(cs[k]) && e.column == old(e.column) + |EscapeOf(cs[k])|
  {
    hide ReadTo, RunDouble, EscapeOf, MustEscape, At;
    EscapeLength(cs[k]);
    ok, i' := WriteEscape(e, value, i, cs[k]);
    body' := body + EscapeOf(cs[k]);
    RunDoubleAppend(Text([], []), body, EscapeOf(cs[k]));
    EscapeStep(RunDouble(Text([], []), body), cs, k, spaces, e.unicode);
  }

  method WriteOne(e: Printer, value: seq<Byte>, i: nat, ghost start: Chars, ghost body: Chars, ghost cs: Chars, ghost k: nat, ghost spaces: bool)
    returns (ok: bool, i': nat, ghost body': Chars)
    requires Writing(e, start, body, cs, k, spaces) && k < |cs| && !MustEscape(cs, k, e.unicode) && At(value, i, cs[k])
    modifies e`bufferPos, e`flushed, e`failed, e`chars, e`column, e.writer, e.buffer
    ensures e.Valid() && (!ok ==> e.failed)
    ensures ok ==> Writing(e, start, body', cs, k + 1, cs[k] == SPACE) && i' == i + Length(cs[k])
    ensures ok ==> body' == body + [cs[k]] && e.column == old(e.column) + 1
  {
    hide ReadTo, RunDouble, MustEscape, At;
    ok, i' := Write(e, value, i, cs[k]);
    body' := body + [cs[k]];
    RunDoubleAppend(Text([], []), body, [cs[k]]);
    CharStep(RunDouble(Text([], []), body), cs, k, spaces, e.unicode);
  }

  /** A space becomes a line break and the indentation; another space after it is marked. */
  method FoldOne(e: Printer, value: seq<Byte>, i: nat, ghost start: Chars, ghost body: Chars, ghost cs: Chars, ghost k: nat)
    returns (ok: bool, i': nat, ghost body': Chars)
    requires Writing(e, start, body, cs, k, false) && k + 1 < |cs| && cs[k] == SPACE && cs[0] != 0xFEFF
    requires i + 1 < |value| && At(value, i + 1, cs[k + 1])
    modifies e`bufferPos, e`flushed, e`failed, e`chars, e`column, e`line, e`whitespace, e`indention, e.writer, e.buffer
    ensures e.Valid() && (!ok ==> e.failed)
    ensures ok ==> Writing(e, start, body', cs, k + 1, true) && i' == i + 1
    ensures ok ==> body' == body + MarkedFold(e.lineBreak, Margin(e), cs[k + 1]) && e.column == Margin(e) + (if cs[k + 1] == SPACE then 1 else 0)
  {
    hide ReadTo, RunDouble, At, Settled, FoldChars, EncodeAll, Encode;
    FoldReads(RunDouble(Text([], []), body), cs, k, e.lineBreak, Margin(e));
    i' := i;
    ok, body' := Fold(e, start, body);
    if !ok {
      return;
    }
    TestsAgree(value, i + 1, cs[k + 1]);
    RunDoubleAppend(Text([], []), body, FoldChars(e.lineBreak, Margin(e)));
    if IsSpace(value, i + 1) {
      RunDoubleAppend(Text([], []), body, FoldChars(e.lineBreak, Margin(e)) + [BACKSLASH]);
      assert body' + [BACKSLASH] == body + (FoldChars(e.lineBreak, Margin(e)) + [BACKSLASH]);
      ok := Put(e, 0x5C);
      body' := body' + [BACKSLASH];
    }
    i' := i + 1;
  }

  /** A line break and the indentation. */
  function FoldChars(b: LineBreak, n: int): Chars
  {
    BreakChars(b) + Spaces(n)
  }

  /** A fold before a space ends with a backslash. */
  function MarkedFold(b: LineBreak, n: int, next: CodePoint): Chars
  {
    FoldChars(b, n) + if next == SPACE then [BACKSLASH] else []
  }

  /** Starts a new line within a scalar. */
  method Fold(e: Printer, ghost start: Chars, ghost body: Chars) returns (ok: bool, ghost body': Chars)
    requires e.Valid() && e.column >= 0 && e.chars == start + body && NeedsBreak(e.indention, e.whitespace, e.column, e.indent)
    modifies e`bufferPos, e`flushed, e`failed, e`chars, e`column, e`line, e`whitespace, e`indention, e.writer, e.buffer
    ensures e.Valid() && (!ok ==> e.failed)
    ensures ok ==> body' == body + FoldChars(e.lineBreak, Margin(e)) && e.chars == start + body' && e.column == Margin(e) && e.indention && e.whitespace
  {
    ok := WriteIndent(e);
    body' := body + FoldChars(e.lineBreak, Margin(e));
    if ok {
      Assoc(start, body, BreakChars(e.lineBreak), Spaces(Margin(e)));
    }
  }

  lemma Assoc<T>(a: seq<T>, b: seq<T>, c: seq<T>, d: seq<T>)
    ensures (a + b) + c + d == a + (b + (c + d))
  {
  }

  // ---------------------------------------------------------------- where lines are broken

  /** What the text between the quotes depends on, besides the scalar: `column` is where it begins. */
  datatype Layout = Layout(unicode: bool, allowBreaks: bool, width: int, style: LineBreak, margin: nat, column: int)

  function LayoutAt(e: Printer, allowBreaks: bool, column: int): Layout
    reads e
  {
    Layout(e.unicode, allowBreaks, e.bestWidth, e.lineBreak, Margin(e), column)
  }

  /** The column after some characters. */
  function Column(from: int, s: Chars): int
  {
    if s == [] then from else if Break(s[|s| - 1]) then 0 else Column(from, s[..|s| - 1]) + 1
  }

  lemma {:induction false} ColumnGoesOn(from: int, s: Chars, t: Chars)
    requires forall c <- t :: !Break(c)
    ensures Column(from, s + t) == Column(from, s) + |t|
  {
    if t == [] {
      assert s + t == s;
    } else {
      assert (s + t)[..|s + t| - 1] == s + t[..|t| - 1];
      ColumnGoesOn(from, s, t[..|t| - 1]);
    }
  }

  lemma ColumnAfterBreak(from: int, s: Chars, style: LineBreak, t: Chars)
    requires forall c <- t :: !Break(c)
    ensures Column(from, s + (BreakChars(style) + t)) == |t|
  {
    ColumnGoesOn(from, s + BreakChars(style), t);
    assert s + (BreakChars(style) + t) == (s + BreakChars(style)) + t;
  }

  /** A line is broken at the first of some spaces within the text, beyond the width. */
  predicate FoldsAt(cs: Chars, k: nat, column: int, l: Layout)
    requires k < |cs|
  {
    cs[k] == SPACE && l.allowBreaks && column > l.width && 0 < k < |cs| - 1 && cs[k - 1] != SPACE
  }

  /** The text that is written for the first `k` characters. */
  function DoubleText(cs: Chars, k: nat, l: Layout): Chars
    requires k <= |cs|
  {
    if k == 0 then []
    else
      var s := DoubleText(cs, k - 1, l);
      s + DoublePiece(cs, k - 1, Column(l.column, s), l)
  }

  function DoublePiece(cs: Chars, k: nat, column: int, l: Layout): Chars
    requires k < |cs|
  {
    if MustEscape(cs, k, l.unicode) then EscapeOf(cs[k])
    else if FoldsAt(cs, k, column, l) then MarkedFold(l.style, l.margin, cs[k + 1])
    else [cs[k]]
  }

  /** A line break begins at `j`. */
  predicate BreaksAt(s: Chars, j: nat)
    requires j < |s|
  {
    Break(s[j]) && (j == 0 || !Break(s[j - 1]))
  }

  /** Lines are broken beyond the width only, and only where that is allowed. */
  ghost predicate WideBreaks(s: Chars, l: Layout)
  {
    forall j :: 0 <= j < |s| && BreaksAt(s, j) ==> l.allowBreaks && Column(l.column, s[..j]) > l.width
  }

  lemma {:induction false} DigitsPlain(v: nat, n: nat)
    ensures forall c <- HexDigits(v, n) :: !Break(c) && 0x30 <= c <= 0x46
  {
    if n == 0 {
    } else {
      DigitsPlain(v / 16, n - 1);
    }
  }

  /** Escapes are of the printable ASCII characters. */
  lemma EscapePlain(c: CodePoint)
    ensures forall d <- EscapeOf(c) :: !Break(d) && 0x20 < d <= 0x7E
  {
    DigitsPlain(c, NumericForm(c).1);
  }

  /** A code point that has a letter is written with it. */
  lemma LettersAreUsed(c: CodePoint, l: CodePoint)
    requires EscapeMeans(l) == c && l != 0x09 && c != SPACE
    ensures EscapeOf(c) == [BACKSLASH, l]
  {
  }

  lemma EscapeLength(c: CodePoint)
    ensures |EscapeOf(c)| == if EscapeLetter(c) >= 0 then 2 else if c <= 0xFF then 4 else if c <= 0xFFFF then 6 else 10
  {
  }

  lemma {:induction false} WideAppend(s: Chars, t: Chars, l: Layout)
    requires WideBreaks(s, l)
    requires forall j :: 0 <= j < |t| && BreaksAt(t, j) ==> j == 0 && l.allowBreaks && Column(l.column, s) > l.width
    ensures WideBreaks(s + t, l)
  {
    forall j | 0 <= j < |s + t| && BreaksAt(s + t, j)
      ensures l.allowBreaks && Column(l.column, (s + t)[..j]) > l.width
    {
      if j < |s| {
        assert BreaksAt(s, j) && (s + t)[..j] == s[..j];
      } else {
        assert BreaksAt(t, j - |s|) && (s + t)[..|s|] == s;
      }
    }
  }

  lemma PieceBreaks(cs: Chars, k: nat, column: int, l: Layout, j: nat)
    requires k < |cs| && j < |DoublePiece(cs, k, column, l)| && BreaksAt(DoublePiece(cs, k, column, l), j)
    ensures j == 0 && FoldsAt(cs, k, column, l)
  {
    hide MustEscape, EscapeOf;
    EscapePlain(cs[k]);
    var s := DoublePiece(cs, k, column, l);
    assert s[j] in s;
    if !MustEscape(cs, k, l.unicode) {
      NotBroken(cs, k, l.unicode);
      assert FoldsAt(cs, k, column, l);
      var t := BreakChars(l.style);
      var rest := Spaces(l.margin) + if cs[k + 1] == SPACE then [BACKSLASH] else [];
      assert s == t + rest;
      assert j >= |t| ==> s[j] in rest;
    }
  }

  lemma FoldNeeds(cs: Chars, k: nat, column: int, l: Layout)
    requires k < |cs| && FoldsAt(cs, k, column, l)
    ensures l.allowBreaks && column > l.width
  {
  }

  lemma WideStep(cs: Chars, k: nat, s: Chars, l: Layout)
    requires k < |cs| && WideBreaks(s, l)
    ensures WideBreaks(s + DoublePiece(cs, k, Column(l.column, s), l), l)
  {
    hide WideBreaks, DoublePiece, FoldsAt, Column, BreaksAt;
    var t := DoublePiece(cs, k, Column(l.column, s), l);
    forall j | 0 <= j < |t| && BreaksAt(t, j)
      ensures j == 0 && l.allowBreaks && Column(l.column, s) > l.width
    {
      PieceBreaks(cs, k, Column(l.column, s), l, j);
      FoldNeeds(cs, k, Column(l.column, s), l);
    }
    WideAppend(s, t, l);
  }

  /** No line is broken in a simple key, and elsewhere only at a space beyond the width. */
  lemma {:induction false} DoubleIsWide(cs: Chars, k: nat, l: Layout)
    requires k <= |cs|
    ensures WideBreaks(DoubleText(cs, k, l), l)
  {
    hide DoublePiece, Column, BreaksAt;
    if k == 0 {
    } else {
      DoubleIsWide(cs, k - 1, l);
      WideStep(cs, k - 1, DoubleText(cs, k - 1, l), l);
    }
  }

  /** Without permission to break lines there is no line break at all. */
  lemma {:induction false} NoBreaks(s: Chars, l: Layout, n: nat)
    requires WideBreaks(s, l) && !l.allowBreaks && n <= |s|
    ensures forall c <- s[..n] :: !Break(c)
  {
    if n == 0 {
    } else {
      NoBreaks(s, l, n - 1);
      assert s[..n] == s[..n - 1] + [s[n - 1]];
      if n > 1 {
        assert s[..n - 1][n - 2] == s[n - 2];
      }
      assert !BreaksAt(s, n - 1);
    }
  }

  /** The characters that need no escape. */
  predicate Plain(c: CodePoint, unicode: bool)
  {
    || (0x20 <= c <= 0x7E && c != 0x22 && c != 0x5C)
    || (unicode && (0xA0 <= c < 0xD800 || 0xE000 <= c < 0xFFFE) && c != 0x2028 && c != 0x2029 && c != 0xFEFF)
  }

  lemma PlainStays(cs: Chars, k: nat, unicode: bool)
    requires k < |cs|
    ensures MustEscape(cs, k, unicode) <==> cs[0] == 0xFEFF || !Plain(cs[k], unicode)
    ensures Plain(cs[0], unicode) ==> cs[0] != 0xFEFF
  {
  }

  /** A space after something else, beyond the width and before something else, becomes a line break. */
  lemma LongLineFolds(cs: Chars, k: nat, l: Layout)
    requires l.allowBreaks && 0 < k < |cs| - 1 && cs[0] != 0xFEFF && cs[k] == SPACE && cs[k - 1] != SPACE
    requires Column(l.column, DoubleText(cs, k, l)) > l.width
    ensures BreakChars(l.style) <= DoubleText(cs, k + 1, l)[|DoubleText(cs, k, l)|..]
  {
    hide Column, MustEscape, EscapeOf, BreakChars, DoublePiece;
    var s := DoubleText(cs, k, l);
    var t := DoublePiece(cs, k, Column(l.column, s), l);
    PlainStays(cs, k, l.unicode);
    PieceIs(cs, k, Column(l.column, s), l);
    assert t == BreakChars(l.style) + (Spaces(l.margin) + if cs[k + 1] == SPACE then [BACKSLASH] else []);
    assert DoubleText(cs, k + 1, l)[|s|..] == t;
  }

  /** A plain text is written as it is, if it fits into the line or no line may be broken. */
  lemma {:induction false} DoubleOfPlain(cs: Chars, k: nat, l: Layout)
    requires k <= |cs| && forall c <- cs :: Plain(c, l.unicode)
    requires l.allowBreaks ==> l.column + |cs| <= l.width + 2
    ensures DoubleText(cs, k, l) == cs[..k] && Column(l.column, cs[..k]) == l.column + k
  {
    hide MustEscape, EscapeOf, MarkedFold, Column, Plain;
    ColumnOfNone(l.column);
    assert cs[..0] == [];
    if k == 0 {
    } else {
      DoubleOfPlain(cs, k - 1, l);
      PlainStays(cs, k - 1, l.unicode);
      NotBroken(cs, k - 1, l.unicode);
      assert cs[..k] == cs[..k - 1] + [cs[k - 1]];
      ColumnGoesOn(l.column, cs[..k - 1], [cs[k - 1]]);
    }
  }

  lemma PiecePrints(cs: Chars, k: nat, column: int, l: Layout)
    requires k < |cs|
    ensures forall c <- DoublePiece(cs, k, column, l) :: Break(c) || (Printable(c) && (l.unicode || c < 0x80))
  {
    hide EscapeOf, MustEscape;
    EscapePlain(cs[k]);
    if !MustEscape(cs, k, l.unicode) {
      NotBroken(cs, k, l.unicode);
    }
  }

  /** What is written prints, and is ASCII where nothing else may be written. */
  lemma {:induction false} DoublePrints(cs: Chars, k: nat, l: Layout)
    requires k <= |cs|
    ensures forall c <- DoubleText(cs, k, l) :: Break(c) || (Printable(c) && (l.unicode || c < 0x80))
  {
    hide DoublePiece, Column, Printable, Break;
    if k == 0 {
    } else {
      DoublePrints(cs, k - 1, l);
      PiecePrints(cs, k - 1, Column(l.column, DoubleText(cs, k - 1, l)), l);
    }
  }

  /** The column follows the text. */
  lemma ColumnStep(cs: Chars, k: nat, l: Layout, s: Chars, column: int)
    requires k < |cs| && s == DoubleText(cs, k, l)
    requires column == if MustEscape(cs, k, l.unicode) then Column(l.column, s) + |EscapeOf(cs[k])|
      else if FoldsAt(cs, k, Column(l.column, s), l) then l.margin + (if cs[k + 1] == SPACE then 1 else 0)
      else Column(l.column, s) + 1
    ensures s + DoublePiece(cs, k, Column(l.column, s), l) == DoubleText(cs, k + 1, l) && column == Column(l.column, DoubleText(cs, k + 1, l))
  {
    hide EscapeOf, MustEscape, Column, DoublePiece, MarkedFold;
    var t := DoublePiece(cs, k, Column(l.column, s), l);
    PieceIs(cs, k, Column(l.column, s), l);
    if MustEscape(cs, k, l.unicode) {
      EscapePlain(cs[k]);
      ColumnGoesOn(l.column, s, t);
    } else if FoldsAt(cs, k, Column(l.column, s), l) {
      ColumnAfterFold(l.column, s, l, cs[k + 1]);
    } else {
      NotBroken(cs, k, l.unicode);
      ColumnGoesOn(l.column, s, t);
    }
  }

  lemma ColumnAfterFold(from: int, s: Chars, l: Layout, next: CodePoint)
    ensures Column(from, s + MarkedFold(l.style, l.margin, next)) == l.margin + if next == SPACE then 1 else 0
  {
    hide Column, BreakChars;
    var rest := Spaces(l.margin) + if next == SPACE then [BACKSLASH] else [];
    assert MarkedFold(l.style, l.margin, next) == BreakChars(l.style) + rest;
    ColumnAfterBreak(from, s, l.style, rest);
  }

  lemma NotBroken(cs: Chars, k: nat, unicode: bool)
    requires k < |cs| && !MustEscape(cs, k, unicode)
    ensures !Break(cs[k]) && Printable(cs[k]) && (unicode || cs[k] < 0x80)
  {
  }

  lemma PieceIs(cs: Chars, k: nat, column: int, l: Layout)
    requires k < |cs|
    ensures DoublePiece(cs, k, column, l) == if MustEscape(cs, k, l.unicode) then EscapeOf(cs[k])
      else if FoldsAt(cs, k, column, l) then MarkedFold(l.style, l.margin, cs[k + 1]) else [cs[k]]
  {
  }

  /** Writes a text as a double-quoted scalar. What is between the quotes reads as the text. */
  method WriteDoubleQuoted(e: Printer, value: seq<Byte>, allowBreaks: bool, ghost cs: Chars) returns (ok: bool, ghost body: Chars)
    requires e.Valid() && e.column >= 0 && value == EncodeAll(cs)
    modifies e`bufferPos, e`flushed, e`failed, e`chars, e`column, e`line, e`whitespace, e`indention, e`openEnded, e.writer, e.buffer
    ensures e.Valid() && (!ok ==> e.failed)
    ensures ok ==> e.chars == old(e.chars) + (if old(e.whitespace) then [] else [SPACE]) + [QUOTE] + body + [QUOTE]
    ensures ok ==> RunDouble(Text([], []), body + [QUOTE]) == Ended(cs)
    ensures ok ==> body == DoubleText(cs, |cs|, LayoutAt(e, allowBreaks, old(e.column) + if old(e.whitespace) then 1 else 2))
    ensures ok && !allowBreaks ==> forall c <- body :: !Break(c)
    ensures ok ==> WideBreaks(body, LayoutAt(e, allowBreaks, old(e.column) + if old(e.whitespace) then 1 else 2))
  {
    hide RunDouble, MustEscape, At, ReadTo, Offset, EncodeAll, Column, EscapeOf, MarkedFold, WideBreaks, DoubleText, DoublePiece, Break, Settled;
    var spaces := false;
    body := [];
    EncodeOne(0x22);
    ok := WriteIndicator(e, [0x22], true, false, false, [0x22]);
    if !ok {
      return;
    }
    ghost var start, k, l := e.chars, 0, LayoutAt(e, allowBreaks, e.column);
    DoubleBegins(cs);
    ColumnOfNone(l.column);
    var i := 0;
    while i < |value|
      invariant k <= |cs| && i == Offset(cs, k) && Writing(e, start, body, cs, k, spaces) && e.indent == old(e.indent)
      invariant i <= |value| && (i == |value| <==> k == |cs|)
      invariant body == DoubleText(cs, k, l) && e.column == Column(l.column, body)
      invariant spaces <==> k > 0 && cs[k - 1] == SPACE && cs[0] != 0xFEFF
      decreases |cs| - k
    {
      ghost var was := body;
      AtOffset(cs, k);
      OffsetEnd(cs, k + 1);
      OffsetEnd(cs, k);
      var escape := NeedsEscape(e, value, i, cs, k);
      TestsAgree(value, i, cs[k]);
      SpaceFacts(cs, k, e.unicode);
      PieceIs(cs, k, e.column, l);
      if escape {
        ok, i, body := EscapeOne(e, value, i, start, body, cs, k, spaces);
        spaces := false;
      } else if IsSpace(value, i) {
        if allowBreaks && !spaces && e.column > e.bestWidth && i > 0 && i < |value| - 1 {
          AtOffset(cs, k + 1);
          ok, i, body := FoldOne(e, value, i, start, body, cs, k);
        } else {
          ok, i, body := WriteOne(e, value, i, start, body, cs, k, spaces);
        }
        spaces := true;
      } else {
        ok, i, body := WriteOne(e, value, i, start, body, cs, k, spaces);
        spaces := false;
      }
      if !ok {
        return;
      }
      ColumnStep(cs, k, l, was, e.column);
      k := k + 1;
    }
    DoubleIsWide(cs, k, l);
    NoBreaksAtAll(body, l);
    DoubleEnds(RunDouble(Text([], []), body), body, cs, spaces);
    EncodeOne(0x22);
    ok := WriteIndicator(e, [0x22], false, false, false, [0x22]);
    if ok {
      e.whitespace := false;
      e.indention := false;
    }
  }

  lemma ColumnOfNone(from: int)
    ensures Column(from, []) == from && forall cs: Chars, l: Layout :: DoubleText(cs, 0, l) == []
  {
  }

  lemma NoBreaksAtAll(s: Chars, l: Layout)
    requires WideBreaks(s, l)
    ensures !l.allowBreaks ==> forall c <- s :: !Break(c)
  {
    if !l.allowBreaks {
      NoBreaks(s, l, |s|);
      assert s[..|s|] == s;
    }
  }

  lemma DoubleBegins(cs: Chars)
    ensures ReadTo(RunDouble(Text([], []), []), cs, 0, false) && Offset(cs, 0) == 0 && (|EncodeAll(cs)| == 0 <==> |cs| == 0)
  {
    OffsetEnd(cs, 0);
  }

  lemma DoubleEnds(r: Reader, body: Chars, cs: Chars, spaces: bool)
    requires r == RunDouble(Text([], []), body) && ReadTo(r, cs, |cs|, spaces)
    ensures RunDouble(Text([], []), body + [QUOTE]) == Ended(cs)
  {
    RunDoubleAppend(Text([], []), body, [QUOTE]);
    RunDoubleOne(r, QUOTE);
    assert cs[..|cs|] == cs;
  }

  lemma SpaceFacts(cs: Chars, k: nat, unicode: bool)
    requires k < |cs|
    ensures if MustEscape(cs, k, unicode) then cs[k] == SPACE ==> cs[0] == 0xFEFF else cs[0] != 0xFEFF
  {
  }
}
