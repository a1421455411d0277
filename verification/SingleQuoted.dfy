/** Single-quoted scalars: no escapes but a doubled quote, so not every text can be written as one. */
module SingleQuoted {
  import opened Utf8
  import opened Output
  import opened Quoted

  /** One more character of a single-quoted scalar. */
  function ReadSingle(r: Reader, c: CodePoint): Reader
  {
    match r
    case Text(_, _) => ReadSingleText(r, c)
    case Broken(_, _, _, _) => ReadSingleText(r, c)
    case Ended(out) => if c == APOSTROPHE then Text(out + [c], []) else Bad
    case _ => Bad
  }

  function ReadSingleText(r: Reader, c: CodePoint): Reader
    requires r.Text? || r.Broken?
  {
    if Blank(c) || Break(c) then ReadWhite(r, c)
    else if c == APOSTROPHE then Ended(Settled(r))
    else Text(Settled(r) + [c], [])
  }

  function RunSingle(r: Reader, s: Chars): Reader
  {
    if s == [] then r else ReadSingle(RunSingle(r, s[..|s| - 1]), s[|s| - 1])
  }

  lemma {:induction false} RunSingleAppend(r: Reader, a: Chars, b: Chars)
    ensures RunSingle(r, a + b) == RunSingle(RunSingle(r, a), b)
  {
    if b == [] {
      assert a + b == a;
    } else {
      assert (a + b)[..|a + b| - 1] == a + b[..|b| - 1];
      RunSingleAppend(r, a, b[..|b| - 1]);
    }
  }

  lemma RunSingleOne(r: Reader, c: CodePoint)
    ensures RunSingle(r, [c]) == ReadSingle(r, c)
  {
    assert RunSingle(r, []) == r;
  }

  // ---------------------------------------------------------------- which texts may be written so

  /** All characters print, and no space is next to a line break. */
  predicate SingleAllowed(cs: Chars, unicode: bool)
  {
    forall k :: 0 <= k < |cs| ==> AllowedAt(cs, k, unicode)
  }

  predicate AllowedAt(cs: Chars, k: nat, unicode: bool)
    requires k < |cs|
  {
    && Printable(cs[k]) && (unicode || cs[k] < 0x80)
    && (k > 0 ==> !(cs[k] == SPACE && Break(cs[k - 1])) && !(Break(cs[k]) && cs[k - 1] == SPACE))
  }

  predicate AllowedTo(cs: Chars, k: nat, unicode: bool)
    requires k <= |cs|
  {
    forall j :: 0 <= j < k ==> AllowedAt(cs, j, unicode)
  }

  predicate BreakIn(cs: Chars, k: nat)
    requires k <= |cs|
  {
    exists j :: 0 <= j < k && Break(cs[j])
  }

  /** A text without line breaks may be written so exactly if none of its characters needs an escape, quotes and
      backslashes aside. */
  lemma AllowedOnOneLine(cs: Chars, unicode: bool)
    requires forall c <- cs :: !Break(c)
    ensures SingleAllowed(cs, unicode) <==> forall c <- cs :: Plain(c, unicode) || c == 0x22 || c == 0x5C
  {
    hide Break;
    if SingleAllowed(cs, unicode) {
      forall c | c in cs
        ensures Plain(c, unicode) || c == 0x22 || c == 0x5C
      {
        var k :| 0 <= k < |cs| && cs[k] == c;
        assert AllowedAt(cs, k, unicode);
        OneLineChar(c, unicode);
      }
    } else {
      var k :| 0 <= k < |cs| && !AllowedAt(cs, k, unicode);
      assert cs[k] in cs;
      OneLineChar(cs[k], unicode);
    }
  }

  lemma OneLineChar(c: CodePoint, unicode: bool)
    requires !Break(c)
    ensures Printable(c) && (unicode || c < 0x80) <==> Plain(c, unicode) || c == 0x22 || c == 0x5C
  {
  }

  lemma AnalysisStep(cs: Chars, k: nat, unicode: bool)
    requires k < |cs|
    ensures AllowedTo(cs, k + 1, unicode) <==> AllowedTo(cs, k, unicode) && AllowedAt(cs, k, unicode)
    ensures BreakIn(cs, k + 1) <==> BreakIn(cs, k) || Break(cs[k])
  {
    assert BreakIn(cs, k) ==> BreakIn(cs, k + 1) by {
      if BreakIn(cs, k) {
        var j :| 0 <= j < k && Break(cs[j]);
        assert 0 <= j < k + 1 && Break(cs[j]);
      }
    }
  }

  lemma AnalysisEnds(cs: Chars, unicode: bool)
    ensures AllowedTo(cs, 0, unicode) && !BreakIn(cs, 0)
    ensures AllowedTo(cs, |cs|, unicode) <==> SingleAllowed(cs, unicode)
    ensures BreakIn(cs, |cs|) <==> exists c <- cs :: Break(c)
  {
    if exists c <- cs :: Break(c) {
      var c :| c in cs && Break(c);
      var j :| 0 <= j < |cs| && cs[j] == c;
      assert 0 <= j < |cs| && Break(cs[j]);
    }
  }

  /** The flags of the analysis that matter to quoted scalars. */
  method AnalyzeScalar(unicode: bool, value: seq<Byte>, ghost cs: Chars) returns (multiline: bool, singleQuotedAllowed: bool)
    requires value == EncodeAll(cs)
    ensures singleQuotedAllowed <==> SingleAllowed(cs, unicode)
    ensures multiline <==> exists c <- cs :: Break(c)
  {
    OffsetEnd(cs, 0);
    if |value| == 0 {
      return false, true;
    }
    hide Printable, Break, Offset, EncodeAll, IsPrintable, IsBreak, At, AllowedTo, BreakIn;
    AnalysisEnds(cs, unicode);
    var specialCharacters, breakSpace, spaceBreak, previousSpace, previousBreak := false, false, false, false, false;
    multiline := false;
    ghost var k := 0;
    var i := 0;
    while i < |value|
      invariant k <= |cs| && i == Offset(cs, k) && i <= |value| && (i == |value| <==> k == |cs|)
      invariant previousSpace <==> k > 0 && cs[k - 1] == SPACE
      invariant previousBreak <==> k > 0 && Break(cs[k - 1])
      invariant specialCharacters || breakSpace || spaceBreak <==> !AllowedTo(cs, k, unicode)
      invariant multiline <==> BreakIn(cs, k)
      decreases |cs| - k
    {
      CharFacts(value, i, cs, k);
      AnalysisStep(cs, k, unicode);
      var w := Width(value[i]);
      if !IsPrintable(value, i) || (!IsAscii(value, i) && !unicode) {
        specialCharacters := true;
      }
      if IsSpace(value, i) {
        if previousBreak {
          breakSpace := true;
        }
        previousSpace, previousBreak := true, false;
      } else if IsBreak(value, i) {
        multiline := true;
        if previousSpace {
          spaceBreak := true;
        }
        previousSpace, previousBreak := false, true;
      } else {
        previousSpace, previousBreak := false, false;
      }
      i := i + w;
      k := k + 1;
    }
    singleQuotedAllowed := !specialCharacters && !breakSpace && !spaceBreak;
  }

  /** The tests on the bytes at `i`, in terms of the code point there. */
  lemma CharFacts(value: seq<Byte>, i: nat, cs: Chars, k: nat)
    requires value == EncodeAll(cs) && k < |cs| && i == Offset(cs, k)
    ensures At(value, i, cs[k]) && Whole(value, i) && Width(value[i]) == Length(cs[k])
    ensures IsPrintable(value, i) <==> Printable(cs[k])
    ensures IsBreak(value, i) <==> Break(cs[k])
    ensures (IsSpace(value, i) <==> cs[k] == SPACE) && (IsAscii(value, i) <==> cs[k] < 0x80)
    ensures (value[i] == 0x27 <==> cs[k] == APOSTROPHE) && (value[i] == 0x0A <==> cs[k] == LF)
    ensures Offset(cs, k + 1) == i + Length(cs[k]) <= |value| && (Offset(cs, k + 1) == |value| <==> k + 1 == |cs|)
    ensures cs[k] == SPACE ==> !Break(cs[k]) && (i < |value| - 1 <==> k + 1 < |cs|)
    ensures i > 0 <==> k > 0
  {
    AtOffset(cs, k);
    OffsetEnd(cs, k);
    OffsetEnd(cs, k + 1);
    BytesOf(value, i, cs[k]);
    TestsAgree(value, i, cs[k]);
    PrintableAgrees(value, i, cs[k]);
    BreakAgrees(value, i, cs[k]);
  }

  // ---------------------------------------------------------------- writing

  /** The reader has read the first `k` characters. `breaks`: the last one is a line break. */
  ghost predicate ReadTo(r: Reader, cs: Chars, k: nat, breaks: bool, style: LineBreak)
  {
    && k <= |cs| && Settled(r) == cs[..k] && (breaks ==> k > 0 && Break(cs[k - 1]))
    && match r
       case Text(_, blanks) => !breaks && (blanks != [] ==> k > 0 && cs[k - 1] == SPACE)
       case Broken(_, first, more, cr) =>
         && (cr ==> style == CrBreak)
         && if breaks then first != LF || more != [] else first == LF && more == [] && k < |cs| && cs[k] != SPACE && !Break(cs[k])
       case _ => false
  }

  lemma Prefix(cs: Chars, k: nat)
    requires k < |cs|
    ensures cs[..k + 1] == cs[..k] + [cs[k]]
  {
  }

  /** An ordinary character; a quote is written twice. */
  lemma CharStep(r: Reader, cs: Chars, k: nat, breaks: bool, style: LineBreak)
    requires ReadTo(r, cs, k, breaks, style) && k < |cs| && !Blank(cs[k]) && !Break(cs[k])
    ensures ReadTo(RunSingle(r, CharOf(cs[k])), cs, k + 1, false, style)
  {
    var c := cs[k];
    Prefix(cs, k);
    RunSingleOne(r, c);
    if c == APOSTROPHE {
      assert CharOf(c) == [c] + [c];
      RunSingleAppend(r, [c], [c]);
      RunSingleOne(Ended(Settled(r)), c);
    }
  }

  function CharOf(c: CodePoint): Chars
  {
    if c == APOSTROPHE then [APOSTROPHE, APOSTROPHE] else [c]
  }

  lemma SpaceStep(r: Reader, cs: Chars, k: nat, breaks: bool, style: LineBreak, unicode: bool)
    requires ReadTo(r, cs, k, breaks, style) && k < |cs| && cs[k] == SPACE && AllowedAt(cs, k, unicode)
    ensures !breaks && ReadTo(RunSingle(r, [SPACE]), cs, k + 1, false, style)
  {
    Prefix(cs, k);
    RunSingleOne(r, SPACE);
    assert r.out + (r.blanks + [SPACE]) == (r.out + r.blanks) + [SPACE];
  }

  /** The line breaks written for a line break: an extra one, if it is the first and a line feed. */
  function BreakOf(c: CodePoint, breaks: bool, style: LineBreak): Chars
  {
    if c != LF then [c] else if breaks then BreakChars(style) else BreakChars(style) + BreakChars(style)
  }

  /** The emitter's own line break has been read as one. */
  ghost predicate Styled(r: Reader, style: LineBreak, cr: bool)
    requires r.Text? || r.Broken?
  {
    && (cr ==> style == CrBreak)
    && RunSingle(r, BreakChars(style)) == if r.Text? then Broken(r.out, LF, [], cr) else Broken(r.out, r.first, r.more + [LF], cr)
  }

  lemma StyledBreak(r: Reader, style: LineBreak)
    requires (r.Text? && r.blanks == []) || (r.Broken? && (r.cr ==> style == CrBreak))
    ensures exists cr :: Styled(r, style, cr)
  {
    var s := BreakChars(style);
    RunSingleOne(r, s[0]);
    var q := RunSingle(r, s[..1]);
    assert s[..1] == [s[0]];
    if style == CrLnBreak {
      assert s == [CR] + [LF];
      RunSingleAppend(r, [CR], [LF]);
      RunSingleOne(q, LF);
    } else {
      assert s == s[..1];
    }
    assert Styled(r, style, style == CrBreak);
  }

  lemma BreakStep(r: Reader, cs: Chars, k: nat, breaks: bool, style: LineBreak, unicode: bool)
    requires ReadTo(r, cs, k, breaks, style) && k < |cs| && Break(cs[k]) && AllowedAt(cs, k, unicode)
    ensures ReadTo(RunSingle(r, BreakOf(cs[k], breaks, style)), cs, k + 1, true, style)
  {
    hide RunSingle;
    var c := cs[k];
    Prefix(cs, k);
    if c != LF {
      RunSingleOne(r, c);
      if breaks {
        assert r.out + (Folded(r.first, r.more) + [c]) == (r.out + Folded(r.first, r.more)) + [c];
      }
    } else {
      StyledBreak(r, style);
      RunSingleAppend(r, BreakChars(style), BreakChars(style));
      StyledBreak(RunSingle(r, BreakChars(style)), style);
      if breaks {
        assert r.out + (Folded(r.first, r.more) + [c]) == (r.out + Folded(r.first, r.more)) + [c];
      }
    }
  }

  lemma {:induction false} SpacesRead(r: Reader, n: nat)
    requires r.Broken?
    ensures RunSingle(r, Spaces(n)) == if n == 0 then r else r.(cr := false)
  {
    if n == 0 {
    } else {
      SpacesRead(r, n - 1);
      SpacesSnoc(n - 1);
      assert Spaces(n)[..n - 1] == Spaces(n - 1);
    }
  }

  /** The indentation after line breaks says nothing. */
  lemma IndentStep(r: Reader, cs: Chars, k: nat, style: LineBreak, n: nat)
    requires ReadTo(r, cs, k, true, style)
    ensures ReadTo(RunSingle(r, Spaces(n)), cs, k, true, style)
  {
    SpacesRead(r, n);
  }

  lemma FoldStep(r: Reader, cs: Chars, k: nat, style: LineBreak, unicode: bool, n: nat)
    requires ReadTo(r, cs, k, false, style) && 0 < k && k + 1 < |cs| && cs[k] == SPACE && cs[k - 1] != SPACE && cs[k + 1] != SPACE
    requires AllowedAt(cs, k + 1, unicode)
    ensures ReadTo(RunSingle(r, FoldChars(style, n)), cs, k + 1, false, style)
  {
    hide RunSingle;
    Prefix(cs, k);
    StyledBreak(r, style);
    RunSingleAppend(r, BreakChars(style), Spaces(n));
    SpacesRead(RunSingle(r, BreakChars(style)), n);
  }

  /** At the left margin, the indentation after line breaks begins with one more, if nothing has been
      indented before. That is read as a line feed. */
  lemma MarginAddsBreak(r: Reader, cs: Chars, k: nat, style: LineBreak)
    requires ReadTo(r, cs, k, true, style)
    ensures ReadTo(RunSingle(r, BreakChars(style)), Marked(cs, k), k + 1, true, style)
    ensures forall indent: int, whitespace: bool :: NeedsBreak(true, whitespace, 0, indent) <==> indent <= 0 && !whitespace
  {
    StyledBreak(r, style);
    assert r.out + (Folded(r.first, r.more) + [LF]) == (r.out + Folded(r.first, r.more)) + [LF];
    assert Marked(cs, k)[..k + 1] == cs[..k] + [LF];
  }

  /** The text with one more line feed. */
  function Marked(cs: Chars, k: nat): (t: Chars)
    requires k <= |cs|
    ensures |t| == |cs| + 1
  {
    cs[..k] + [LF] + cs[k..]
  }

  /** The printer has written `body` after `start`, which reads as the first `k` characters. */
  ghost predicate Writing(e: Printer, start: Chars, body: Chars, cs: Chars, k: nat, spaces: bool, breaks: bool)
    reads e, e.writer, e.buffer
  {
    && e.Valid() && e.column >= 0 && e.chars == start + body
    && ReadTo(RunSingle(Text([], []), body), cs, k, breaks, e.lineBreak)
    && (breaks ==> e.indention && e.column == 0)
    && (k > 0 && cs[k - 1] == SPACE ==> spaces)
    && (k > 0 && cs[k - 1] != SPACE && !Break(cs[k - 1]) ==> !e.indention)
  }

  /** What is written then reads as the first `k` characters, or, `marred`, with one more line feed. */
  function TextAfter(cs: Chars, k: nat, marred: bool): Chars
    requires k <= |cs|
  {
    if marred then Marked(cs, k) else cs
  }

  function PlaceAfter(k: nat, marred: bool): nat
  {
    if marred then k + 1 else k
  }

  method WriteChar(e: Printer, value: seq<Byte>, i: nat, breaks: bool, ghost start: Chars, ghost body: Chars, ghost cs: Chars, ghost k: nat, ghost spaces: bool)
    returns (ok: bool, i': nat, ghost body': Chars, ghost marred: bool)
    requires Writing(e, start, body, cs, k, spaces, breaks) && k < |cs| && !Blank(cs[k]) && !Break(cs[k]) && At(value, i, cs[k])
    modifies e`bufferPos, e`flushed, e`failed, e`chars, e`column, e`line, e`whitespace, e`indention, e.writer, e.buffer
    ensures e.Valid() && (!ok ==> e.failed) && marred == (breaks && e.indent <= 0 && !old(e.whitespace))
    ensures ok ==> Writing(e, start, body', TextAfter(cs, k, marred), PlaceAfter(k, marred) + 1, false, false) && i' == i + Length(cs[k])
    ensures ok ==> e.whitespace == (old(e.whitespace) || breaks)
    ensures ok ==> body' == body + (if breaks then Indentation(e.lineBreak, Margin(e), marred) else []) + CharOf(cs[k])
    ensures ok ==> e.column == (if breaks then Margin(e) else old(e.column)) + |CharOf(cs[k])|
  {
    hide ReadTo, RunSingle, At, Encode, Length, TextAfter, EncodeAll, CharOf, Break;
    i', ok, body', marred := i, true, body, breaks && e.indent <= 0 && !e.whitespace;
    NotMarred(cs, k);
    if breaks {
      ok, body' := IndentLine(e, start, body, cs, k);
      if !ok {
        return;
      }
    }
    ghost var t, p := TextAfter(cs, k, marred), PlaceAfter(k, marred);
    ghost var was := body';
    SameChar(cs, k, marred);
    CharStep(RunSingle(Text([], []), was), t, p, breaks, e.lineBreak);
    RunSingleAppend(Text([], []), was, CharOf(cs[k]));
    body' := was + CharOf(cs[k]);
    ok, i' := PutChar(e, value, i, cs[k]);
    assert ok ==> e.chars == start + body';
    assert body + [] == body;
    e.indention := false;
  }

  lemma NotMarred(cs: Chars, k: nat)
    requires k <= |cs|
    ensures TextAfter(cs, k, false) == cs
  {
  }

  lemma SameChar(cs: Chars, k: nat, marred: bool)
    requires k < |cs|
    ensures PlaceAfter(k, marred) < |TextAfter(cs, k, marred)| && TextAfter(cs, k, marred)[PlaceAfter(k, marred)] == cs[k]
  {
  }

  /** Writes a character, a quote twice. */
  method PutChar(e: Printer, value: seq<Byte>, i: nat, ghost c: CodePoint) returns (ok: bool, i': nat)
    requires e.Valid() && At(value, i, c)
    modifies e`bufferPos, e`flushed, e`failed, e`chars, e`column, e.writer, e.buffer
    ensures e.Valid() && (!ok ==> e.failed) && e.column >= old(e.column)
    ensures ok ==> e.chars == old(e.chars) + CharOf(c) && i' == i + Length(c) && e.column == old(e.column) + |CharOf(c)|
  {
    TestsAgree(value, i, c);
    i' := i;
    if value[i] == 0x27 {
      ok := Put(e, 0x27);
      if !ok {
        return;
      }
    }
    ok, i' := Write(e, value, i, c);
  }

  /** What comes after line breaks: the indentation, with another break at the margin. */
  function Indentation(style: LineBreak, margin: int, marred: bool): Chars
  {
    (if marred then BreakChars(style) else []) + Spaces(margin)
  }

  /** Line breaks are followed by the indentation. */
  method IndentLine(e: Printer, ghost start: Chars, ghost body: Chars, ghost cs: Chars, ghost k: nat) returns (ok: bool, ghost body': Chars)
    requires e.Valid() && e.indention && e.column == 0 && e.chars == start + body && k <= |cs|
    requires ReadTo(RunSingle(Text([], []), body), cs, k, true, e.lineBreak)
    modifies e`bufferPos, e`flushed, e`failed, e`chars, e`column, e`line, e`whitespace, e`indention, e.writer, e.buffer
    ensures e.Valid() && (!ok ==> e.failed) && e.column >= 0
    ensures ok ==> e.chars == start + body' && e.whitespace && e.column == Margin(e)
    ensures ok ==> body' == body + Indentation(e.lineBreak, Margin(e), e.indent <= 0 && !old(e.whitespace))
    ensures ok ==> var marred := e.indent <= 0 && !old(e.whitespace);
      ReadTo(RunSingle(Text([], []), body'), TextAfter(cs, k, marred), PlaceAfter(k, marred), true, e.lineBreak)
  {
    hide ReadTo, RunSingle, NeedsBreak, BreakChars, Marked, EncodeAll, Spaces;
    ghost var style, marred := e.lineBreak, e.indent <= 0 && !e.whitespace;
    ghost var r := RunSingle(Text([], []), body);
    MarginAddsBreak(r, cs, k, style);
    body' := body;
    ok := WriteIndent(e);
    if ok {
      ghost var mark := if marred then BreakChars(style) else [];
      body' := body + mark + Spaces(e.column);
      RunSingleAppend(Text([], []), body, mark);
      RunSingleNone(r);
      RunSingleAppend(Text([], []), body + mark, Spaces(e.column));
      IndentStep(RunSingle(Text([], []), body + mark), TextAfter(cs, k, marred), PlaceAfter(k, marred), style, e.column);
      assert start + body + mark + Spaces(e.column) == start + body';
      assert body + (mark + Spaces(e.column)) == body';
    }
  }

  lemma RunSingleNone(r: Reader)
    ensures RunSingle(r, []) == r
  {
  }

  method WriteSpace(e: Printer, value: seq<Byte>, i: nat, breaks: bool, ghost start: Chars, ghost body: Chars, ghost cs: Chars, ghost k: nat, ghost spaces: bool)
    returns (ok: bool, i': nat, ghost body': Chars)
    requires Writing(e, start, body, cs, k, spaces, breaks) && k < |cs| && cs[k] == SPACE && AllowedAt(cs, k, e.unicode) && At(value, i, cs[k])
    modifies e`bufferPos, e`flushed, e`failed, e`chars, e`column, e.writer, e.buffer
    ensures e.Valid() && (!ok ==> e.failed) && !breaks
    ensures ok ==> Writing(e, start, body', cs, k + 1, true, breaks) && i' == i + 1 && body' == body + [SPACE] && e.column == old(e.column) + 1
  {
    hide ReadTo, RunSingle, At, AllowedAt;
    SpaceStep(RunSingle(Text([], []), body), cs, k, breaks, e.lineBreak, e.unicode);
    RunSingleAppend(Text([], []), body, [SPACE]);
    ok, i' := Write(e, value, i, cs[k]);
    body' := body + [SPACE];
  }

  method FoldSpace(e: Printer, i: nat, ghost start: Chars, ghost body: Chars, ghost cs: Chars, ghost k: nat)
    returns (ok: bool, i': nat, ghost body': Chars)
    requires Writing(e, start, body, cs, k, false, false) && 0 < k && k + 1 < |cs| && cs[k] == SPACE && cs[k + 1] != SPACE
    requires AllowedAt(cs, k, e.unicode) && AllowedAt(cs, k + 1, e.unicode)
    modifies e`bufferPos, e`flushed, e`failed, e`chars, e`column, e`line, e`whitespace, e`indention, e.writer, e.buffer
    ensures e.Valid() && (!ok ==> e.failed)
    ensures ok ==> Writing(e, start, body', cs, k + 1, true, false) && i' == i + 1 && e.whitespace
    ensures ok ==> body' == body + FoldChars(e.lineBreak, Margin(e)) && e.column == Margin(e)
  {
    hide ReadTo, RunSingle, FoldChars;
    FoldStep(RunSingle(Text([], []), body), cs, k, e.lineBreak, e.unicode, Margin(e));
    RunSingleAppend(Text([], []), body, FoldChars(e.lineBreak, Margin(e)));
    i' := i + 1;
    ok, body' := Fold(e, start, body);
  }

  method WriteBreaks(e: Printer, value: seq<Byte>, i: nat, breaks: bool, ghost start: Chars, ghost body: Chars, ghost cs: Chars, ghost k: nat, ghost spaces: bool)
    returns (ok: bool, i': nat, ghost body': Chars)
    requires Writing(e, start, body, cs, k, spaces, breaks) && k < |cs| && Break(cs[k]) && AllowedAt(cs, k, e.unicode) && At(value, i, cs[k])
    modifies e`bufferPos, e`flushed, e`failed, e`chars, e`column, e`line, e`indention, e.writer, e.buffer
    ensures e.Valid() && (!ok ==> e.failed)
    ensures ok ==> Writing(e, start, body', cs, k + 1, spaces, true) && i' == i + Length(cs[k])
    ensures ok ==> body' == body + BreakOf(cs[k], breaks, e.lineBreak) && e.column == 0
  {
    hide ReadTo, RunSingle, At, AllowedAt, BreakChars;
    BreakStep(RunSingle(Text([], []), body), cs, k, breaks, e.lineBreak, e.unicode);
    RunSingleAppend(Text([], []), body, BreakOf(cs[k], breaks, e.lineBreak));
    ok, i' := PutBreaks(e, value, i, breaks, cs[k]);
    assert ok ==> e.chars == start + (body + BreakOf(cs[k], breaks, e.lineBreak));
    body' := body + BreakOf(cs[k], breaks, e.lineBreak);
    e.indention := true;
  }

  method PutBreaks(e: Printer, value: seq<Byte>, i: nat, breaks: bool, ghost c: CodePoint) returns (ok: bool, i': nat)
    requires e.Valid() && At(value, i, c)
    modifies e`bufferPos, e`flushed, e`failed, e`chars, e`column, e`line, e.writer, e.buffer
    ensures e.Valid() && (!ok ==> e.failed)
    ensures ok ==> e.chars == old(e.chars) + BreakOf(c, breaks, e.lineBreak) && i' == i + Length(c) && e.column == 0
  {
    hide BreakChars;
    TestsAgree(value, i, c);
    i' := i;
    if !breaks && value[i] == 0x0A {
      ok := PutBreak(e);
      if !ok {
        return;
      }
    }
    ok, i' := WriteBreak(e, value, i, c);
  }

  /** Character `k` comes after a line break and is none. */
  predicate Turn(cs: Chars, k: nat)
    requires k < |cs|
  {
    k > 0 && Break(cs[k - 1]) && !Break(cs[k])
  }

  predicate NoTurn(cs: Chars, k: nat)
    requires k <= |cs|
  {
    forall j :: 0 <= j < k ==> !Turn(cs, j)
  }

  /** `t` has one more line feed in such a place. */
  ghost predicate Marred(cs: Chars, t: Chars)
  {
    exists j :: 0 <= j < |cs| && Turn(cs, j) && t == Marked(cs, j)
  }

  /** What has been written reads as the first `p` characters of `t`: those of the text so far, perhaps with
      one more line feed. */
  predicate Follows(cs: Chars, k: nat, t: Chars, p: nat)
  {
    && k <= |cs|
    && if p == k then t == cs else p == k + 1 && k >= 1 && |t| == |cs| + 1 && t[k..] == cs[k - 1..]
  }

  lemma FollowsAt(cs: Chars, k: nat, t: Chars, p: nat, unicode: bool)
    requires Follows(cs, k, t, p) && k < |cs| && SingleAllowed(cs, unicode)
    ensures p < |t| && t[p] == cs[k] && AllowedAt(t, p, unicode) && (p > 0 <==> k > 0) && (k > 0 ==> t[p - 1] == cs[k - 1])
    ensures (p + 1 < |t| <==> k + 1 < |cs|) && (k + 1 < |cs| ==> t[p + 1] == cs[k + 1] && AllowedAt(t, p + 1, unicode))
    ensures Follows(cs, k + 1, t, p + 1)
  {
    assert AllowedAt(cs, k, unicode) && (k + 1 < |cs| ==> AllowedAt(cs, k + 1, unicode));
    if p != k {
      assert t[p] == t[k..][1] && t[p - 1] == t[k..][0] && (k + 1 < |cs| ==> t[p + 1] == t[k..][2]);
      assert t[k + 1..] == t[k..][1..];
    }
  }

  /** What marks the progress in the text: whether a line has been indented, and a line feed added. */
  ghost predicate Margins(cs: Chars, k: nat, t: Chars, p: nat, indent: int, whitespace: bool, folded: bool)
  {
    && Follows(cs, k, t, p)
    && (p != k ==> indent <= 0 && whitespace && !folded && Marred(cs, t))
    && (p == k && indent <= 0 && !folded ==> NoTurn(cs, k) && !whitespace)
    && (folded ==> whitespace)
  }

  lemma MarginsStay(cs: Chars, k: nat, t: Chars, p: nat, indent: int, whitespace: bool, folded: bool, unicode: bool)
    requires Margins(cs, k, t, p, indent, whitespace, folded) && k < |cs| && SingleAllowed(cs, unicode)
    requires p != k || indent > 0 || folded || !Turn(cs, k)
    ensures Margins(cs, k + 1, t, p + 1, indent, whitespace, folded)
  {
    FollowsAt(cs, k, t, p, unicode);
  }

  lemma MarginsFold(cs: Chars, k: nat, t: Chars, p: nat, indent: int, whitespace: bool, folded: bool, unicode: bool)
    requires Margins(cs, k, t, p, indent, whitespace, folded) && k < |cs| && SingleAllowed(cs, unicode)
    ensures Margins(cs, k + 1, t, p + 1, indent, true, folded || p == k)
  {
    FollowsAt(cs, k, t, p, unicode);
  }

  /** After a character that comes after line breaks, or not. */
  lemma MarginsTurn(cs: Chars, k: nat, t: Chars, p: nat, indent: int, whitespace: bool, folded: bool, unicode: bool, breaks: bool)
    requires Margins(cs, k, t, p, indent, whitespace, folded) && k < |cs| && SingleAllowed(cs, unicode) && !Break(cs[k])
    requires breaks <==> k > 0 && Break(cs[k - 1])
    ensures var marred := breaks && indent <= 0 && !whitespace;
      p <= |t| && Margins(cs, k + 1, TextAfter(t, p, marred), PlaceAfter(p, marred) + 1, indent, whitespace || breaks, folded)
  {
    FollowsAt(cs, k, t, p, unicode);
    if breaks && indent <= 0 && !whitespace {
      assert Turn(cs, k) && p == k && t == cs;
      assert Marked(cs, k)[k + 1..] == cs[k..];
      assert Marred(cs, Marked(cs, k));
    }
  }

  lemma MarginsEnd(cs: Chars, t: Chars, p: nat, indent: int, whitespace: bool, folded: bool)
    requires Margins(cs, |cs|, t, p, indent, whitespace, folded)
    ensures p == |t| && (indent > 0 ==> t == cs) && (t != cs ==> Marred(cs, t))
    ensures indent <= 0 ==> (t == cs <==> folded || NoTurn(cs, |cs|))
  {
  }

  // ---------------------------------------------------------------- where lines are broken

  /** A line is broken at a single space within the text, beyond the width. */
  predicate FoldsThere(cs: Chars, k: nat, column: int, l: Layout)
    requires k < |cs|
  {
    FoldsAt(cs, k, column, l) && cs[k + 1] != SPACE
  }

  /** What has been written, and whether a line has been indented in it. */
  datatype Written = Written(text: Chars, indented: bool)

  /** What is written for the first `k` characters. */
  function SingleText(cs: Chars, k: nat, l: Layout): Written
    requires k <= |cs|
  {
    if k == 0 then Written([], false) else SingleStep(cs, k - 1, SingleText(cs, k - 1, l), l)
  }

  function SingleStep(cs: Chars, k: nat, w: Written, l: Layout): Written
    requires k < |cs|
  {
    var column := Column(l.column, w.text);
    Written(w.text + SinglePiece(cs, k, column, w.indented, l), w.indented || Turn(cs, k) || FoldsThere(cs, k, column, l))
  }

  function SinglePiece(cs: Chars, k: nat, column: int, indented: bool, l: Layout): Chars
    requires k < |cs|
  {
    if FoldsThere(cs, k, column, l) then FoldChars(l.style, l.margin)
    else if Break(cs[k]) then BreakOf(cs[k], k > 0 && Break(cs[k - 1]), l.style)
    else (if Turn(cs, k) then Indentation(l.style, l.margin, l.margin == 0 && !indented) else []) + CharOf(cs[k])
  }

  /** The column after such a piece. */
  function PieceColumn(cs: Chars, k: nat, column: int, l: Layout): int
    requires k < |cs|
  {
    if FoldsThere(cs, k, column, l) then l.margin
    else if Break(cs[k]) then 0
    else (if Turn(cs, k) then l.margin else column) + |CharOf(cs[k])|
  }

  lemma BreakIsBreak(c: CodePoint, breaks: bool, style: LineBreak)
    requires Break(c)
    ensures BreakOf(c, breaks, style) != [] && forall d <- BreakOf(c, breaks, style) :: Break(d)
  {
  }

  lemma CharPlain(cs: Chars, k: nat)
    requires k < |cs| && !Break(cs[k])
    ensures forall c <- CharOf(cs[k]) :: !Break(c)
  {
  }

  lemma ColumnMoves(cs: Chars, k: nat, s: Chars, indented: bool, l: Layout)
    requires k < |cs| && (k > 0 && Break(cs[k - 1]) ==> Column(l.column, s) == 0)
    ensures var from := Column(l.column, s);
      Column(l.column, s + SinglePiece(cs, k, from, indented, l)) == PieceColumn(cs, k, from, l)
  {
    hide BreakOf, CharOf, Break, Column, Indentation, FoldChars, FoldsThere, SinglePiece, PieceColumn;
    var from := Column(l.column, s);
    PieceIs(cs, k, from, indented, l);
    var t := SinglePiece(cs, k, from, indented, l);
    if FoldsThere(cs, k, from, l) {
      ColumnOfFold(l.column, s, l);
    } else if Break(cs[k]) {
      BreakIsBreak(cs[k], k > 0 && Break(cs[k - 1]), l.style);
      ColumnOfBreak(l.column, s, t);
    } else {
      CharPlain(cs, k);
      if Turn(cs, k) {
        ColumnOfTurn(l.column, s, l, l.margin == 0 && !indented, CharOf(cs[k]));
      } else {
        ColumnGoesOn(l.column, s, t);
      }
    }
  }

  lemma PieceIs(cs: Chars, k: nat, column: int, indented: bool, l: Layout)
    requires k < |cs|
    ensures SinglePiece(cs, k, column, indented, l) == if FoldsThere(cs, k, column, l) then FoldChars(l.style, l.margin)
      else if Break(cs[k]) then BreakOf(cs[k], k > 0 && Break(cs[k - 1]), l.style)
      else if Turn(cs, k) then Indentation(l.style, l.margin, l.margin == 0 && !indented) + CharOf(cs[k]) else CharOf(cs[k])
    ensures PieceColumn(cs, k, column, l) == if FoldsThere(cs, k, column, l) then l.margin else if Break(cs[k]) then 0
      else (if Turn(cs, k) then l.margin else column) + |CharOf(cs[k])|
  {
    assert [] + CharOf(cs[k]) == CharOf(cs[k]);
  }

  /** Within a text without line breaks, a line is broken only beyond the width, where that is allowed. */
  lemma SingleWideStep(cs: Chars, k: nat, s: Chars, indented: bool, l: Layout)
    requires k < |cs| && WideBreaks(s, l) && !Break(cs[k]) && !Turn(cs, k)
    ensures WideBreaks(s + SinglePiece(cs, k, Column(l.column, s), indented, l), l)
  {
    hide WideBreaks, SinglePiece, FoldsThere, CharOf, Column, Turn;
    var from := Column(l.column, s);
    PieceIs(cs, k, from, indented, l);
    if FoldsThere(cs, k, from, l) {
      FoldsBeyond(cs, k, from, l);
      FoldBreaksOnce(l);
    } else {
      CharPlain(cs, k);
    }
    WideAppend(s, SinglePiece(cs, k, from, indented, l), l);
  }

  lemma FoldsBeyond(cs: Chars, k: nat, column: int, l: Layout)
    requires k < |cs| && FoldsThere(cs, k, column, l)
    ensures l.allowBreaks && column > l.width
  {
  }

  lemma FoldBreaksOnce(l: Layout)
    ensures var t := FoldChars(l.style, l.margin); forall j :: 0 <= j < |t| && BreaksAt(t, j) ==> j == 0
  {
    SpacesPlain(l.margin);
    var t, n := FoldChars(l.style, l.margin), |BreakChars(l.style)|;
    assert forall j :: n <= j < |t| ==> t[j] in Spaces(l.margin);
  }

  lemma {:induction false} SingleIsWide(cs: Chars, k: nat, l: Layout)
    requires k <= |cs| && forall c <- cs :: !Break(c)
    ensures WideBreaks(SingleText(cs, k, l).text, l)
  {
    hide SinglePiece, Column, BreaksAt, FoldsThere, Break;
    if k == 0 {
    } else {
      SingleIsWide(cs, k - 1, l);
      var w := SingleText(cs, k - 1, l);
      SingleWideStep(cs, k - 1, w.text, w.indented, l);
    }
  }

  /** A text of plain characters and no quote is written as it is, if it fits or no line may be broken. */
  lemma {:induction false} SingleOfPlain(cs: Chars, k: nat, l: Layout)
    requires k <= |cs| && forall c <- cs :: !Break(c) && c != APOSTROPHE
    requires l.allowBreaks ==> l.column + |cs| <= l.width + 2
    ensures SingleText(cs, k, l).text == cs[..k] && Column(l.column, cs[..k]) == l.column + k
  {
    hide Column, SinglePiece, Break;
    ColumnOfNone(l.column);
    assert cs[..0] == [];
    if k == 0 {
    } else {
      SingleOfPlain(cs, k - 1, l);
      PieceIs(cs, k - 1, l.column + k - 1, SingleText(cs, k - 1, l).indented, l);
      assert cs[..k] == cs[..k - 1] + [cs[k - 1]];
      ColumnGoesOn(l.column, cs[..k - 1], [cs[k - 1]]);
    }
  }

  lemma ColumnOfFold(from: int, s: Chars, l: Layout)
    ensures Column(from, s + FoldChars(l.style, l.margin)) == l.margin
  {
    SpacesPlain(l.margin);
    ColumnAfterBreak(from, s, l.style, Spaces(l.margin));
  }

  lemma ColumnOfTurn(from: int, s: Chars, l: Layout, marred: bool, t: Chars)
    requires Column(from, s) == 0 && (marred ==> l.margin == 0) && forall c <- t :: !Break(c)
    ensures Column(from, s + (Indentation(l.style, l.margin, marred) + t)) == l.margin + |t|
  {
    hide Column, BreakChars;
    SpacesPlain(l.margin);
    if marred {
      assert Indentation(l.style, l.margin, marred) + t == BreakChars(l.style) + t;
      ColumnAfterBreak(from, s, l.style, t);
    } else {
      assert Indentation(l.style, l.margin, marred) == Spaces(l.margin);
      ColumnGoesOn(from, s, Spaces(l.margin) + t);
    }
  }

  lemma SpacesPlain(n: int)
    ensures forall c <- Spaces(n) :: !Break(c)
  {
  }

  lemma ColumnOfBreak(from: int, s: Chars, t: Chars)
    requires t != [] && forall c <- t :: Break(c)
    ensures Column(from, s + t) == 0
  {
    assert (s + t)[|s + t| - 1] == t[|t| - 1];
  }

  /** A character has been written: what has been added, and where that leads. */
  ghost predicate Moved(cs: Chars, k: nat, l: Layout, body: Chars, column: int, indented: bool, body': Chars, column': int, indented': bool)
    requires k < |cs|
  {
    && body' == body + SinglePiece(cs, k, column, indented, l) && column' == PieceColumn(cs, k, column, l)
    && indented' == (indented || Turn(cs, k) || FoldsThere(cs, k, column, l))
  }

  lemma TextMoves(cs: Chars, k: nat, l: Layout, w: Written, column: int, body': Chars, column': int, indented': bool)
    requires k < |cs| && w == SingleText(cs, k, l) && column == Column(l.column, w.text) && (k > 0 && Break(cs[k - 1]) ==> column == 0)
    requires Moved(cs, k, l, w.text, column, w.indented, body', column', indented')
    ensures Written(body', indented') == SingleText(cs, k + 1, l) && column' == Column(l.column, body')
  {
    hide Column, PieceColumn, SinglePiece, FoldsThere, Turn;
    ColumnMoves(cs, k, w.text, w.indented, l);
  }

  /** A space is written, or folded. */
  method OneSpace(e: Printer, value: seq<Byte>, i: nat, allowBreaks: bool, spaces: bool, breaks: bool,
      ghost start: Chars, ghost body: Chars, ghost cs: Chars, ghost k: nat, ghost t: Chars, ghost p: nat, ghost folded: bool, ghost l: Layout)
    returns (ok: bool, i': nat, ghost body': Chars, ghost folded': bool)
    requires value == EncodeAll(cs) && k < |cs| && i == Offset(cs, k) && cs[k] == SPACE && SingleAllowed(cs, e.unicode) && i < |value|
    requires Writing(e, start, body, t, p, spaces, breaks) && Margins(cs, k, t, p, e.indent, e.whitespace, folded)
    requires l == LayoutAt(e, allowBreaks, l.column) && (spaces ==> k > 0 && cs[k - 1] == SPACE)
    modifies e`bufferPos, e`flushed, e`failed, e`chars, e`column, e`line, e`whitespace, e`indention, e.writer, e.buffer
    ensures ok ==> Moved(cs, k, l, body, old(e.column), old(e.whitespace), body', e.column, e.whitespace)
    ensures e.Valid() && (!ok ==> e.failed) && !breaks && (folded' ==> folded || allowBreaks)
    ensures ok ==> i' == i + 1 && Writing(e, start, body', t, p + 1, true, false) && Margins(cs, k + 1, t, p + 1, e.indent, e.whitespace, folded')
  {
    hide RunSingle, At, ReadTo, Offset, EncodeAll, AllowedAt, Follows, Margins, SingleAllowed, Length, Break, SinglePiece, PieceColumn, FoldChars, Turn;
    CharFacts(value, i, cs, k);
    MarginsFollow(cs, k, t, p, e.indent, e.whitespace, folded);
    FollowsAt(cs, k, t, p, e.unicode);
    NotAfterBreak(RunSingle(Text([], []), body), t, p, breaks, e.lineBreak, e.unicode);
    folded' := folded;
    NoTurnAtSpace(cs, k, e.unicode);
    SpacePieceIs(cs, k, e.column, e.whitespace, l);
    if i < |value| - 1 {
      CharFacts(value, i + 1, cs, k + 1);
    }
    if allowBreaks && !spaces && e.column > e.bestWidth && i > 0 && i < |value| - 1 && !IsSpace(value, i + 1) {
      MarginsFold(cs, k, t, p, e.indent, e.whitespace, folded, e.unicode);
      ok, i', body' := FoldSpace(e, i, start, body, t, p);
      folded' := folded || p == k;
    } else {
      MarginsStay(cs, k, t, p, e.indent, e.whitespace, folded, e.unicode);
      ok, i', body' := WriteSpace(e, value, i, breaks, start, body, t, p, spaces);
    }
  }

  lemma NoTurnAtSpace(cs: Chars, k: nat, unicode: bool)
    requires k < |cs| && cs[k] == SPACE && SingleAllowed(cs, unicode)
    ensures !Turn(cs, k)
  {
    assert AllowedAt(cs, k, unicode);
  }

  lemma SpacePieceIs(cs: Chars, k: nat, column: int, indented: bool, l: Layout)
    requires k < |cs| && cs[k] == SPACE && !Turn(cs, k)
    ensures var folds := FoldsThere(cs, k, column, l);
      && SinglePiece(cs, k, column, indented, l) == (if folds then FoldChars(l.style, l.margin) else [SPACE])
      && PieceColumn(cs, k, column, l) == if folds then l.margin else column + 1
  {
  }

  lemma CharMoves(cs: Chars, k: nat, l: Layout, body: Chars, column: int, indented: bool)
    requires k < |cs| && cs[k] != SPACE && !Break(cs[k])
    ensures var breaks := k > 0 && Break(cs[k - 1]);
      Moved(cs, k, l, body, column, indented,
        body + (if breaks then Indentation(l.style, l.margin, breaks && l.margin <= 0 && !indented) else []) + CharOf(cs[k]),
        (if breaks then l.margin else column) + |CharOf(cs[k])|, indented || breaks)
  {
    hide Break, CharOf, Indentation;
    assert !FoldsThere(cs, k, column, l);
    assert Turn(cs, k) <==> k > 0 && Break(cs[k - 1]);
  }

  lemma BreakPieceIs(cs: Chars, k: nat, column: int, indented: bool, l: Layout)
    requires k < |cs| && Break(cs[k])
    ensures !FoldsThere(cs, k, column, l) && !Turn(cs, k) && PieceColumn(cs, k, column, l) == 0
    ensures SinglePiece(cs, k, column, indented, l) == BreakOf(cs[k], k > 0 && Break(cs[k - 1]), l.style)
  {
  }

  /** A character that is neither a space nor a line break. */
  method OneChar(e: Printer, value: seq<Byte>, i: nat, breaks: bool,
      ghost start: Chars, ghost body: Chars, ghost cs: Chars, ghost k: nat, ghost t: Chars, ghost p: nat, ghost spaces: bool, ghost folded: bool, ghost l: Layout)
    returns (ok: bool, i': nat, ghost body': Chars, ghost t': Chars, ghost p': nat)
    requires k < |cs| && At(value, i, cs[k]) && cs[k] != SPACE && !Break(cs[k]) && SingleAllowed(cs, e.unicode)
    requires Writing(e, start, body, t, p, spaces, breaks) && Margins(cs, k, t, p, e.indent, e.whitespace, folded)
    requires (breaks <==> k > 0 && Break(cs[k - 1])) && l == LayoutAt(e, l.allowBreaks, l.column)
    modifies e`bufferPos, e`flushed, e`failed, e`chars, e`column, e`line, e`whitespace, e`indention, e.writer, e.buffer
    ensures ok ==> Moved(cs, k, l, body, old(e.column), old(e.whitespace), body', e.column, e.whitespace)
    ensures e.Valid() && (!ok ==> e.failed)
    ensures ok ==> i' == i + Length(cs[k]) && Writing(e, start, body', t', p', false, false) && Margins(cs, k + 1, t', p', e.indent, e.whitespace, folded)
  {
    hide RunSingle, At, ReadTo, AllowedAt, Follows, Margins, SingleAllowed, Length, TextAfter, PlaceAfter, Break, Blank, Moved, Indentation, CharOf, EncodeAll, Marked;
    MarginsFollow(cs, k, t, p, e.indent, e.whitespace, folded);
    FollowsAt(cs, k, t, p, e.unicode);
    NotBlank(t, p, e.unicode);
    MarginsTurn(cs, k, t, p, e.indent, e.whitespace, folded, e.unicode, breaks);
    CharMoves(cs, k, l, body, e.column, e.whitespace);
    ghost var marred;
    ok, i', body', marred := WriteChar(e, value, i, breaks, start, body, t, p, spaces);
    t', p' := TextAfter(t, p, marred), PlaceAfter(p, marred) + 1;
  }

  /** Writes what is between the quotes. */
  method WriteBody(e: Printer, value: seq<Byte>, allowBreaks: bool, ghost start: Chars, ghost cs: Chars)
    returns (ok: bool, ghost body: Chars, ghost t: Chars, ghost folded: bool, ghost breaks': bool)
    requires e.Valid() && e.column >= 0 && e.chars == start && !e.whitespace && value == EncodeAll(cs) && SingleAllowed(cs, e.unicode)
    modifies e`bufferPos, e`flushed, e`failed, e`chars, e`column, e`line, e`whitespace, e`indention, e.writer, e.buffer
    ensures e.Valid() && (!ok ==> e.failed) && (folded ==> allowBreaks)
    ensures ok ==> e.column >= 0 && e.chars == start + body && ReadTo(RunSingle(Text([], []), body), t, |t|, breaks', e.lineBreak)
    ensures ok ==> Margins(cs, |cs|, t, |t|, e.indent, e.whitespace, folded)
    ensures ok ==> body == SingleText(cs, |cs|, LayoutAt(e, allowBreaks, old(e.column))).text
  {
    hide RunSingle, At, ReadTo, Offset, EncodeAll, AllowedAt, Follows, Margins, Marred, NoTurn, TextAfter, PlaceAfter, Length, IsSpace, Break, IsBreak, SingleText, Column, Moved, SinglePiece;
    var spaces, breaks := false, false;
    body, t, folded, breaks' := [], cs, false, false;
    ok := true;
    ghost var k: nat, p: nat, l := 0, 0, LayoutAt(e, allowBreaks, e.column);
    ColumnOfNone(l.column);
    NothingYet(cs, l);
    SingleBegins(cs, e.lineBreak);
    MarginsBegin(cs, e.indent);
    var i := 0;
    while i < |value|
      invariant k <= |cs| && i == Offset(cs, k) && Writing(e, start, body, t, p, spaces, breaks)
      invariant i <= |value| && (i == |value| <==> k == |cs|)
      invariant Margins(cs, k, t, p, e.indent, e.whitespace, folded) && (folded ==> allowBreaks)
      invariant (breaks <==> k > 0 && Break(cs[k - 1])) && (spaces ==> k > 0 && cs[k - 1] == SPACE)
      invariant Written(body, e.whitespace) == SingleText(cs, k, l) && e.column == Column(l.column, body)
      decreases |cs| - k
    {
      ghost var w, column := Written(body, e.whitespace), e.column;
      CharFacts(value, i, cs, k);
      MarginsFollow(cs, k, t, p, e.indent, e.whitespace, folded);
      FollowsAt(cs, k, t, p, e.unicode);
      if IsSpace(value, i) {
        ok, i, body, folded := OneSpace(e, value, i, allowBreaks, spaces, breaks, start, body, cs, k, t, p, folded, l);
        spaces := true;
        p := p + 1;
      } else if IsBreak(value, i) {
        MarginsStay(cs, k, t, p, e.indent, e.whitespace, folded, e.unicode);
        BreakMoves(cs, k, l, w, column, e.unicode);
        ok, i, body := WriteBreaks(e, value, i, breaks, start, body, t, p, spaces);
        breaks := true;
        p := p + 1;
      } else {
        ok, i, body, t, p := OneChar(e, value, i, breaks, start, body, cs, k, t, p, spaces, folded, l);
        spaces, breaks := false, false;
      }
      if !ok {
        return;
      }
      TextMoves(cs, k, l, w, column, body, e.column, e.whitespace);
      k := k + 1;
    }
    MarginsEnd(cs, t, p, e.indent, e.whitespace, folded);
    breaks' := breaks;
  }

  /** Writes a text as a single-quoted scalar, if the analysis allows that: what is between the quotes
      reads as the text. But at the left margin it reads with one more line feed, after the first
      line breaks that something follows, unless a line has been folded before. */
  method WriteSingleQuoted(e: Printer, value: seq<Byte>, allowBreaks: bool, ghost cs: Chars) returns (ok: bool, ghost body: Chars, ghost t: Chars, ghost folded: bool)
    requires e.Valid() && e.column >= 0 && value == EncodeAll(cs) && SingleAllowed(cs, e.unicode)
    modifies e`bufferPos, e`flushed, e`failed, e`chars, e`column, e`line, e`whitespace, e`indention, e`openEnded, e.writer, e.buffer
    ensures e.Valid() && (!ok ==> e.failed)
    ensures ok ==> e.chars == old(e.chars) + (if old(e.whitespace) then [] else [SPACE]) + [APOSTROPHE] + body + [APOSTROPHE]
    ensures ok ==> RunSingle(Text([], []), body + [APOSTROPHE]) == Ended(t)
    ensures ok ==> (e.indent >= 1 ==> t == cs) && (t != cs ==> Marred(cs, t))
    ensures ok && e.indent <= 0 ==> (t == cs <==> folded || NoTurn(cs, |cs|)) && (folded ==> allowBreaks)
    ensures ok ==> body == SingleText(cs, |cs|, LayoutAt(e, allowBreaks, old(e.column) + if old(e.whitespace) then 1 else 2)).text
    ensures ok && !(exists c <- cs :: Break(c)) ==>
      && WideBreaks(body, LayoutAt(e, allowBreaks, old(e.column) + if old(e.whitespace) then 1 else 2))
      && (!allowBreaks ==> forall c <- body :: !Break(c))
  {
    hide RunSingle, ReadTo, EncodeAll, Margins, Marred, NoTurn, SingleAllowed, SingleText, WideBreaks, Break, Follows, Column;
    body, t, folded := [], cs, false;
    EncodeOne(0x27);
    ok := WriteIndicator(e, [0x27], true, false, false, [0x27]);
    if !ok {
      return;
    }
    ghost var start, breaks, l := e.chars, false, LayoutAt(e, allowBreaks, e.column);
    if !exists c <- cs :: Break(c) {
      SingleIsWide(cs, |cs|, l);
      NoBreaksAtAll(SingleText(cs, |cs|, l).text, l);
    }
    ok, body, t, folded, breaks := WriteBody(e, value, allowBreaks, start, cs);
    if !ok {
      return;
    }
    MarginsEnd(cs, t, |t|, e.indent, e.whitespace, folded);
    SingleEnds(RunSingle(Text([], []), body), body, t, breaks, e.lineBreak);
    ok := WriteIndicator(e, [0x27], false, false, false, [0x27]);
    if ok {
      e.whitespace := false;
      e.indention := false;
    }
  }

  lemma NothingYet(cs: Chars, l: Layout)
    ensures SingleText(cs, 0, l) == Written([], false)
  {
  }

  lemma BreakMoves(cs: Chars, k: nat, l: Layout, w: Written, column: int, unicode: bool)
    requires k < |cs| && Break(cs[k]) && SingleAllowed(cs, unicode)
    ensures Moved(cs, k, l, w.text, column, w.indented, w.text + BreakOf(cs[k], k > 0 && Break(cs[k - 1]), l.style), 0, w.indented)
    ensures k > 0 ==> cs[k - 1] != SPACE
  {
    assert AllowedAt(cs, k, unicode);
    BreakPieceIs(cs, k, column, w.indented, l);
  }

  lemma MarginsBegin(cs: Chars, indent: int)
    ensures Margins(cs, 0, cs, 0, indent, false, false)
  {
  }

  lemma MarginsFollow(cs: Chars, k: nat, t: Chars, p: nat, indent: int, whitespace: bool, folded: bool)
    requires Margins(cs, k, t, p, indent, whitespace, folded)
    ensures Follows(cs, k, t, p)
  {
  }

  lemma NotAfterBreak(r: Reader, cs: Chars, k: nat, breaks: bool, style: LineBreak, unicode: bool)
    requires ReadTo(r, cs, k, breaks, style) && k < |cs| && cs[k] == SPACE && AllowedAt(cs, k, unicode)
    ensures !breaks
  {
  }

  lemma NotBlank(cs: Chars, k: nat, unicode: bool)
    requires k < |cs| && AllowedAt(cs, k, unicode) && cs[k] != SPACE
    ensures !Blank(cs[k])
  {
  }

  lemma SingleBegins(cs: Chars, style: LineBreak)
    ensures ReadTo(RunSingle(Text([], []), []), cs, 0, false, style) && Offset(cs, 0) == 0 && (|EncodeAll(cs)| == 0 <==> |cs| == 0)
  {
    OffsetEnd(cs, 0);
  }

  lemma SingleEnds(r: Reader, body: Chars, cs: Chars, breaks: bool, style: LineBreak)
    requires r == RunSingle(Text([], []), body) && ReadTo(r, cs, |cs|, breaks, style)
    ensures RunSingle(Text([], []), body + [APOSTROPHE]) == Ended(cs)
  {
    RunSingleAppend(Text([], []), body, [APOSTROPHE]);
    RunSingleOne(r, APOSTROPHE);
    assert cs[..|cs|] == cs;
  }
}
