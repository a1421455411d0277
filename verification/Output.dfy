/** The emitter's output: characters go to a small buffer, which is flushed to a writer that may
    fail at any time. */
module Output {
  import opened Utf8

  const OUTPUT_BUFFER_SIZE: nat := 128

  datatype LineBreak = CrBreak | LnBreak | CrLnBreak

  /** The write handler. Whether a write fails is beyond the emitter's control. */
  class Writer {
    var out: seq<Byte>

    constructor ()
      ensures out == []
    {
      out := [];
    }

    method Write(bytes: seq<Byte>) returns (ok: bool)
      modifies this
      ensures out == if ok then old(out) + bytes else old(out)
    {
      ok := *;
      if ok {
        out := out + bytes;
      }
    }
  }

  /** The emitter's fields that the printers use. */
  class Printer {
    const writer: Writer
    const buffer: array<Byte>
    const bestWidth: int
    const unicode: bool
    const lineBreak: LineBreak
    var bufferPos: nat
    var column: int
    var line: int
    var indent: int
    var whitespace: bool
    var indention: bool
    var openEnded: bool
    var failed: bool
    /** Ghost: all characters put so far, and how many of them the writer has. */
    ghost var chars: seq<CodePoint>
    ghost var flushed: nat

    constructor (bestWidth: int, unicode: bool, lineBreak: LineBreak)
      ensures Valid() && fresh(writer) && fresh(buffer) && chars == []
    {
      writer := new Writer();
      buffer := new Byte[OUTPUT_BUFFER_SIZE];
      this.bestWidth, this.unicode, this.lineBreak := bestWidth, unicode, lineBreak;
      bufferPos, column, line, indent, whitespace, indention, openEnded, failed := 0, 0, 0, -1, true, true, false, false;
      chars, flushed := [], 0;
    }

    /** The writer has whole characters, the buffer has the rest, and there is room for one more. */
    ghost predicate Valid()
      reads this, writer, buffer
    {
      && buffer.Length == OUTPUT_BUFFER_SIZE && bufferPos <= OUTPUT_BUFFER_SIZE && flushed <= |chars|
      && writer.out == EncodeAll(chars[..flushed])
      && buffer[..bufferPos] == EncodeAll(chars[flushed..])
    }
  }

  /** Wherever the flushes came, the writer and the buffer have the bytes of all characters. */
  lemma Transparent(e: Printer)
    requires e.Valid()
    ensures e.bufferPos <= e.buffer.Length && e.writer.out + e.buffer[..e.bufferPos] == EncodeAll(e.chars)
  {
    EncodeAppend(e.chars[..e.flushed], e.chars[e.flushed..]);
    assert e.chars == e.chars[..e.flushed] + e.chars[e.flushed..];
  }

  method FlushBuffer(e: Printer) returns (ok: bool)
    requires e.Valid()
    modifies e`bufferPos, e`flushed, e`failed, e.writer
    ensures e.Valid() && (ok ==> e.bufferPos == 0) && (!ok ==> e.failed && e.bufferPos == old(e.bufferPos))
  {
    if e.bufferPos == 0 {
      return true;
    }
    ok := e.writer.Write(e.buffer[..e.bufferPos]);
    if ok {
      EncodeAppend(e.chars[..e.flushed], e.chars[e.flushed..]);
      assert e.chars[..e.flushed] + e.chars[e.flushed..] == e.chars == e.chars[..|e.chars|];
      e.bufferPos, e.flushed := 0, |e.chars|;
    } else {
      e.failed := true;
    }
  }

  /** Makes sure that there is room for one more character. */
  method MakeRoom(e: Printer) returns (ok: bool)
    requires e.Valid()
    modifies e`bufferPos, e`flushed, e`failed, e.writer
    ensures e.Valid() && (ok ==> e.bufferPos + 5 < e.buffer.Length) && (!ok ==> e.failed)
  {
    ok := true;
    if e.bufferPos + 5 >= e.buffer.Length {
      ok := FlushBuffer(e);
    }
  }

  /** The buffer now has one more character. */
  lemma OneMoreChar(chars: seq<CodePoint>, flushed: nat, bytes: seq<Byte>, c: CodePoint)
    requires flushed <= |chars| && bytes == EncodeAll(chars[flushed..])
    ensures bytes + Encode(c) == EncodeAll((chars + [c])[flushed..]) && (chars + [c])[..flushed] == chars[..flushed]
  {
    assert (chars + [c])[flushed..] == chars[flushed..] + [c];
    EncodeAppend(chars[flushed..], [c]);
    EncodeOne(c);
  }

  /** Stores the bytes of a character, for which there is room. */
  method Store(e: Printer, bytes: seq<Byte>, ghost c: CodePoint)
    requires e.Valid() && e.bufferPos + |bytes| <= e.buffer.Length && bytes == Encode(c)
    modifies e`bufferPos, e`chars, e.buffer
    ensures e.Valid() && e.chars == old(e.chars) + [c] && e.bufferPos == old(e.bufferPos) + Length(c)
  {
    hide EncodeAll, Encode;
    OneMoreChar(e.chars, e.flushed, e.buffer[..e.bufferPos], c);
    ghost var was := e.buffer[..e.bufferPos];
    var p := e.bufferPos;
    for k := 0 to |bytes|
      invariant e.buffer[..p] == was && e.buffer[p..p + k] == bytes[..k]
      modifies e.buffer
    {
      e.buffer[p + k] := bytes[k];
    }
    e.bufferPos := p + |bytes|;
    e.chars := e.chars + [c];
    assert e.buffer[..e.bufferPos] == was + bytes;
  }

  /** Puts a one-byte character. */
  method Put(e: Printer, value: Byte) returns (ok: bool)
    requires e.Valid() && value < 0x80
    modifies e`bufferPos, e`flushed, e`failed, e`chars, e`column, e.writer, e.buffer
    ensures e.Valid()
    ensures if ok then e.chars == old(e.chars) + [value] && e.column == old(e.column) + 1
            else e.failed && e.chars == old(e.chars) && e.column == old(e.column)
  {
    ok := MakeRoom(e);
    if ok {
      Store(e, [value], value);
      e.column := e.column + 1;
    }
  }

  function BreakChars(b: LineBreak): seq<CodePoint>
  {
    match b
    case CrBreak => [0x0D]
    case LnBreak => [0x0A]
    case CrLnBreak => [0x0D, 0x0A]
  }

  method PutBreak(e: Printer) returns (ok: bool)
    requires e.Valid()
    modifies e`bufferPos, e`flushed, e`failed, e`chars, e`column, e`line, e.writer, e.buffer
    ensures e.Valid()
    ensures if ok then e.chars == old(e.chars) + BreakChars(e.lineBreak) && e.column == 0
            else e.failed && e.chars == old(e.chars) && e.column == old(e.column)
  {
    ok := MakeRoom(e);
    if ok {
      match e.lineBreak {
        case CrBreak => Store(e, [0x0D], 0x0D);
        case LnBreak => Store(e, [0x0A], 0x0A);
        case CrLnBreak =>
          Store(e, [0x0D], 0x0D);
          Store(e, [0x0A], 0x0A);
      }
      e.column := 0;
      e.line := e.line + 1;
    }
  }

  /** Copies the character at `i` of a text, which is `c`. */
  method Write(e: Printer, s: seq<Byte>, i: nat, ghost c: CodePoint) returns (ok: bool, i': nat)
    requires e.Valid() && At(s, i, c)
    modifies e`bufferPos, e`flushed, e`failed, e`chars, e`column, e.writer, e.buffer
    ensures e.Valid()
    ensures if ok then i' == i + Length(c) && e.chars == old(e.chars) + [c] && e.column == old(e.column) + 1
            else e.failed && i' == i && e.chars == old(e.chars) && e.column == old(e.column)
  {
    i' := i;
    ok := MakeRoom(e);
    if ok {
      BytesOf(s, i, c);
      var w := Width(s[i]);
      Store(e, s[i..i + w], c);
      e.column := e.column + 1;
      i' := i + w;
    }
  }

  /** Copies a line break: a line feed becomes the emitter's own break. */
  method WriteBreak(e: Printer, s: seq<Byte>, i: nat, ghost c: CodePoint) returns (ok: bool, i': nat)
    requires e.Valid() && At(s, i, c)
    modifies e`bufferPos, e`flushed, e`failed, e`chars, e`column, e`line, e.writer, e.buffer
    ensures e.Valid()
    ensures if ok then i' == i + Length(c) && e.column == 0 && e.chars == old(e.chars) + (if c == 0x0A then BreakChars(e.lineBreak) else [c])
            else e.failed && e.chars == old(e.chars)
  {
    TestsAgree(s, i, c);
    i' := i;
    if s[i] == 0x0A {
      ok := PutBreak(e);
      if ok {
        i' := i + 1;
      }
    } else {
      ok, i' := Write(e, s, i, c);
      if ok {
        e.column := 0;
        e.line := e.line + 1;
      }
    }
  }

  /** `n` spaces. */
  function Spaces(n: int): (r: seq<CodePoint>)
    ensures |r| == if n > 0 then n else 0
    ensures forall c <- r :: c == 0x20
  {
    if n <= 0 then [] else [0x20] + Spaces(n - 1)
  }

  lemma {:induction false} SpacesSnoc(n: nat)
    ensures Spaces(n + 1) == Spaces(n) + [0x20]
  {
    if n == 0 {
    } else {
      SpacesSnoc(n - 1);
    }
  }

  /** Puts spaces up to a column. */
  method Pad(e: Printer, indent: int) returns (ok: bool)
    requires e.Valid()
    modifies e`bufferPos, e`flushed, e`failed, e`chars, e`column, e.writer, e.buffer
    ensures e.Valid() && e.column >= old(e.column) && (!ok ==> e.failed)
    ensures ok ==> e.chars == old(e.chars) + Spaces(e.column - old(e.column)) && e.column == if old(e.column) < indent then indent else old(e.column)
  {
    ok := true;
    while e.column < indent
      invariant e.Valid() && e.column >= old(e.column) && (e.column > old(e.column) ==> e.column <= indent)
      invariant e.chars == old(e.chars) + Spaces(e.column - old(e.column))
      decreases indent - e.column
    {
      SpacesSnoc(e.column - old(e.column));
      ok := Put(e, 0x20);
      if !ok {
        return;
      }
    }
  }

  /** Whether `write_indent` starts a new line. */
  predicate NeedsBreak(indention: bool, whitespace: bool, column: int, indent: int)
  {
    var n := if indent < 0 then 0 else indent;
    !indention || column > n || (column == n && !whitespace)
  }

  /** Goes to the column of the indentation, on a new line where there is need. */
  method WriteIndent(e: Printer) returns (ok: bool)
    requires e.Valid() && e.column >= 0
    modifies e`bufferPos, e`flushed, e`failed, e`chars, e`column, e`line, e`whitespace, e`indention, e.writer, e.buffer
    ensures e.Valid() && e.column >= 0 && (!ok ==> e.failed)
    ensures ok ==> e.whitespace && e.indention && e.column == if e.indent < 0 then 0 else e.indent
    ensures ok ==> var brk := old(NeedsBreak(e.indention, e.whitespace, e.column, e.indent));
      e.chars == old(e.chars) + (if brk then BreakChars(e.lineBreak) else []) + Spaces(e.column - (if brk then 0 else old(e.column)))
  {
    hide EncodeAll, Spaces;
    var indent := if e.indent < 0 then 0 else e.indent;
    if !e.indention || e.column > indent || (e.column == indent && !e.whitespace) {
      ok := PutBreak(e);
      if !ok {
        return;
      }
    }
    ok := Pad(e, indent);
    if !ok {
      return;
    }
    e.whitespace := true;
    e.indention := true;
    return true;
  }

  /** Copies a whole text. */
  method WriteAll(e: Printer, value: seq<Byte>, ghost cs: seq<CodePoint>) returns (ok: bool)
    requires e.Valid() && value == EncodeAll(cs)
    modifies e`bufferPos, e`flushed, e`failed, e`chars, e`column, e.writer, e.buffer
    ensures e.Valid() && (!ok ==> e.failed) && e.column >= old(e.column)
    ensures ok ==> e.chars == old(e.chars) + cs && e.column == old(e.column) + |cs|
  {
    hide EncodeAll, Encode, Length, At, Offset;
    OffsetEnd(cs, 0);
    ghost var k := 0;
    var i := 0;
    while i < |value|
      invariant e.Valid() && k <= |cs| && i == Offset(cs, k) && i <= |value| && (i == |value| <==> k == |cs|)
      invariant e.chars == old(e.chars) + cs[..k] && e.column == old(e.column) + k
      decreases |cs| - k
    {
      AtOffset(cs, k);
      OffsetEnd(cs, k + 1);
      assert cs[..k + 1] == cs[..k] + [cs[k]];
      ok, i := Write(e, value, i, cs[k]);
      if !ok {
        return;
      }
      k := k + 1;
    }
    assert cs[..k] == cs;
    ok := true;
  }

  /** Writes an indicator. */
  method WriteIndicator(e: Printer, indicator: seq<Byte>, needWhitespace: bool, isWhitespace: bool, isIndention: bool, ghost cs: seq<CodePoint>) returns (ok: bool)
    requires e.Valid() && indicator == EncodeAll(cs)
    modifies e`bufferPos, e`flushed, e`failed, e`chars, e`column, e`whitespace, e`indention, e`openEnded, e.writer, e.buffer
    ensures e.Valid() && (!ok ==> e.failed) && e.column >= old(e.column)
    ensures ok ==> e.chars == old(e.chars) + (if needWhitespace && !old(e.whitespace) then [0x20] else []) + cs
    ensures ok ==> e.whitespace == isWhitespace && e.indention == (old(e.indention) && isIndention)
    ensures ok ==> e.column == old(e.column) + (if needWhitespace && !old(e.whitespace) then 1 else 0) + |cs|
  {
    hide EncodeAll;
    if needWhitespace && !e.whitespace {
      ok := Put(e, 0x20);
      if !ok {
        return;
      }
    }
    ok := WriteAll(e, indicator, cs);
    if ok {
      e.whitespace := isWhitespace;
      e.indention := e.indention && isIndention;
      e.openEnded := false;
    }
  }
}
