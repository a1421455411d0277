/** Writing a scalar for which a quoted style has been asked: the analysis decides which one is used,
    and either way the text can be read back. */
module Scalars {
  import opened Utf8
  import opened Output
  import opened Quoted
  import opened SingleQuoted
  import Machine

  /** What is between the quotes, and the closing quote, reads as the text. */
  ghost predicate ReadsAs(single: bool, body: Chars, cs: Chars)
  {
    if single then RunSingle(Text([], []), body + [APOSTROPHE]) == Ended(cs) else RunDouble(Text([], []), body + [QUOTE]) == Ended(cs)
  }

  method EmitQuotedScalar(e: Printer, value: seq<Byte>, wantSingle: bool, simpleKey: bool, bestIndent: int, ghost cs: Chars)
    returns (ok: bool, single: bool, ghost body: Chars)
    requires e.Valid() && e.column >= 0 && value == EncodeAll(cs) && bestIndent >= 2 && e.indent >= -1
    modifies e, e.writer, e.buffer
    ensures e.Valid() && (!ok ==> e.failed)
    ensures ok ==> e.indent == old(e.indent) && ReadsAs(single, body, cs)
    ensures ok ==> var q := if single then APOSTROPHE else QUOTE;
      e.chars == old(e.chars) + (if old(e.whitespace) then [] else [SPACE]) + [q] + body + [q]
    ensures ok && simpleKey ==> forall c <- body :: !Break(c)
    ensures ok && !(single && exists c <- cs :: Break(c)) ==>
      WideBreaks(body, Layout(e.unicode, !simpleKey, e.bestWidth, e.lineBreak, 0, old(e.column) + if old(e.whitespace) then 1 else 2))
    ensures single <==> wantSingle && SingleAllowed(cs, e.unicode) && !(simpleKey && exists c <- cs :: Break(c))
  {
    hide SingleAllowed, EncodeAll, RunSingle, RunDouble, DoubleText, SingleText, Break, Column, BreaksAt;
    var multiline, allowed := AnalyzeScalar(e.unicode, value, cs);
    single := wantSingle && !(simpleKey && multiline) && allowed;
    var indent := e.indent;
    e.indent := Machine.Deeper(indent, true, false, bestIndent);
    if single {
      ghost var t, folded;
      ok, body, t, folded := WriteSingleQuoted(e, value, !simpleKey, cs);
    } else {
      ok, body := WriteDoubleQuoted(e, value, !simpleKey, cs);
    }
    e.indent := indent;
  }
}
