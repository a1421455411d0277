/** Edits of the document: five ways to rearrange lines, all of which mean one splice of the text. */
module Edits {
  import opened Wrappers
  import opened Rope
  import opened Lines
  import opened Document
  import opened Undo
  import opened Texts

  /** The texts of some lines. */
  ghost function TextOf(ls: seq<Line>): (t: Text)
    reads (set l <- ls)`text
    ensures |t| == |ls|
  {
    if ls == [] then [] else [ls[0].text] + TextOf(ls[1..])
  }

  lemma {:induction false} TextAt(ls: seq<Line>, i: nat)
    requires i < |ls|
    ensures TextOf(ls)[i] == ls[i].text
  {
    if i == 0 {
    } else {
      TextAt(ls[1..], i - 1);
    }
  }

  lemma {:induction false} TextAppend(a: seq<Line>, b: seq<Line>)
    ensures TextOf(a + b) == TextOf(a) + TextOf(b)
  {
    if a == [] {
      assert a + b == b;
    } else {
      assert (a + b)[1..] == a[1..] + b;
      TextAppend(a[1..], b);
    }
  }

  lemma TextHalves(ls: seq<Line>, i: nat)
    requires i <= |ls|
    ensures TextOf(ls[..i]) == TextOf(ls)[..i] && TextOf(ls[i..]) == TextOf(ls)[i..]
  {
    hide TextOf;
    assert ls == ls[..i] + ls[i..];
    TextAppend(ls[..i], ls[i..]);
    Halves(TextOf(ls[..i]), TextOf(ls[i..]));
  }

  lemma Halves<T>(a: seq<T>, b: seq<T>)
    ensures (a + b)[..|a|] == a && (a + b)[|a|..] == b
  {
  }

  lemma TextSlices(ls: seq<Line>, i: nat, j: nat)
    requires i <= j <= |ls|
    ensures TextOf(ls[i..j]) == TextOf(ls)[i..j] && TextOf(ls[..i]) == TextOf(ls)[..i] && TextOf(ls[j..]) == TextOf(ls)[j..]
  {
    hide TextOf;
    TextHalves(ls, i);
    TextHalves(ls, j);
    TextHalves(ls[..j], i);
    assert ls[..j][i..] == ls[i..j];
  }

  /** The texts of the document's lines. */
  ghost function TextIn(d: Doc): Text
    reads d, (set l <- d.Content())`text
  {
    TextOf(d.Content())
  }

  method InsertLines(d: Doc, at: nat, ls: seq<Line>)
    requires d.Valid() && at <= |d.Content()| && NewLines(ls)
    modifies d`m, d`gone, d.Chunks(), ls`parent, d.Members()`parent
    ensures d.Valid() && d.Content() == old(d.Content())[..at] + ls + old(d.Content())[at..] && fresh(d.Chunks() - old(d.Chunks()))
    ensures d.Members() == old(d.Members()) + LineSet(ls) && d.gone == old(d.gone) - LineSet(ls)
    ensures TextIn(d) == Splice(old(TextIn(d)), at, 0, TextOf(ls))
  {
    hide Lines.Doc, AllLines, AllLocal, NoDup;
    ghost var was := d.Content();
    d.Insert(at, ls);
    PutMembers(was, at, ls);
    TextPut(was, at, ls);
  }

  method RemoveLines(d: Doc, at: nat, n: nat)
    requires d.Valid() && at + n <= |d.Content()|
    modifies d`m, d`gone, d.Chunks(), d.Members()`parent
    ensures d.Valid() && d.Content() == Cut(old(d.Content()), at, n) && fresh(d.Chunks() - old(d.Chunks()))
    ensures d.Members() <= old(d.Members()) && d.gone == old(d.gone) + (old(d.Members()) - d.Members())
    ensures TextIn(d) == Splice(old(TextIn(d)), at, n, [])
  {
    LinesApart(d);
    hide Lines.Doc, AllLines, AllLocal, NoDup;
    ghost var was := d.Content();
    CutMembers(was, at, n);
    d.Remove(at, n);
    TextCut(was, at, n);
  }

  lemma CutMembers(s: seq<Line>, at: nat, n: nat)
    requires at + n <= |s| && NoDup(s)
    ensures LineSet(s) - LineSet(Cut(s, at, n)) == LineSet(s[at..at + n]) && LineSet(Cut(s, at, n)) <= LineSet(s)
  {
    assert s == s[..at] + s[at..at + n] + s[at + n..];
  }

  lemma TextCut(ls: seq<Line>, at: nat, n: nat)
    requires at + n <= |ls|
    ensures TextOf(Cut(ls, at, n)) == Splice(TextOf(ls), at, n, [])
  {
    TextAppend(ls[..at], ls[at + n..]);
    TextSlices(ls, at, at + n);
  }

  lemma TextPut(ls: seq<Line>, at: nat, ins: seq<Line>)
    requires at <= |ls|
    ensures TextOf(ls[..at] + ins + ls[at..]) == Splice(TextOf(ls), at, 0, TextOf(ins))
  {
    TextAppend(ls[..at] + ins, ls[at..]);
    TextAppend(ls[..at], ins);
    TextSlices(ls, at, at);
  }

  lemma PutMembers(s: seq<Line>, at: nat, ls: seq<Line>)
    requires at <= |s|
    ensures LineSet(s[..at] + ls + s[at..]) == LineSet(s) + LineSet(ls)
  {
    assert s == s[..at] + s[at..];
  }

  lemma TextAll(ls: seq<Line>)
    ensures forall k :: 0 <= k < |ls| ==> TextOf(ls)[k] == ls[k].text
  {
    forall k | 0 <= k < |ls|
      ensures TextOf(ls)[k] == ls[k].text
    {
      TextAt(ls, k);
    }
  }

  lemma LinesApart(d: Doc)
    requires d.Valid()
    ensures NoDup(d.Content())
  {
  }

  method SetTextAt(d: Doc, line: Line, text: string, ghost i: nat)
    requires d.Valid() && i < |d.Content()| && d.Content()[i] == line
    modifies line`text
    ensures d.Valid() && line.text == text && TextIn(d) == old(TextIn(d))[i := text]
  {
    LinesApart(d);
    hide Lines.Doc, AllLines, AllLocal, TextOf;
    TextAll(d.Content());
    d.SetText(line, text);
    TextAll(d.Content());
    assert forall k :: 0 <= k < |TextIn(d)| ==> TextIn(d)[k] == old(TextIn(d))[i := text][k];
  }

  // ---------------------------------------------------------------- what edits do to single lines

  /** Replaces a piece of line number `i`; a bound that is missing stands for that end of the line. */
  method Replace(d: Doc, line: Line, from: Option<nat>, to: Option<nat>, text: string, ghost i: nat)
    requires d.Valid() && i < |d.Content()| && d.Content()[i] == line
    requires (from.Some? ==> from.value <= |line.text|) && (to.Some? ==> to.value <= |line.text|)
    modifies line`text
    ensures d.Valid() && line.text == old(line.text[..if from.Some? then from.value else 0] + text + line.text[if to.Some? then to.value else |line.text|..])
    ensures TextIn(d) == old(TextIn(d))[i := line.text]
  {
    var to' := if to.None? then |line.text| else to.value;
    var from' := if from.None? then 0 else from.value;
    SetTextAt(d, line, line.text[..from'] + text + line.text[to'..], i);
  }

  /** A new line with what comes after `pos` in this one. */
  method Split(line: Line, pos: nat, textBefore: string, ghost d: Doc) returns (taken: Line)
    requires pos <= |line.text| && d.Valid()
    ensures fresh(taken) && taken.text == textBefore + line.text[pos..] && taken.parent == null && taken.height == 1
    ensures d.Valid() && TextIn(d) == old(TextIn(d))
  {
    taken := new Line(textBefore + line.text[pos..]);
    forall c | c in d.m
      ensures LinesOk(d.m, c)
    {
      assert old(LinesOk(d.m, c));
    }
  }

  method Append(d: Doc, line: Line, other: Line, ghost i: nat)
    requires d.Valid() && i < |d.Content()| && d.Content()[i] == line
    modifies line`text
    ensures d.Valid() && line.text == old(line.text) + old(other.text)
    ensures TextIn(d) == old(TextIn(d))[i := line.text]
  {
    SetTextAt(d, line, line.text + other.text, i);
  }

  lemma NoText()
    ensures TextOf([]) == []
  {
  }

  /** New lines with the given texts. */
  method MakeLines(texts: Text, ghost d: Doc) returns (ls: seq<Line>)
    requires d.Valid()
    ensures fresh(ls) && NewLines(ls) && TextOf(ls) == texts && forall l <- ls :: l.height == 1
    ensures d.Valid() && TextIn(d) == old(TextIn(d))
  {
    hide TextOf;
    ls := [];
    NoText();
    for i := 0 to |texts|
      invariant fresh(ls) && NewLines(ls) && TextOf(ls) == texts[..i] && forall l <- ls :: l.height == 1
    {
      var l := new Line(texts[i]);
      TextAppend(ls, [l]);
      TextOne(l);
      assert texts[..i + 1] == texts[..i] + [texts[i]];
      ls := ls + [l];
    }
    forall c | c in d.m
      ensures LinesOk(d.m, c)
    {
      assert old(LinesOk(d.m, c));
    }
  }

  // ---------------------------------------------------------------- the five branches

  /** Of the lines `was`, those outside `at..at + n` are still there, with `k` others in between. */
  ghost predicate Kept(was: seq<Line>, now: seq<Line>, at: int, n: int, k: int)
  {
    && 0 <= at <= at + n <= |was| && 0 <= k && |now| == |was| - n + k
    && now[..at] == was[..at] && now[at + k..] == was[at + n..]
  }

  /** Takes out `n` lines and puts others in their place; `always`, even if there are none. */
  method Exchange(d: Doc, at: nat, n: nat, added: seq<Line>, always: bool)
    requires d.Valid() && at + n <= |d.Content()| && NewLines(added) && LineSet(added) !! d.gone
    modifies d`m, d`gone, d.Chunks(), added`parent, d.Members()`parent
    ensures d.Valid() && fresh(d.Chunks() - old(d.Chunks())) && d.Members() <= old(d.Members()) + LineSet(added)
    ensures d.Content() == Splice(old(d.Content()), at, n, added)
    ensures d.gone == old(d.gone) + (old(d.Members()) - d.Members())
    ensures TextIn(d) == Splice(old(TextIn(d)), at, n, TextOf(added))
  {
    hide Lines.Doc, NoDup, TextOf, Splice, Cut;
    ghost var t, ls, ms, g := TextIn(d), d.Content(), d.Members(), d.gone;
    TwoSplices(t, at, n, TextOf(added));
    TwoSplices(ls, at, n, added);
    NewApart(d, added);
    if n > 0 {
      RemoveLines(d, at, n);
    }
    SpliceIsCut(ls, at, n);
    SpliceIsPut(d.Content(), at, added);
    assert d.Content() == Splice(ls, at, n, []) && d.Members() <= ms && d.gone == g + (ms - d.Members());
    ghost var ms1 := d.Members();
    if always || |added| > 0 {
      InsertLines(d, at, added);
      GoneAfterPut(g, ms, ms1, LineSet(added));
    } else {
      NoLines(added);
    }
  }

  lemma SpliceIsCut(ls: seq<Line>, at: nat, n: nat)
    requires at + n <= |ls|
    ensures Splice(ls, at, n, []) == Cut(ls, at, n)
  {
  }

  lemma SpliceIsPut(ls: seq<Line>, at: nat, added: seq<Line>)
    requires at <= |ls|
    ensures Splice(ls, at, 0, added) == ls[..at] + added + ls[at..]
  {
  }

  lemma GoneAfterPut<T>(g: set<T>, ms: set<T>, ms1: set<T>, a: set<T>)
    requires a !! ms && a !! g && ms1 <= ms
    ensures (g + (ms - ms1)) - a == g + (ms - (ms1 + a))
  {
  }

  lemma NoLines(ls: seq<Line>)
    requires ls == []
    ensures LineSet(ls) == {} && TextOf(ls) == []
  {
  }

  lemma NewApart(d: Doc, ls: seq<Line>)
    requires d.Valid() && NewLines(ls)
    ensures LineSet(ls) !! d.Members()
  {
    forall l | l in ls
      ensures l !in d.Content()
    {
      Home(l, d.m, d.root);
    }
  }

  lemma TwoSplices<T>(t: seq<T>, at: nat, n: nat, x: seq<T>)
    requires at + n <= |t|
    ensures Splice(Splice(t, at, n, []), at, 0, x) == Splice(t, at, n, x)
    ensures n == 0 ==> Splice(t, at, 0, []) == t
  {
  }

  /** Takes out `n` lines and puts new ones in their place. */
  method ExchangeNew(d: Doc, at: nat, n: nat, texts: Text, always: bool)
    requires d.Valid() && at + n <= |d.Content()|
    modifies d`m, d`gone, d.Chunks(), d.Members()`parent
    ensures d.Valid() && fresh(d.Chunks() - old(d.Chunks())) && fresh(d.Members() - old(d.Members()))
    ensures Kept(old(d.Content()), d.Content(), at, n, |texts|) && forall l <- d.Content() :: l !in old(d.Members()) ==> l.height == 1
    ensures d.gone == old(d.gone) + (old(d.Members()) - d.Members())
    ensures TextIn(d) == Splice(old(TextIn(d)), at, n, texts)
  {
    hide Lines.Doc, NoDup, TextOf, Splice;
    ghost var was := d.Content();
    var added := MakeLines(texts, d);
    Exchange(d, at, n, added, always);
    SpliceKeeps(was, at, n, added);
  }

  lemma SpliceKeeps(was: seq<Line>, at: nat, n: nat, added: seq<Line>)
    requires at + n <= |was|
    ensures Kept(was, Splice(was, at, n, added), at, n, |added|)
    ensures forall l <- Splice(was, at, n, added) :: l in LineSet(was) || l in added
  {
  }

  /** Whole lines for whole lines. */
  method ReplaceLines(d: Doc, from: Pos, to: Pos, ins: Text)
    requires d.Valid() && ValidRange(TextIn(d), from, to) && ins != [] && from.ch == 0 == to.ch && Last(ins) == ""
    modifies d`m, d`gone, d.Chunks(), d.Members()`text, d.Members()`parent
    ensures d.Valid() && fresh(d.Chunks() - old(d.Chunks())) && fresh(d.Members() - old(d.Members()))
    ensures Kept(old(d.Content()), d.Content(), from.line, to.line - from.line, |ins| - 1)
    ensures forall l <- d.Content() :: l !in old(d.Members()) ==> l.height == 1
    ensures d.gone == old(d.gone) + (old(d.Members()) - d.Members())
    ensures TextIn(d) == Edited(old(TextIn(d)), from, to, ins)
  {
    hide Lines.Doc, NoDup, TextOf, Edited, Splice, Init, Last, ValidRange, LineSet;
    RangeFacts(TextIn(d), from, to);
    WholeLines(TextIn(d), from, to, ins);
    ExchangeNew(d, from.line, to.line - from.line, Init(ins), false);
  }

  lemma WholeLines(t: Text, from: Pos, to: Pos, ins: Text)
    requires ValidRange(t, from, to) && ins != [] && from.ch == 0 == to.ch && Last(ins) == ""
    ensures Splice(t, from.line, to.line - from.line, Init(ins)) == Edited(t, from, to, ins)
  {
    var g := Glued("", ins, t[to.line]);
    assert t[to.line][0..] == t[to.line] && t[from.line][..0] == "";
    forall k | 0 <= k < |g|
      ensures g[k] == (Init(ins) + [t[to.line]])[k]
    {
    }
  }

  /** Within one line. */
  method ReplaceInLine(d: Doc, line: Line, from: Pos, to: Pos, ins: Text)
    requires d.Valid() && ValidRange(TextIn(d), from, to) && |ins| == 1 && from.line == to.line && line == d.Content()[from.line]
    modifies line`text
    ensures d.Valid() && TextIn(d) == Edited(old(TextIn(d)), from, to, ins)
  {
    hide Lines.Doc, NoDup, TextOf, Splice;
    TextAt(d.Content(), from.line);
    InLine(TextIn(d), from, to, ins);
    Replace(d, line, Some(from.ch), Some(to.ch), ins[0], from.line);
  }

  lemma InLine(t: Text, from: Pos, to: Pos, ins: Text)
    requires ValidRange(t, from, to) && |ins| == 1 && from.line == to.line
    ensures t[from.line := t[from.line][..from.ch] + ins[0] + t[from.line][to.ch..]] == Edited(t, from, to, ins)
  {
  }

  /** One line becomes several. */
  method SplitLine(d: Doc, line: Line, from: Pos, to: Pos, ins: Text)
    requires d.Valid() && ValidRange(TextIn(d), from, to) && |ins| > 1 && from.line == to.line && line == d.Content()[from.line]
    modifies d`m, d`gone, d.Chunks(), d.Members()`text, d.Members()`parent
    ensures d.Valid() && fresh(d.Chunks() - old(d.Chunks())) && fresh(d.Members() - old(d.Members()))
    ensures Kept(old(d.Content()), d.Content(), from.line + 1, 0, |ins| - 1)
    ensures forall l <- d.Content() :: l !in old(d.Members()) ==> l.height == 1
    ensures d.gone == old(d.gone) + (old(d.Members()) - d.Members())
    ensures TextIn(d) == Edited(old(TextIn(d)), from, to, ins)
  {
    hide Lines.Doc, NoDup, TextOf, Splice, Edited, ValidRange;
    ghost var t := TextIn(d);
    RangeFacts(t, from, to);
    TextAt(d.Content(), from.line);
    SplitText(t, from, to, ins);
    var lastLine := Split(line, to.ch, ins[|ins| - 1], d);
    Replace(d, line, Some(from.ch), None, ins[0], from.line);
    InsertBefore(d, from.line + 1, ins[1..|ins| - 1], lastLine);
    assert TextIn(d) == Edited(t, from, to, ins);
  }

  /** Puts new lines, and then one more, in. */
  method InsertBefore(d: Doc, at: nat, texts: Text, lastLine: Line)
    requires d.Valid() && at <= |d.Content()| && lastLine.parent == null && lastLine.height == 1 && lastLine !in d.gone
    modifies d`m, d`gone, d.Chunks(), d.Members()`parent, lastLine`parent
    ensures d.Valid() && fresh(d.Chunks() - old(d.Chunks())) && fresh(d.Members() - old(d.Members()) - {lastLine})
    ensures Kept(old(d.Content()), d.Content(), at, 0, |texts| + 1)
    ensures forall l <- d.Content() :: l !in old(d.Members()) ==> l.height == 1
    ensures d.gone == old(d.gone) + (old(d.Members()) - d.Members())
    ensures TextIn(d) == Splice(old(TextIn(d)), at, 0, texts + [lastLine.text])
  {
    hide Lines.Doc, TextOf, Splice, Kept, NewLines, NoDup;
    ghost var was := d.Content();
    var added := MakeLines(texts, d);
    NewLinesSnoc(added, lastLine);
    TextAppend(added, [lastLine]);
    TextOne(lastLine);
    SpliceIsPut(was, at, added + [lastLine]);
    SpliceKeeps(was, at, 0, added + [lastLine]);
    InsertLines(d, at, added + [lastLine]);
  }

  lemma NewLinesSnoc(ls: seq<Line>, l: Line)
    requires NewLines(ls) && l !in ls && l.parent == null
    ensures NewLines(ls + [l])
  {
  }

  lemma TextOne(l: Line)
    ensures TextOf([l]) == [l.text]
  {
  }

  lemma SplitText(t: Text, from: Pos, to: Pos, ins: Text)
    requires ValidRange(t, from, to) && |ins| > 1 && from.line == to.line
    ensures from.line + 1 <= |t| &&
      Splice(t[from.line := t[from.line][..from.ch] + ins[0] + t[from.line][|t[from.line]|..]], from.line + 1, 0,
             ins[1..|ins| - 1] + [ins[|ins| - 1] + t[from.line][to.ch..]]) == Edited(t, from, to, ins)
  {
    var l := t[from.line];
    var x, y := l[..from.ch] + ins[0], ins[1..|ins| - 1] + [ins[|ins| - 1] + l[to.ch..]];
    assert x + l[|l|..] == x;
    assert Glued(l[..from.ch], ins, l[to.ch..]) == [x] + y;
    PutAfter(t, from.line, x, y);
  }

  lemma PutAfter<T>(t: seq<T>, i: nat, x: T, y: seq<T>)
    requires i < |t|
    ensures Splice(t[i := x], i + 1, 0, y) == Splice(t, i, 1, [x] + y)
  {
  }

  /** The first line keeps what is before the range, and the last line what is after it. */
  function EndsTrimmed(t: Text, from: Pos, to: Pos, first: string, last: string): (r: Text)
    requires ValidRange(t, from, to)
    ensures |r| == |t|
  {
    t[from.line := t[from.line][..from.ch] + first + t[from.line][|t[from.line]|..]][to.line := t[to.line][..0] + last + t[to.line][to.ch..]]
  }

  lemma IsMember(d: Doc, i: nat)
    requires i < |d.Content()|
    ensures d.Content()[i] in d.Members()
  {
  }

  method TrimEnds(d: Doc, firstLine: Line, lastLine: Line, from: Pos, to: Pos, first: string, last: string)
    requires d.Valid() && ValidRange(TextIn(d), from, to) && from.line < to.line
    requires firstLine == d.Content()[from.line] && lastLine == d.Content()[to.line]
    modifies firstLine`text, lastLine`text
    ensures d.Valid() && firstLine.text == TextIn(d)[from.line] && lastLine.text == TextIn(d)[to.line]
    ensures TextIn(d) == EndsTrimmed(old(TextIn(d)), from, to, first, last)
  {
    hide Lines.Doc, TextOf;
    LinesApart(d);
    TextAll(d.Content());
    Replace(d, firstLine, Some(from.ch), None, first, from.line);
    Replace(d, lastLine, None, Some(to.ch), last, to.line);
  }

  /** Several lines become one. */
  method JoinLines(d: Doc, firstLine: Line, lastLine: Line, from: Pos, to: Pos, ins: Text)
    requires d.Valid() && ValidRange(TextIn(d), from, to) && |ins| == 1 && from.line < to.line
    requires firstLine == d.Content()[from.line] && lastLine == d.Content()[to.line]
    modifies d`m, d`gone, d.Chunks(), d.Members()`text, d.Members()`parent
    ensures d.Valid() && fresh(d.Chunks() - old(d.Chunks())) && d.Members() <= old(d.Members())
    ensures Kept(old(d.Content()), d.Content(), from.line + 1, to.line - from.line, 0)
    ensures forall l <- d.Content() :: l !in old(d.Members()) ==> l.height == 1
    ensures d.gone == old(d.gone) + (old(d.Members()) - d.Members())
    ensures TextIn(d) == Edited(old(TextIn(d)), from, to, ins)
  {
    hide Lines.Doc, TextOf, Splice, Edited, NoDup, EndsTrimmed, ValidRange, LineSet;
    ghost var t := TextIn(d);
    RangeFacts(t, from, to);
    IsMember(d, from.line);
    IsMember(d, to.line);
    JoinText(t, from, to, ins);
    TrimEnds(d, firstLine, lastLine, from, to, ins[0], "");
    Append(d, firstLine, lastLine, from.line);
    assert d.Members() == old(d.Members()) && d.Chunks() == old(d.Chunks());
    ghost var was := d.Content();
    RemoveLines(d, from.line + 1, to.line - from.line);
    CutKeeps(was, from.line + 1, to.line - from.line);
    assert TextIn(d) == Edited(t, from, to, ins);
  }

  lemma CutKeeps(was: seq<Line>, at: nat, n: nat)
    requires at + n <= |was|
    ensures Kept(was, Cut(was, at, n), at, n, 0)
    ensures forall l <- Cut(was, at, n) :: l in LineSet(was)
  {
  }

  lemma JoinText(t: Text, from: Pos, to: Pos, ins: Text)
    requires ValidRange(t, from, to) && |ins| == 1 && from.line < to.line
    ensures var u := EndsTrimmed(t, from, to, ins[0], "");
      Splice(u[from.line := u[from.line] + u[to.line]], from.line + 1, to.line - from.line, []) == Edited(t, from, to, ins)
  {
    var f, l := t[from.line], t[to.line];
    assert f[..from.ch] + ins[0] + f[|f|..] == f[..from.ch] + ins[0] && l[..0] + "" + l[to.ch..] == l[to.ch..];
  }

  /** Several lines become several others. */
  method ReplaceSome(d: Doc, firstLine: Line, lastLine: Line, from: Pos, to: Pos, ins: Text)
    requires d.Valid() && ValidRange(TextIn(d), from, to) && |ins| > 1 && from.line < to.line
    requires firstLine == d.Content()[from.line] && lastLine == d.Content()[to.line]
    modifies d`m, d`gone, d.Chunks(), d.Members()`text, d.Members()`parent
    ensures d.Valid() && fresh(d.Chunks() - old(d.Chunks())) && fresh(d.Members() - old(d.Members()))
    ensures Kept(old(d.Content()), d.Content(), from.line + 1, to.line - from.line - 1, |ins| - 2)
    ensures forall l <- d.Content() :: l !in old(d.Members()) ==> l.height == 1
    ensures d.gone == old(d.gone) + (old(d.Members()) - d.Members())
    ensures TextIn(d) == Edited(old(TextIn(d)), from, to, ins)
  {
    hide Lines.Doc, TextOf, Splice, Edited, NoDup, EndsTrimmed, ValidRange;
    ghost var t := TextIn(d);
    RangeFacts(t, from, to);
    TrimEnds(d, firstLine, lastLine, from, to, ins[0], ins[|ins| - 1]);
    ReplaceBetween(d, from, to, ins, t);
  }

  /** The lines between the first and the last one become others. */
  method ReplaceBetween(d: Doc, from: Pos, to: Pos, ins: Text, ghost t: Text)
    requires d.Valid() && ValidRange(t, from, to) && |ins| > 1 && from.line < to.line
    requires TextIn(d) == EndsTrimmed(t, from, to, ins[0], ins[|ins| - 1])
    modifies d`m, d`gone, d.Chunks(), d.Members()`parent
    ensures d.Valid() && fresh(d.Chunks() - old(d.Chunks())) && fresh(d.Members() - old(d.Members()))
    ensures Kept(old(d.Content()), d.Content(), from.line + 1, to.line - from.line - 1, |ins| - 2)
    ensures forall l <- d.Content() :: l !in old(d.Members()) ==> l.height == 1
    ensures d.gone == old(d.gone) + (old(d.Members()) - d.Members())
    ensures TextIn(d) == Edited(t, from, to, ins)
  {
    hide Lines.Doc, TextOf, Splice, Edited, NoDup, EndsTrimmed, ValidRange, LineSet;
    RangeFacts(t, from, to);
    SomeText(t, from, to, ins);
    ExchangeNew(d, from.line + 1, to.line - from.line - 1, ins[1..|ins| - 1], true);
  }

  lemma SomeText(t: Text, from: Pos, to: Pos, ins: Text)
    requires ValidRange(t, from, to) && |ins| > 1 && from.line < to.line
    ensures Splice(EndsTrimmed(t, from, to, ins[0], ins[|ins| - 1]), from.line + 1, to.line - from.line - 1, ins[1..|ins| - 1]) == Edited(t, from, to, ins)
  {
    var f, l, mid := t[from.line], t[to.line], ins[1..|ins| - 1];
    var x, y := f[..from.ch] + ins[0], ins[|ins| - 1] + l[to.ch..];
    assert x + f[|f|..] == x && l[..0] + y == y && l[..0] + ins[|ins| - 1] + l[to.ch..] == l[..0] + y;
    PutBetween(t, from.line, to.line, x, mid, y);
  }

  lemma PutBetween<T>(t: seq<T>, i: nat, j: nat, x: T, mid: seq<T>, y: T)
    requires i < j < |t|
    ensures Splice(t[i := x][j := y], i + 1, j - i - 1, mid) == Splice(t, i, j - i + 1, [x] + mid + [y])
  {
  }

  lemma NothingTaken(d: Doc, at: nat)
    requires at <= |d.Content()|
    ensures Kept(d.Content(), d.Content(), at, 0, 0) && forall l <- d.Content() :: l in d.Members()
  {
  }

  /** Which lines an edit keeps. Of whole lines that become whole lines, none but those around them; else
      the first one, and the last one too if several become several. */
  ghost predicate LinesKept(was: seq<Line>, now: seq<Line>, from: Pos, to: Pos, ins: Text)
    requires ins != []
  {
    var n := to.line - from.line;
    if from.ch == 0 && to.ch == 0 && ins[|ins| - 1] == "" then Kept(was, now, from.line, n, |ins| - 1)
    else if n == 0 || |ins| == 1 then Kept(was, now, from.line + 1, n, |ins| - 1)
    else Kept(was, now, from.line + 1, n - 1, |ins| - 2)
  }

  /** Replaces the text between two positions: the lines are rearranged in one of five ways. */
  method UpdateLinesNoUndo(d: Doc, from: Pos, to: Pos, ins: Text)
    requires d.Valid() && ValidRange(TextIn(d), from, to) && ins != []
    modifies d`m, d`gone, d.Chunks(), d.Members()`text, d.Members()`parent
    ensures d.Valid() && fresh(d.Chunks() - old(d.Chunks())) && fresh(d.Members() - old(d.Members()))
    ensures LinesKept(old(d.Content()), d.Content(), from, to, ins) && forall l <- old(d.Content()) :: l.height == old(l.height)
    ensures forall l <- d.Content() :: l !in old(d.Members()) ==> l.height == 1
    ensures d.gone == old(d.gone) + (old(d.Members()) - d.Members())
    ensures TextIn(d) == Edited(old(TextIn(d)), from, to, ins)
  {
    hide Lines.Doc, TextOf, Edited, Splice, Kept, NoDup, ValidRange, LinesKept;
    RangeFacts(TextIn(d), from, to);
    ghost var was := d.Content();
    var firstLine, lastLine := Ends(d, from.line, to.line);
    if from.ch == 0 && to.ch == 0 && ins[|ins| - 1] == "" {
      ReplaceLines(d, from, to, ins);
    } else if firstLine == lastLine {
      UpdateOneLine(d, firstLine, from, to, ins);
    } else {
      UpdateSeveral(d, firstLine, lastLine, from, to, ins);
    }
    KeptIs(was, d.Content(), from, to, ins);
  }

  lemma KeptIs(was: seq<Line>, now: seq<Line>, from: Pos, to: Pos, ins: Text)
    requires ins != []
    requires var n := to.line - from.line;
      if from.ch == 0 && to.ch == 0 && ins[|ins| - 1] == "" then Kept(was, now, from.line, n, |ins| - 1)
      else if n == 0 then Kept(was, now, from.line + 1, 0, |ins| - 1)
      else Kept(was, now, from.line + 1, n - (if |ins| == 1 then 0 else 1), if |ins| == 1 then 0 else |ins| - 2)
    ensures LinesKept(was, now, from, to, ins)
  {
  }

  /** The two ways within one line. */
  method UpdateOneLine(d: Doc, line: Line, from: Pos, to: Pos, ins: Text)
    requires d.Valid() && ValidRange(TextIn(d), from, to) && ins != [] && from.line == to.line && line == d.Content()[from.line]
    modifies d`m, d`gone, d.Chunks(), d.Members()`text, d.Members()`parent
    ensures d.Valid() && fresh(d.Chunks() - old(d.Chunks())) && fresh(d.Members() - old(d.Members()))
    ensures Kept(old(d.Content()), d.Content(), from.line + 1, 0, |ins| - 1)
    ensures forall l <- d.Content() :: l !in old(d.Members()) ==> l.height == 1
    ensures d.gone == old(d.gone) + (old(d.Members()) - d.Members())
    ensures TextIn(d) == Edited(old(TextIn(d)), from, to, ins)
  {
    hide Lines.Doc, TextOf, Edited, Splice, Kept, NoDup, ValidRange;
    RangeFacts(TextIn(d), from, to);
    NothingTaken(d, from.line + 1);
    IsMember(d, from.line);
    if |ins| == 1 {
      ReplaceInLine(d, line, from, to, ins);
    } else {
      SplitLine(d, line, from, to, ins);
    }
  }

  /** The two ways from several lines. */
  method UpdateSeveral(d: Doc, firstLine: Line, lastLine: Line, from: Pos, to: Pos, ins: Text)
    requires d.Valid() && ValidRange(TextIn(d), from, to) && ins != [] && from.line < to.line
    requires firstLine == d.Content()[from.line] && lastLine == d.Content()[to.line]
    modifies d`m, d`gone, d.Chunks(), d.Members()`text, d.Members()`parent
    ensures d.Valid() && fresh(d.Chunks() - old(d.Chunks())) && fresh(d.Members() - old(d.Members()))
    ensures Kept(old(d.Content()), d.Content(), from.line + 1, to.line - from.line - (if |ins| == 1 then 0 else 1), if |ins| == 1 then 0 else |ins| - 2)
    ensures forall l <- d.Content() :: l !in old(d.Members()) ==> l.height == 1
    ensures d.gone == old(d.gone) + (old(d.Members()) - d.Members())
    ensures TextIn(d) == Edited(old(TextIn(d)), from, to, ins)
  {
    hide Lines.Doc, TextOf, Edited, Splice, Kept, NoDup, ValidRange;
    if |ins| == 1 {
      JoinLines(d, firstLine, lastLine, from, to, ins);
    } else {
      ReplaceSome(d, firstLine, lastLine, from, to, ins);
    }
  }

  method Ends(d: Doc, i: nat, j: nat) returns (firstLine: Line, lastLine: Line)
    requires d.Valid() && i <= j < |d.Content()|
    ensures d.Valid() && TextIn(d) == old(TextIn(d)) && firstLine == d.Content()[i] && lastLine == d.Content()[j]
    ensures firstLine == lastLine <==> i == j
  {
    LinesApart(d);
    hide Lines.Doc;
    firstLine := d.GetLine(i);
    lastLine := d.GetLine(j);
  }

  // ---------------------------------------------------------------- reading the text

  /** The texts of the lines `from..to`, as many as there are. */
  method TextsOf(d: Doc, from: nat, to: int) returns (t: Text)
    requires d.Valid()
    ensures d.Valid() && TextIn(d) == old(TextIn(d)) && t == Part(TextIn(d), from, to - from)
  {
    hide Lines.Doc, Part;
    var ls := Iter(d.root, from, to, d.m);
    t := [];
    for i := 0 to |ls|
      invariant d.Valid() && TextIn(d) == old(TextIn(d)) && t == TextOf(ls[..i])
    {
      TextAppend(ls[..i], [ls[i]]);
      TextOne(ls[i]);
      assert ls[..i + 1] == ls[..i] + [ls[i]];
      t := t + [ls[i].text];
    }
    assert ls[..|ls|] == ls;
    TextPart(d.Content(), from, to - from);
  }

  /** The lines of a range. */
  lemma RangeFacts(t: Text, from: Pos, to: Pos)
    requires ValidRange(t, from, to)
    ensures 0 <= from.line <= to.line < |t| && 0 <= from.ch <= |t[from.line]| && 0 <= to.ch <= |t[to.line]|
    ensures Part(t, from.line, to.line + 1 - from.line) == t[from.line..to.line + 1]
  {
  }

  lemma TextPart(ls: seq<Line>, at: nat, n: int)
    ensures TextOf(Part(ls, at, n)) == Part(TextOf(ls), at, n)
  {
    if at < |ls| && n > 0 {
      TextSlices(ls, at, if at + n <= |ls| then at + n else at);
    }
  }

  method GetRange(d: Doc, from: Pos, to: Pos) returns (r: string)
    requires d.Valid() && ValidRange(TextIn(d), from, to)
    ensures d.Valid() && TextIn(d) == old(TextIn(d)) && r == Range(TextIn(d), from, to)
  {
    hide Lines.Doc, Join, TextOf;
    var l1, l2 := from.line, to.line;
    var first, last := Ends(d, l1, l2);
    TextAt(d.Content(), l1);
    TextAt(d.Content(), l2);
    if l1 == l2 {
      r := first.text[from.ch..to.ch];
    } else {
      var between := TextsOf(d, l1 + 1, l2);
      assert between == TextIn(d)[l1 + 1..l2];
      TextAt(d.Content(), l1);
      TextAt(d.Content(), l2);
      assert first.text == TextIn(d)[l1] && last.text == TextIn(d)[l2];
      r := Join([first.text[from.ch..]] + between + [last.text[..to.ch]]);
    }
  }

  /** The position nearest to any pair of numbers. Without a column, it is the end of the line. */
  function ClipPos(t: Text, line: int, ch: Option<int>): (r: Pos)
    requires t != []
    ensures ValidPos(t, r)
    ensures ch.Some? && ValidPos(t, Pos(line, ch.value)) ==> r == Pos(line, ch.value)
    ensures ch.None? && 0 <= line < |t| ==> r == Pos(line, |t[line]|)
    ensures forall q :: ValidPos(t, q) && InOrder(q, r) && q != r ==> q.line < line || (q.line == line && (ch.None? || q.ch < ch.value))
    ensures forall q :: ValidPos(t, q) && InOrder(r, q) && q != r ==> line < q.line || (line == q.line && ch.Some? && ch.value < q.ch)
  {
    if line < 0 then Pos(0, 0)
    else if line >= |t| then Pos(|t| - 1, |t[|t| - 1]|)
    else if ch.None? || ch.value > |t[line]| then Pos(line, |t[line]|)
    else if ch.value < 0 then Pos(line, 0)
    else Pos(line, ch.value)
  }

  /** The position before which there are `off` characters; the nearest one, if there is none. */
  method PosFromIndex(d: Doc, off: int) returns (p: Pos)
    requires d.Valid() && d.Content() != []
    ensures d.Valid() && TextIn(d) == old(TextIn(d)) && IsPosAt(TextIn(d), off, p)
  {
    hide Lines.Doc;
    var size := d.Size();
    var t := TextsOf(d, 0, size);
    var lineNo, rest := 0, off;
    var ch: Option<int> := None;
    while lineNo < |t|
      invariant d.Valid() && TextIn(d) == old(TextIn(d)) == t && lineNo <= |t| && rest == off - Lengths(t[..lineNo]) && (lineNo > 0 ==> rest >= 0)
    {
      var sz := |t[lineNo]| + 1;
      if sz > rest {
        ch := Some(rest);
        break;
      }
      rest := rest - sz;
      LengthsSnoc(t, lineNo);
      lineNo := lineNo + 1;
    }
    assert t[..|t|] == t;
    LastLength(t, lineNo);
    p := ClipPos(t, lineNo, ch);
  }

  ghost predicate IsPosAt(t: Text, off: int, p: Pos)
  {
    && ValidPos(t, p)
    && if off < 0 then p == Pos(0, 0) else if off > Lengths(t) - 1 then p == Pos(|t| - 1, |t[|t| - 1]|) else Index(t, p) == off
  }

  lemma LastLength(t: Text, i: nat)
    requires i <= |t|
    ensures Lengths(t[..i]) <= Lengths(t) && (i < |t| ==> Lengths(t[..i]) + |t[i]| + 1 <= Lengths(t))
  {
    assert t == t[..i] + t[i..];
    LengthsAppend(t[..i], t[i..]);
  }

  lemma LengthsSnoc(t: Text, i: nat)
    requires i < |t|
    ensures Lengths(t[..i + 1]) == Lengths(t[..i]) + |t[i]| + 1
  {
    assert t[..i + 1] == t[..i] + [t[i]];
    LengthsAppend(t[..i], [t[i]]);
  }

  /** How many characters come before a position. */
  method IndexFromPos(d: Doc, p: Pos) returns (i: int)
    requires d.Valid()
    ensures d.Valid() && TextIn(d) == old(TextIn(d))
    ensures i == if p.line < 0 || p.ch < 0 then 0 else p.ch + Lengths(Part(TextIn(d), 0, p.line))
    ensures ValidPos(TextIn(d), p) ==> i == Index(TextIn(d), p)
  {
    hide Lines.Doc;
    if p.line < 0 || p.ch < 0 {
      return 0;
    }
    i := p.ch;
    var t := TextsOf(d, 0, p.line);
    for k := 0 to |t|
      invariant d.Valid() && TextIn(d) == old(TextIn(d)) && i == p.ch + Lengths(t[..k])
    {
      LengthsSnoc(t, k);
      i := i + |t[k]| + 1;
    }
    assert t[..|t|] == t;
  }

  /** From position to index and back, and from index to position and back. */
  lemma PosIndexInverse(t: Text, p: Pos, q: Pos, off: int)
    requires ValidPos(t, p)
    ensures 0 <= Index(t, p) <= |Join(t)|
    ensures IsPosAt(t, Index(t, p), q) <==> q == p
    ensures 0 <= off <= |Join(t)| && IsPosAt(t, off, q) ==> Index(t, q) == off
  {
    CutAt(t, p);
    JoinLength(t);
    if IsPosAt(t, Index(t, p), q) {
      OnePosAtIndex(t, p, q);
    }
  }

  lemma {:induction false} JoinLength(t: Text)
    requires t != []
    ensures |Join(t)| == Lengths(t) - 1
  {
    if |t| > 1 {
      JoinLength(t[1..]);
    }
  }
}
