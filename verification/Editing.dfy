/** The editor: a document and its undo history, under edits, undos, redos and brackets. */
module Editing {
  import opened Rope
  import Lines
  import opened Document
  import opened Undo
  import opened Texts
  import opened Edits
  import Display

  /** Reverts the changes of a set, the last one first, and collects the changes that take them back. */
  method RevertSet(d: Doc, top: ChangeSet) returns (out: ChangeSet)
    requires d.Valid() && FitsAll(TextIn(d), top)
    modifies d`m, d`gone, d.Chunks(), d.Members()
    ensures d.Valid() && fresh(d.Chunks() - old(d.Chunks())) && fresh(d.Members() - old(d.Members()))
    ensures TextIn(d) == RevertAll(old(TextIn(d)), top) && out == InverseAll(old(TextIn(d)), top)
  {
    hide Lines.Doc, TextOf, Revert, Inverse, Fits, FitsAll, RevertAll, InverseAll;
    ghost var t := TextIn(d);
    out := [];
    var i := |top|;
    assert top[..i] == top;
    RevertNone(TextIn(d), top);
    while i > 0
      invariant 0 <= i <= |top| && d.Valid() && fresh(d.Chunks() - old(d.Chunks())) && fresh(d.Members() - old(d.Members()))
      invariant FitsAll(TextIn(d), top[..i]) && RevertAll(TextIn(d), top[..i]) == RevertAll(t, top)
      invariant out + InverseAll(TextIn(d), top[..i]) == InverseAll(t, top)
    {
      i := i - 1;
      ghost var u, was := TextIn(d), out;
      RevertStep(u, top, i);
      var c := RevertOne(d, top[i]);
      out := out + [c];
      assert TextIn(d) == Revert(u, top[i]) && c == Inverse(u, top[i]);
      assert was + ([c] + InverseAll(TextIn(d), top[..i])) == out + InverseAll(TextIn(d), top[..i]);
    }
    RevertNone(TextIn(d), top);
  }

  lemma RevertStep(t: Text, top: ChangeSet, i: nat)
    requires i < |top| && FitsAll(t, top[..i + 1])
    ensures Fits(t, top[i]) && FitsAll(Revert(t, top[i]), top[..i])
    ensures RevertAll(t, top[..i + 1]) == RevertAll(Revert(t, top[i]), top[..i])
    ensures InverseAll(t, top[..i + 1]) == [Inverse(t, top[i])] + InverseAll(Revert(t, top[i]), top[..i])
  {
    assert top[..i + 1][..i] == top[..i];
  }

  lemma RevertNone(t: Text, top: ChangeSet)
    ensures FitsAll(t, top[..0]) && RevertAll(t, top[..0]) == t && InverseAll(t, top[..0]) == []
  {
  }

  /** Reverts one change: a replacement of whole lines. */
  method RevertOne(d: Doc, change: Change) returns (c: Change)
    requires d.Valid() && Fits(TextIn(d), change)
    modifies d`m, d`gone, d.Chunks(), d.Members()
    ensures d.Valid() && fresh(d.Chunks() - old(d.Chunks())) && fresh(d.Members() - old(d.Members()))
    ensures TextIn(d) == Revert(old(TextIn(d)), change) && c == Inverse(old(TextIn(d)), change)
  {
    hide Lines.Doc, TextOf, Edited, Revert, Inverse, Fits, Lines.Part, ValidRange, NoDup;
    ghost var t := TextIn(d);
    RevertIsEdit(t, change);
    var end := change.start + change.added;
    var replaced := TextsOf(d, change.start, end);
    c := Change(change.start, |change.was|, replaced);
    UpdateLinesNoUndo(d, Pos(change.start, 0), Pos(end - 1, |replaced[|replaced| - 1]|), change.was);
    assert TextIn(d) == Revert(t, change);
  }

  lemma RevertIsEdit(t: Text, c: Change)
    requires Fits(t, c)
    ensures c.was != [] && Lines.Part(t, c.start, c.added) != [] && Inverse(t, c) == Change(c.start, |c.was|, Lines.Part(t, c.start, c.added))
    ensures var (from, to) := (Pos(c.start, 0), Pos(c.start + c.added - 1, |Last(Lines.Part(t, c.start, c.added))|));
      ValidRange(t, from, to) && Edited(t, from, to, c.was) == Revert(t, c)
  {
    var l := t[c.start + c.added - 1];
    assert t[c.start][..0] == "" && l[|l|..] == "";
    var g := Glued("", c.was, "");
    assert forall k :: 0 <= k < |g| ==> g[k] == c.was[k];
  }

  /** The lines that replace those from `from` to `to`. */
  function GluedAt(t: Text, from: Pos, to: Pos, ins: Text): (g: Text)
    requires ValidRange(t, from, to) && ins != []
    ensures |g| == |ins|
  {
    Glued(t[from.line][..from.ch], ins, t[to.line][to.ch..])
  }

  /** As strings: `u` is `t` with `ins` in place of what was between the positions. */
  predicate IsSpliced(t: Text, u: Text, from: Pos, to: Pos, ins: Text)
    requires ValidRange(t, from, to)
  {
    && 0 <= Index(t, from) <= Index(t, to) <= |Join(t)|
    && Join(u) == Join(t)[..Index(t, from)] + Join(ins) + Join(t)[Index(t, to)..]
  }

  lemma EditIsOne(t: Text, from: Pos, to: Pos, ins: Text)
    requires ValidRange(t, from, to) && ins != []
    ensures IsSpliced(t, Edited(t, from, to, ins), from, to, ins)
    ensures Edited(t, from, to, ins) == Splice(t, from.line, to.line - from.line + 1, GluedAt(t, from, to, ins))
  {
    EditIsSplice(t, from, to, ins);
  }

  /** The change record that an edit leaves for the display: the lines `from.line..to.line + 1` became others. */
  lemma EditIsChange(t: Text, from: Pos, to: Pos, ins: Text)
    requires ValidRange(t, from, to) && ins != []
    ensures var c := Display.LineChange(from.line, to.line + 1, |ins| - (to.line - from.line) - 1);
      Display.CanChange(t, c, GluedAt(t, from, to, ins)) && Edited(t, from, to, ins) == Display.Changed(t, c, GluedAt(t, from, to, ins))
  {
    EditIsOne(t, from, to, ins);
  }

  /** A replacement of the text between two positions. */
  datatype Edit = Edit(from: Pos, to: Pos, ins: Text)

  predicate CanEdit(t: Text, edits: seq<Edit>)
    decreases |edits|
  {
    edits != [] ==>
      && ValidRange(t, edits[0].from, edits[0].to) && edits[0].ins != []
      && CanEdit(Edited(t, edits[0].from, edits[0].to, edits[0].ins), edits[1..])
  }

  function AfterEdits(t: Text, edits: seq<Edit>): Text
    requires CanEdit(t, edits)
    decreases |edits|
  {
    if edits == [] then t else AfterEdits(Edited(t, edits[0].from, edits[0].to, edits[0].ins), edits[1..])
  }

  /** The change records that the edits leave. */
  function Records(t: Text, edits: seq<Edit>): (cs: seq<Display.LineChange>)
    requires CanEdit(t, edits)
    ensures |cs| == |edits|
    decreases |edits|
  {
    if edits == [] then []
    else
      var e := edits[0];
      [Display.LineChange(e.from.line, e.to.line + 1, |e.ins| - (e.to.line - e.from.line) - 1)] + Records(Edited(t, e.from, e.to, e.ins), edits[1..])
  }

  /** The lines that the edits put in. */
  function PutIn(t: Text, edits: seq<Edit>): (ins: seq<Text>)
    requires CanEdit(t, edits)
    ensures |ins| == |edits|
    decreases |edits|
  {
    if edits == [] then []
    else
      var e := edits[0];
      [GluedAt(t, e.from, e.to, e.ins)] + PutIn(Edited(t, e.from, e.to, e.ins), edits[1..])
  }

  /** The records of any edits, one after the other, lead from the lines before them to those after
      them, which is what the display needs to know of them. */
  lemma {:induction false} EditsAreChanges(t: Text, edits: seq<Edit>)
    requires CanEdit(t, edits)
    ensures Display.Leads(t, Records(t, edits), PutIn(t, edits), AfterEdits(t, edits))
    decreases |edits|
  {
    hide Edited, GluedAt;
    if edits == [] {
    } else {
      var e := edits[0];
      var (u, cs, ins) := (Edited(t, e.from, e.to, e.ins), Records(t, edits), PutIn(t, edits));
      assert cs[1..] == Records(u, edits[1..]) && ins[1..] == PutIn(u, edits[1..]);
      EditIsChange(t, e.from, e.to, e.ins);
      EditsAreChanges(Edited(t, e.from, e.to, e.ins), edits[1..]);
    }
  }

  class Editor {
    const doc: Doc
    const history: History
    const undoDepth: nat
    /** Ghost: the text, the history, and the texts they lead back to. */
    ghost var session: Session

    ghost predicate Valid()
      reads this, history, doc, doc.m.Keys, doc.gone, (set c <- doc.m.Keys, l <- doc.m[c].lines :: l), (set l <- doc.Content())
    {
      && doc.Valid() && session.text == TextIn(doc)
      && session.hist == history.View() && Sound(session)
    }

    constructor (undoDepth: nat)
      ensures Valid() && this.undoDepth == undoDepth
      ensures session == Session([""], Hist([], [], 0, 0, false), [], [])
    {
      this.undoDepth := undoDepth;
      var d := new Doc();
      doc := d;
      history := new History();
      session := Session([""], Hist([], [], 0, 0, false), [], []);
      new;
      assert TextIn(doc) == [""];
    }

    /** The history changes; the document does not. */
    method Record(start: nat, added: nat, was: Text, now: int)
      requires doc.Valid()
      modifies history
      ensures history.View() == Recorded(old(history.View()), Change(start, added, was), now).(done := Newest(Recorded(old(history.View()), Change(start, added, was), now).done, undoDepth))
      ensures doc.Valid() && TextIn(doc) == old(TextIn(doc))
    {
      hide TextOf, Recorded;
      ghost var ls := doc.Content();
      history.AddChange(start, added, was, now);
      history.Forget(undoDepth);
      assert TextOf(ls) == old(TextOf(ls));
      forall c | c in doc.m
        ensures LinesOk(doc.m, c)
      {
        assert old(LinesOk(doc.m, c));
      }
    }

    method SetHistory(done: seq<ChangeSet>, undone: seq<ChangeSet>)
      requires doc.Valid()
      modifies history`done, history`undone
      ensures history.View() == old(history.View()).(done := done, undone := undone)
      ensures doc.Valid() && TextIn(doc) == old(TextIn(doc))
    {
      hide TextOf;
      ghost var ls := doc.Content();
      history.done, history.undone := done, undone;
      assert TextOf(ls) == old(TextOf(ls));
      forall c | c in doc.m
        ensures LinesOk(doc.m, c)
      {
        assert old(LinesOk(doc.m, c));
      }
    }

    /** The user replaces the text between two positions at time `now`. */
    method UpdateLines(from: Pos, to: Pos, newText: Text, now: int)
      requires Valid() && ValidRange(session.text, from, to) && newText != []
      modifies this`session, history, doc`m, doc`gone, doc.Chunks(), doc.Members()
      ensures Valid() && session == DoEdit(old(session), from.line, to.line - from.line + 1, GluedAt(old(session).text, from, to, newText), now, undoDepth)
      ensures session.text == Edited(old(session).text, from, to, newText)
      ensures IsSpliced(old(session).text, session.text, from, to, newText)
      ensures LinesKept(old(doc.Content()), doc.Content(), from, to, newText) && forall l <- old(doc.Content()) :: l.height == old(l.height)
      ensures doc.gone == old(doc.gone) + (old(doc.Members()) - doc.Members())
    {
      hide Lines.Doc, TextOf, Sound, Recorded, Opens, Newest, Splice, LineSet, Glued, IsSpliced, LinesKept;
      ghost var t, glued := session.text, GluedAt(session.text, from, to, newText);
      EditIsOne(t, from, to, newText);
      EditKeeps(session, from.line, to.line - from.line + 1, glued, now, undoDepth);
      ghost var next := DoEdit(session, from.line, to.line - from.line + 1, glued, now, undoDepth);
      UpdateBoth(from, to, newText, now);
      session := next;
    }

    /** Records the edit, and makes it. */
    method UpdateBoth(from: Pos, to: Pos, newText: Text, now: int)
      requires doc.Valid() && ValidRange(TextIn(doc), from, to) && newText != []
      modifies history, doc`m, doc`gone, doc.Chunks(), doc.Members()
      ensures doc.Valid() && TextIn(doc) == Edited(old(TextIn(doc)), from, to, newText)
      ensures LinesKept(old(doc.Content()), doc.Content(), from, to, newText) && forall l <- old(doc.Content()) :: l.height == old(l.height)
      ensures doc.gone == old(doc.gone) + (old(doc.Members()) - doc.Members())
      ensures var c := Change(from.line, |newText|, old(TextIn(doc))[from.line..to.line + 1]);
        history.View() == Recorded(old(history.View()), c, now).(done := Newest(Recorded(old(history.View()), c, now).done, undoDepth))
    {
      hide Lines.Doc, TextOf, Recorded, Newest, Splice, LineSet, Glued, Edited, ValidRange, Lines.Part, NoDup, LinesKept;
      ghost var t := TextIn(doc);
      RangeFacts(t, from, to);
      var replaced := TextsOf(doc, from.line, to.line + 1);
      Record(from.line, |newText|, replaced, now);
      assert doc.Valid() && TextIn(doc) == t;
      UpdateLinesNoUndo(doc, from, to, newText);
      assert TextIn(doc) == Edited(t, from, to, newText);
    }

    method StartCompound()
      requires Valid()
      modifies this`session, history`compound, history`closed
      ensures Valid() && session == Next(old(session), Step.StartCompound, undoDepth)
    {
      hide TextOf;
      ghost var ls := doc.Content();
      history.StartCompound();
      session := Next(session, Step.StartCompound, undoDepth);
      assert TextOf(ls) == old(TextOf(ls));
      forall c | c in doc.m
        ensures LinesOk(doc.m, c)
      {
        assert old(LinesOk(doc.m, c));
      }
    }

    method EndCompound()
      requires Valid()
      modifies this`session, history`compound, history`closed
      ensures Valid() && session == Next(old(session), Step.EndCompound, undoDepth)
    {
      hide TextOf;
      ghost var ls := doc.Content();
      history.EndCompound();
      session := Next(session, Step.EndCompound, undoDepth);
      assert TextOf(ls) == old(TextOf(ls));
      forall c | c in doc.m
        ensures LinesOk(doc.m, c)
      {
        assert old(LinesOk(doc.m, c));
      }
    }

    method Undo()
      requires Valid()
      modifies this`session, history, doc`m, doc`gone, doc.Chunks(), doc.Members()
      ensures Valid() && session == DoUndo(old(session))
      ensures old(session).hist.done != [] ==> old(session).past != [] && session.text == Last(old(session).past)
    {
      hide Lines.Doc, TextOf, FitsAll, RevertAll, InverseAll, Sound, Init, Last, LineSet, TextIn;
      if |history.done| == 0 {
        return;
      }
      UndoKeeps(session);
      var top := Last(history.done);
      SetHistory(Init(history.done), history.undone);
      var out := RevertSet(doc, top);
      SetHistory(history.done, history.undone + [out]);
      session := DoUndo(session);
    }

    method Redo()
      requires Valid()
      modifies this`session, history, doc`m, doc`gone, doc.Chunks(), doc.Members()
      ensures Valid() && session == DoRedo(old(session))
    {
      hide Lines.Doc, TextOf, FitsAll, RevertAll, InverseAll, Sound, Init, Last, LineSet, TextIn;
      if |history.undone| == 0 {
        return;
      }
      RedoKeeps(session);
      var top := Last(history.undone);
      SetHistory(history.done, Init(history.undone));
      var out := RevertSet(doc, top);
      SetHistory(history.done + [out], history.undone);
      session := DoRedo(session);
    }
  }
}
