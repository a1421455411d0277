/** The undo history of the editor: a stack of sets of changes, each change the inverse of an
    edit of whole lines, where edits made close together are merged into one change. */
module Undo {
  import opened Wrappers

  type Text = seq<string>

  /** Replace `added` lines from `start` by `was`: the inverse of an edit. */
  datatype Change = Change(start: nat, added: nat, was: Text)

  type ChangeSet = seq<Change>

  function Splice<T>(s: seq<T>, at: nat, n: nat, ins: seq<T>): (r: seq<T>)
    requires at + n <= |s|
    ensures |r| == |s| - n + |ins|
  {
    s[..at] + ins + s[at + n..]
  }

  predicate Fits(t: Text, c: Change)
  {
    c.start + c.added <= |t| && c.added >= 1 && |c.was| >= 1
  }

  function Revert(t: Text, c: Change): Text
    requires Fits(t, c)
  {
    Splice(t, c.start, c.added, c.was)
  }

  /** The change that takes a revert back. */
  function Inverse(t: Text, c: Change): Change
    requires Fits(t, c)
  {
    Change(c.start, |c.was|, t[c.start..c.start + c.added])
  }

  /** The changes of a set can be undone one after the other, the last one first. */
  predicate FitsAll(t: Text, s: ChangeSet)
    decreases |s|
  {
    s != [] ==> Fits(t, s[|s| - 1]) && FitsAll(Revert(t, s[|s| - 1]), s[..|s| - 1])
  }

  function RevertAll(t: Text, s: ChangeSet): Text
    requires FitsAll(t, s)
    decreases |s|
  {
    if s == [] then t else RevertAll(Revert(t, s[|s| - 1]), s[..|s| - 1])
  }

  function InverseAll(t: Text, s: ChangeSet): ChangeSet
    requires FitsAll(t, s)
    decreases |s|
  {
    if s == [] then [] else [Inverse(t, s[|s| - 1])] + InverseAll(Revert(t, s[|s| - 1]), s[..|s| - 1])
  }

  lemma InverseReverts(t: Text, c: Change)
    requires Fits(t, c)
    ensures var (u, d) := (Revert(t, c), Inverse(t, c)); Fits(u, d) && Revert(u, d) == t && Inverse(u, d) == c
  {
    var u := Revert(t, c);
    assert u[c.start..c.start + |c.was|] == c.was;
  }

  /** Undoing a set with a new first change: the rest goes first. */
  lemma {:induction false} RevertCons(t: Text, c: Change, s: ChangeSet)
    requires FitsAll(t, s) && Fits(RevertAll(t, s), c)
    ensures FitsAll(t, [c] + s) && RevertAll(t, [c] + s) == Revert(RevertAll(t, s), c)
    ensures InverseAll(t, [c] + s) == InverseAll(t, s) + [Inverse(RevertAll(t, s), c)]
    decreases |s|
  {
    var cs := [c] + s;
    if s == [] {
      assert cs[..0] == [];
      assert InverseAll(t, cs) == [Inverse(t, c)] + InverseAll(Revert(t, c), cs[..0]);
    } else {
      var l := s[|s| - 1];
      assert cs[|cs| - 1] == l && cs[..|cs| - 1] == [c] + s[..|s| - 1];
      RevertCons(Revert(t, l), c, s[..|s| - 1]);
    }
  }

  /** Undoing a set and then its inverse set gives back the text, and the set. */
  lemma {:induction false} InverseAllReverts(t: Text, s: ChangeSet)
    requires FitsAll(t, s)
    ensures var (u, d) := (RevertAll(t, s), InverseAll(t, s));
      FitsAll(u, d) && RevertAll(u, d) == t && InverseAll(u, d) == s && |d| == |s|
    decreases |s|
  {
    if s == [] {
    } else {
      var l, init := s[|s| - 1], s[..|s| - 1];
      var t1 := Revert(t, l);
      InverseAllReverts(t1, init);
      InverseReverts(t, l);
      RevertCons(RevertAll(t, s), Inverse(t, l), InverseAll(t1, init));
      assert s == init + [l];
    }
  }

  // ---------------------------------------------------------------- merging two changes

  /** The lines of the second change meet those of the first. */
  predicate Touching(last: Change, c: Change)
  {
    last.start <= c.start + |c.was| && c.start <= last.start + last.added
  }

  /** One change for two that touch. */
  function Merged(last: Change, c: Change): Change
    requires Touching(last, c)
  {
    var startBefore := Max(0, last.start - c.start);
    var endAfter := Max(0, c.start + |c.was| - (last.start + last.added));
    Change(if startBefore > 0 then c.start else last.start,
           last.added + c.added - (|c.was| - startBefore - endAfter),
           c.was[..startBefore] + last.was + c.was[|c.was| - endAfter..])
  }

  /** Undoing the merged change is undoing the later change and then the earlier one. */
  lemma MergeIsSound(t: Text, last: Change, c: Change)
    requires Fits(t, c) && Fits(Revert(t, c), last) && Touching(last, c)
    ensures Fits(t, Merged(last, c)) && Revert(t, Merged(last, c)) == Revert(Revert(t, c), last)
  {
    var a, b := Revert(t, Merged(last, c)), Revert(Revert(t, c), last);
    assert |a| == |b| && forall k :: 0 <= k < |a| ==> a[k] == b[k];
  }

  // ---------------------------------------------------------------- the history

  datatype Hist = Hist(done: seq<ChangeSet>, undone: seq<ChangeSet>, time: int, compound: int, closed: bool)

  function Last<T>(s: seq<T>): T
    requires s != []
  {
    s[|s| - 1]
  }

  function Init<T>(s: seq<T>): (r: seq<T>)
    requires s != []
    ensures |r| == |s| - 1
  {
    s[..|s| - 1]
  }

  /** Inside a bracket that is not fresh, a change joins the top set as it is. */
  predicate Appends(h: Hist)
  {
    h.compound != 0 && h.done != [] && !h.closed
  }

  /** Otherwise it starts a new top, unless it comes soon enough and near enough to merge. */
  predicate Opens(h: Hist, c: Change, now: int)
  {
    !Appends(h) && (now - h.time > 400 || h.done == [] || Last(h.done) == [] || h.closed || !Touching(Last(Last(h.done)), c))
  }

  function Recorded(h: Hist, c: Change, now: int): Hist
  {
    if Appends(h) then
      h.(done := Init(h.done) + [Last(h.done) + [c]], undone := [], time := now)
    else if Opens(h, c, now) then
      h.(done := h.done + [[c]], undone := [], time := now, closed := false)
    else
      var top := Last(h.done);
      h.(done := Init(h.done) + [Init(top) + [Merged(Last(top), c)]], undone := [], time := now)
  }

  /** The newest `depth` elements. */
  function Newest<T>(s: seq<T>, depth: nat): (r: seq<T>)
    ensures |r| <= depth
  {
    if |s| > depth then s[|s| - depth..] else s
  }

  /** Nothing is forgotten but what is too much, and that is the oldest. */
  lemma NewestKeeps<T>(s: seq<T>, depth: nat, k: nat)
    requires k < |s| && k < depth
    ensures k < |Newest(s, depth)| && Newest(s, depth)[|Newest(s, depth)| - 1 - k] == s[|s| - 1 - k]
    ensures |s| <= depth ==> Newest(s, depth) == s
  {
  }

  /** The history object of the source. */
  class History {
    var done: seq<ChangeSet>
    var undone: seq<ChangeSet>
    var time: int
    var compound: int
    var closed: bool

    constructor ()
      ensures View() == Hist([], [], 0, 0, false)
    {
      done, undone, time, compound, closed := [], [], 0, 0, false;
    }

    function View(): Hist
      reads this
    {
      Hist(done, undone, time, compound, closed)
    }

    /** `now` is the clock. */
    method AddChange(start: nat, added: nat, was: Text, now: int)
      modifies this
      ensures View() == Recorded(old(View()), Change(start, added, was), now)
    {
      undone := [];
      var dtime := now - time;
      if compound != 0 && done != [] && !closed {
        done := Init(done) + [Last(done) + [Change(start, added, was)]];
      } else if dtime > 400 || done == [] || Last(done) == [] || closed
                || Last(Last(done)).start > start + |was| || Last(Last(done)).start + Last(Last(done)).added < start {
        done := done + [[Change(start, added, was)]];
        closed := false;
      } else {
        var last := MergeInto(Last(Last(done)), start, added, was);
        done := Init(done) + [Init(Last(done)) + [last]];
      }
      time := now;
    }

    /** The loops that put the uncovered lines around those of the last change. */
    method MergeInto(last: Change, start: nat, added: nat, was: Text) returns (r: Change)
      requires Touching(last, Change(start, added, was))
      ensures r == Merged(last, Change(start, added, was))
    {
      var startBefore := Max(0, last.start - start);
      var endAfter := Max(0, start + |was| - (last.start + last.added));
      var text := last.was;
      var i := startBefore;
      while i > 0
        invariant 0 <= i <= startBefore <= |was| && text == was[i..startBefore] + last.was
      {
        assert [was[i - 1]] + was[i..startBefore] == was[i - 1..startBefore];
        text := [was[i - 1]] + text;
        i := i - 1;
      }
      i := endAfter;
      while i > 0
        invariant 0 <= i <= endAfter <= |was| && text == was[..startBefore] + last.was + was[|was| - endAfter..|was| - i]
      {
        assert was[|was| - endAfter..|was| - i] + [was[|was| - i]] == was[|was| - endAfter..|was| - i + 1];
        text := text + [was[|was| - i]];
        i := i - 1;
      }
      assert was[|was| - endAfter..|was| - i] == was[|was| - endAfter..];
      r := Change(if startBefore > 0 then start else last.start, last.added + added - (|was| - startBefore - endAfter), text);
    }

    /** Forgets the oldest sets. */
    method Forget(depth: nat)
      modifies this`done
      ensures View() == old(View()).(done := Newest(old(done), depth))
    {
      while |done| > depth
        invariant |done| <= old(|done|) && done == old(done)[old(|done|) - |done|..]
        invariant |done| < old(|done|) ==> |done| >= depth
        decreases |done|
      {
        done := done[1..];
      }
    }

    method StartCompound()
      modifies `compound, `closed
      ensures View() == old(View()).(compound := old(compound) + 1, closed := old(closed) || old(compound) == 0)
    {
      if compound == 0 {
        closed := true;
      }
      compound := compound + 1;
    }

    method EndCompound()
      modifies `compound, `closed
      ensures View() == old(View()).(compound := old(compound) - 1, closed := old(closed) || old(compound) == 1)
    {
      compound := compound - 1;
      if compound == 0 {
        closed := true;
      }
    }
  }

  // ---------------------------------------------------------------- sessions

  /** A text with its history. `past` has, for each set that can be undone, the text from
      before its first edit; `future` has the same for the sets that can be redone. */
  datatype Session = Session(text: Text, hist: Hist, past: seq<Text>, future: seq<Text>)

  datatype Step =
    | Edit(start: nat, n: nat, ins: Text, now: int)
    | UndoLast
    | RedoLast
    | StartCompound
    | EndCompound

  /** Undoing set number `k` leads from text `k + 1` to text `k`. */
  predicate Linked(texts: seq<Text>, sets: seq<ChangeSet>)
  {
    |texts| == |sets| + 1 && forall k :: 0 <= k < |sets| ==> Undoes(texts[k + 1], sets[k], texts[k])
  }

  predicate Undoes(from: Text, top: ChangeSet, to: Text)
  {
    top != [] && FitsAll(from, top) && RevertAll(from, top) == to
  }

  predicate Sound(s: Session)
  {
    Linked(s.past + [s.text], s.hist.done) && Linked(s.future + [s.text], s.hist.undone) && s.text != []
  }

  predicate Enabled(s: Session, step: Step)
  {
    step.Edit? ==> step.start + step.n <= |s.text| && step.n >= 1 && step.ins != []
  }

  /** Undo and redo are the same, with the two stacks exchanged. */
  function Mirror(s: Session): Session
  {
    Session(s.text, s.hist.(done := s.hist.undone, undone := s.hist.done), s.future, s.past)
  }

  function DoUndo(s: Session): Session
    requires Sound(s)
  {
    if s.hist.done == [] then s
    else
      var top := Last(s.hist.done);
      assert Undoes((s.past + [s.text])[|s.past|], top, (s.past + [s.text])[|s.past| - 1]);
      Session(RevertAll(s.text, top), s.hist.(done := Init(s.hist.done), undone := s.hist.undone + [InverseAll(s.text, top)]),
              Init(s.past), s.future + [s.text])
  }

  function DoRedo(s: Session): Session
    requires Sound(s)
  {
    Mirror(DoUndo(Mirror(s)))
  }

  function DoEdit(s: Session, start: nat, n: nat, ins: Text, now: int, depth: nat): Session
    requires start + n <= |s.text|
  {
    var c := Change(start, |ins|, s.text[start..start + n]);
    var h := Recorded(s.hist, c, now);
    var past := if Opens(s.hist, c, now) then s.past + [s.text] else s.past;
    Session(Splice(s.text, start, n, ins), h.(done := Newest(h.done, depth)), Newest(past, depth), [])
  }

  function Next(s: Session, step: Step, depth: nat): Session
    requires Sound(s) && Enabled(s, step)
  {
    match step
    case Edit(start, n, ins, now) => DoEdit(s, start, n, ins, now, depth)
    case UndoLast => DoUndo(s)
    case RedoLast => DoRedo(s)
    case StartCompound => s.(hist := s.hist.(compound := s.hist.compound + 1, closed := s.hist.closed || s.hist.compound == 0))
    case EndCompound => s.(hist := s.hist.(compound := s.hist.compound - 1, closed := s.hist.closed || s.hist.compound == 1))
  }

  lemma LinkedLast(texts: seq<Text>, t: Text, sets: seq<ChangeSet>)
    requires Linked(texts + [t], sets) && sets != []
    ensures texts != [] && Undoes(t, Last(sets), Last(texts)) && Linked(texts, Init(sets))
  {
    var all := texts + [t];
    assert Undoes(all[|sets|], sets[|sets| - 1], all[|sets| - 1]);
    forall k | 0 <= k < |Init(sets)|
      ensures Undoes(texts[k + 1], Init(sets)[k], texts[k])
    {
      assert Undoes(all[k + 1], sets[k], all[k]);
    }
  }

  lemma LinkedSnoc(texts: seq<Text>, t: Text, sets: seq<ChangeSet>, top: ChangeSet)
    requires Linked(texts, sets) && Undoes(t, top, Last(texts))
    ensures Linked(texts + [t], sets + [top])
  {
    forall k | 0 <= k < |sets| + 1
      ensures Undoes((texts + [t])[k + 1], (sets + [top])[k], (texts + [t])[k])
    {
      assert k < |sets| ==> Undoes(texts[k + 1], sets[k], texts[k]);
    }
  }

  lemma LinkedNewest(texts: seq<Text>, t: Text, sets: seq<ChangeSet>, depth: nat)
    requires Linked(texts + [t], sets)
    ensures Linked(Newest(texts, depth) + [t], Newest(sets, depth))
  {
    var d := if |sets| > depth then |sets| - depth else 0;
    forall k | 0 <= k < |Newest(sets, depth)|
      ensures Undoes((Newest(texts, depth) + [t])[k + 1], Newest(sets, depth)[k], (Newest(texts, depth) + [t])[k])
    {
      assert Undoes((texts + [t])[k + d + 1], sets[k + d], (texts + [t])[k + d]);
    }
  }

  /** An undo leads to the text from before the set's first edit, and can be taken back. */
  lemma UndoKeeps(s: Session)
    requires Sound(s) && s.hist.done != []
    ensures Sound(DoUndo(s)) && s.past != [] && DoUndo(s).text == Last(s.past)
    ensures DoRedo(DoUndo(s)) == s && FitsAll(s.text, Last(s.hist.done))
  {
    var top := Last(s.hist.done);
    var u := DoUndo(s);
    LinkedLast(s.past, s.text, s.hist.done);
    InverseAllReverts(s.text, top);
    assert s.past == Init(s.past) + [u.text];
    LinkedSnoc(s.future + [s.text], u.text, s.hist.undone, InverseAll(s.text, top));
    assert s.past == Init(s.past) + [Last(s.past)];
    assert s.hist.done == Init(s.hist.done) + [top];
  }

  /** A redo leads to the text from before the undo, and can be taken back. */
  lemma RedoKeeps(s: Session)
    requires Sound(s) && s.hist.undone != []
    ensures Sound(DoRedo(s)) && s.future != [] && DoRedo(s).text == Last(s.future)
    ensures DoUndo(DoRedo(s)) == s && FitsAll(s.text, Last(s.hist.undone))
  {
    UndoKeeps(Mirror(s));
  }

  /** An edit is taken back by its change. */
  lemma EditReverts(t: Text, start: nat, n: nat, ins: Text)
    requires start + n <= |t| && n >= 1 && ins != []
    ensures var (u, c) := (Splice(t, start, n, ins), Change(start, |ins|, t[start..start + n])); Fits(u, c) && Revert(u, c) == t
  {
  }

  /** One more change at the end of a set is undone first. */
  lemma UndoesSnoc(u: Text, c: Change, top: ChangeSet)
    requires Fits(u, c) && FitsAll(Revert(u, c), top)
    ensures FitsAll(u, top + [c]) && RevertAll(u, top + [c]) == RevertAll(Revert(u, c), top)
  {
    assert (top + [c])[..|top|] == top;
  }

  /** An edit: whether it is recorded in a set of its own, joins the top set or merges into its
      last change, undoing leads back through the texts of the past. */
  lemma EditKeeps(s: Session, start: nat, n: nat, ins: Text, now: int, depth: nat)
    requires Sound(s) && start + n <= |s.text| && n >= 1 && ins != []
    ensures Sound(DoEdit(s, start, n, ins, now, depth))
  {
    var u, c := Splice(s.text, start, n, ins), Change(start, |ins|, s.text[start..start + n]);
    var h := Recorded(s.hist, c, now);
    EditReverts(s.text, start, n, ins);
    if Opens(s.hist, c, now) {
      UndoesSnoc(u, c, []);
      LinkedSnoc(s.past + [s.text], u, s.hist.done, [c]);
      LinkedNewest(s.past + [s.text], u, h.done, depth);
    } else {
      var top := Last(s.hist.done);
      LinkedLast(s.past, s.text, s.hist.done);
      var top' := Last(h.done);
      if Appends(s.hist) {
        UndoesSnoc(u, c, top);
      } else {
        UndoesMerged(u, c, top);
      }
      LinkedSnoc(s.past, u, Init(s.hist.done), top');
      LinkedNewest(s.past, u, h.done, depth);
    }
  }

  lemma UndoesMerged(u: Text, c: Change, top: ChangeSet)
    requires Fits(u, c) && top != [] && FitsAll(Revert(u, c), top) && Touching(Last(top), c)
    ensures var top' := Init(top) + [Merged(Last(top), c)]; FitsAll(u, top') && RevertAll(u, top') == RevertAll(Revert(u, c), top)
  {
    MergeIsSound(u, Last(top), c);
    UndoesSnoc(u, Merged(Last(top), c), Init(top));
  }

  // ---------------------------------------------------------------- when edits are undone together

  /** There is a set that no bracket has closed, and either a bracket is open, or no more than 400
      milliseconds have passed since the last edit, and the `n` lines from `start` touch those that the last
      change of that set has put in. */
  predicate Together(h: Hist, start: nat, n: nat, now: int)
  {
    && h.done != [] && Last(h.done) != [] && !h.closed
    && (h.compound != 0
        || (now - h.time <= 400 && Last(Last(h.done)).start <= start + n && start <= Last(Last(h.done)).start + Last(Last(h.done)).added))
  }

  lemma TopNotEmpty(s: Session)
    requires Sound(s) && s.hist.done != []
    ensures Last(s.hist.done) != []
  {
    LinkedLast(s.past, s.text, s.hist.done);
  }

  lemma TogetherIff(h: Hist, c: Change, now: int)
    requires h.done == [] || Last(h.done) != []
    ensures Opens(h, c, now) <==> !Together(h, c.start, |c.was|, now)
  {
  }

  lemma RecordedFacts(h: Hist, c: Change, now: int)
    requires h.done == [] || Last(h.done) != []
    ensures var r := Recorded(h, c, now);
      && r.time == now && r.compound == h.compound && r.done != [] && r.undone == []
      && (if Opens(h, c, now) then Last(r.done) == [c] && !r.closed else |r.done| == |h.done| && !h.closed && !r.closed)
  {
  }

  lemma NewestLast<T>(s: seq<T>, depth: nat)
    requires s != [] && depth > 0
    ensures Newest(s, depth) != [] && Last(Newest(s, depth)) == Last(s)
  {
  }

  /** An edit is undone together with the set before it exactly then; else alone. */
  lemma EditUndone(s: Session, start: nat, n: nat, ins: Text, now: int, depth: nat)
    requires Sound(s) && start + n <= |s.text| && n >= 1 && ins != [] && depth > 0
    ensures var (e, joins) := (DoEdit(s, start, n, ins, now, depth), Together(s.hist, start, n, now));
      && Sound(e) && e.hist.done != [] && e.hist.time == now && !e.hist.closed && e.hist.compound == s.hist.compound
      && DoUndo(e).text == (if joins then DoUndo(s).text else s.text)
      && (!joins ==> Last(e.hist.done) == [Change(start, |ins|, s.text[start..start + n])])
  {
    hide Sound, Opens, Recorded, Newest, Together, DoUndo, Last;
    var (e, c) := (DoEdit(s, start, n, ins, now, depth), Change(start, |ins|, s.text[start..start + n]));
    EditKeeps(s, start, n, ins, now, depth);
    LinkedSizes(s);
    if s.hist.done != [] {
      TopNotEmpty(s);
      UndoKeeps(s);
    }
    TogetherIff(s.hist, c, now);
    NotTogether(s.hist, start, n, now);
    RecordedFacts(s.hist, c, now);
    NewestLast(Recorded(s.hist, c, now).done, depth);
    var past := if Opens(s.hist, c, now) then s.past + [s.text] else s.past;
    NewestLast(past, depth);
    LastSnoc(s.past, s.text);
    UndoKeeps(e);
  }

  lemma NotTogether(h: Hist, start: nat, n: nat, now: int)
    ensures h.done == [] ==> !Together(h, start, n, now)
  {
  }

  lemma LastSnoc<T>(s: seq<T>, x: T)
    ensures Last(s + [x]) == x
  {
  }

  /** Two edits, the first of which comes after a pause, or after a bracket, or as the very first: the second is undone
      together with it if it comes within 400 milliseconds and touches its lines, and else alone. */
  lemma SecondEdit(s: Session, start: nat, n: nat, ins: Text, now: int, start': nat, n': nat, ins': Text, now': int, depth: nat)
    requires Sound(s) && start + n <= |s.text| && n >= 1 && ins != [] && depth > 0
    requires s.hist.compound == 0 && (s.hist.done == [] || s.hist.closed || now > s.hist.time + 400)
    requires start' + n' <= |s.text| - n + |ins| && n' >= 1 && ins' != []
    ensures var e := DoEdit(s, start, n, ins, now, depth);
      var f := DoEdit(e, start', n', ins', now', depth);
      && Sound(e) && Sound(f) && DoUndo(e).text == s.text
      && DoUndo(f).text == (if now' <= now + 400 && start <= start' + n' && start' <= start + |ins| then s.text else e.text)
  {
    EditUndone(s, start, n, ins, now, depth);
    var e := DoEdit(s, start, n, ins, now, depth);
    EditUndone(e, start', n', ins', now', depth);
  }

  lemma MirrorValid(s: Session)
    requires Sound(s)
    ensures Sound(Mirror(s)) && Mirror(Mirror(s)) == s
  {
  }

  /** Every step keeps the history true to the texts. */
  lemma NextKeeps(s: Session, step: Step, depth: nat)
    requires Sound(s) && Enabled(s, step)
    ensures Sound(Next(s, step, depth))
  {
    match step
    case Edit(start, n, ins, now) => EditKeeps(s, start, n, ins, now, depth);
    case UndoLast =>
      if s.hist.done != [] {
        UndoKeeps(s);
      }
    case RedoLast =>
      if s.hist.undone != [] {
        UndoKeeps(Mirror(s));
      }
    case StartCompound =>
    case EndCompound =>
  }

  // ---------------------------------------------------------------- whole runs

  predicate CanRun(s: Session, steps: seq<Step>, depth: nat)
    requires Sound(s)
    decreases |steps|
  {
    steps != [] ==>
      && Enabled(s, steps[0])
      && (NextKeeps(s, steps[0], depth); CanRun(Next(s, steps[0], depth), steps[1..], depth))
  }

  function Run(s: Session, steps: seq<Step>, depth: nat): (r: Session)
    requires Sound(s) && CanRun(s, steps, depth)
    ensures Sound(r)
    decreases |steps|
  {
    if steps == [] then s
    else
      NextKeeps(s, steps[0], depth);
      Run(Next(s, steps[0], depth), steps[1..], depth)
  }

  /** An editor in which nothing has been done. */
  function Untouched(): (s: Session)
    ensures Sound(s)
  {
    Session([""], Hist([], [], 0, 0, false), [], [])
  }

  /** The text before each step. */
  function TextsAlong(s: Session, steps: seq<Step>, depth: nat): (ts: seq<Text>)
    requires Sound(s) && CanRun(s, steps, depth)
    ensures |ts| == |steps|
    decreases |steps|
  {
    if steps == [] then []
    else
      NextKeeps(s, steps[0], depth);
      [s.text] + TextsAlong(Next(s, steps[0], depth), steps[1..], depth)
  }

  /** For each set that can be undone, and for each that can be redone, the number of the edit that
      began it. */
  datatype Begun = Begun(done: seq<nat>, undone: seq<nat>)

  /** Step number `k` is made: an edit may begin a set, an undo or a redo moves one over. */
  function NextBegun(s: Session, step: Step, depth: nat, b: Begun, k: nat): (r: Begun)
    requires Sound(s) && Enabled(s, step) && |b.done| == |s.hist.done| && |b.undone| == |s.hist.undone|
    ensures var n := Next(s, step, depth); |r.done| == |n.hist.done| && |r.undone| == |n.hist.undone|
    ensures forall x :: x in r.done || x in r.undone ==> x in b.done || x in b.undone || (x == k && step.Edit?)
  {
    match step
    case Edit(start, n, ins, now) =>
      Begun(Newest(if Opens(s.hist, Change(start, |ins|, s.text[start..start + n]), now) then b.done + [k] else b.done, depth), [])
    case UndoLast => if b.done == [] then b else Begun(Init(b.done), b.undone + [Last(b.done)])
    case RedoLast => if b.undone == [] then b else Begun(b.done + [Last(b.undone)], Init(b.undone))
    case _ => b
  }

  function BegunAfter(s: Session, steps: seq<Step>, depth: nat, b: Begun, k: nat): (r: Begun)
    requires Sound(s) && CanRun(s, steps, depth) && |b.done| == |s.hist.done| && |b.undone| == |s.hist.undone|
    ensures |r.done| == |Run(s, steps, depth).hist.done|
    decreases |steps|
  {
    if steps == [] then b
    else
      NextKeeps(s, steps[0], depth);
      BegunAfter(Next(s, steps[0], depth), steps[1..], depth, NextBegun(s, steps[0], depth, b, k), k + 1)
  }

  /** `log` has the text before each step so far: undoing a set leads to the text before the edit that
      began it, and redoing one begins there. */
  predicate Recalls(s: Session, b: Begun, log: seq<Text>)
  {
    && |b.done| == |s.past| && |b.undone| == |s.future|
    && (forall j :: 0 <= j < |b.done| ==> b.done[j] < |log| && log[b.done[j]] == s.past[j])
    && (forall j :: 0 <= j < |b.undone| ==> b.undone[j] < |log| && log[b.undone[j]] == (s.future + [s.text])[j + 1])
  }

  lemma EditRecalls(s: Session, e: Step, depth: nat, b: Begun, log: seq<Text>)
    requires Sound(s) && Enabled(s, e) && e.Edit? && Recalls(s, b, log)
    ensures Recalls(Next(s, e, depth), NextBegun(s, e, depth, b, |log|), log + [s.text])
  {
    hide Undoes, Recorded, Opens, Sound;
    LinkedSizes(s);
  }

  lemma UndoRecalls(s: Session, depth: nat, b: Begun, log: seq<Text>)
    requires Sound(s) && Recalls(s, b, log) && s.hist.done != []
    ensures Recalls(Next(s, UndoLast, depth), NextBegun(s, UndoLast, depth, b, |log|), log + [s.text])
  {
    hide Undoes, Sound, InverseAll, RevertAll, FitsAll;
    LinkedSizes(s);
    UndoKeeps(s);
  }

  lemma RedoRecalls(s: Session, depth: nat, b: Begun, log: seq<Text>)
    requires Sound(s) && Recalls(s, b, log) && s.hist.undone != []
    ensures Recalls(Next(s, RedoLast, depth), NextBegun(s, RedoLast, depth, b, |log|), log + [s.text])
  {
    hide Undoes, Sound, InverseAll, RevertAll, FitsAll;
    LinkedSizes(s);
    RedoKeeps(s);
  }

  lemma NextRecalls(s: Session, step: Step, depth: nat, b: Begun, log: seq<Text>)
    requires Sound(s) && Enabled(s, step) && Recalls(s, b, log)
    ensures Recalls(Next(s, step, depth), NextBegun(s, step, depth, b, |log|), log + [s.text])
  {
    hide Undoes, Sound, InverseAll, RevertAll, FitsAll;
    LinkedSizes(s);
    if step.Edit? {
      EditRecalls(s, step, depth, b, log);
    } else if step.UndoLast? && s.hist.done != [] {
      UndoRecalls(s, depth, b, log);
    } else if step.RedoLast? && s.hist.undone != [] {
      RedoRecalls(s, depth, b, log);
    }
  }

  lemma LinkedSizes(s: Session)
    requires Sound(s)
    ensures |s.past| == |s.hist.done| && |s.future| == |s.hist.undone|
  {
  }

  /** What is said to have begun a set is an edit of the run. */
  lemma {:induction false} BegunAreEdits(s: Session, steps: seq<Step>, depth: nat, all: seq<Step>, b: Begun, k: nat)
    requires Sound(s) && CanRun(s, steps, depth) && |b.done| == |s.hist.done| && |b.undone| == |s.hist.undone|
    requires k <= |all| && all[k..] == steps && forall x :: x in b.done || x in b.undone ==> x < |all| && all[x].Edit?
    ensures forall x <- BegunAfter(s, steps, depth, b, k).done :: x < |all| && all[x].Edit?
    decreases |steps|
  {
    hide Sound, Next, NextBegun;
    if steps == [] {
    } else {
      NextKeeps(s, steps[0], depth);
      assert all[k] == steps[0] && all[k + 1..] == steps[1..];
      var b' := NextBegun(s, steps[0], depth, b, k);
      BegunAreEdits(Next(s, steps[0], depth), steps[1..], depth, all, b', k + 1);
    }
  }

  lemma RecallsSizes(s: Session, b: Begun, log: seq<Text>)
    requires Sound(s) && Recalls(s, b, log)
    ensures |b.done| == |s.hist.done| && |b.undone| == |s.hist.undone|
  {
  }

  lemma {:induction false} RunRecalls(s: Session, steps: seq<Step>, depth: nat, b: Begun, log: seq<Text>)
    requires Sound(s) && CanRun(s, steps, depth) && Recalls(s, b, log)
    ensures Recalls(Run(s, steps, depth), BegunAfter(s, steps, depth, b, |log|), log + TextsAlong(s, steps, depth))
    decreases |steps|
  {
    hide Sound, Recalls, Next, NextBegun;
    RecallsSizes(s, b, log);
    if steps == [] {
      assert log + [] == log;
    } else {
      NextKeeps(s, steps[0], depth);
      NextRecalls(s, steps[0], depth, b, log);
      var n := Next(s, steps[0], depth);
      RunRecalls(n, steps[1..], depth, NextBegun(s, steps[0], depth, b, |log|), log + [s.text]);
      assert log + TextsAlong(s, steps, depth) == log + [s.text] + TextsAlong(n, steps[1..], depth);
    }
  }

  /** Whatever edits, undos, redos and brackets have been made at whatever times, an undo of the top
      set leads to the text as it was before the edit that began this set. */
  lemma UndoAfterAnyRun(steps: seq<Step>, depth: nat)
    requires CanRun(Untouched(), steps, depth)
    ensures var (r, b) := (Run(Untouched(), steps, depth), BegunAfter(Untouched(), steps, depth, Begun([], []), 0));
      r.hist.done != [] ==>
        Last(b.done) < |steps| && steps[Last(b.done)].Edit? && DoUndo(r).text == TextsAlong(Untouched(), steps, depth)[Last(b.done)]
  {
    var s := Untouched();
    RunRecalls(s, steps, depth, Begun([], []), []);
    BegunAreEdits(s, steps, depth, steps, Begun([], []), 0);
    assert [] + TextsAlong(s, steps, depth) == TextsAlong(s, steps, depth);
    var r := Run(s, steps, depth);
    if r.hist.done != [] {
      UndoKeeps(r);
    }
  }

  /** At no point of the run are there fewer than `n` sets to undo, and none is forgotten. */
  predicate StaysAbove(s: Session, steps: seq<Step>, n: nat, depth: nat)
    requires Sound(s) && CanRun(s, steps, depth)
    decreases |steps|
  {
    && n <= |s.hist.done| <= depth
    && (steps != [] ==>
          && (match steps[0]
              case Edit(start, m, ins, now) => Opens(s.hist, Change(start, |ins|, s.text[start..start + m]), now) ==> |s.hist.done| < depth
              case _ => true)
          && (NextKeeps(s, steps[0], depth); StaysAbove(Next(s, steps[0], depth), steps[1..], n, depth)))
  }

  lemma {:induction false} StaysKeepsPast(s: Session, steps: seq<Step>, n: nat, depth: nat)
    requires Sound(s) && CanRun(s, steps, depth) && StaysAbove(s, steps, n, depth)
    ensures var r := Run(s, steps, depth); n <= |r.hist.done| && n <= |s.past| && n <= |r.past| && r.past[..n] == s.past[..n]
    decreases |steps|
  {
    if steps == [] {
    } else {
      NextKeeps(s, steps[0], depth);
      StaysKeepsPast(Next(s, steps[0], depth), steps[1..], n, depth);
      NextKeepsPast(s, steps[0], n, depth);
    }
  }

  lemma NextKeepsPast(s: Session, step: Step, n: nat, depth: nat)
    requires Sound(s) && Enabled(s, step) && n <= |s.hist.done| <= depth && n <= |Next(s, step, depth).hist.done|
    requires step.Edit? && Opens(s.hist, Change(step.start, |step.ins|, s.text[step.start..step.start + step.n]), step.now) ==> |s.hist.done| < depth
    ensures n <= |s.past| && n <= |Next(s, step, depth).past| && Next(s, step, depth).past[..n] == s.past[..n]
  {
    NextKeeps(s, step, depth);
    hide Undoes, Recorded, Opens;
  }

  /** Once an edit has begun a set, and whatever is done and undone after that: when that set is on top
      again, one undo takes back the whole of it. */
  lemma GroupIsUndoneAtOnce(s: Session, start: nat, n: nat, ins: Text, now: int, more: seq<Step>, depth: nat)
    requires Sound(s) && Enabled(s, Edit(start, n, ins, now)) && |s.hist.done| < depth
    requires Opens(s.hist, Change(start, |ins|, s.text[start..start + n]), now)
    requires CanRun(s, [Edit(start, n, ins, now)] + more, depth)
    requires var e := DoEdit(s, start, n, ins, now, depth);
      Sound(e) && CanRun(e, more, depth) && StaysAbove(e, more, |e.hist.done|, depth) && |Run(e, more, depth).hist.done| == |e.hist.done|
    ensures DoUndo(Run(s, [Edit(start, n, ins, now)] + more, depth)).text == s.text
  {
    var e := DoEdit(s, start, n, ins, now, depth);
    var r := Run(e, more, depth);
    StaysKeepsPast(e, more, |e.hist.done|, depth);
    UndoKeeps(r);
    assert ([Edit(start, n, ins, now)] + more)[1..] == more;
    var k := |e.hist.done|;
    assert r.past[..k][k - 1] == e.past[..k][k - 1];
  }

  // ---------------------------------------------------------------- brackets

  /** Edits, and brackets that are opened and closed, inside `level` open brackets, back to one. */
  predicate Bracketed(steps: seq<Step>, level: nat)
    decreases |steps|
  {
    if steps == [] then level == 1
    else
      match steps[0]
      case Edit(_, _, _, _) => Bracketed(steps[1..], level)
      case StartCompound => Bracketed(steps[1..], level + 1)
      case EndCompound => level > 1 && Bracketed(steps[1..], level - 1)
      case _ => false
  }

  predicate AnyEdit(steps: seq<Step>)
  {
    exists step <- steps :: step.Edit?
  }

  /** After the first edit in a bracket, all others join its set. */
  lemma {:induction false} BracketJoins(s: Session, steps: seq<Step>, depth: nat, level: nat)
    requires Sound(s) && CanRun(s, steps, depth) && Bracketed(steps, level) && |s.past| <= depth
    requires s.hist.compound == level >= 1 && Appends(s.hist)
    ensures var r := Run(s, steps, depth); r.past == s.past && r.hist.compound == 1
    decreases |steps|
  {
    hide Sound;
    LinkedSizes(s);
    if steps == [] {
    } else {
      NextKeeps(s, steps[0], depth);
      BracketJoins(Next(s, steps[0], depth), steps[1..], depth,
        if steps[0].StartCompound? then level + 1 else if steps[0].EndCompound? then level - 1 else level);
    }
  }

  /** The first edit in a bracket begins a set. */
  lemma {:induction false} BracketOpens(s: Session, steps: seq<Step>, depth: nat, level: nat)
    requires Sound(s) && CanRun(s, steps, depth) && Bracketed(steps, level) && depth > 0
    requires s.hist.compound == level >= 1 && s.hist.closed
    ensures var r := Run(s, steps, depth);
      && r.hist.compound == 1
      && if AnyEdit(steps) then r.past == Newest(s.past + [s.text], depth) else r.past == s.past && r.text == s.text
    decreases |steps|
  {
    hide Sound;
    LinkedSizes(s);
    if steps == [] {
    } else {
      NextKeeps(s, steps[0], depth);
      var n := Next(s, steps[0], depth);
      AnyEditStep(steps);
      if steps[0].Edit? {
        BracketJoins(n, steps[1..], depth, level);
      } else {
        BracketOpens(n, steps[1..], depth, if steps[0].StartCompound? then level + 1 else level - 1);
      }
    }
  }

  lemma AnyEditStep(steps: seq<Step>)
    requires steps != []
    ensures AnyEdit(steps) <==> steps[0].Edit? || AnyEdit(steps[1..])
  {
    assert steps == [steps[0]] + steps[1..];
    assert forall x :: x in steps <==> x == steps[0] || x in steps[1..];
  }

  /** What is edited between an outermost opening bracket and the bracket that closes it, at whatever
      times, is one set: one undo takes back all of it, and the next edit begins another set. */
  lemma BracketIsOneSet(s: Session, body: seq<Step>, depth: nat)
    requires Sound(s) && s.hist.compound == 0 && depth > 0 && Bracketed(body, 1)
    requires CanRun(s, [StartCompound] + body + [EndCompound], depth)
    ensures var r := Run(s, [StartCompound] + body + [EndCompound], depth);
      && (forall c, now :: Opens(r.hist, c, now)) && r.hist.compound == 0
      && if AnyEdit(body) then DoUndo(r).text == s.text && r.past == Newest(s.past + [s.text], depth)
         else r.text == s.text && r.past == s.past
  {
    var steps := [StartCompound] + body + [EndCompound];
    assert steps[0] == StartCompound && steps[1..] == body + [EndCompound];
    var o := Next(s, StartCompound, depth);
    NextKeeps(s, StartCompound, depth);
    RunSplits(o, body, [EndCompound], depth);
    BracketOpens(o, body, depth, 1);
    assert [EndCompound][0] == EndCompound && [EndCompound][1..] == [];
    var b := Run(o, body, depth);
    NextKeeps(b, EndCompound, depth);
    var r := Next(b, EndCompound, depth);
    if AnyEdit(body) {
      LinkedSizes(r);
      UndoKeeps(r);
    }
  }

  lemma {:induction false} RunSplits(s: Session, a: seq<Step>, b: seq<Step>, depth: nat)
    requires Sound(s) && CanRun(s, a + b, depth)
    ensures CanRun(s, a, depth) && CanRun(Run(s, a, depth), b, depth) && Run(s, a + b, depth) == Run(Run(s, a, depth), b, depth)
    decreases |a|
  {
    if a == [] {
      assert a + b == b;
    } else {
      assert (a + b)[1..] == a[1..] + b;
      NextKeeps(s, a[0], depth);
      RunSplits(Next(s, a[0], depth), a[1..], b, depth);
    }
  }

  // ---------------------------------------------------------------- undos and redos

  lemma UndoRedoKeep(s: Session)
    requires Sound(s)
    ensures Sound(DoUndo(s)) && Sound(DoRedo(s))
  {
    NextKeeps(s, UndoLast, 0);
    NextKeeps(s, RedoLast, 0);
  }

  function Undos(s: Session, k: nat): (r: Session)
    requires Sound(s)
    ensures Sound(r)
    decreases k
  {
    UndoRedoKeep(s);
    if k == 0 then s else Undos(DoUndo(s), k - 1)
  }

  function Redos(s: Session, k: nat): (r: Session)
    requires Sound(s)
    ensures Sound(r)
    decreases k
  {
    UndoRedoKeep(s);
    if k == 0 then s else Redos(DoRedo(s), k - 1)
  }

  lemma {:induction false} RedosSnoc(s: Session, k: nat)
    requires Sound(s)
    ensures Redos(s, k + 1) == DoRedo(Redos(s, k))
    decreases k
  {
    UndoRedoKeep(s);
    if k == 0 {
    } else {
      RedosSnoc(DoRedo(s), k - 1);
    }
  }

  /** `k` undos and then `k` redos give back everything, text and history, exactly when there
      were `k` sets to undo or none to redo. */
  lemma UndosThenRedos(s: Session, k: nat)
    requires Sound(s)
    ensures Redos(Undos(s, k), k) == s <==> k <= |s.hist.done| || s.hist.undone == []
  {
    if k <= |s.hist.done| {
      UndosThenRedosBack(s, k);
    } else {
      var d := |s.hist.done|;
      UndosThenRedosBack(s, d);
      UndosStop(s, d, k);
      RedosMore(Undos(s, d), d, k - d);
      RedosCount(s, k - d);
    }
  }

  /** After any edit in an untouched editor and one undo, one more undo does nothing, but a redo after it
      brings the edit back. */
  lemma UndoThenRedoGoesFurther(ins: Text, now: int, depth: nat)
    requires ins != [] && ins != [""] && depth > 0
    ensures CanRun(Untouched(), [Edit(0, 1, ins, now), UndoLast], depth)
    ensures var s := Run(Untouched(), [Edit(0, 1, ins, now), UndoLast], depth); Redos(Undos(s, 1), 1) != s && Redos(Undos(s, 1), 1).text == ins
  {
    var (u, e) := (Untouched(), Edit(0, 1, ins, now));
    var s1 := Next(u, e, depth);
    NextKeeps(u, e, depth);
    UndoKeeps(s1);
    var s2 := DoUndo(s1);
    assert [e, UndoLast][1..] == [UndoLast] && [UndoLast][1..] == [];
    NextKeeps(s1, UndoLast, depth);
    assert Splice(u.text, 0, 1, ins) == ins;
    assert Undos(s2, 0) == s2 == DoUndo(s2);
    assert Redos(DoRedo(s2), 0) == DoRedo(s2) == s1;
  }

  lemma {:induction false} UndosThenRedosBack(s: Session, k: nat)
    requires Sound(s) && k <= |s.hist.done|
    ensures Redos(Undos(s, k), k) == s && |Undos(s, k).hist.done| == |s.hist.done| - k
    decreases k
  {
    if k == 0 {
    } else {
      UndoKeeps(s);
      UndosThenRedosBack(DoUndo(s), k - 1);
      RedosSnoc(Undos(s, k), k - 1);
    }
  }

  /** With nothing left to undo, more undos do nothing. */
  lemma {:induction false} UndosStop(s: Session, d: nat, k: nat)
    requires Sound(s) && |s.hist.done| == d <= k
    ensures Undos(s, k) == Undos(s, d)
    decreases k
  {
    if k > d {
      if d == 0 {
        UndosStop(s, d, k - 1);
      } else {
        UndoKeeps(s);
        UndosStop(DoUndo(s), d - 1, k - 1);
      }
    }
  }

  lemma {:induction false} RedosMore(s: Session, d: nat, n: nat)
    requires Sound(s)
    ensures Redos(s, d + n) == Redos(Redos(s, d), n)
    decreases d
  {
    UndoRedoKeep(s);
    if d == 0 {
    } else {
      RedosMore(DoRedo(s), d - 1, n);
    }
  }

  /** Each redo moves one set over, as long as there is one. */
  lemma {:induction false} RedosCount(s: Session, n: nat)
    requires Sound(s)
    ensures |Redos(s, n).hist.done| == |s.hist.done| + if n < |s.hist.undone| then n else |s.hist.undone|
    ensures s.hist.undone == [] ==> Redos(s, n) == s
    decreases n
  {
    UndoRedoKeep(s);
    MirrorValid(s);
    if n == 0 {
    } else {
      RedosCount(DoRedo(s), n - 1);
    }
  }
}
