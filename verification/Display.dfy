/** The display of a window of lines: which nodes on the screen can stay after some changes, and
    how the others are replaced. A node is modelled by what it shows: the rendering of a line. */
module Display {
  import opened Wrappers

  /** The lines `from..to` became `to - from + diff` others. */
  datatype LineChange = LineChange(from: nat, to: nat, diff: int)

  /** The lines `from..to` are shown, unchanged, by the nodes from `domStart` on. */
  datatype Range = Range(from: int, to: int, domStart: int)

  datatype Changes = Everything | These(list: seq<LineChange>)

  // ---------------------------------------------------------------- what a change does to the lines

  predicate CanChange<T>(l: seq<T>, c: LineChange, ins: seq<T>)
  {
    c.from <= c.to <= |l| && |ins| == c.to - c.from + c.diff
  }

  function Changed<T>(l: seq<T>, c: LineChange, ins: seq<T>): seq<T>
    requires CanChange(l, c, ins)
  {
    l[..c.from] + ins + l[c.to..]
  }

  /** From `l` to `r` by the changes in order, with the new lines `ins` of each. */
  predicate Leads<T(==)>(l: seq<T>, cs: seq<LineChange>, ins: seq<seq<T>>, r: seq<T>)
    decreases |cs|
  {
    |ins| == |cs| &&
    if cs == [] then l == r else CanChange(l, cs[0], ins[0]) && Leads(Changed(l, cs[0], ins[0]), cs[1..], ins[1..], r)
  }

  // ---------------------------------------------------------------- intact ranges

  predicate Intact<T(==)>(l: seq<T>, nodes: seq<T>, r: Range)
  {
    && 0 <= r.from <= r.to <= |l| && 0 <= r.domStart && r.domStart + (r.to - r.from) <= |nodes|
    && l[r.from..r.to] == nodes[r.domStart..r.domStart + (r.to - r.from)]
  }

  /** One range lies before another, in the lines and on the screen. */
  predicate Before(r: Range, s: Range)
  {
    r.to <= s.from && r.domStart + (r.to - r.from) <= s.domStart
  }

  predicate AllIntact<T(==)>(l: seq<T>, nodes: seq<T>, rs: seq<Range>)
  {
    && (forall r <- rs :: Intact(l, nodes, r))
    && forall i, j :: 0 <= i < j < |rs| ==> Before(rs[i], rs[j])
  }

  /** What is left of a range after a change. */
  function Left(r: Range, c: LineChange): seq<Range>
  {
    if c.to <= r.from then [Range(r.from + c.diff, r.to + c.diff, r.domStart)]
    else if c.from >= r.to then [r]
    else
      (if c.from > r.from then [Range(r.from, c.from, r.domStart)] else [])
      + (if c.to < r.to then [Range(c.to + c.diff, r.to + c.diff, r.domStart + (c.to - r.from))] else [])
  }

  /** All that is left is still intact. */
  lemma LeftIntact<T>(l: seq<T>, nodes: seq<T>, r: Range, c: LineChange, ins: seq<T>)
    requires Intact(l, nodes, r) && CanChange(l, c, ins)
    ensures AllIntact(Changed(l, c, ins), nodes, Left(r, c))
  {
    var m, n := Changed(l, c, ins), r.to - r.from;
    forall s | s in Left(r, c)
      ensures Intact(m, nodes, s)
    {
      var off := s.domStart - r.domStart;
      var at := r.from + off;
      var x, y := m[s.from..s.to], nodes[s.domStart..s.domStart + (s.to - s.from)];
      forall k | 0 <= k < |x|
        ensures x[k] == y[k]
      {
        assert x[k] == l[at + k] == l[r.from..r.to][off + k];
        assert y[k] == nodes[r.domStart..r.domStart + n][off + k];
      }
    }
  }

  /** Ranges keep their order. */
  lemma LeftOrder(r: Range, s: Range, c: LineChange)
    requires Before(r, s) && r.from <= r.to && s.from <= s.to && c.from <= c.to && c.to - c.from + c.diff >= 0
    ensures forall x, y :: x in Left(r, c) && y in Left(s, c) ==> Before(x, y)
  {
  }

  function AllLeft(rs: seq<Range>, c: LineChange): seq<Range>
  {
    if rs == [] then [] else AllLeft(rs[..|rs| - 1], c) + Left(rs[|rs| - 1], c)
  }

  lemma {:induction false} AllLeftFrom(rs: seq<Range>, c: LineChange, x: Range)
    requires x in AllLeft(rs, c)
    ensures exists i :: 0 <= i < |rs| && x in Left(rs[i], c)
  {
    var n := |rs| - 1;
    if x in Left(rs[n], c) {
    } else {
      AllLeftFrom(rs[..n], c, x);
      var i :| 0 <= i < n && x in Left(rs[..n][i], c);
      assert x in Left(rs[i], c);
    }
  }

  /** After a change, what is left of all ranges is intact and in order. */
  lemma {:induction false} AllLeftIntact<T>(l: seq<T>, nodes: seq<T>, rs: seq<Range>, c: LineChange, ins: seq<T>)
    requires AllIntact(l, nodes, rs) && CanChange(l, c, ins)
    ensures AllIntact(Changed(l, c, ins), nodes, AllLeft(rs, c))
  {
    hide Left;
    if rs == [] {
    } else {
      var n := |rs| - 1;
      var (a, b) := (AllLeft(rs[..n], c), Left(rs[n], c));
      AllLeftIntact(l, nodes, rs[..n], c, ins);
      assert rs[n] in rs;
      LeftIntact(l, nodes, rs[n], c, ins);
      forall x, y | x in a && y in b
        ensures Before(x, y)
      {
        AllLeftFrom(rs[..n], c, x);
        var i :| 0 <= i < n && x in Left(rs[..n][i], c);
        assert rs[i] in rs && Before(rs[i], rs[n]);
        LeftOrder(rs[i], rs[n], c);
      }
      JoinInOrder(Changed(l, c, ins), nodes, a, b);
    }
  }

  lemma JoinInOrder<T>(l: seq<T>, nodes: seq<T>, a: seq<Range>, b: seq<Range>)
    requires AllIntact(l, nodes, a) && AllIntact(l, nodes, b) && forall x, y :: x in a && y in b ==> Before(x, y)
    ensures AllIntact(l, nodes, a + b)
  {
    var t := a + b;
    forall i, j | 0 <= i < j < |t|
      ensures Before(t[i], t[j])
    {
      if i < |a| <= j {
        assert t[i] in a && t[j] in b;
      }
    }
  }

  // ---------------------------------------------------------------- which lines stay

  /** The number that a line has after a change, if the change does not touch it. */
  function Moved(p: int, c: LineChange): Option<int>
  {
    if p < c.from then Some(p) else if p >= c.to then Some(p + c.diff) else None
  }

  function Follow(p: int, cs: seq<LineChange>): Option<int>
    decreases |cs|
  {
    if cs == [] then Some(p)
    else
      match Moved(p, cs[0])
      case None => None
      case Some(q) => Follow(q, cs[1..])
  }

  /** The range says that node `d` shows line `p`. */
  predicate Holds(r: Range, p: int, d: int)
  {
    r.from <= p < r.to && d == r.domStart + (p - r.from)
  }

  predicate Covers(rs: seq<Range>, p: int, d: int)
  {
    exists r <- rs :: Holds(r, p, d)
  }

  /** Node `d` shows a line that the changes do not touch, and that is line `j` after them. */
  ghost predicate Stays(rs: seq<Range>, d: int, cs: seq<LineChange>, j: int)
  {
    exists p :: Covers(rs, p, d) && Follow(p, cs) == Some(j)
  }

  lemma LeftHolds(r: Range, c: LineChange, q: int, d: int)
    requires c.from <= c.to
    ensures Covers(Left(r, c), q, d) <==> var p := r.from + (d - r.domStart); Holds(r, p, d) && Moved(p, c) == Some(q)
  {
    if c.to <= r.from {
      CoversOne(Range(r.from + c.diff, r.to + c.diff, r.domStart), q, d);
    } else if c.from >= r.to {
      CoversOne(r, q, d);
    } else {
      CoversOne(Range(r.from, c.from, r.domStart), q, d);
      CoversOne(Range(c.to + c.diff, r.to + c.diff, r.domStart + (c.to - r.from)), q, d);
      CoversJoin(if c.from > r.from then [Range(r.from, c.from, r.domStart)] else [],
        if c.to < r.to then [Range(c.to + c.diff, r.to + c.diff, r.domStart + (c.to - r.from))] else [], q, d);
    }
  }

  lemma CoversOne(r: Range, p: int, d: int)
    ensures (Covers([r], p, d) <==> Holds(r, p, d)) && !Covers([], p, d)
  {
    assert r in [r];
  }

  /** A change leaves exactly the lines that it does not touch. */
  lemma {:induction false} AllLeftCovers(rs: seq<Range>, c: LineChange, q: int, d: int)
    requires c.from <= c.to
    ensures Covers(AllLeft(rs, c), q, d) <==> exists p :: Covers(rs, p, d) && Moved(p, c) == Some(q)
  {
    hide Holds, Left, Moved;
    if rs == [] {
    } else {
      var n := |rs| - 1;
      AllLeftCovers(rs[..n], c, q, d);
      LeftCovers(rs[n], c, q, d);
      assert rs == rs[..n] + [rs[n]];
      forall p
        ensures Covers(rs, p, d) <==> Covers(rs[..n], p, d) || Holds(rs[n], p, d)
      {
        CoversJoin(rs[..n], [rs[n]], p, d);
      }
      CoversJoin(AllLeft(rs[..n], c), Left(rs[n], c), q, d);
    }
  }

  lemma LeftCovers(r: Range, c: LineChange, q: int, d: int)
    requires c.from <= c.to
    ensures Covers(Left(r, c), q, d) <==> exists p :: Holds(r, p, d) && Moved(p, c) == Some(q)
  {
    LeftHolds(r, c, q, d);
  }

  lemma CoversJoin(a: seq<Range>, b: seq<Range>, p: int, d: int)
    ensures Covers(a + b, p, d) <==> Covers(a, p, d) || Covers(b, p, d)
  {
  }

  lemma StaysStep(rs: seq<Range>, c: LineChange, cs: seq<LineChange>, d: int, j: int)
    requires c.from <= c.to
    ensures Stays(rs, d, [c] + cs, j) <==> Stays(AllLeft(rs, c), d, cs, j)
  {
    hide Covers, Moved;
    assert ([c] + cs)[1..] == cs;
    if Stays(rs, d, [c] + cs, j) {
      var p :| Covers(rs, p, d) && Follow(p, [c] + cs) == Some(j);
      AllLeftCovers(rs, c, Moved(p, c).value, d);
    }
    if Stays(AllLeft(rs, c), d, cs, j) {
      var q :| Covers(AllLeft(rs, c), q, d) && Follow(q, cs) == Some(j);
      AllLeftCovers(rs, c, q, d);
      var p :| Covers(rs, p, d) && Moved(p, c) == Some(q);
      assert Follow(p, [c] + cs) == Some(j);
    }
  }

  lemma StaysNow(rs: seq<Range>, d: int, j: int)
    ensures Stays(rs, d, [], j) <==> Covers(rs, j, d)
  {
    assert Follow(j, []) == Some(j);
  }

  /** The ranges that all changes leave intact: exactly the lines that no change touches. */
  method ComputeIntact<T>(intact0: seq<Range>, changes: seq<LineChange>, ghost l: seq<T>, ghost ins: seq<seq<T>>, ghost r: seq<T>, ghost nodes: seq<T>)
    returns (intact: seq<Range>)
    requires AllIntact(l, nodes, intact0) && Leads(l, changes, ins, r)
    ensures AllIntact(r, nodes, intact)
    ensures forall d, j :: Covers(intact, j, d) <==> Stays(intact0, d, changes, j)
    ensures (forall x <- intact0 :: x.from == x.to) ==> forall x <- intact :: x.from == x.to
  {
    hide Left, Covers, Stays;
    intact := intact0;
    ghost var cur := l;
    for i := 0 to |changes|
      invariant AllIntact(cur, nodes, intact) && Leads(cur, changes[i..], ins[i..], r)
      invariant (forall x <- intact0 :: x.from == x.to) ==> forall x <- intact :: x.from == x.to
      invariant forall d, j :: Stays(intact, d, changes[i..], j) <==> Stays(intact0, d, changes, j)
    {
      assert changes[i..] == [changes[i]] + changes[i + 1..];
      forall d, j
        ensures Stays(intact, d, changes[i..], j) <==> Stays(AllLeft(intact, changes[i]), d, changes[i + 1..], j)
      {
        StaysStep(intact, changes[i], changes[i + 1..], d, j);
      }
      var change := changes[i];
      var intact2 := AfterChange(intact, change);
      assert changes[i..][1..] == changes[i + 1..] && ins[i..][1..] == ins[i + 1..];
      AllLeftIntact(cur, nodes, intact, change, ins[i]);
      EmptyStay(intact, change);
      cur := Changed(cur, change, ins[i]);
      intact := intact2;
    }
    assert changes[|changes|..] == [];
    forall d, j
      ensures Covers(intact, j, d) <==> Stays(intact0, d, changes, j)
    {
      StaysNow(intact, d, j);
    }
  }

  /** The inner loop: what one change leaves of each range. */
  method AfterChange(intact: seq<Range>, change: LineChange) returns (intact2: seq<Range>)
    ensures intact2 == AllLeft(intact, change)
  {
    intact2 := [];
    var diff := change.diff;
    for j := 0 to |intact|
      invariant intact2 == AllLeft(intact[..j], change)
    {
      var range := intact[j];
      assert intact[..j + 1][..j] == intact[..j];
      if change.to <= range.from && change.diff != 0 {
        intact2 := intact2 + [Range(range.from + diff, range.to + diff, range.domStart)];
      } else if change.to <= range.from || change.from >= range.to {
        intact2 := intact2 + [range];
      } else {
        if change.from > range.from {
          intact2 := intact2 + [Range(range.from, change.from, range.domStart)];
        }
        if change.to < range.to {
          intact2 := intact2 + [Range(change.to + diff, range.to + diff, range.domStart + (change.to - range.from))];
        }
      }
    }
    assert intact[..|intact|] == intact;
  }

  lemma EmptyStay(rs: seq<Range>, c: LineChange)
    requires forall x <- rs :: x.from <= x.to
    ensures (forall x <- rs :: x.from == x.to) && c.from <= c.to ==> forall x <- AllLeft(rs, c) :: x.from == x.to
  {
    forall x | x in AllLeft(rs, c) && (forall r <- rs :: r.from == r.to) && c.from <= c.to
      ensures x.from == x.to
    {
      AllLeftFrom(rs, c, x);
    }
  }

  // ---------------------------------------------------------------- clipping to the window

  function Total(rs: seq<Range>): int
  {
    if rs == [] then 0 else Total(rs[..|rs| - 1]) + rs[|rs| - 1].to - rs[|rs| - 1].from
  }

  predicate InWindow(rs: seq<Range>, from: int, to: int)
  {
    forall r <- rs :: from <= r.from < r.to <= to
  }

  /** Taking lines off a range's ends keeps everything intact and in order. */
  lemma ClipOne<T>(l: seq<T>, nodes: seq<T>, rs: seq<Range>, i: nat, r: Range)
    requires AllIntact(l, nodes, rs) && i < |rs|
    requires rs[i].from <= r.from <= r.to <= rs[i].to && r.domStart - rs[i].domStart == r.from - rs[i].from
    ensures AllIntact(l, nodes, rs[i := r])
  {
    var s, n := rs[i], r.to - r.from;
    assert s in rs && Intact(l, nodes, s);
    var off := r.from - s.from;
    var x, y := l[r.from..r.to], nodes[r.domStart..r.domStart + n];
    forall k | 0 <= k < n
      ensures x[k] == y[k]
    {
      assert x[k] == l[s.from..s.to][off + k] == nodes[s.domStart..s.domStart + (s.to - s.from)][off + k];
    }
    forall x | x in rs[i := r]
      ensures Intact(l, nodes, x)
    {
      assert x == r || x in rs;
    }
  }

  lemma DropOne<T>(l: seq<T>, nodes: seq<T>, rs: seq<Range>, i: nat)
    requires AllIntact(l, nodes, rs) && i < |rs|
    ensures AllIntact(l, nodes, rs[..i] + rs[i + 1..])
  {
    var t := rs[..i] + rs[i + 1..];
    forall x | x in t
      ensures x in rs
    {
    }
    assert forall k :: 0 <= k < |t| ==> t[k] == rs[if k < i then k else k + 1];
  }

  /** The clipping has come to range `i`: those before it are done. */
  ghost predicate ClippedTo<T>(l: seq<T>, nodes: seq<T>, intact0: seq<Range>, intact: seq<Range>, i: nat, from: int, to: int)
  {
    && i <= |intact| && AllIntact(l, nodes, intact) && InWindow(intact[..i], from, to)
    && (forall j, d :: from <= j < to ==> (Covers(intact, j, d) <==> Covers(intact0, j, d)))
    && ((forall x <- intact0 :: x.from == x.to) ==> i == 0 && forall x <- intact :: x.from == x.to)
  }

  function Clip(r: Range, from: int, to: int): Range
  {
    var a := if r.from < from then from else r.from;
    Range(a, if r.to > to then to else r.to, r.domStart + (a - r.from))
  }

  lemma ClipBegins<T>(l: seq<T>, nodes: seq<T>, rs: seq<Range>, from: int, to: int)
    requires AllIntact(l, nodes, rs)
    ensures ClippedTo(l, nodes, rs, rs, 0, from, to)
  {
  }

  lemma ClipDrops<T>(l: seq<T>, nodes: seq<T>, intact0: seq<Range>, rs: seq<Range>, i: nat, from: int, to: int)
    requires ClippedTo(l, nodes, intact0, rs, i, from, to) && i < |rs| && Clip(rs[i], from, to).from >= Clip(rs[i], from, to).to
    ensures ClippedTo(l, nodes, intact0, rs[..i] + rs[i + 1..], i, from, to) && (rs[..i] + rs[i + 1..])[..i] == rs[..i]
  {
    hide AllIntact, Covers, Holds, InWindow;
    DropOne(l, nodes, rs, i);
    Clipped(rs[i], [], from, to);
    ReplaceCovers(rs, i, [], from, to);
    var t := rs[..i] + rs[i + 1..];
    assert rs[..i] + [] + rs[i + 1..] == t && t[..i] == rs[..i];
    assert forall x <- t :: x in rs;
  }

  lemma ClipCuts<T>(l: seq<T>, nodes: seq<T>, intact0: seq<Range>, rs: seq<Range>, i: nat, from: int, to: int)
    requires ClippedTo(l, nodes, intact0, rs, i, from, to) && i < |rs| && Clip(rs[i], from, to).from < Clip(rs[i], from, to).to
    ensures var r := Clip(rs[i], from, to);
      ClippedTo(l, nodes, intact0, rs[i := r], i + 1, from, to) && Total(rs[i := r][..i + 1]) == Total(rs[..i]) + r.to - r.from
  {
    hide AllIntact, Covers, Holds;
    var r := Clip(rs[i], from, to);
    ClipOne(l, nodes, rs, i, r);
    Clipped(rs[i], [r], from, to);
    ReplaceCovers(rs, i, [r], from, to);
    var t := rs[i := r];
    assert rs[..i] + [r] + rs[i + 1..] == t && t[..i + 1][..i] == rs[..i];
    assert t[..i + 1] == rs[..i] + [r];
    assert rs[i] in rs;
  }

  lemma ClipEnds<T>(l: seq<T>, nodes: seq<T>, intact0: seq<Range>, rs: seq<Range>, from: int, to: int)
    requires ClippedTo(l, nodes, intact0, rs, |rs|, from, to)
    ensures rs[..|rs|] == rs && AllIntact(l, nodes, rs) && InWindow(rs, from, to)
    ensures forall j, d :: Covers(rs, j, d) <==> from <= j < to && Covers(intact0, j, d)
    ensures (forall x <- intact0 :: x.from == x.to) ==> rs == []
  {
    hide Covers;
    assert rs[..|rs|] == rs;
    CoversWithin(rs, from, to);
  }

  /** Cuts off the parts that will not be visible. */
  method ClipAll<T>(intact0: seq<Range>, from: int, to: int, ghost l: seq<T>, ghost nodes: seq<T>) returns (intact: seq<Range>, intactLines: int)
    requires AllIntact(l, nodes, intact0)
    ensures AllIntact(l, nodes, intact) && InWindow(intact, from, to) && intactLines == Total(intact)
    ensures forall j, d :: Covers(intact, j, d) <==> from <= j < to && Covers(intact0, j, d)
    ensures (forall x <- intact0 :: x.from == x.to) ==> intact == []
  {
    hide ClippedTo, AllIntact, Covers, InWindow, Total;
    intact, intactLines := intact0, 0;
    ClipBegins(l, nodes, intact0, from, to);
    NoTotal();
    var i := 0;
    while i < |intact|
      invariant 0 <= i <= |intact| && ClippedTo(l, nodes, intact0, intact, i, from, to) && intactLines == Total(intact[..i])
      decreases |intact| - i
    {
      var range := intact[i];
      if range.from < from {
        range := range.(domStart := range.domStart + (from - range.from), from := from);
      }
      if range.to > to {
        range := range.(to := to);
      }
      assert range == Clip(intact[i], from, to);
      if range.from >= range.to {
        ClipDrops(l, nodes, intact0, intact, i, from, to);
        intact := intact[..i] + intact[i + 1..];
      } else {
        ClipCuts(l, nodes, intact0, intact, i, from, to);
        intact := intact[i := range];
        intactLines := intactLines + range.to - range.from;
        i := i + 1;
      }
    }
    ClipEnds(l, nodes, intact0, intact, from, to);
  }

  lemma NoTotal()
    ensures Total([]) == 0
  {
  }

  lemma CoversWithin(rs: seq<Range>, from: int, to: int)
    requires InWindow(rs, from, to)
    ensures forall j, d :: Covers(rs, j, d) ==> from <= j < to
  {
  }

  lemma Clipped(r: Range, t: seq<Range>, from: int, to: int)
    requires var a := if r.from < from then from else r.from; var b := if r.to > to then to else r.to;
      if a >= b then t == [] else t == [Range(a, b, r.domStart + (a - r.from))]
    ensures forall j, d :: from <= j < to ==> (Covers(t, j, d) <==> Holds(r, j, d))
  {
    forall j, d | from <= j < to
      ensures Covers(t, j, d) <==> Holds(r, j, d)
    {
      if t != [] {
        CoversOne(t[0], j, d);
      }
    }
  }

  /** Cutting a range down to the window loses no line of the window. */
  lemma ReplaceCovers(rs: seq<Range>, i: nat, t: seq<Range>, from: int, to: int)
    requires i < |rs| && forall j, d :: from <= j < to ==> (Covers(t, j, d) <==> Holds(rs[i], j, d))
    ensures forall j, d :: from <= j < to ==> (Covers(rs[..i] + t + rs[i + 1..], j, d) <==> Covers(rs, j, d))
  {
    hide Holds, Covers;
    assert rs == rs[..i] + [rs[i]] + rs[i + 1..];
    forall j, d | from <= j < to
      ensures Covers(rs[..i] + t + rs[i + 1..], j, d) <==> Covers(rs, j, d)
    {
      CoversJoin(rs[..i] + t, rs[i + 1..], j, d);
      CoversJoin(rs[..i], t, j, d);
      CoversJoin(rs[..i] + [rs[i]], rs[i + 1..], j, d);
      CoversJoin(rs[..i], [rs[i]], j, d);
      CoversOne(rs[i], j, d);
    }
  }

  // ---------------------------------------------------------------- nothing to do

  lemma {:induction false} TotalFits(rs: seq<Range>, from: int, to: int)
    requires from <= to && InWindow(rs, from, to) && forall i, j :: 0 <= i < j < |rs| ==> Before(rs[i], rs[j])
    ensures 0 <= Total(rs) <= to - from
  {
    if rs == [] {
    } else {
      var n := |rs| - 1;
      assert rs[n] in rs;
      forall r | r in rs[..n]
        ensures from <= r.from < r.to <= rs[n].from
      {
        assert r in rs;
      }
      TotalFits(rs[..n], from, rs[n].from);
    }
  }

  predicate OnScreen(rs: seq<Range>, d0: int, d1: int)
  {
    forall r <- rs :: d0 <= r.domStart && r.domStart + (r.to - r.from) <= d1
  }

  lemma {:induction false} TotalOnScreen(rs: seq<Range>, d0: int, d1: int)
    requires d0 <= d1 && OnScreen(rs, d0, d1) && (forall r <- rs :: r.from <= r.to) && forall i, j :: 0 <= i < j < |rs| ==> Before(rs[i], rs[j])
    ensures 0 <= Total(rs) <= d1 - d0
  {
    if rs == [] {
    } else {
      var n := |rs| - 1;
      assert rs[n] in rs;
      forall r | r in rs[..n]
        ensures d0 <= r.domStart && r.domStart + (r.to - r.from) <= rs[n].domStart && r.from <= r.to
      {
        assert r in rs;
      }
      TotalOnScreen(rs[..n], d0, rs[n].domStart);
    }
  }

  /** Intact ranges that make up the whole window leave no gap: the screen shows the window. */
  lemma {:induction false} NoGap<T>(l: seq<T>, nodes: seq<T>, rs: seq<Range>, from: nat, to: nat, d1: nat)
    requires AllIntact(l, nodes, rs) && InWindow(rs, from, to) && OnScreen(rs, 0, d1) && d1 <= |nodes|
    requires from <= to <= |l| && Total(rs) == to - from == d1
    ensures nodes[..d1] == l[from..to]
  {
    hide AllIntact, InWindow, OnScreen;
    if rs == [] {
    } else {
      var n, r := |rs| - 1, rs[|rs| - 1];
      BeforeLast(l, nodes, rs, from, to, d1);
      TotalFits(rs[..n], from, r.from);
      TotalOnScreen(rs[..n], 0, r.domStart);
      NoGap(l, nodes, rs[..n], from, r.from, r.domStart);
      NoGapBehind(l, nodes, r, from);
    }
  }

  /** The ranges before the last one are in the window before it, and on the screen before it. */
  lemma BeforeLast<T>(l: seq<T>, nodes: seq<T>, rs: seq<Range>, from: nat, to: nat, d1: nat)
    requires rs != [] && AllIntact(l, nodes, rs) && InWindow(rs, from, to) && OnScreen(rs, 0, d1)
    ensures var (s, r) := (rs[..|rs| - 1], rs[|rs| - 1]);
      && AllIntact(l, nodes, s) && InWindow(s, from, r.from) && OnScreen(s, 0, r.domStart)
      && Intact(l, nodes, r) && from <= r.from <= r.to <= to && r.domStart + (r.to - r.from) <= d1
      && (forall x <- s :: x.from <= x.to) && forall i, j :: 0 <= i < j < |s| ==> Before(s[i], s[j])
  {
    var n, r := |rs| - 1, rs[|rs| - 1];
    assert r in rs;
    forall x | x in rs[..n]
      ensures x in rs && Before(x, r)
    {
    }
  }

  lemma NoGapBehind<T>(l: seq<T>, nodes: seq<T>, r: Range, from: nat)
    requires Intact(l, nodes, r) && from <= r.from <= r.to && nodes[..r.domStart] == l[from..r.from]
    ensures nodes[..r.domStart + (r.to - r.from)] == l[from..r.to]
  {
    var d := r.domStart + (r.to - r.from);
    assert l[from..r.to] == l[from..r.from] + l[r.from..r.to];
    assert nodes[..d] == nodes[..r.domStart] + nodes[r.domStart..d];
  }

  // ---------------------------------------------------------------- patching

  function LinesAt<T>(l: seq<T>, r: Range): seq<T>
  {
    if 0 <= r.from <= r.to <= |l| then l[r.from..r.to] else []
  }

  /** The lines that stay. */
  function KeptLines<T>(l: seq<T>, rs: seq<Range>): seq<T>
  {
    if rs == [] then [] else LinesAt(l, rs[0]) + KeptLines(l, rs[1..])
  }

  lemma {:induction false} KeptSnoc<T>(l: seq<T>, rs: seq<Range>, r: Range)
    ensures KeptLines(l, rs + [r]) == KeptLines(l, rs) + LinesAt(l, r)
  {
    if rs == [] {
      assert [r][1..] == [];
    } else {
      assert (rs + [r])[1..] == rs[1..] + [r];
      KeptSnoc(l, rs[1..], r);
    }
  }

  /** The first pass removes the nodes that are not intact. */
  method RemoveNodes<T>(nodes0: seq<T>, intact: seq<Range>, ghost l: seq<T>) returns (nodes: seq<T>)
    requires AllIntact(l, nodes0, intact)
    ensures nodes == KeptLines(l, intact)
  {
    hide LinesAt;
    if |intact| == 0 {
      return [];
    }
    nodes := nodes0;
    var domPos, curNode: nat := 0, 0;
    assert Intact(l, nodes0, intact[0]);
    for i := 0 to |intact|
      invariant 0 <= domPos <= |nodes0| && nodes == KeptLines(l, intact[..i]) + nodes0[domPos..] && curNode == |KeptLines(l, intact[..i])|
      invariant i < |intact| ==> domPos <= intact[i].domStart
    {
      assert Intact(l, nodes0, intact[i]) && (i + 1 < |intact| ==> Before(intact[i], intact[i + 1]));
      KeptSnoc(l, intact[..i], intact[i]);
      assert intact[..i + 1] == intact[..i] + [intact[i]];
      nodes, curNode, domPos := KeepRange(nodes, curNode, domPos, intact[i], nodes0, KeptLines(l, intact[..i]), l);
    }
    assert intact[..|intact|] == intact;
    while curNode < |nodes|
      invariant 0 <= domPos <= |nodes0| && nodes == KeptLines(l, intact) + nodes0[domPos..] && curNode == |KeptLines(l, intact)|
      decreases |nodes|
    {
      nodes := KillNode(nodes, curNode, KeptLines(l, intact), nodes0[domPos..]);
      domPos := domPos + 1;
    }
  }

  /** Kills the nodes up to a range, and goes past those of the range. */
  method KeepRange<T>(nodes0: seq<T>, curNode0: nat, domPos0: nat, cur: Range, ghost all: seq<T>, ghost kept: seq<T>, ghost l: seq<T>)
    returns (nodes: seq<T>, curNode: nat, domPos: nat)
    requires domPos0 <= cur.domStart && Intact(l, all, cur) && nodes0 == kept + all[domPos0..] && curNode0 == |kept|
    ensures domPos == cur.domStart + (cur.to - cur.from) <= |all|
    ensures nodes == kept + LinesAt(l, cur) + all[domPos..] && curNode == |kept + LinesAt(l, cur)|
  {
    nodes, curNode, domPos := nodes0, curNode0, domPos0;
    while cur.domStart > domPos
      invariant domPos <= cur.domStart && nodes == kept + all[domPos..]
    {
      nodes := KillNode(nodes, curNode, kept, all[domPos..]);
      domPos := domPos + 1;
    }
    for j := 0 to cur.to - cur.from
      invariant curNode == |kept| + j && domPos == cur.domStart + j
    {
      curNode, domPos := curNode + 1, domPos + 1;
    }
    assert all[cur.domStart..] == LinesAt(l, cur) + all[domPos..];
  }

  /** Removes the node after `done`; the next one takes its place. */
  method KillNode<T>(nodes: seq<T>, at: nat, ghost done: seq<T>, ghost rest: seq<T>) returns (r: seq<T>)
    requires nodes == done + rest && at == |done| && rest != []
    ensures r == done + rest[1..]
  {
    r := nodes[..at] + nodes[at + 1..];
  }

  /** What comes after line `j`, with `next` and the ranges after it still to come. */
  function Rest<T>(l: seq<T>, next: Option<Range>, intact: seq<Range>, j: int): seq<T>
  {
    (if next.None? then [] else LinesAt(l, next.value.(from := if next.value.from > j then next.value.from else j))) + KeptLines(l, intact)
  }

  /** `next` and `intact` are ranges of the window that reach to line `j` or beyond. */
  predicate Pending(l: int, next: Option<Range>, intact: seq<Range>, j: int, to: int)
  {
    && 0 <= j <= to <= l && InWindow(intact, 0, to) && (forall a, b :: 0 <= a < b < |intact| ==> intact[a].to <= intact[b].from)
    && match next
       case None => intact == []
       case Some(r) => 0 <= r.from < r.to <= to && j <= r.to && (intact != [] ==> r.to <= intact[0].from)
  }

  /** `Array.shift`. */
  method Shift(intact0: seq<Range>) returns (next: Option<Range>, intact: seq<Range>)
    ensures if intact0 == [] then next == None && intact == [] else next == Some(intact0[0]) && intact == intact0[1..]
  {
    if |intact0| == 0 {
      return None, [];
    }
    return Some(intact0[0]), intact0[1..];
  }

  /** The ranges the second pass goes on with. */
  function Shifted(next: Option<Range>, intact: seq<Range>, j: int): (Option<Range>, seq<Range>)
  {
    if next.Some? && next.value.to == j then (if intact == [] then (None, []) else (Some(intact[0]), intact[1..])) else (next, intact)
  }

  lemma RestShift<T>(l: seq<T>, next: Option<Range>, intact: seq<Range>, j: int, to: int)
    requires Pending(|l|, next, intact, j, to)
    ensures var (n, i) := Shifted(next, intact, j);
      Pending(|l|, n, i, j, to) && Rest(l, n, i, j) == Rest(l, next, intact, j) && (n.None? || n.value.to > j)
  {
    if next.Some? && next.value.to == j && intact != [] {
      assert intact[0] in intact;
      forall r | r in intact[1..]
        ensures r in intact
      {
      }
    }
  }

  lemma RestStep<T>(l: seq<T>, next: Option<Range>, intact: seq<Range>, j: int, to: int)
    requires Pending(|l|, next, intact, j, to) && (next.None? || next.value.to > j) && j < to
    ensures Pending(|l|, next, intact, j + 1, to)
    ensures Rest(l, next, intact, j) == (if next.None? || next.value.from > j then [] else [l[j]]) + Rest(l, next, intact, j + 1)
  {
    hide KeptLines;
    if next.Some? && next.value.from <= j {
      assert l[j..next.value.to] == [l[j]] + l[j + 1..next.value.to];
    }
  }

  lemma RestBegins<T>(l: seq<T>, intact: seq<Range>, from: int, to: int)
    requires 0 <= from <= to <= |l| && InWindow(intact, from, to) && (forall a, b :: 0 <= a < b < |intact| ==> intact[a].to <= intact[b].from)
    ensures var next := if intact == [] then None else Some(intact[0]); var rest := if intact == [] then [] else intact[1..];
      Pending(|l|, next, rest, from, to) && Rest(l, next, rest, from) == KeptLines(l, intact)
  {
    if intact != [] {
      assert intact[0] in intact;
      forall r | r in intact[1..]
        ensures r in intact
      {
      }
    }
  }

  lemma RestEnds<T>(l: seq<T>, next: Option<Range>, intact: seq<Range>, to: int)
    requires Pending(|l|, next, intact, to, to)
    ensures Rest(l, next, intact, to) == []
  {
    FirstIsIn(intact);
  }

  lemma FirstIsIn<T>(s: seq<T>)
    ensures s != [] ==> s[0] in s
  {
  }

  /** The range shows line `j`. */
  predicate Shows(r: Range, j: int)
  {
    r.from <= j < r.to
  }

  /** The ranges that reach beyond line `j` are still to come. */
  predicate Ahead(intact0: seq<Range>, next: Option<Range>, intact: seq<Range>, j: int)
  {
    && (forall r <- intact0 :: r.to <= j || next == Some(r) || r in intact) && (next.Some? ==> next.value in intact0)
    && forall r <- intact :: r in intact0
  }

  lemma AheadBegins(intact0: seq<Range>, from: int)
    ensures Ahead(intact0, if intact0 == [] then None else Some(intact0[0]), if intact0 == [] then [] else intact0[1..], from)
  {
    if intact0 != [] {
      assert intact0 == [intact0[0]] + intact0[1..];
    }
  }

  lemma AheadShift(intact0: seq<Range>, next: Option<Range>, intact: seq<Range>, j: int)
    requires Ahead(intact0, next, intact, j)
    ensures Ahead(intact0, Shifted(next, intact, j).0, Shifted(next, intact, j).1, j)
  {
    if intact != [] {
      assert intact == [intact[0]] + intact[1..];
    }
  }

  /** A line is missing exactly if no range shows it. */
  lemma MissingIff(intact0: seq<Range>, next: Option<Range>, intact: seq<Range>, j: int, l: int, to: int)
    requires Ahead(intact0, next, intact, j) && Pending(l, next, intact, j, to) && (next.None? || next.value.to > j)
    ensures next.None? || next.value.from > j <==> !exists r <- intact0 :: Shows(r, j)
    ensures Ahead(intact0, next, intact, j + 1)
  {
    if next.Some? && next.value.from <= j {
      assert Shows(next.value, j);
    }
    forall r | r in intact && next.Some?
      ensures r.from >= next.value.to
    {
      var k :| 0 <= k < |intact| && intact[k] == r;
      assert intact[0] in intact;
    }
  }

  /** The second pass fills in the lines that changed. */
  method FillIn<T>(nodes0: seq<T>, from: nat, to: nat, intact0: seq<Range>, l: seq<T>) returns (nodes: seq<T>, ghost rendered: set<int>)
    requires from <= to <= |l| && InWindow(intact0, from, to) && (forall a, b :: 0 <= a < b < |intact0| ==> intact0[a].to <= intact0[b].from)
    requires nodes0 == KeptLines(l, intact0)
    ensures nodes == l[from..to]
    ensures forall j :: j in rendered <==> from <= j < to && !exists r <- intact0 :: Shows(r, j)
  {
    hide Rest, Pending, InWindow, Ahead, Shows, KeptLines;
    nodes, rendered := nodes0, {};
    RestBegins(l, intact0, from, to);
    AheadBegins(intact0, from);
    var nextIntact, intact := Shift(intact0);
    var curNode: nat, j: nat := 0, from;
    while j < to
      invariant from <= j <= to && curNode == j - from
      invariant Pending(|l|, nextIntact, intact, j, to) && nodes == l[from..j] + Rest(l, nextIntact, intact, j)
      invariant Ahead(intact0, nextIntact, intact, j)
      invariant forall k :: k in rendered <==> from <= k < j && !exists r <- intact0 :: Shows(r, k)
    {
      RestShift(l, nextIntact, intact, j, to);
      AheadShift(intact0, nextIntact, intact, j);
      if nextIntact.Some? && nextIntact.value.to == j {
        nextIntact, intact := Shift(intact);
      }
      RestStep(l, nextIntact, intact, j, to);
      MissingIff(intact0, nextIntact, intact, j, |l|, to);
      nodes := FillNode(nodes, curNode, l, from, j, nextIntact.None? || nextIntact.value.from > j, Rest(l, nextIntact, intact, j + 1));
      rendered := rendered + if nextIntact.None? || nextIntact.value.from > j then {j as int} else {};
      curNode := curNode + 1;
      j := j + 1;
    }
    RestEnds(l, nextIntact, intact, to);
  }

  /** Inserts a node for line `j`, if there is none. */
  method FillNode<T>(nodes: seq<T>, curNode: nat, l: seq<T>, ghost from: nat, j: nat, missing: bool, ghost rest: seq<T>) returns (r: seq<T>)
    requires from <= j < |l| && curNode == j - from
    requires nodes == l[from..j] + ((if missing then [] else [l[j]]) + rest)
    ensures r == l[from..j + 1] + rest
  {
    r := nodes;
    if missing {
      r := nodes[..curNode] + [l[j]] + nodes[curNode..];
    }
    assert l[from..j + 1] == l[from..j] + [l[j]];
  }

  // ---------------------------------------------------------------- updating the display

  predicate ByDomStart(rs: seq<Range>)
  {
    forall i, j :: 0 <= i < j < |rs| ==> rs[i].domStart <= rs[j].domStart
  }

  /** Ranges in order on the screen stay as they are when they are sorted, however that is done. */
  lemma {:induction false} SortIsIdentity(a: seq<Range>, b: seq<Range>)
    requires multiset(a) == multiset(b) && ByDomStart(b) && forall i, j :: 0 <= i < j < |a| ==> a[i].domStart < a[j].domStart
    ensures a == b
  {
    if a == [] {
      assert |multiset(b)| == 0;
    } else {
      assert |multiset(a)| == |multiset(b)|;
      SameFirst(a, b);
      SameRest(a, b);
      SortIsIdentity(a[1..], b[1..]);
    }
  }

  lemma SameRest(a: seq<Range>, b: seq<Range>)
    requires a != [] && b != [] && a[0] == b[0] && multiset(a) == multiset(b)
    ensures multiset(a[1..]) == multiset(b[1..]) && (a[1..] == b[1..] ==> a == b)
  {
    assert a == [a[0]] + a[1..] && b == [b[0]] + b[1..];
    assert multiset(a) == multiset{a[0]} + multiset(a[1..]);
    assert multiset(b) == multiset{b[0]} + multiset(b[1..]);
    assert multiset(a[1..]) == multiset(a) - multiset{a[0]};
    assert multiset(b[1..]) == multiset(b) - multiset{b[0]};
  }

  lemma SameFirst(a: seq<Range>, b: seq<Range>)
    requires a != [] && b != [] && multiset(a) == multiset(b)
    requires ByDomStart(b) && forall i, j :: 0 <= i < j < |a| ==> a[i].domStart < a[j].domStart
    ensures a[0] == b[0]
  {
    assert forall k :: 0 <= k < |a| ==> a[0].domStart <= a[k].domStart;
    assert forall k :: 0 <= k < |b| ==> b[0].domStart <= b[k].domStart;
    assert a[0] in multiset(a) && b[0] in multiset(b);
    assert a[0] in b && b[0] in a;
    var i :| 0 <= i < |b| && b[i] == a[0];
    var j :| 0 <= j < |a| && a[j] == b[0];
  }

  /** `Array.sort` by `domStart`, of which nothing more is known. */
  method Sort(intact: seq<Range>) returns (r: seq<Range>)
    requires forall i, j :: 0 <= i < j < |intact| ==> intact[i].domStart < intact[j].domStart
    ensures r == intact
  {
    assert multiset(intact) == multiset(intact) && ByDomStart(intact);
    var sorted :| multiset(sorted) == multiset(intact) && ByDomStart(sorted);
    SortIsIdentity(intact, sorted);
    r := sorted;
  }

  /** The part of the screen that shows lines. */
  class Screen<T(==)> {
    var nodes: seq<T>
    var showingFrom: nat
    var showingTo: nat

    /** The nodes are the lines of the window, or nothing is taken to be shown. */
    predicate Valid(doc: seq<T>)
      reads this
    {
      || (showingFrom == 0 && showingTo == 0)
      || (showingFrom <= showingTo <= |doc| && nodes == doc[showingFrom..showingTo])
    }

    constructor ()
      ensures nodes == [] && showingFrom == 0 && showingTo == 0
    {
      nodes, showingFrom, showingTo := [], 0, 0;
    }

    /** `doc0` became `doc` by the changes. The lines from `visibleFrom` to `visibleTo` are to be seen. */
    method UpdateDisplay(clientWidth: nat, visibleFrom: nat, visibleTo: nat, doc: seq<T>, changes: Changes, ghost doc0: seq<T>, ghost ins: seq<seq<T>>)
      returns (updated: bool, ghost rendered: set<int>)
      requires Valid(doc0) && doc != [] && visibleFrom <= visibleTo <= |doc|
      requires changes.These? ==> Leads(doc0, changes.list, ins, doc)
      modifies this
      ensures Valid(doc)
      ensures clientWidth == 0 ==> showingFrom == showingTo == 0 && nodes == old(nodes)
      ensures clientWidth != 0 ==> showingFrom <= visibleFrom && visibleTo <= showingTo <= |doc| && nodes == doc[showingFrom..showingTo]
      ensures forall j :: j in rendered <==> updated && showingFrom <= j < showingTo && !StillThere(old(showingFrom), old(showingTo), changes, j)
      ensures clientWidth != 0 && !updated ==> nodes == old(nodes) && showingFrom == old(showingFrom) && showingTo == old(showingTo)
      ensures changes == These([]) && visibleFrom > old(showingFrom) && visibleTo < old(showingTo) ==> !updated
      ensures updated ==> visibleFrom - 120 < showingFrom && (showingFrom == 0 || showingFrom <= visibleFrom - 100)
      ensures updated ==> showingTo < visibleTo + 120 && (showingTo == |doc| || visibleTo + 100 <= showingTo)
    {
      hide Covers, Stays, StillThere, Shows;
      rendered := {};
      if clientWidth == 0 {
        showingFrom, showingTo := 0, 0;
        return false, {};
      }
      if changes.These? && |changes.list| == 0 && visibleFrom > showingFrom && visibleTo < showingTo {
        SameShown(doc0, changes.list, ins, doc);
        return false, {};
      }
      var from, to := Window(visibleFrom, visibleTo, |doc|);
      var intact: seq<Range> := [];
      if changes.These? {
        intact := ComputeIntact([Range(showingFrom, showingTo, 0)], changes.list, doc0, ins, doc, nodes);
      }
      ghost var all := intact;
      var intactLines;
      intact, intactLines := ClipAll(intact, from, to, doc, nodes);
      forall j
        ensures (from <= j < to && !exists r <- intact :: Shows(r, j)) <==> from <= j < to && !StillThere(showingFrom, showingTo, changes, j)
      {
        RenderedIff(all, intact, from, to, showingFrom, showingTo, changes, j);
      }
      if intactLines == to - from && from == showingFrom && to == showingTo {
        AlreadyShown(doc, nodes, intact, from, to);
        return false, {};
      }
      intact := Sort(intact);
      var patched;
      patched, rendered := PatchDisplay(nodes, from, to, intact, doc);
      nodes, showingFrom, showingTo := patched, from, to;
      return true, rendered;
    }

    method Window(visibleFrom: nat, visibleTo: nat, size: nat) returns (from: nat, to: nat)
      requires visibleFrom <= visibleTo <= size && size > 0
      ensures from <= visibleFrom && visibleTo <= to <= size && from < to
      ensures visibleFrom - 120 < from && (from == 0 || from <= visibleFrom - 100) && to < visibleTo + 120 && (to == size || visibleTo + 100 <= to)
    {
      from := Max(visibleFrom - 100, 0);
      to := Min(size, visibleTo + 100);
      if showingFrom < from && from - showingFrom < 20 {
        from := showingFrom;
      }
      if showingTo > to && showingTo - to < 20 {
        to := Min(size, showingTo);
      }
    }
  }

  method PatchDisplay<T>(nodes0: seq<T>, from: nat, to: nat, intact: seq<Range>, doc: seq<T>) returns (nodes: seq<T>, ghost rendered: set<int>)
    requires from <= to <= |doc| && AllIntact(doc, nodes0, intact) && InWindow(intact, from, to)
    ensures nodes == doc[from..to]
    ensures forall j :: j in rendered <==> from <= j < to && !exists r <- intact :: Shows(r, j)
  {
    nodes := RemoveNodes(nodes0, intact, doc);
    nodes, rendered := FillIn(nodes, from, to, intact, doc);
  }

  /** Line `j` was on the screen, perhaps with another number, and the changes do not touch it. */
  ghost predicate StillThere(from: int, to: int, changes: Changes, j: int)
  {
    changes.These? && exists p :: from <= p < to && Follow(p, changes.list) == Some(j)
  }

  lemma ShownIsCovered(rs: seq<Range>, j: int)
    ensures (exists r <- rs :: Shows(r, j)) <==> exists d :: Covers(rs, j, d)
  {
    if r :| r in rs && Shows(r, j) {
      assert Holds(r, j, r.domStart + (j - r.from));
      assert Covers(rs, j, r.domStart + (j - r.from));
    }
    if d :| Covers(rs, j, d) {
      var r :| r in rs && Holds(r, j, d);
      assert Shows(r, j);
    }
  }

  lemma AllStay(from: int, to: int, cs: seq<LineChange>, j: int)
    ensures (exists d :: Stays([Range(from, to, 0)], d, cs, j)) <==> StillThere(from, to, These(cs), j)
  {
    var rs := [Range(from, to, 0)];
    if StillThere(from, to, These(cs), j) {
      var p :| from <= p < to && Follow(p, cs) == Some(j);
      CoversOne(rs[0], p, p - from);
      assert Stays(rs, p - from, cs, j);
    }
    if d :| Stays(rs, d, cs, j) {
      var p :| Covers(rs, p, d) && Follow(p, cs) == Some(j);
      CoversOne(rs[0], p, d);
    }
  }

  /** What is rendered anew: the lines of the window that were not there, or are not there any more. */
  lemma RenderedIff(intact0: seq<Range>, clipped: seq<Range>, from: int, to: int, showingFrom: int, showingTo: int, changes: Changes, j: int)
    requires if changes.These? then forall d :: Covers(intact0, j, d) <==> Stays([Range(showingFrom, showingTo, 0)], d, changes.list, j) else intact0 == []
    requires forall d :: Covers(clipped, j, d) <==> from <= j < to && Covers(intact0, j, d)
    ensures (from <= j < to && !exists r <- clipped :: Shows(r, j)) <==> from <= j < to && !StillThere(showingFrom, showingTo, changes, j)
  {
    hide Covers, Stays, StillThere, Shows;
    ShownIsCovered(clipped, j);
    if changes.These? {
      AllStay(showingFrom, showingTo, changes.list, j);
    } else {
      forall d
        ensures !Covers(intact0, j, d)
      {
        CoversOne(Range(0, 0, 0), j, d);
      }
      NeverThere(showingFrom, showingTo, changes, j);
    }
  }

  lemma NeverThere(from: int, to: int, changes: Changes, j: int)
    requires changes.Everything?
    ensures !StillThere(from, to, changes, j)
  {
  }

  lemma SameShown<T>(l: seq<T>, cs: seq<LineChange>, ins: seq<seq<T>>, r: seq<T>)
    requires cs == [] && Leads(l, cs, ins, r)
    ensures l == r
  {
  }

  lemma AlreadyShown<T>(doc: seq<T>, nodes: seq<T>, intact: seq<Range>, from: nat, to: nat)
    requires AllIntact(doc, nodes, intact) && InWindow(intact, from, to) && from < to <= |doc| && Total(intact) == to - from == |nodes|
    ensures nodes == doc[from..to]
  {
    forall r | r in intact
      ensures 0 <= r.domStart && r.domStart + (r.to - r.from) <= |nodes|
    {
      assert Intact(doc, nodes, r);
    }
    NoGap(doc, nodes, intact, from, to, |nodes|);
    assert nodes[..|nodes|] == nodes;
  }
}
