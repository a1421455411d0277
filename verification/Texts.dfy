/** Texts as lists of lines and as strings: what an edit between two positions means. */
module Texts {
  import opened Undo

  datatype Pos = Pos(line: int, ch: int)

  function Join(t: Text): string
  {
    if t == [] then "" else if |t| == 1 then t[0] else t[0] + "\n" + Join(t[1..])
  }

  predicate ValidPos(t: Text, p: Pos)
  {
    0 <= p.line < |t| && 0 <= p.ch <= |t[p.line]|
  }

  predicate InOrder(p: Pos, q: Pos)
  {
    p.line < q.line || (p.line == q.line && p.ch <= q.ch)
  }

  predicate ValidRange(t: Text, from: Pos, to: Pos)
  {
    ValidPos(t, from) && ValidPos(t, to) && InOrder(from, to)
  }

  /** The length of the lines with the breaks after them. */
  function Lengths(t: Text): nat
  {
    if t == [] then 0 else |t[0]| + 1 + Lengths(t[1..])
  }

  /** How many characters come before a position. */
  function Index(t: Text, p: Pos): (i: int)
    requires ValidPos(t, p)
  {
    Lengths(t[..p.line]) + p.ch
  }

  /** New lines between the beginning of one line and the end of another. */
  function Glued(before: string, ins: Text, after: string): (r: Text)
    requires ins != []
    ensures |r| == |ins|
  {
    if |ins| == 1 then [before + ins[0] + after]
    else [before + ins[0]] + ins[1..|ins| - 1] + [ins[|ins| - 1] + after]
  }

  /** The lines after the text from `from` to `to` is replaced. */
  function Edited(t: Text, from: Pos, to: Pos, ins: Text): (r: Text)
    requires ValidRange(t, from, to) && ins != []
    ensures |r| == |t| - (to.line - from.line + 1) + |ins|
  {
    Splice(t, from.line, to.line - from.line + 1, Glued(t[from.line][..from.ch], ins, t[to.line][to.ch..]))
  }

  lemma {:induction false} LengthsAppend(a: Text, b: Text)
    ensures Lengths(a + b) == Lengths(a) + Lengths(b)
  {
    if a == [] {
      assert a + b == b;
    } else {
      assert (a + b)[1..] == a[1..] + b;
      LengthsAppend(a[1..], b);
    }
  }

  /** The string up to the last line of two parts. */
  lemma {:induction false} JoinAppend(a: Text, b: Text)
    requires a != [] && b != []
    ensures Join(a + b) == Join(a) + "\n" + Join(b)
    ensures |Join(a)| + 1 == Lengths(a)
  {
    assert (a + b)[1..] == a[1..] + b;
    if |a| > 1 {
      JoinAppend(a[1..], b);
    }
  }

  /** What comes before the line break that ends the lines `a`. */
  function Before(a: Text): (r: string)
    ensures |r| == Lengths(a)
  {
    if a == [] then "" else a[0] + "\n" + Before(a[1..])
  }

  /** What comes after the lines that `b` follows. */
  function After(b: Text): string
  {
    if b == [] then "" else "\n" + Join(b)
  }

  /** A text seen around one of its lines. */
  lemma {:induction false} JoinAround(a: Text, l: string, b: Text)
    ensures Join(a + [l] + b) == Before(a) + l + After(b)
  {
    if a == [] {
      assert a + [l] + b == [l] + b;
      assert ([l] + b)[1..] == b;
    } else {
      assert (a + [l] + b)[1..] == a[1..] + [l] + b;
      JoinAround(a[1..], l, b);
    }
  }

  /** Cutting the string at a position. */
  lemma CutAt(t: Text, p: Pos)
    requires ValidPos(t, p)
    ensures Index(t, p) <= |Join(t)|
    ensures Join(t)[..Index(t, p)] == Before(t[..p.line]) + t[p.line][..p.ch]
    ensures Join(t)[Index(t, p)..] == t[p.line][p.ch..] + After(t[p.line + 1..])
  {
    var a, l, b := t[..p.line], t[p.line], t[p.line + 1..];
    assert t == a + [l] + b;
    JoinAround(a, l, b);
    assert l == l[..p.ch] + l[p.ch..];
    assert Join(t) == (Before(a) + l[..p.ch]) + (l[p.ch..] + After(b));
  }

  lemma {:induction false} BeforeAppend(a: Text, b: Text)
    ensures Before(a + b) == Before(a) + Before(b)
  {
    if a == [] {
      assert a + b == b;
    } else {
      assert (a + b)[1..] == a[1..] + b;
      BeforeAppend(a[1..], b);
    }
  }

  /** The lines glued between two parts, as a string. */
  lemma GluedJoin(a: Text, before: string, ins: Text, after: string, b: Text)
    requires ins != []
    ensures Join(a + Glued(before, ins, after) + b) == (Before(a) + before) + Join(ins) + (after + After(b))
  {
    hide Before, After, Join;
    if |ins| == 1 {
      JoinAround(a, before + ins[0] + after, b);
      JoinOne(ins[0]);
      assert ins == [ins[0]];
      Assoc3(Before(a), before, ins[0], after, After(b));
    } else {
      GluedLines(a, before, ins, after, b);
    }
  }

  lemma JoinOne(l: string)
    ensures Join([l]) == l && Before([l]) == l + "\n" && After([]) == ""
  {
  }

  lemma GluedLines(a: Text, before: string, ins: Text, after: string, b: Text)
    requires |ins| > 1
    ensures Join(a + Glued(before, ins, after) + b) == (Before(a) + before) + Join(ins) + (after + After(b))
  {
    hide Before, After, Join, Lengths;
    var first, mid, last := ins[0], ins[1..|ins| - 1], ins[|ins| - 1];
    GluedShape(a, before + first, mid, last + after, b);
    JoinAround(a + [before + first] + mid, last + after, b);
    BeforeAround(a, before + first, mid);
    JoinLines(first, mid, last);
    assert ins == [first] + mid + [last];
    Assoc4(Before(a), before, first, "\n", Before(mid), last, after, After(b));
  }

  lemma GluedShape<T>(a: seq<T>, f: T, mid: seq<T>, l: T, b: seq<T>)
    ensures a + ([f] + mid + [l]) + b == (a + [f] + mid) + [l] + b
  {
  }

  lemma BeforeAround(a: Text, l: string, mid: Text)
    ensures Before(a + [l] + mid) == Before(a) + (l + "\n") + Before(mid)
  {
    hide Before;
    BeforeAppend(a + [l], mid);
    BeforeAppend(a, [l]);
    JoinOne(l);
  }

  lemma JoinLines(first: string, mid: Text, last: string)
    ensures Join([first] + mid + [last]) == first + "\n" + Before(mid) + last
  {
    hide Before, Join, After;
    JoinAround([first] + mid, last, []);
    assert [first] + mid + [last] + [] == [first] + mid + [last];
    BeforeAppend([first], mid);
    JoinOne(first);
    JoinOne(last);
  }

  lemma Assoc3(a: string, b: string, c: string, d: string, e: string)
    ensures a + (b + c + d) + e == (a + b) + c + (d + e)
  {
  }

  lemma Assoc4(a: string, b: string, c: string, n: string, m: string, l: string, d: string, e: string)
    ensures (a + (b + c + n) + m) + (l + d) + e == (a + b) + (c + n + m + l) + (d + e)
  {
    assert (a + (b + c + n) + m) == (a + b) + (c + n + m);
  }

  /** An edit is one splice of the string. */
  lemma EditIsSplice(t: Text, from: Pos, to: Pos, ins: Text)
    requires ValidRange(t, from, to) && ins != []
    ensures 0 <= Index(t, from) <= Index(t, to) <= |Join(t)|
    ensures Join(Edited(t, from, to, ins)) == Join(t)[..Index(t, from)] + Join(ins) + Join(t)[Index(t, to)..]
  {
    hide Before, After, Join, Index, Glued;
    CutAt(t, from);
    CutAt(t, to);
    IndexGrows(t, from, to);
    GluedJoin(t[..from.line], t[from.line][..from.ch], ins, t[to.line][to.ch..], t[to.line + 1..]);
  }

  lemma IndexGrows(t: Text, p: Pos, q: Pos)
    requires ValidRange(t, p, q)
    ensures 0 <= Index(t, p) <= Index(t, q)
    ensures Index(t, p) == Index(t, q) ==> p == q
  {
    if p.line < q.line {
      assert t[..q.line] == t[..p.line] + t[p.line..q.line];
      LengthsAppend(t[..p.line], t[p.line..q.line]);
    }
  }

  /** No two positions have the same index. */
  lemma OnePosAtIndex(t: Text, p: Pos, q: Pos)
    requires ValidPos(t, p) && ValidPos(t, q) && Index(t, p) == Index(t, q)
    ensures p == q
  {
    if InOrder(p, q) {
      IndexGrows(t, p, q);
    } else {
      IndexGrows(t, q, p);
    }
  }

  /** The text between two positions, line by line. */
  function Range(t: Text, from: Pos, to: Pos): string
    requires ValidRange(t, from, to)
  {
    if from.line == to.line then t[from.line][from.ch..to.ch]
    else Join([t[from.line][from.ch..]] + t[from.line + 1..to.line] + [t[to.line][..to.ch]])
  }

  /** It is a slice of the string. */
  lemma RangeIsSlice(t: Text, from: Pos, to: Pos)
    requires ValidRange(t, from, to)
    ensures 0 <= Index(t, from) <= Index(t, to) <= |Join(t)| && Range(t, from, to) == Join(t)[Index(t, from)..Index(t, to)]
  {
    hide Before, After, Join, Index;
    CutAt(t, from);
    CutAt(t, to);
    IndexGrows(t, from, to);
    var i, j := Index(t, from), Index(t, to);
    TwoCuts(Join(t), i, j);
    if from.line == to.line {
      OneLineSlice(Before(t[..from.line]), t[from.line], from.ch, to.ch);
    } else {
      BeforeTo(t, from, to);
      JoinLines(t[from.line][from.ch..], t[from.line + 1..to.line], t[to.line][..to.ch]);
      DropPrefix(Join(t)[..i], t[from.line][from.ch..] + "\n" + Before(t[from.line + 1..to.line]) + t[to.line][..to.ch]);
    }
  }

  lemma TwoCuts(s: string, i: nat, j: nat)
    requires i <= j <= |s|
    ensures s[i..j] == s[..j][|s[..i]|..]
  {
  }

  lemma DropPrefix(a: string, x: string)
    ensures (a + x)[|a|..] == x
  {
  }

  lemma OneLineSlice(a: string, l: string, i: nat, j: nat)
    requires i <= j <= |l|
    ensures (a + l[..j])[|a + l[..i]|..] == l[i..j]
  {
  }

  /** Everything before the end of a range, from everything before its beginning. */
  lemma BeforeTo(t: Text, from: Pos, to: Pos)
    requires ValidRange(t, from, to) && from.line < to.line
    ensures Before(t[..to.line]) + t[to.line][..to.ch] ==
      (Before(t[..from.line]) + t[from.line][..from.ch])
      + (t[from.line][from.ch..] + "\n" + Before(t[from.line + 1..to.line]) + t[to.line][..to.ch])
  {
    hide Before;
    var a, f, mid := t[..from.line], t[from.line], t[from.line + 1..to.line];
    assert t[..to.line] == a + [f] + mid;
    BeforeAround(a, f, mid);
    assert f == f[..from.ch] + f[from.ch..];
    Assoc5(Before(a), f[..from.ch], f[from.ch..], "\n", Before(mid), t[to.line][..to.ch]);
  }

  lemma Assoc5(a: string, b: string, c: string, n: string, m: string, l: string)
    ensures (a + ((b + c) + n) + m) + l == (a + b) + (c + n + m + l)
  {
  }
}
