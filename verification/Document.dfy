/** The document: a line tree and the plain list of lines it stands for. */
module Document {
  import opened Wrappers
  import opened Rope
  import opened Lines

  class Doc {
    var root: Chunk
    ghost var m: Picture
    ghost var gone: set<Line>

    /** The tree is sound, and the lines that were taken out are in it no more. */
    ghost predicate Valid()
      reads this, m.Keys, gone, set c <- m.Keys, l <- m[c].lines :: l
    {
      Lines.Doc(m, root) && root in m && forall l <- gone :: l.parent == null
    }

    /** The list of lines that the tree stands for. */
    ghost function Content(): seq<Line>
      reads this
    {
      if root in m then m[root].content else []
    }

    /** Everything an insertion or a removal may change: the chunks, and the lines' pointers to them. */
    ghost function Chunks(): set<Chunk>
      reads this
    {
      m.Keys
    }

    ghost function Members(): set<Line>
      reads this
    {
      LineSet(Content())
    }

    constructor ()
      ensures Valid() && fresh(Chunks()) && fresh(Content()) && gone == {}
      ensures |Content()| == 1 && Content()[0].text == "" && Content()[0].height == 1
    {
      hide Lines.Doc, Look, NoDup;
      var line := new Line("");
      var leaf := new Chunk.Leaf([line]);
      ghost var below := map[leaf := Look(leaf)];
      var branch := new Chunk.Branch([leaf], below, 1);
      root, gone := branch, {};
      m := Adopted(below, [leaf], branch)[branch := BranchCell(below, [leaf], null, 1)];
      new;
      FirstTree(below, leaf, line, root, m);
    }

    /** Adds up the heights of new lines and inserts them. */
    method Insert(at: nat, ls: seq<Line>)
      requires Valid() && at <= |Content()| && NewLines(ls)
      modifies this`m, this`gone, Chunks(), ls`parent, (set l <- Content())`parent
      ensures Valid() && Content() == old(Content())[..at] + ls + old(Content())[at..]
      ensures gone == old(gone) - LineSet(ls) && fresh(Chunks() - old(Chunks())) && root == old(root)
    {
      hide Lines.Doc, AllLocal, AllCap, AllLines, Pending, NoDup;
      NewContent(m, root, at, ls);
      GoneApart(m, root, gone);
      LinesAreContent(m, root);
      var height := TotalHeight(ls);
      gone := gone - LineSet(ls);
      m := InsertAt(at, ls, height);
    }

    method InsertAt(at: nat, ls: seq<Line>, height: int) returns (ghost n: Picture)
      requires Lines.Doc(m, root) && root in m && at <= |m[root].content| && NewLines(ls) && HeightSum(ls) == height
      requires NoDup(m[root].content[..at] + ls + m[root].content[at..])
      modifies m.Keys, ls`parent, LinesIn(m)`parent
      ensures Lines.Doc(n, root) && root in n && n[root].content == m[root].content[..at] + ls + m[root].content[at..]
      ensures fresh(n.Keys - m.Keys)
    {
      hide AllLocal, AllCap, AllLines, Pending, NoDup;
      n := AnnounceRoot(at, ls, height);
      n := root.InsertHeight(at, ls, height, n, root);
    }

    ghost method AnnounceRoot(at: nat, ls: seq<Line>, h: int) returns (n: Picture)
      requires Lines.Doc(m, root) && root in m && at <= |m[root].content| && HeightSum(ls) == h && NewLines(ls)
      modifies root`content, root`tall
      ensures Shows(n) && Inserting(n, root, root, at, ls, h) && AllLines(n, {}) && n.Keys == m.Keys && LinesIn(n) <= LinesIn(m)
      ensures NewLines(ls) && HeightSum(ls) == h
      ensures root in n && !root.isLeaf && n[root].content == m[root].content[..at] + ls + m[root].content[at..] && n[root].tall == m[root].tall + h
    {
      n := Announced(m, root, at, ls, h);
      AnnouncedRoot(m, root, at, ls, h);
      root.content := root.content[..at] + ls + root.content[at..];
      root.tall := root.tall + h;
    }

    method Remove(at: nat, n: nat)
      requires Valid() && at + n <= |Content()|
      modifies this`m, this`gone, Chunks(), (set l <- Content())`parent
      ensures Valid() && Content() == Cut(old(Content()), at, n)
      ensures gone == old(gone) + LineSet(old(Content())[at..at + n]) && fresh(Chunks() - old(Chunks()))
    {
      hide Lines.Doc, AllLocal, AllCap, AllLines, NoDup;
      GoneApart(m, root, gone);
      RootCanTrim(m, root);
      ghost var was := m[root].content;
      ghost var r := root.Trim(at, n, m, {});
      RootTrimmed(m, r, root, at, n);
      gone := gone + LineSet(was[at..at + n]);
      m := r;
    }

    method Size() returns (n: nat)
      requires Valid()
      ensures n == |Content()| && Valid()
    {
      assert Local(m, root);
      n := root.size;
    }

    method GetLine(n: nat) returns (line: Line)
      requires Valid() && n < |Content()|
      ensures line == Content()[n] && Valid()
    {
      line := GetLineAt(root, n, m);
    }

    /** The number of a line: null exactly for the lines that were taken out. */
    method LineNumber(line: Line) returns (r: Option<nat>)
      requires Valid() && (line in Content() || line in gone)
      ensures r.None? <==> line in gone
      ensures r.None? <==> line !in Content()
      ensures r.Some? ==> r.value < |Content()| && Content()[r.value] == line
    {
      GoneApart(m, root, gone);
      assert line in LineSet(m[root].content) <==> line in Content();
      r := LineNo(line, m, root);
    }

    method SetLineHeight(line: Line, height: nat)
      requires Valid() && line in Content()
      modifies this`m, Chunks(), line`height
      ensures Valid() && Content() == old(Content()) && line.height == height && Chunks() == old(Chunks()) && gone == old(gone)
    {
      hide Lines.Doc;
      m := UpdateLineHeight(line, height, m, root);
    }

    method SetText(line: Line, text: string)
      requires Valid()
      modifies line`text
      ensures Valid() && line.text == text
    {
      line.text := text;
      forall c | c in m
        ensures LinesOk(m, c)
      {
        assert old(LinesOk(m, c));
      }
    }
  }

  ghost function Announced(m: Picture, root: Chunk, at: nat, ls: seq<Line>, h: int): Picture
    requires root in m && at <= |m[root].content|
  {
    m[root := m[root].(content := m[root].content[..at] + ls + m[root].content[at..], tall := m[root].tall + h)]
  }

  lemma AnnouncedRoot(m: Picture, root: Chunk, at: nat, ls: seq<Line>, h: int)
    requires Lines.Doc(m, root) && at <= |m[root].content|
    ensures Inserting(Announced(m, root, at, ls, h), root, root, at, ls, h) && AllLines(Announced(m, root, at, ls, h), {})
    ensures LinesIn(Announced(m, root, at, ls, h)) <= LinesIn(m)
  {
    var n := Announced(m, root, at, ls, h);
    assert Local(m, root) && Cap(m[root]);
    SumsSame(m, n, m[root].kids);
    forall c | c in n && c != root
      ensures Local(n, c)
    {
      AnnouncedOther(m, root, at, ls, h, c);
    }
    AnnouncedLines(m, root, at, ls, h);
  }

  lemma AnnouncedOther(m: Picture, root: Chunk, at: nat, ls: seq<Line>, h: int, c: Chunk)
    requires TreeOf(m, root) && at <= |m[root].content| && c in m && c != root
    ensures Local(Announced(m, root, at, ls, h), c)
  {
    var n := Announced(m, root, at, ls, h);
    assert Local(m, c) && Local(m, root);
    assert forall k <- m[c].kids :: k in n && k != root;
    SumsSame(m, n, m[c].kids);
  }

  lemma AnnouncedLines(m: Picture, root: Chunk, at: nat, ls: seq<Line>, h: int)
    requires TreeOf(m, root) && AllLines(m, {}) && at <= |m[root].content|
    ensures AllLines(Announced(m, root, at, ls, h), {}) && LinesIn(Announced(m, root, at, ls, h)) <= LinesIn(m)
  {
    var n := Announced(m, root, at, ls, h);
    assert Local(m, root);
    forall c | c in n
      ensures LinesOk(n, c) && n[c].lines == m[c].lines
    {
      assert LinesOk(m, c);
    }
  }

  /** No line will be twice in the document. */
  lemma NewContent(m: Picture, root: Chunk, at: nat, ls: seq<Line>)
    requires Lines.Doc(m, root) && at <= |m[root].content| && NewLines(ls)
    ensures NoDup(m[root].content[..at] + ls + m[root].content[at..])
  {
    forall l | l in ls
      ensures l !in m[root].content
    {
      Home(l, m, root);
    }
    NoDupPut(m[root].content, at, ls);
  }

  lemma FirstTree(below: Picture, leaf: Chunk, line: Line, root: Chunk, m: Picture)
    requires leaf != root && below == map[leaf := LeafCell([line], line.height, null)]
    requires m == Adopted(below, [leaf], root)[root := BranchCell(below, [leaf], null, 1)]
    requires Shows(m) && line.parent == leaf
    ensures Lines.Doc(m, root) && m[root].content == [line]
  {
    SumsOne(below, leaf);
    SumsOne(m, leaf);
    assert HeightSum([line]) == line.height;
    assert Local(m, leaf) && Local(m, root);
    assert LinesOk(m, leaf) && LinesOk(m, root);
  }

  function LineSet(ls: seq<Line>): set<Line>
  {
    set l | l in ls
  }

  /** Lines without a parent are in no leaf, and not in the document. */
  lemma GoneApart(m: Picture, root: Chunk, gone: set<Line>)
    requires Lines.Doc(m, root) && forall l <- gone :: l.parent == null
    ensures gone !! LinesIn(m) && gone !! LineSet(m[root].content)
  {
    forall l | l in gone
      ensures l !in m[root].content
    {
      Home(l, m, root);
    }
    forall c, l | c in m && l in m[c].lines
      ensures l.parent != null
    {
      assert Local(m, c) && LinesOk(m, c);
    }
  }

  /** The content of a chunk is part of the document. */
  lemma {:induction false} ContentBelow(m: Picture, root: Chunk, c: Chunk)
    requires TreeOf(m, root) && c in m
    ensures forall l <- m[c].content :: l in m[root].content
    decreases m[root].rank - m[c].rank
  {
    assert Local(m, c);
    if c != root {
      var p := m[c].parent;
      assert Local(m, p);
      var i :| 0 <= i < |m[p].kids| && m[p].kids[i] == c;
      SumsAt(m, m[p].kids, i);
      ContentBelow(m, root, p);
    }
  }

  lemma LinesAreContent(m: Picture, root: Chunk)
    requires Lines.Doc(m, root)
    ensures LinesIn(m) <= LineSet(m[root].content)
  {
    forall l | l in LinesIn(m)
      ensures l in m[root].content
    {
      var c :| c in m && l in m[c].lines;
      assert Local(m, c);
      ContentBelow(m, root, c);
    }
  }

  lemma RootCanTrim(m: Picture, root: Chunk)
    requires Lines.Doc(m, root)
    ensures Shows(m) && CanTrim(m, {}, root) && AllLines(m, {}) && TreeOf(m, root) && !root.isLeaf
  {
  }

  lemma RootTrimmed(m: Picture, r: Picture, root: Chunk, at: nat, n: nat)
    requires Shows(r) && Trimmed(m, r, {}, root, at, n) && CapOutside(r, {}) && AllLines(r, {})
    requires TreeOf(m, root) && NoDup(m[root].content)
    ensures Lines.Doc(r, root)
  {
    CutApart(m[root].content, at, n);
    assert m[root].rank == r[root].rank;
  }

  method TotalHeight(ls: seq<Line>) returns (h: int)
    ensures h == HeightSum(ls)
  {
    h := 0;
    for i := 0 to |ls|
      invariant h == HeightSum(ls[..i])
    {
      HeightSumSnoc(ls, i);
      h := h + ls[i].height;
    }
    assert ls[..|ls|] == ls;
  }
}
