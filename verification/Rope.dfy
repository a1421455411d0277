/** The line tree of the editor: leaves hold lines, branches hold chunks, and every chunk
    caches how many lines it holds and how tall they are together. */
module Rope {

  class Line {
    var text: string
    var height: nat
    var parent: Chunk?

    constructor (text: string)
      ensures this.text == text && height == 1 && parent == null
    {
      this.text := text;
      height := 1;
      parent := null;
    }
  }

  /** Both prototypes of the source in one class; `isLeaf` is its test for a `lines` field.
      The ghost fields say what a chunk stands for: the lines below it and their joint
      height. `rank` only bounds the depth: a chunk ranks above its children. */
  class Chunk {
    const isLeaf: bool
    var lines: seq<Line>
    var children: seq<Chunk>
    var size: int
    var height: int
    var parent: Chunk?
    ghost var content: seq<Line>
    ghost var tall: int
    ghost var rank: nat

    function ChunkSize(): int
      reads this
    {
      if isLeaf then |lines| else size
    }

    /** The loop of the branch constructor: points the chunks here and adds up their caches. */
    method Adopt(cs: seq<Chunk>, ghost m: Picture) returns (s: int, h: int)
      requires Shows(m) && forall c <- cs :: c in m && Cached(m[c])
      requires this !in m
      modifies cs`parent
      ensures s == |Contents(m, cs)| && h == Talls(m, cs)
      ensures Shows(Adopted(m, cs, this))
    {
      s, h := 0, 0;
      for i := 0 to |cs|
        invariant s == |Contents(m, cs[..i])| && h == Talls(m, cs[..i])
        invariant Shows(Adopted(m, cs[..i], this))
      {
        SumsSnoc(m, cs, i);
        assert cs[i] in m;
        s := s + cs[i].ChunkSize();
        h := h + cs[i].height;
        cs[i].parent := this;
      }
      assert cs[..|cs|] == cs;
    }

    /** A new branch takes over the given chunks, which look as in `m`. */
    constructor Branch(cs: seq<Chunk>, ghost m: Picture, ghost r: nat)
      requires Shows(m) && forall c <- cs :: c in m && Cached(m[c])
      modifies cs`parent
      ensures this !in m && Shows(Adopted(m, cs, this)[this := BranchCell(m, cs, null, r)])
    {
      hide Cached, Talls, Contents;
      isLeaf, lines, children, size, height, parent := false, [], cs, 0, 0, null;
      content, tall, rank := Contents(m, cs), Talls(m, cs), r;
      new;
      var s, h := Adopt(cs, m);
      size, height := s, h;
      assert Look(this) == BranchCell(m, cs, null, r);
      assert Shows(Adopted(m, cs, this));
    }

    /** A new leaf takes over the given lines. */
    constructor Leaf(ls: seq<Line>)
      modifies ls`parent
      ensures isLeaf && Look(this) == LeafCell(ls, HeightSum(ls), null) && HeightSum(ls) == old(HeightSum(ls))
      ensures forall l <- ls :: l.parent == this
    {
      isLeaf, lines, children, size, height, parent := true, ls, [], 0, 0, null;
      content, tall, rank := ls, HeightSum(ls), 0;
      new;
      var h := 0;
      for i := 0 to |ls|
        invariant h == HeightSum(ls[..i])
        invariant forall j :: 0 <= j < i ==> ls[j].parent == this
        modifies ls`parent
      {
        HeightSumSnoc(ls, i);
        ls[i].parent := this;
        h := h + ls[i].height;
      }
      assert ls[..|ls|] == ls;
      height := h;
    }

    /** Inserts lines, of joint height `h`, below this branch, whose ghost content already has them. */
    method InsertHeight(at: nat, ls: seq<Line>, h: int, ghost m: Picture, ghost root: Chunk) returns (ghost n: Picture)
      requires Shows(m) && Inserting(m, root, this, at, ls, h) && !isLeaf
      requires AllLines(m, {}) && NewLines(ls) && HeightSum(ls) == h
      modifies m.Keys, ls`parent, LinesIn(m)`parent
      ensures Shows(n) && TreeOf(n, root) && AllCap(n) && AllLines(n, {}) && m.Keys <= n.Keys && fresh(n.Keys - m.Keys)
      ensures n[root].content == m[root].content && n[root].tall == m[root].tall
      decreases m[this].rank
    {
      hide Rooted, HeightSum, Pending;
      var i, at';
      i, at', n := CountAndFind(at, ls, h, m, root);
      var child := children[i];
      if child.isLeaf {
        n := InsertInLeaf(i, at', ls, h, n, root);
      } else {
        n := child.InsertHeight(at', ls, h, n, root);
      }
    }

    /** The first half of `insertHeight`: count the new lines and find the child to put them in. */
    method CountAndFind(at: nat, ls: seq<Line>, h: int, ghost m: Picture, ghost root: Chunk) returns (i: nat, at': nat, ghost n: Picture)
      requires Shows(m) && Inserting(m, root, this, at, ls, h) && !isLeaf && AllLines(m, {})
      modifies m.Keys
      ensures children == m[this].kids && i < |children| && children[i] in n && n.Keys == m.Keys
      ensures Shows(n) && Inserting(n, root, children[i], at', ls, h) && n[children[i]].rank < m[this].rank
      ensures n[root].content == m[root].content && n[root].tall == m[root].tall
      ensures AllLines(n, if children[i].isLeaf then {children[i]} else {})
      ensures LinesIn(n) <= LinesIn(m)
      ensures LinesOk(m, children[i]) && m[children[i]].lines == n[children[i]].lines && m[children[i]].tall == n[children[i]].tall - h
    {
      hide Pending, LinesOk, NoDup, AllCap, First;
      size := size + |ls|;
      height := height + h;
      forall c | c in m
        ensures Look(c) == if c == this then m[c].(size := m[c].size + |ls|, height := m[c].height + h) else m[c]
      {
        assert old(Look(c)) == m[c];
      }
      i, at' := FindForInsert(at, ls, h, m, root);
      var child := children[i];
      n := AnnounceTo(child, at', ls, h, m);
      InsertStep(m, root, this, at, i, at', ls, h);
      AnnounceLines(m, this, child, at', ls, h);
    }

    /** Ghost: the child's content grows before its fields do. */
    ghost method AnnounceTo(child: Chunk, at: nat, ls: seq<Line>, h: int, m: Picture) returns (n: Picture)
      requires this in m && child in m && this != child && at <= |m[child].content|
      requires forall c <- m.Keys :: Look(c) == if c == this then m[c].(size := m[c].size + |ls|, height := m[c].height + h) else m[c]
      modifies child`content, child`tall
      ensures n == Announce(m, this, child, at, ls, h) && Shows(n)
    {
      n := Announce(m, this, child, at, ls, h);
      child.content := child.content[..at] + ls + child.content[at..];
      child.tall := child.tall + h;
    }

    /** The part of `insertHeight` for a child that is a leaf: put the lines in, cut it up while
        it holds more than 50, and split branches that now hold too many children. */
    method InsertInLeaf(i: nat, at: nat, ls: seq<Line>, h: int, ghost m: Picture, ghost root: Chunk) returns (ghost n: Picture)
      requires Shows(m) && this in m && !isLeaf && i < |children| && children[i].isLeaf
      requires Inserting(m, root, children[i], at, ls, h) && AllLines(m, {children[i]}) && NewLines(ls) && HeightSum(ls) == h
      requires var leaf := children[i]; var l := leaf.lines;
        HeightSum(l) == leaf.tall - h && NoDup(l) && forall x <- l :: x.parent == leaf
      modifies m.Keys, ls`parent, (set l <- children[i].lines)`parent
      ensures Shows(n) && TreeOf(n, root) && AllCap(n) && AllLines(n, {}) && m.Keys <= n.Keys && fresh(n.Keys - m.Keys)
      ensures n[root].content == m[root].content && n[root].tall == m[root].tall
    {
      hide HeightSum, AllLocal, TreeOf;
      var child := children[i];
      n := child.LeafInsert(at, ls, h, m);
      LeafTakes(m, n, root, child, at, ls, h);
      if |child.lines| > 50 {
        assert CuttingUp(n, n, root, this, i, child);
        n := Settle(i, n, root);
      }
    }

    /** Cuts up the overfull leaf number `i`, then any overfull branch from here up. */
    method Settle(i: nat, ghost m: Picture, ghost root: Chunk) returns (ghost n: Picture)
      requires this in m && Shows(m) && i < |children| && CuttingUp(m, m, root, this, i, children[i]) && AllLines(m, {})
      requires |children[i].lines| > 50
      modifies m.Keys, (set l <- children[i].lines)`parent
      ensures Shows(n) && TreeOf(n, root) && AllCap(n) && AllLines(n, {}) && m.Keys <= n.Keys && fresh(n.Keys - m.Keys)
      ensures n[root].content == m[root].content && n[root].tall == m[root].tall
    {
      hide Rooted, TreeOf, AllLines;
      n := m;
      var child := children[i];
      assert Look(child) == m[child];
      while |child.lines| > 50
        invariant Shows(n) && CuttingUp(m, n, root, this, i, child) && AllLines(n, {}) && fresh(n.Keys - m.Keys)
        invariant forall l <- child.lines :: l in m[child].lines
        decreases |child.lines|
      {
        n := CutUp(i, m, n, root, child);
      }
      ghost var cut := n;
      n := MaybeSpill(n, root);
      SameLeavesLines(cut, n);
    }

    /** Inserting into a leaf leaves the lines of other leaves alone. */
    method LeafInsert(at: nat, ls: seq<Line>, h: int, ghost m: Picture) returns (ghost n: Picture)
      requires Shows(m) && this in m && Pending(m, this, at, ls, h) && isLeaf
      requires HeightSum(ls) == h && NewLines(ls) && AllLines(m, {this})
      requires HeightSum(lines) == tall - h && NoDup(lines) && (forall l <- lines :: l.parent == this)
      modifies this, ls`parent
      ensures Shows(n) && n == m[this := m[this].(lines := m[this].content, height := m[this].tall)]
      ensures AllLines(n, {})
    {
      n := LeafInsertHeight(at, ls, h, m);
      forall c | c in n && c != this
        ensures LinesOk(n, c)
      {
        assert old(LinesOk(m, c));
      }
    }

    method CutUp(i: nat, ghost m: Picture, ghost n: Picture, ghost root: Chunk, child: Chunk) returns (ghost n': Picture)
      requires Shows(n) && CuttingUp(m, n, root, this, i, child) && AllLines(n, {}) && |child.lines| > 50
      modifies n.Keys, (set l <- child.lines)`parent
      ensures Shows(n') && CuttingUp(m, n', root, this, i, child) && AllLines(n', {}) && fresh(n'.Keys - n.Keys)
      ensures |child.lines| < |old(child.lines)| && forall l <- child.lines :: l in old(child.lines)
    {
      hide First;
      ghost var newleaf, h;
      newleaf, n', h := SpillLeaf(i, n, root);
      LeafSplitKeeps(n, root, this, i, newleaf, h);
    }

    /** The search of `insertHeight`: the first child that reaches to `at`. */
    method FindForInsert(at: nat, ls: seq<Line>, h: int, ghost m: Picture, ghost root: Chunk) returns (i: nat, at': nat)
      requires forall c <- m.Keys :: c != this ==> Look(c) == m[c]
      requires Inserting(m, root, this, at, ls, h) && !m[this].leaf && children == m[this].kids
      ensures CanAnnounce(m, root, this, at, i, at', ls, h) && children[i] !in {this, root} && m[children[i]].rank < m[this].rank
    {
      i, at' := 0, at;
      while i < |children|
        invariant i <= |children| && |Contents(m, children[..i])| + at' == at
        invariant i < |children|
      {
        assert children[i] in m[this].kids;
        assert Local(m, children[i]);
        var sz := children[i].ChunkSize();
        SumsSnoc(m, children, i);
        if at' <= sz {
          return;
        }
        at' := at' - sz;
        i := i + 1;
        assert children[..|children|] == children;
      }
    }

    /** Takes `n` lines out of a leaf; they have no parent any more. */
    method LeafRemove(at: nat, n: nat, ghost m: Picture) returns (ghost r: Picture)
      requires Shows(m) && this in m && isLeaf && at + n <= |lines| && Local(m, this) && LinesOk(m, this)
      modifies this, (set l <- lines)`parent
      ensures r == LeafTrim(m, this, at, n, height) && Shows(r)
      ensures NoDup(lines) && HeightSum(lines) == height && forall l <- lines :: l.parent == this
      ensures Orphans(m[this].lines, at, n)
    {
      hide Cut, AllLines, HeightSum, KidsOk;
      ghost var ls := lines;
      Detach(at, n);
      assert Orphans(ls, at, n);
      DetachedRest(ls, at, n, this, height, Cut(ls, at, n));
      lines := Cut(lines, at, n);
      content, tall := lines, height;
      r := LeafTrim(m, this, at, n, height);
    }

    /** `remove` on a chunk of either kind. The chunks `busy` above it are being worked on. */
    method Trim(at: nat, n: nat, ghost m: Picture, ghost busy: set<Chunk>) returns (ghost r: Picture)
      requires Shows(m) && CanTrim(m, busy, this) && AllLines(m, {}) && at + n <= |m[this].content|
      modifies m.Keys, (set l <- m[this].content)`parent
      ensures Shows(r) && Trimmed(m, r, busy, this, at, n) && CapOutside(r, busy) && AllLines(r, {}) && fresh(r.Keys - m.Keys)
      ensures Orphans(m[this].content, at, n)
      decreases m[this].rank, 5
    {
      assert Local(m, this);
      if isLeaf {
        LeavesApart(m, this);
        assert LinesOk(m, this);
        r := LeafRemove(at, n, m);
        forall c | c in r && c != this
          ensures LinesOk(r, c)
        {
          assert old(LinesOk(m, c));
        }
        LeafTrimKeeps(m, busy, this, at, n, height);
      } else {
        r := Remove(at, n, m, busy);
      }
    }

    /** Removes `n` lines below this branch, and puts what is left into one leaf if it is little. */
    method Remove(at: nat, n: nat, ghost m: Picture, ghost busy: set<Chunk>) returns (ghost r: Picture)
      requires Shows(m) && CanTrim(m, busy, this) && !isLeaf && AllLines(m, {}) && at + n <= |m[this].content|
      modifies m.Keys, (set l <- m[this].content)`parent
      ensures Shows(r) && Trimmed(m, r, busy, this, at, n) && CapOutside(r, busy) && AllLines(r, {}) && fresh(r.Keys - m.Keys)
      ensures Orphans(m[this].content, at, n)
      decreases m[this].rank, 4
    {
      hide Sums, Outside, RemovePos;
      RemoveBegins(m, m[this := m[this].(size := m[this].size - n)], busy, this, at, n);
      size := size - n;
      ghost var q := RemoveLoop(at, n, m, m[this := m[this].(size := m[this].size - n)], busy);
      r := Finish(m, q, busy, at, n);
    }

    /** The loop of `remove`. */
    method RemoveLoop(at: nat, n: nat, ghost m: Picture, ghost p: Picture, ghost busy: set<Chunk>) returns (ghost q: Picture)
      requires Shows(p) && RemovePos(m, p, busy, this, at, n, n, 0, at) && AllLines(p, {})
      modifies p.Keys, (set l <- m[this].content)`parent
      ensures Shows(q) && Removing(m, q, busy, this, at, n, 0) && AllLines(q, {}) && fresh(q.Keys - p.Keys)
      ensures Orphans(m[this].content, at, n)
      decreases m[this].rank, 3
    {
      hide Removing, Local, Contents, HeightSum;
      q := p;
      var i: nat, at': nat, n': nat := 0, at, n;
      while i < |children|
        invariant Shows(q) && RemovePos(m, q, busy, this, at, n, n', i, at') && AllLines(q, {}) && fresh(q.Keys - p.Keys)
        invariant Orphans(m[this].content, at, n - n')
        decreases n', |children| - i
      {
        KidSize(m, q, busy, this, at, n, n', i, at');
        var sz := children[i].ChunkSize();
        if at' < sz {
          var rm := if n' < sz - at' then n' else sz - at';
          i, q := TrimChild(i, at', rm, m, q, busy, at, n, n');
          n' := n' - rm;
          if n' == 0 {
            break;
          }
          at' := 0;
        } else {
          at' := at' - sz;
          i := i + 1;
        }
      }
      if n' != 0 {
        RemoveEnds(m, q, busy, this, at, n, n', i, at');
      }
    }

    /** The end of `remove`: a branch left with fewer than 25 lines gets a single leaf. */
    method Finish(ghost m: Picture, ghost q: Picture, ghost busy: set<Chunk>, ghost at: nat, ghost n: nat) returns (ghost r: Picture)
      requires Shows(q) && Removing(m, q, busy, this, at, n, 0) && AllLines(q, {}) && Local(m, this) && NoDup(m[this].content)
      requires Orphans(m[this].content, at, n) && this in q
      modifies q.Keys, (set l <- m[this].content)`parent
      ensures Shows(r) && Trimmed(m, r, busy, this, at, n) && CapOutside(r, busy) && AllLines(r, {}) && fresh(r.Keys - q.Keys)
      ensures Orphans(m[this].content, at, n)
    {
      hide Removing, Trimmed, CapOutside, Working, Local;
      RemoveDone(m, q, busy, this, at, n);
      r := SetDone(q);
      SameLeavesLines(q, r);
      assert Look(this) == r[this];
      if size < 25 {
        r := ToOneLeaf(m, r, busy, at, n);
      } else {
        StaysBranch(m, q, busy, this, at, n);
      }
    }

    /** All lines of this branch go to one new leaf, its only child. */
    method ToOneLeaf(ghost m: Picture, ghost f: Picture, ghost busy: set<Chunk>, ghost at: nat, ghost n: nat) returns (ghost r: Picture)
      requires Shows(f) && Working(f, busy, this) && Local(f, this) && AllLines(f, {}) && f[this].size < 25
      requires Trimmed(m, f, busy, this, at, n) && CapOutside(f, busy + {this})
      requires NoDup(m[this].content) && Orphans(m[this].content, at, n)
      modifies this`children, (set l <- m[this].content)`parent
      ensures Shows(r) && Trimmed(m, r, busy, this, at, n) && CapOutside(r, busy) && AllLines(r, {}) && fresh(r.Keys - f.Keys)
      ensures Orphans(m[this].content, at, n)
    {
      hide Trimmed, CapOutside, Outside, Working, Local, LinesOk, Contents, AllLocal, HeightSum, Cut, Orphans;
      WorkingFacts(f, busy, this);
      var ls := Collapse([], f, busy);
      TrimmedApart(m, f, busy, this, at, n);
      CollapseApart(f, busy, this);
      var leaf := NewHome(ls, f, m[this].content, at, n);
      CollapseLines(f, this, leaf);
      r := HangOnly(f, leaf);
      CollapseDone(m, f, busy, this, at, n, leaf);
    }

    method NewHome(ls: seq<Line>, ghost f: Picture, ghost all: seq<Line>, ghost at: nat, ghost n: nat) returns (leaf: Chunk)
      requires this in f && !f[this].leaf && ls == f[this].content && f[this].tall == HeightSum(ls) && AllLines(f, {})
      requires forall c {:trigger f[c]} :: c in Prune(f, this, f[this].kids, []) && f[c].leaf ==> forall l <- f[c].lines :: l !in ls
      requires Orphans(all, at, n) && forall j :: at <= j < at + n ==> all[j] !in ls
      modifies (set l <- ls)`parent
      ensures Orphans(all, at, n)
      ensures fresh(leaf) && Look(leaf) == LeafCell(ls, f[this].tall, null) && f[this].tall == HeightSum(ls)
      ensures forall l <- ls :: l.parent == leaf
      ensures forall c {:trigger LinesOk(f, c)} :: c in Prune(f, this, f[this].kids, []) ==> LinesOk(f, c)
    {
      leaf := new Chunk.Leaf(ls);
      forall c | c in Prune(f, this, f[this].kids, [])
        ensures LinesOk(f, c)
      {
        assert old(LinesOk(f, c));
      }
      forall j | at <= j < at + n
        ensures all[j].parent == null
      {
        assert old(all[j].parent) == null;
      }
    }

    method HangOnly(ghost f: Picture, leaf: Chunk) returns (ghost r: Picture)
      requires Shows(f) && this in f && leaf !in f && this !in Subtrees(f, f[this].kids, f[this].rank)
      requires Look(leaf) == LeafCell(f[this].content, f[this].tall, null) && AllLines(Collapsed(f, this, leaf), {})
      modifies this`children, leaf`parent
      ensures r == Collapsed(f, this, leaf) && Shows(r) && AllLines(r, {}) && r.Keys <= f.Keys + {leaf}
    {
      children := [leaf];
      leaf.parent := this;
      r := Collapsed(f, this, leaf);
    }

    /** Ghost: the branch catches up with its children. */
    ghost method SetDone(q: Picture) returns (r: Picture)
      requires Shows(q) && this in q && !isLeaf
      modifies this`content, this`tall
      ensures r == Done(q, this) && Shows(r)
    {
      content, tall := Contents(q, children), height;
      r := Done(q, this);
    }

    /** The part of `remove` for the child number `i`: it loses `rm` lines and goes if it has no others. */
    method TrimChild(i: nat, at: nat, rm: nat, ghost m: Picture, ghost q: Picture, ghost busy: set<Chunk>, ghost at0: nat, ghost n0: nat, ghost n: nat)
      returns (i': nat, ghost q': Picture)
      requires Shows(q) && RemovePos(m, q, busy, this, at0, n0, n, i, at) && AllLines(q, {}) && i < |children|
      requires children[i] in q && at + rm <= |q[children[i]].content| && rm <= n
      requires (rm == n || at + rm == |q[children[i]].content|) && Orphans(m[this].content, at0, n0 - n)
      modifies q.Keys, (set l <- m[this].content)`parent
      ensures Shows(q') && Removing(m, q', busy, this, at0, n0, n - rm) && AllLines(q', {}) && fresh(q'.Keys - q.Keys)
      ensures rm < n ==> RemovePos(m, q', busy, this, at0, n0, n - rm, i', 0)
      ensures Orphans(m[this].content, at0, n0 - n + rm)
      decreases m[this].rank, 2
    {
      hide Removing, Trimmed, Local, CanTrim;
      ghost var k := children[i];
      KidSize(m, q, busy, this, at0, n0, n, i, at);
      var sz := children[i].ChunkSize();
      ghost var r, s;
      r, s := TrimStep(i, at, rm, m, q, busy, at0, n0, n, k);
      i', q' := DropIfEmpty(i, sz == rm, m, q, r, s, busy, at0, n0, n, at, rm, k);
    }

    method TrimStep(i: nat, at: nat, rm: nat, ghost m: Picture, ghost q: Picture, ghost busy: set<Chunk>, ghost at0: nat, ghost n0: nat, ghost n: nat, ghost k: Chunk)
      returns (ghost r: Picture, ghost s: Picture)
      requires Shows(q) && RemovePos(m, q, busy, this, at0, n0, n, i, at) && AllLines(q, {}) && i < |children|
      requires k in q && k == children[i] && at + rm <= |q[k].content| && rm <= n && Orphans(m[this].content, at0, n0 - n)
      modifies q.Keys, (set l <- m[this].content)`parent
      ensures this in r && k in r && Trimmed(q, r, busy + {this}, k, at, rm) && CapOutside(r, busy + {this})
      ensures s == r[this := r[this].(height := r[this].height - (q[k].height - r[k].height))]
      ensures Shows(s) && AllLines(s, {}) && fresh(s.Keys - q.Keys) && Orphans(m[this].content, at0, n0 - n + rm)
      decreases m[this].rank, 1
    {
      hide Removing, Trimmed, Local, CanTrim;
      KidCanTrim(m, q, busy, this, at0, n0, n, i, at, k);
      KidLines(m, q, busy, this, at0, n0, n, i, at, rm, q[k].content);
      r, s := TrimKid(i, at, rm, q, busy, k);
      OrphansJoin(m[this].content, at0, n0 - n, q[k].content, at, rm);
    }

    /** The child number `i` goes if it has lost all its lines. */
    method DropIfEmpty(i: nat, empty: bool, ghost m: Picture, ghost q: Picture, ghost r: Picture, ghost s: Picture, ghost busy: set<Chunk>,
                       ghost at0: nat, ghost n0: nat, ghost n: nat, ghost at: nat, ghost rm: nat, ghost k: Chunk)
      returns (i': nat, ghost q': Picture)
      requires CanRemove(m, q, r, busy, this, at0, n0, n, i, at, rm) && k == q[this].kids[i] && k in q && k in r && this in r
      requires s == r[this := r[this].(height := r[this].height - (q[k].height - r[k].height))]
      requires Shows(s) && AllLines(s, {}) && (empty <==> |q[k].content| == rm) && RemovePos(m, q, busy, this, at0, n0, n, i, at)
      modifies this`children, k`parent
      ensures Shows(q') && Removing(m, q', busy, this, at0, n0, n - rm) && AllLines(q', {}) && q'.Keys <= s.Keys
      ensures rm < n && at + rm == |q[k].content| ==> RemovePos(m, q', busy, this, at0, n0, n - rm, i', 0)
    {
      hide Removing, Trimmed, Local, CapOutside;
      RemovedFromChild(m, q, r, s, busy, this, at0, n0, n, i, at, rm, k);
      RemovedPos(m, q, r, s, busy, this, at0, n0, n, i, at, rm, k);
      if empty {
        DropEmpty(m, s, busy, this, at0, n0, n - rm, i, k);
        ghost var child := children[i];
        q' := Unlink(i, s, k);
        SameLeavesLines(s, q');
        i' := i;
      } else {
        q' := s;
        i' := i + 1;
      }
      if rm < n && at + rm == |q[k].content| {
        GoOn(m, q, q', busy, this, at0, n0, n, i, at, n - rm, i');
      }
    }

    method Unlink(i: nat, ghost s: Picture, ghost k: Chunk) returns (ghost q: Picture)
      requires Shows(s) && this in s && k in s && k != this && i < |children| && children[i] == k && s[k].rank < s[this].rank
      modifies this`children, k`parent
      ensures q == Prune(s, this, [k], Cut(s[this].kids, i, 1)) && Shows(q)
    {
      var child := children[i];
      children := Cut(children, i, 1);
      child.parent := null;
      q := Prune(s, this, [k], Cut(s[this].kids, i, 1));
      SubtreesOf(s, [k], s[this].rank);
    }

    method TrimKid(i: nat, at: nat, rm: nat, ghost q: Picture, ghost busy: set<Chunk>, ghost k: Chunk) returns (ghost r: Picture, ghost s: Picture)
      requires Shows(q) && this in q && !isLeaf && AllLines(q, {}) && i < |children| && children[i] == k && k in q && k != this
      requires CanTrim(q, busy + {this}, k) && at + rm <= |q[k].content| && q[k].rank < q[this].rank
      modifies q.Keys, (set l <- q[k].content)`parent
      ensures this in r && k in r && Trimmed(q, r, busy + {this}, k, at, rm) && CapOutside(r, busy + {this})
      ensures s == r[this := r[this].(height := r[this].height - (q[k].height - r[k].height))]
      ensures Shows(s) && AllLines(s, {}) && fresh(s.Keys - q.Keys) && Orphans(q[k].content, at, rm)
      decreases q[this].rank, 0
    {
      hide CanTrim, Talls, NoDup;
      var child := children[i];
      var oldHeight := child.height;
      r := child.Trim(at, rm, q, busy + {this});
      assert r[this] == q[this];
      height := height - (oldHeight - child.height);
      s := r[this := r[this].(height := r[this].height - (q[child].height - r[child].height))];
      assert Look(this) == s[this];
      SameLeavesLines(r, s);
    }

    /** The loop of a leaf's `remove`. */
    method Detach(at: nat, n: nat)
      requires at + n <= |lines|
      modifies this`height, (set l <- lines)`parent
      ensures height == old(height) - HeightSum(lines[at..at + n])
      ensures forall l <- lines :: l.parent == if l in lines[at..at + n] then null else old(l.parent)
      ensures Orphans(lines, at, n)
    {
      hide HeightSum;
      HeightNone(lines, at);
      for i := at to at + n
        invariant height == old(height) - HeightSum(lines[at..i])
        invariant forall l <- lines :: l.parent == if l in lines[at..i] then null else old(l.parent)
      {
        height := height - lines[i].height;
        lines[i].parent := null;
        HeightNext(lines, at, i);
      }
    }

    /** Appends the lines below this chunk. */
    method Collapse(ls: seq<Line>, ghost m: Picture, ghost busy: set<Chunk>) returns (all: seq<Line>)
      requires Shows(m) && this in m && AllLocal(m, busy) && this !in busy
      requires forall b <- busy :: b in m ==> m[this].rank < m[b].rank
      ensures all == ls + m[this].content
      decreases m[this].rank
    {
      assert Local(m, this);
      all := ls;
      if isLeaf {
        all := all + lines;
      } else {
        for i := 0 to |children|
          invariant all == ls + Contents(m, children[..i])
        {
          var ch := children[i];
          assert ch in m[this].kids;
          all := ch.Collapse(all, m, busy);
          SumsSnoc(m, children, i);
        }
        assert children[..|children|] == children;
      }
    }

    /** One round of cutting up the overfull leaf number `i`: its last 25 lines go to a new leaf. */
    method SpillLeaf(i: nat, ghost m: Picture, ghost root: Chunk) returns (newleaf: Chunk, ghost n: Picture, ghost h: int)
      requires Shows(m) && TreeOf(m, root) && AllLines(m, {}) && this in m && !isLeaf
      requires i < |children| && children[i].isLeaf && |children[i].lines| > 50
      modifies this, children[i], children[i].lines`parent
      ensures fresh(newleaf) && Shows(n)
      ensures CanLeafSplit(m, root, this, i, newleaf) && n == LeafSplit(m, this, i, newleaf, h)
      ensures AllLines(n, {})
    {
      hide HeightSum, Cached, CapOutside, Orphans, Outside, Trimmed, Working, Rooted, Contents;
      var child := children[i];
      assert Local(m, this) && child in m[this].kids;
      assert LinesOk(m, child);
      LeavesApart(m, child);
      ghost var c;
      newleaf, c := child.CutAlone(m);
      h := newleaf.height;
      n := AddLeaf(i, newleaf, c);
      assert newleaf.lines == n[newleaf].lines && child.lines == n[child].lines;
      LeafSplitLines(m, root, this, i, newleaf, h);
    }

    /** Moves the last 25 lines of this leaf to a new one, which no other leaf notices. */
    method CutAlone(ghost m: Picture) returns (leaf: Chunk, ghost n: Picture)
      requires Shows(m) && AllLocal(m, {}) && AllLines(m, {}) && this in m && isLeaf && |lines| > 50
      requires forall c {:trigger m[c]} :: c in m && c != this && m[c].leaf ==> forall l <- lines :: l !in m[c].lines
      modifies this, lines`parent
      ensures fresh(leaf) && Shows(n) && n == LeafCut(m, this, leaf, leaf.height)
      ensures leaf.height == HeightSum(leaf.lines) && forall l <- leaf.lines :: l.parent == leaf
      ensures forall l <- lines :: l.parent == this
      ensures forall c {:trigger LinesOk(m, c)} :: c in m && c != this ==> LinesOk(m, c)
    {
      hide HeightSum, Cached;
      assert Local(m, this) && LinesOk(m, this);
      leaf, n := CutLines(m);
      forall c | c in m && c != this
        ensures LinesOk(m, c)
      {
        assert old(LinesOk(m, c));
      }
    }

    /** Moves the last 25 lines of this leaf to a new one. */
    method CutLines(ghost m: Picture) returns (leaf: Chunk, ghost n: Picture)
      requires Shows(m) && this in m && Local(m, this) && isLeaf && |lines| > 50
      requires NoDup(lines) && forall l <- lines :: l.parent == this
      modifies this, lines`parent
      ensures fresh(leaf) && Shows(n) && n == LeafCut(m, this, leaf, leaf.height)
      ensures leaf.height == HeightSum(leaf.lines) && forall l <- leaf.lines :: l.parent == leaf
      ensures forall l <- lines :: l.parent == this
    {
      hide HeightSum, Talls, UpOk;
      var spilled := lines[|lines| - 25..];
      leaf := new Chunk.Leaf(spilled);
      ghost var c := LeafCell(m[this].lines[|m[this].lines| - 25..], leaf.height, null);
      assert Shows(m) && Look(leaf) == c;
      assert forall i :: 0 <= i < |lines| - 25 ==> lines[i].parent == this;
      lines := lines[..|lines| - 25];
      height := height - leaf.height;
      content, tall := lines, height;
      n := LeafCut(m, this, leaf, leaf.height);
      forall k | k in n
        ensures Look(k) == n[k]
      {
        assert k in m ==> old(Look(k)) == m[k];
      }
    }

    /** The new leaf becomes child number `i + 1`. */
    method AddLeaf(i: nat, leaf: Chunk, ghost m: Picture) returns (ghost n: Picture)
      requires Shows(m) && this in m && leaf in m && this != leaf && i < |children|
      modifies this`children, leaf`parent
      ensures Shows(n) && n == m[this := m[this].(kids := Put(m[this].kids, i + 1, leaf))][leaf := m[leaf].(parent := this)]
    {
      children := Put(children, i + 1, leaf);
      leaf.parent := this;
      n := m[this := m[this].(kids := children)][leaf := m[leaf].(parent := this)];
    }

    method TakeLines(ls: seq<Line>)
      modifies ls`parent
      ensures forall l <- ls :: l.parent == this
    {
      for i := 0 to |ls|
        invariant forall j :: 0 <= j < i ==> ls[j].parent == this
      {
        ls[i].parent := this;
      }
    }

    /** Puts lines, of joint height `h`, into a leaf whose ghost content already has them. */
    method LeafInsertHeight(at: nat, ls: seq<Line>, h: int, ghost m: Picture) returns (ghost n: Picture)
      requires Shows(m) && this in m && Pending(m, this, at, ls, h) && isLeaf
      requires HeightSum(ls) == h && (forall l <- ls :: l.parent == null)
      requires HeightSum(lines) == tall - h && NoDup(lines) && NoDup(ls) && (forall l <- lines :: l.parent == this)
      modifies this, ls`parent
      ensures Shows(n) && n == m[this := m[this].(lines := m[this].content, height := m[this].tall)]
      ensures LinesOk(n, this)
      ensures forall l <- ls :: l.parent == this
    {
      hide HeightSum;
      height := height + h;
      var was := lines;
      lines := was[..at] + ls + was[at..];
      TakeLines(ls);
      n := m[this := m[this].(lines := m[this].content, height := m[this].tall)];
      HeightSumPut(was, at, ls);
      NoDupPut(was, at, ls);
    }

    /** Splits chunks that hold too many children, from here up to the root. */
    method MaybeSpill(ghost m: Picture, ghost root: Chunk) returns (ghost n: Picture)
      requires Shows(m) && TreeOf(m, root) && this in m && !isLeaf && 1 <= |children|
      requires forall c {:trigger m[c]} :: c in m && c != this ==> Cap(m[c])
      modifies m.Keys
      ensures Shows(n) && TreeOf(n, root) && AllCap(n) && m.Keys <= n.Keys && fresh(n.Keys - m.Keys)
      ensures n[root].content == m[root].content && n[root].tall == m[root].tall && SameLeaves(m, n)
      decreases m[root].rank - m[this].rank, |m[this].kids|
    {
      n := m;
      if |children| <= 10 {
        return;
      }
      var me := this;
      while |me.children| > 10
        invariant Shows(n) && Spilling(m, n, root, this, me) && fresh(n.Keys - m.Keys)
        decreases |me.children|
      {
        if me.parent == null {
          me, n := me.RoundAtRoot(m, n, root);
        } else {
          n := me.RoundBelow(m, n, root, this);
        }
      }
      SpillingClimbs(m, n, root, this, me);
      n := me.parent.MaybeSpill(n, root);
    }

    method RoundAtRoot(ghost m: Picture, ghost n: Picture, ghost root: Chunk) returns (me: Chunk, ghost n': Picture)
      requires Shows(n) && Spilling(m, n, root, root, this) && |children| > 10 && parent == null
      modifies n.Keys
      ensures Shows(n') && Spilling(m, n', root, root, me) && fresh(n'.Keys - n.Keys)
      ensures |me.children| < |old(children)|
    {
      var sibling;
      me, sibling, n' := SpillRoot(n);
      RootSplitKeeps(n, n', root, me, sibling);
    }

    method RoundBelow(ghost m: Picture, ghost n: Picture, ghost root: Chunk, ghost start: Chunk) returns (ghost n': Picture)
      requires Shows(n) && Spilling(m, n, root, start, this) && |children| > 10 && parent != null
      modifies n.Keys
      ensures Shows(n') && Spilling(m, n', root, start, this) && fresh(n'.Keys - n.Keys)
      ensures |children| < |old(children)|
    {
      assert Local(n, this);
      ghost var sibling, i;
      sibling, n', i := SpillBelow(n);
      SplitKeeps(n, n', root, this, i, sibling);
    }

    /** Cuts off the last five children into a new chunk that has no parent yet. */
    method CutTail(ghost m: Picture) returns (sibling: Chunk)
      requires Shows(m) && this in m && AllLocal(m, {}) && !isLeaf && |children| > 5
      modifies this`children, children`parent
      ensures fresh(sibling) && Shows(CutPicture(m, this, sibling))
    {
      var spilled := children[|children| - 5..];
      KidsCached(m, this);
      assert forall k <- spilled :: k in children;
      assert this !in spilled;
      sibling := new Chunk.Branch(spilled, m, rank);
      DropTail(Adopted(m, spilled, sibling)[sibling := BranchCell(m, spilled, null, rank)], m);
    }

    method DropTail(ghost a: Picture, ghost m: Picture)
      requires Shows(a) && this in a && this in m && a[this] == m[this] && |children| > 5
      modifies this`children
      ensures Shows(a[this := m[this].(kids := m[this].kids[..|m[this].kids| - 5])])
    {
      children := children[..|children| - 5];
    }

    /** One round of the spilling loop below a parent: the last five children move to a new
        right neighbour. */
    method SpillBelow(ghost m: Picture) returns (sibling: Chunk, ghost n: Picture, ghost i: nat)
      requires Shows(m) && this in m && AllLocal(m, {}) && !isLeaf && |children| > 5
      requires parent != null && parent != this && parent in m && this in parent.children
      modifies m.Keys
      ensures fresh(sibling)
      ensures CanSplit(m, this, sibling) && Shows(n) && IsSplit(m, n, this, i, sibling)
    {
      assert Local(m, this);
      assert forall k <- children :: k in m;
      sibling := CutTail(m);
      KinApart(m, this, sibling);
      n := CutPicture(m, this, sibling);
      i, n := HandOver(m, sibling);
    }

    /** The rest of that round: new caches, and the new chunk joins the parent's children. */
    method HandOver(ghost m: Picture, sibling: Chunk) returns (ghost i: nat, ghost n: Picture)
      requires CanSplit(m, this, sibling) && Shows(CutPicture(m, this, sibling))
      requires parent == m[this].parent && parent.children == m[parent].kids
      modifies this, parent, sibling
      ensures Shows(n) && IsSplit(m, n, this, i, sibling)
    {
      n := Recount(CutPicture(m, this, sibling), m, sibling);
      KinApart(m, this, sibling);
      ghost var p: Chunk := m[this].parent;
      assert p in n && n[p] == m[p] && n[this].parent == p by {
        assert forall k <- m[this].kids[|m[this].kids| - 5..] :: k in m[this].kids;
      }
      i, n := Join(n, sibling);
      CutIsSplit(m, n, this, i, sibling);
    }

    method Recount(ghost c: Picture, ghost m: Picture, sibling: Chunk) returns (ghost n: Picture)
      requires Shows(c) && CanSplit(m, this, sibling) && c == CutPicture(m, this, sibling)
      modifies this`size, this`height, this`content, this`tall
      ensures n == c[this := Shrunk(m, this)] && Shows(n)
    {
      assert this in c && sibling in c;
      size := size - sibling.size;
      height := height - sibling.height;
      content, tall := Contents(m, children), Talls(m, children);
      n := c[this := Shrunk(m, this)];
      assert Look(this) == Shrunk(m, this);
    }

    /** One round of the spilling loop at the root: a new level goes in between the root and
        its children, and the last five of them go to a second new chunk there. */
    method SpillRoot(ghost m: Picture) returns (copy: Chunk, sibling: Chunk, ghost n: Picture)
      requires Shows(m) && TreeOf(m, this) && |children| > 5
      modifies m.Keys
      ensures fresh(copy) && fresh(sibling) && copy != sibling
      ensures Shows(n) && IsRootSplit(m, n, this, copy, sibling)
    {
      assert Local(m, this);
      assert forall k <- children :: k in m;
      sibling := CutTail(m);
      assert Look(this) == CutPicture(m, this, sibling)[this];
      assert forall k <- children :: k in m[this].kids;
      copy, n := Deepen(m, sibling);
    }

    /** The rest of that round: the new level. */
    method Deepen(ghost m: Picture, sibling: Chunk) returns (copy: Chunk, ghost n: Picture)
      requires TreeOf(m, this) && |m[this].kids| > 5 && sibling !in m && Shows(CutPicture(m, this, sibling))
      modifies this, sibling, children`parent
      ensures fresh(copy) && Shows(n) && IsRootSplit(m, n, this, copy, sibling)
    {
      ghost var c := CutPicture(m, this, sibling);
      CutFacts(m, this, sibling);
      assert this in c;
      copy := new Chunk.Branch(children, c, rank);
      n := Cover(DeepPicture(m, this, copy, sibling), copy, sibling);
      DeepIsRootSplit(m, n, this, copy, sibling);
    }

    /** This chunk becomes the parent of exactly `copy` and `sibling`. */
    method Cover(ghost m: Picture, copy: Chunk, sibling: Chunk) returns (ghost n: Picture)
      requires Shows(m) && this in m && copy in m && sibling in m && this != copy && this != sibling && copy != sibling
      modifies this`children, this`rank, copy`parent, sibling`parent
      ensures Shows(n) && n == Covered(m, this, copy, sibling)
    {
      copy.parent := this;
      children := [copy, sibling];
      sibling.parent := this;
      rank := rank + 1;
      n := Covered(m, this, copy, sibling);
      forall c | c in n
        ensures Look(c) == n[c]
      {
        assert old(Look(c)) == m[c];
      }
    }

    /** Makes `sibling` the right neighbour of this chunk. */
    method Join(ghost m: Picture, sibling: Chunk) returns (ghost i: nat, ghost n: Picture)
      requires Shows(m) && this in m && sibling in m && parent != null && parent in m
      requires this in parent.children && sibling != parent && sibling != this
      modifies parent`children, sibling`parent
      ensures i < |m[m[this].parent].kids| && m[m[this].parent].kids[i] == this
      ensures Shows(n)
      ensures var p: Chunk := m[this].parent;
        n == m[p := m[p].(kids := Put(m[p].kids, i + 1, sibling))][sibling := m[sibling].(parent := p)]
    {
      assert Look(this) == m[this];
      var myIndex := IndexOf(parent.children, this);
      i := myIndex;
      ghost var p: Chunk := parent;
      parent.children := Put(parent.children, myIndex + 1, sibling);
      sibling.parent := parent;
      n := m[p := m[p].(kids := p.children)][sibling := m[sibling].(parent := p)];
      forall c | c in n
        ensures Look(c) == n[c]
      {
        assert old(Look(c)) == m[c];
      }
    }
  }

  /** Chunks `cs` get the parent `p`. */
  ghost function Adopted(m: Picture, cs: seq<Chunk>, p: Chunk): Picture
  {
    map c | c in m :: if c in cs then m[c].(parent := p) else m[c]
  }

  /** `me` has lost its last five children to the new chunk `sib`. */
  ghost function CutPicture(m: Picture, me: Chunk, sib: Chunk): Picture
    requires me in m && |m[me].kids| > 5
  {
    var (rest, spilled) := (m[me].kids[..|m[me].kids| - 5], m[me].kids[|m[me].kids| - 5..]);
    Adopted(m, spilled, sib)[sib := BranchCell(m, spilled, null, m[me].rank)][me := m[me].(kids := rest)]
  }

  ghost function Covered(m: Picture, root: Chunk, copy: Chunk, sib: Chunk): Picture
    requires root in m && copy in m && sib in m
  {
    m[copy := m[copy].(parent := root)][sib := m[sib].(parent := root)]
     [root := m[root].(kids := [copy, sib], rank := m[root].rank + 1)]
  }

  /** The chunk `me` without its last five children. */
  ghost function Shrunk(m: Picture, me: Chunk): Cell
    requires me in m && |m[me].kids| > 5
  {
    var (rest, spilled) := (m[me].kids[..|m[me].kids| - 5], m[me].kids[|m[me].kids| - 5..]);
    m[me].(kids := rest, size := m[me].size - |Contents(m, spilled)|, height := m[me].height - Talls(m, spilled),
           content := Contents(m, rest), tall := Talls(m, rest))
  }

  ghost function Look(c: Chunk): Cell
    reads c
  {
    Cell(c.isLeaf, c.lines, c.children, c.size, c.height, c.parent, c.content, c.tall, c.rank)
  }

  /** The picture is true of the heap. */
  ghost predicate Shows(m: Picture)
    reads m.Keys
  {
    forall c <- m.Keys :: Look(c) == m[c]
  }

  /** Only how many lines and how tall: all that a parent asks of a child. */
  ghost predicate Cached(x: Cell)
  {
    && x.height == x.tall
    && (if x.leaf then |x.lines| else x.size) == |x.content|
  }

  ghost function BranchCell(m: Picture, kids: seq<Chunk>, parent: Chunk?, rank: nat): Cell
  {
    Cell(false, [], kids, |Contents(m, kids)|, Talls(m, kids), parent, Contents(m, kids), Talls(m, kids), rank)
  }

  method IndexOf<T(==)>(xs: seq<T>, x: T) returns (i: int)
    ensures x in xs ==> 0 <= i < |xs| && xs[i] == x && x !in xs[..i]
    ensures x !in xs ==> i == -1
  {
    for j := 0 to |xs|
      invariant x !in xs[..j]
    {
      if xs[j] == x {
        return j;
      }
    }
    return -1;
  }

  // ---------------------------------------------------------------- the heap as a value

  datatype Cell = Cell(leaf: bool, lines: seq<Line>, kids: seq<Chunk>, size: int, height: int,
                       parent: Chunk?, content: seq<Line>, tall: int, rank: nat)

  /** A picture of the chunks of a tree. The laws of the tree are stated on pictures, so
      that they can be proved without a heap. */
  type Picture = map<Chunk, Cell>

  ghost function Contents(m: Picture, kids: seq<Chunk>): seq<Line>
  {
    if kids == [] then [] else (if kids[0] in m then m[kids[0]].content else []) + Contents(m, kids[1..])
  }

  ghost function Talls(m: Picture, kids: seq<Chunk>): int
  {
    if kids == [] then 0 else (if kids[0] in m then m[kids[0]].tall else 0) + Talls(m, kids[1..])
  }

  ghost predicate NoDup<T>(s: seq<T>)
  {
    forall i, j :: 0 <= i < j < |s| ==> s[i] != s[j]
  }

  /** What a chunk must agree with: its caches, its children, and its parent. */
  ghost predicate Local(m: Picture, c: Chunk)
  {
    && c in m && m[c].height == m[c].tall && Sums(m, c) && KidsOk(m, c) && UpOk(m, c)
  }

  ghost predicate Sums(m: Picture, c: Chunk)
    requires c in m
  {
    var x := m[c];
    if x.leaf then
      x.kids == [] && x.content == x.lines
    else
      && x.lines == [] && x.size == |x.content| && x.rank > 0
      && x.content == Contents(m, x.kids) && x.tall == Talls(m, x.kids)
  }

  ghost predicate KidsOk(m: Picture, c: Chunk)
    requires c in m
  {
    var x := m[c];
    && NoDup(x.kids)
    && forall k {:trigger k in x.kids} :: k in x.kids ==> k in m && m[k].parent == c && m[k].rank < x.rank && m[k].leaf == First(m, x).leaf
  }

  /** The first child, whose kind all children share. */
  ghost function First(m: Picture, x: Cell): Cell
  {
    if x.kids != [] && x.kids[0] in m then m[x.kids[0]] else x
  }

  ghost predicate UpOk(m: Picture, c: Chunk)
    requires c in m
  {
    m[c].parent != null ==> m[c].parent in m && c in m[m[c].parent].kids
  }

  /** Capacity: leaves hold at most 50 lines, branches have 1 to 10 children. */
  ghost predicate Cap(x: Cell)
  {
    if x.leaf then |x.lines| <= 50 else 1 <= |x.kids| <= 10
  }

  ghost predicate AllLocal(m: Picture, except: set<Chunk>)
  {
    forall c {:trigger Local(m, c)} :: c in m && c !in except ==> Local(m, c)
  }

  ghost predicate AllCap(m: Picture)
  {
    forall c {:trigger m[c]} :: c in m ==> Cap(m[c])
  }

  /** Within capacity, except perhaps for `me` and its parent. */
  ghost predicate CapBut(m: Picture, me: Chunk)
    requires me in m
  {
    forall c {:trigger m[c]} :: c in m && c != me && c != m[me].parent ==> Cap(m[c])
  }

  /** `n` has no leaf that `m` does not have. */
  ghost predicate SameLeaves(m: Picture, n: Picture)
  {
    forall c {:trigger n[c]} :: c in n && n[c].leaf ==> c in m && m[c].leaf && n[c].lines == m[c].lines && n[c].tall == m[c].tall
  }

  /** Everything hangs off the root. */
  ghost predicate Rooted(m: Picture, root: Chunk)
  {
    && root in m && m[root].parent == null && !m[root].leaf
    && forall c <- m.Keys :: m[c].rank <= m[root].rank && (c != root ==> m[c].parent != null)
  }

  ghost predicate TreeOf(m: Picture, root: Chunk)
  {
    Rooted(m, root) && AllLocal(m, {})
  }

  lemma NotOwnParent(m: Picture, c: Chunk)
    requires AllLocal(m, {}) && c in m
    ensures m[c].parent != c && c !in m[c].kids
  {
    assert Local(m, c);
    if m[c].parent != null {
      assert Local(m, m[c].parent);
    }
  }

  lemma KidsCached(m: Picture, p: Chunk)
    requires AllLocal(m, {}) && p in m
    ensures forall k <- m[p].kids :: k in m && Cached(m[k]) && k != p
  {
    assert Local(m, p);
    forall k | k in m[p].kids
      ensures Cached(m[k])
    {
      assert Local(m, k);
    }
  }

  // ---------------------------------------------------------------- sums

  lemma {:induction false} SumsAppend(m: Picture, a: seq<Chunk>, b: seq<Chunk>)
    ensures Contents(m, a + b) == Contents(m, a) + Contents(m, b)
    ensures Talls(m, a + b) == Talls(m, a) + Talls(m, b)
  {
    if a == [] {
      assert a + b == b;
    } else {
      assert (a + b)[1..] == a[1..] + b;
      SumsAppend(m, a[1..], b);
    }
  }

  lemma SumsOne(m: Picture, c: Chunk)
    requires c in m
    ensures Contents(m, [c]) == m[c].content && Talls(m, [c]) == m[c].tall
  {
    assert Contents(m, [c]) == m[c].content + Contents(m, []);
  }

  lemma SumsSnoc(m: Picture, kids: seq<Chunk>, i: nat)
    requires i < |kids| && kids[i] in m
    ensures Contents(m, kids[..i + 1]) == Contents(m, kids[..i]) + m[kids[i]].content
    ensures Talls(m, kids[..i + 1]) == Talls(m, kids[..i]) + m[kids[i]].tall
  {
    assert kids[..i + 1] == kids[..i] + [kids[i]];
    SumsAppend(m, kids[..i], [kids[i]]);
    SumsOne(m, kids[i]);
  }

  /** The sums seen around the i-th child. */
  lemma SumsAt(m: Picture, kids: seq<Chunk>, i: nat)
    requires i < |kids| && kids[i] in m
    ensures Contents(m, kids) == Contents(m, kids[..i]) + m[kids[i]].content + Contents(m, kids[i + 1..])
    ensures Talls(m, kids) == Talls(m, kids[..i]) + m[kids[i]].tall + Talls(m, kids[i + 1..])
  {
    assert kids[..i + 1] == kids[..i] + [kids[i]];
    assert kids == kids[..i + 1] + kids[i + 1..];
    SumsAppend(m, kids[..i], [kids[i]]);
    SumsOne(m, kids[i]);
    SumsAppend(m, kids[..i + 1], kids[i + 1..]);
  }

  /** A sequence with one element put in at `i`. */
  function Put<T>(s: seq<T>, i: nat, x: T): seq<T>
    requires i <= |s|
  {
    s[..i] + [x] + s[i..]
  }

  lemma PutFacts<T>(s: seq<T>, i: nat, x: T)
    requires i <= |s|
    ensures forall k :: k in Put(s, i, x) <==> k in s || k == x
    ensures x !in s && NoDup(s) ==> NoDup(Put(s, i, x))
  {
    var t := Put(s, i, x);
    forall k | k in s
      ensures k in t
    {
      var j :| 0 <= j < |s| && s[j] == k;
      assert t[if j < i then j else j + 1] == k;
    }
    assert t[i] == x;
  }

  lemma PutSums(m: Picture, kids: seq<Chunk>, i: nat, x: Chunk)
    requires i <= |kids| && x in m
    ensures Contents(m, Put(kids, i, x)) == Contents(m, kids[..i]) + m[x].content + Contents(m, kids[i..])
    ensures Talls(m, Put(kids, i, x)) == Talls(m, kids[..i]) + m[x].tall + Talls(m, kids[i..])
  {
    SumsAppend(m, kids[..i] + [x], kids[i..]);
    SumsAppend(m, kids[..i], [x]);
    SumsOne(m, x);
  }

  lemma {:induction false} SumsSame(m: Picture, m': Picture, kids: seq<Chunk>)
    requires forall k <- kids :: k in m && k in m' && m'[k].content == m[k].content && m'[k].tall == m[k].tall
    ensures Contents(m', kids) == Contents(m, kids) && Talls(m', kids) == Talls(m, kids)
  {
    if kids == [] {
    } else {
      SumsSame(m, m', kids[1..]);
    }
  }

  /** The sums do not change when the i-th child hands part of its content to a new neighbour. */
  lemma SumsSplit(m: Picture, n: Picture, kids: seq<Chunk>, i: nat, sib: Chunk)
    requires i < |kids| && NoDup(kids) && sib in n
    requires forall k <- kids :: k in m && k in n && (k != kids[i] ==> n[k].content == m[k].content && n[k].tall == m[k].tall)
    requires n[kids[i]].content + n[sib].content == m[kids[i]].content
    requires n[kids[i]].tall + n[sib].tall == m[kids[i]].tall
    ensures Contents(n, Put(kids, i + 1, sib)) == Contents(m, kids)
    ensures Talls(n, Put(kids, i + 1, sib)) == Talls(m, kids)
  {
    SumsAt(m, kids, i);
    SumsSnoc(n, kids, i);
    PutSums(n, kids, i + 1, sib);
    SumsSame(m, n, kids[..i]);
    SumsSame(m, n, kids[i + 1..]);
  }

  // ---------------------------------------------------------------- lines and their heights

  ghost function HeightSum(ls: seq<Line>): nat
    reads ls`height
  {
    if ls == [] then 0 else ls[0].height + HeightSum(ls[1..])
  }

  lemma {:induction false} HeightSumAppend(a: seq<Line>, b: seq<Line>)
    ensures HeightSum(a + b) == HeightSum(a) + HeightSum(b)
  {
    if a == [] {
      assert a + b == b;
    } else {
      assert (a + b)[1..] == a[1..] + b;
      HeightSumAppend(a[1..], b);
    }
  }

  lemma HeightSumPut(s: seq<Line>, at: nat, ls: seq<Line>)
    requires at <= |s|
    ensures HeightSum(s[..at] + ls + s[at..]) == HeightSum(s) + HeightSum(ls)
  {
    HeightSumAppend(s[..at] + ls, s[at..]);
    HeightSumAppend(s[..at], ls);
    HeightSumAppend(s[..at], s[at..]);
    assert s == s[..at] + s[at..];
  }

  lemma NoDupPut<T>(s: seq<T>, at: nat, ls: seq<T>)
    requires at <= |s| && NoDup(s) && NoDup(ls) && (forall l <- ls :: l !in s)
    ensures NoDup(s[..at] + ls + s[at..]) && forall l <- s[..at] + ls + s[at..] :: l in s || l in ls
  {
    var t, n := s[..at] + ls + s[at..], |ls|;
    assert forall k :: 0 <= k < n ==> ls[k] in ls && ls[k] !in s;
    forall i, j | 0 <= i < j < |t|
      ensures t[i] != t[j]
    {
      assert t[i] == if i < at then s[i] else if i < at + n then ls[i - at] else s[i - n];
      assert t[j] == if j < at then s[j] else if j < at + n then ls[j - at] else s[j - n];
    }
  }

  lemma Halves<T>(s: seq<T>, k: nat)
    requires k <= |s|
    ensures s == s[..k] + s[k..]
    ensures NoDup(s) ==> NoDup(s[..k]) && NoDup(s[k..]) && forall x :: x in s[..k] ==> x !in s[k..]
    ensures forall x :: x in s <==> x in s[..k] || x in s[k..]
  {
    assert s == s[..k] + s[k..];
  }

  lemma HeightSumSnoc(ls: seq<Line>, i: nat)
    requires i < |ls|
    ensures HeightSum(ls[..i + 1]) == HeightSum(ls[..i]) + ls[i].height
  {
    assert ls[..i + 1] == ls[..i] + [ls[i]];
    HeightSumAppend(ls[..i], [ls[i]]);
  }

  lemma HeightNone(ls: seq<Line>, at: nat)
    requires at <= |ls|
    ensures HeightSum(ls[at..at]) == 0
  {
  }

  lemma HeightNext(ls: seq<Line>, at: nat, i: nat)
    requires at <= i < |ls|
    ensures HeightSum(ls[at..i + 1]) == HeightSum(ls[at..i]) + ls[i].height
    ensures ls[at..i + 1] == ls[at..i] + [ls[i]]
  {
    assert ls[at..i + 1] == ls[at..i] + [ls[i]];
    HeightSumAppend(ls[at..i], [ls[i]]);
  }

  /** The lines of a leaf point back to it, and their heights add up to its own. */
  ghost predicate LinesOk(m: Picture, c: Chunk)
    requires c in m
    reads set l <- m[c].lines
  {
    m[c].leaf ==>
      NoDup(m[c].lines) && m[c].tall == HeightSum(m[c].lines) && forall l <- m[c].lines :: l.parent == c
  }

  ghost predicate AllLines(m: Picture, except: set<Chunk>)
    reads set c <- m.Keys, l <- m[c].lines :: l
  {
    forall c {:trigger LinesOk(m, c)} :: c in m && c !in except ==> LinesOk(m, c)
  }

  /** No line is in two leaves. */
  lemma LeavesApart(m: Picture, leaf: Chunk)
    requires AllLines(m, {}) && leaf in m && m[leaf].leaf
    ensures forall c {:trigger m[c]} :: c in m && c != leaf && m[c].leaf ==> forall l <- m[c].lines :: l !in m[leaf].lines
  {
    assert LinesOk(m, leaf);
    assert forall c <- m.Keys :: LinesOk(m, c);
  }

  /** The lines that are in the leaves of a picture. */
  ghost function LinesIn(m: Picture): set<Line>
  {
    set c <- m.Keys, l <- m[c].lines :: l
  }

  lemma SameLeavesLines(m: Picture, n: Picture)
    requires AllLines(m, {}) && SameLeaves(m, n)
    ensures AllLines(n, {})
  {
    forall c | c in n
      ensures LinesOk(n, c)
    {
      assert c in m ==> LinesOk(m, c);
    }
  }

  /** The lines `at..at + n` have no parent. */
  ghost predicate Orphans(ls: seq<Line>, at: nat, n: nat)
    reads set l <- ls
  {
    at + n <= |ls| && forall k :: at <= k < at + n ==> ls[k].parent == null
  }

  /** Lines that are in no document yet. */
  ghost predicate NewLines(ls: seq<Line>)
    reads set l <- ls
  {
    NoDup(ls) && forall l <- ls :: l.parent == null
  }

  ghost function LeafCell(ls: seq<Line>, h: int, parent: Chunk?): Cell
  {
    Cell(true, ls, [], 0, h, parent, ls, h, 0)
  }

  // ---------------------------------------------------------------- inserting lines

  /** The content of `c` has been announced to include `ls`, of joint height `h`, at `at`;
      its own fields do not have them yet. */
  ghost predicate Pending(m: Picture, c: Chunk, at: nat, ls: seq<Line>, h: int)
    requires c in m
  {
    var x := m[c];
    && x.height + h == x.tall && KidsOk(m, c) && UpOk(m, c)
    && if x.leaf then
         x.kids == [] && at <= |x.lines| && x.content == x.lines[..at] + ls + x.lines[at..]
       else
         && x.lines == [] && x.size + |ls| == |x.content| && x.tall == Talls(m, x.kids) + h && x.kids != []
         && var was := Contents(m, x.kids); at <= |was| && x.content == was[..at] + ls + was[at..]
  }

  ghost predicate Inserting(m: Picture, root: Chunk, c: Chunk, at: nat, ls: seq<Line>, h: int)
  {
    Rooted(m, root) && AllLocal(m, {c}) && AllCap(m) && c in m && Pending(m, c, at, ls, h)
  }

  /** The branch `c` has counted the new lines and announced them to its child `ch`. */
  ghost function Announce(m: Picture, c: Chunk, ch: Chunk, at: nat, ls: seq<Line>, h: int): Picture
    requires c in m && ch in m && at <= |m[ch].content|
  {
    m[c := m[c].(size := m[c].size + |ls|, height := m[c].height + h)]
     [ch := m[ch].(content := m[ch].content[..at] + ls + m[ch].content[at..], tall := m[ch].tall + h)]
  }

  lemma AnnounceSums(m: Picture, c: Chunk, kids: seq<Chunk>, i: nat, at: nat, ls: seq<Line>, h: int)
    requires i < |kids| && NoDup(kids) && c in m && c !in kids && (forall k <- kids :: k in m) && at <= |m[kids[i]].content|
    ensures var (n, was, off) := (Announce(m, c, kids[i], at, ls, h), Contents(m, kids), |Contents(m, kids[..i])| + at);
      && off <= |was|
      && Contents(n, kids) == was[..off] + ls + was[off..] && Talls(n, kids) == Talls(m, kids) + h
  {
    var n := Announce(m, c, kids[i], at, ls, h);
    SumsAt(m, kids, i);
    SumsAt(n, kids, i);
    SumsSame(m, n, kids[..i]);
    SumsSame(m, n, kids[i + 1..]);
    PutBetween(Contents(m, kids[..i]), m[kids[i]].content, Contents(m, kids[i + 1..]), at, ls);
  }

  lemma PutBetween<T>(a: seq<T>, x: seq<T>, b: seq<T>, at: nat, ls: seq<T>)
    requires at <= |x|
    ensures a + (x[..at] + ls + x[at..]) + b == (a + x + b)[..|a| + at] + ls + (a + x + b)[|a| + at..]
  {
  }

  lemma AnnounceOther(m: Picture, root: Chunk, c: Chunk, i: nat, at: nat, ls: seq<Line>, h: int, d: Chunk)
    requires Rooted(m, root) && AllLocal(m, {c}) && c in m && KidsOk(m, c) && i < |m[c].kids| && m[c].kids[i] in m && at <= |m[m[c].kids[i]].content|
    requires d in m && d != c && d != m[c].kids[i]
    ensures Local(Announce(m, c, m[c].kids[i], at, ls, h), d)
  {
    var n := Announce(m, c, m[c].kids[i], at, ls, h);
    assert Local(m, d) && m[c].kids[i] in m[c].kids;
    SumsSame(m, n, m[d].kids);
  }

  lemma AnnounceLines(m: Picture, c: Chunk, ch: Chunk, at: nat, ls: seq<Line>, h: int)
    requires AllLines(m, {}) && c in m && !m[c].leaf && ch in m && c != ch && at <= |m[ch].content|
    ensures var n := Announce(m, c, ch, at, ls, h); AllLines(n, if n[ch].leaf then {ch} else {})
    ensures LinesOk(m, ch) && LinesIn(Announce(m, c, ch, at, ls, h)) <= LinesIn(m)
  {
    var n := Announce(m, c, ch, at, ls, h);
    forall d | d in n && (d != ch || !n[d].leaf)
      ensures LinesOk(n, d)
    {
      assert LinesOk(m, d);
    }
  }

  ghost predicate CanAnnounce(m: Picture, root: Chunk, c: Chunk, at: nat, i: nat, at': nat, ls: seq<Line>, h: int)
  {
    && Inserting(m, root, c, at, ls, h) && !m[c].leaf && i < |m[c].kids| && m[c].kids[i] in m
    && |Contents(m, m[c].kids[..i])| + at' == at && at' <= |m[m[c].kids[i]].content|
  }

  lemma AnnounceSelf(m: Picture, root: Chunk, c: Chunk, at: nat, i: nat, at': nat, ls: seq<Line>, h: int)
    requires CanAnnounce(m, root, c, at, i, at', ls, h)
    ensures Local(Announce(m, c, m[c].kids[i], at', ls, h), c)
  {
    var ks := m[c].kids;
    var n := Announce(m, c, ks[i], at', ls, h);
    assert ks[i] in ks && ks[0] in ks && c !in ks;
    assert First(n, n[c]).leaf == First(m, m[c]).leaf;
    AnnounceSums(m, c, ks, i, at', ls, h);
    if m[c].parent == ks[i] {
      assert Local(m, ks[i]);
    }
  }

  lemma AnnounceChild(m: Picture, root: Chunk, c: Chunk, at: nat, i: nat, at': nat, ls: seq<Line>, h: int)
    requires CanAnnounce(m, root, c, at, i, at', ls, h)
    ensures Pending(Announce(m, c, m[c].kids[i], at', ls, h), m[c].kids[i], at', ls, h)
  {
    var ch := m[c].kids[i];
    var n := Announce(m, c, ch, at', ls, h);
    assert ch in m[c].kids;
    assert Local(m, ch);
    SumsSame(m, n, m[ch].kids);
  }

  lemma InsertStep(m: Picture, root: Chunk, c: Chunk, at: nat, i: nat, at': nat, ls: seq<Line>, h: int)
    requires CanAnnounce(m, root, c, at, i, at', ls, h)
    ensures Inserting(Announce(m, c, m[c].kids[i], at', ls, h), root, m[c].kids[i], at', ls, h)
  {
    var n, ch := Announce(m, c, m[c].kids[i], at', ls, h), m[c].kids[i];
    AnnounceSelf(m, root, c, at, i, at', ls, h);
    AnnounceChild(m, root, c, at, i, at', ls, h);
    forall d | d in n && d != ch && d != c
      ensures Local(n, d)
    {
      AnnounceOther(m, root, c, i, at', ls, h, d);
    }
  }

  /** An insertion arrives at its leaf. */
  lemma LeafTakes(m: Picture, n: Picture, root: Chunk, leaf: Chunk, at: nat, ls: seq<Line>, h: int)
    requires Inserting(m, root, leaf, at, ls, h) && m[leaf].leaf
    requires n == m[leaf := m[leaf].(lines := m[leaf].content, height := m[leaf].tall)]
    ensures TreeOf(n, root) && n[root].content == m[root].content && n[root].tall == m[root].tall
    ensures forall c {:trigger n[c]} :: c in n && c != leaf ==> Cap(n[c])
  {
    assert Local(n, leaf);
    forall c | c in m && c != leaf
      ensures Local(n, c)
    {
      assert Local(m, c);
      SumsSame(m, n, m[c].kids);
    }
  }

  // ---------------------------------------------------------------- cutting up a leaf

  /** Only the leaf number `i` below `p` and `p` itself may be over capacity. */
  ghost predicate CuttingUp(m: Picture, n: Picture, root: Chunk, p: Chunk, i: nat, leaf: Chunk)
  {
    && TreeOf(n, root) && m.Keys <= n.Keys && p in n && !n[p].leaf && root in m
    && n[root].content == m[root].content && n[root].tall == m[root].tall
    && i < |n[p].kids| && n[p].kids[i] == leaf && leaf in n && n[leaf].leaf
    && forall c {:trigger n[c]} :: c in n && c != p && c != leaf ==> Cap(n[c])
  }

  /** The leaf number `i` below `p` gives its last 25 lines, of joint height `h`, to the new
      leaf `x`, its right neighbour. */
  ghost function LeafSplit(m: Picture, p: Chunk, i: nat, x: Chunk, h: int): Picture
    requires p in m && i < |m[p].kids| && m[p].kids[i] in m && |m[m[p].kids[i]].lines| > 25 && p != x
  {
    var c := LeafCut(m, m[p].kids[i], x, h);
    c[p := c[p].(kids := Put(c[p].kids, i + 1, x))][x := c[x].(parent := p)]
  }

  ghost function LeafCut(m: Picture, leaf: Chunk, x: Chunk, h: int): Picture
    requires leaf in m && |m[leaf].lines| > 25
  {
    var ls := m[leaf].lines;
    var (front, back) := (ls[..|ls| - 25], ls[|ls| - 25..]);
    m[leaf := m[leaf].(lines := front, content := front, height := m[leaf].height - h, tall := m[leaf].tall - h)]
     [x := LeafCell(back, h, null)]
  }

  ghost predicate CanLeafSplit(m: Picture, root: Chunk, p: Chunk, i: nat, x: Chunk)
  {
    && TreeOf(m, root) && x !in m && p in m && !m[p].leaf
    && i < |m[p].kids| && m[p].kids[i] in m && m[m[p].kids[i]].leaf && |m[m[p].kids[i]].lines| > 25
  }

  lemma LeafSplitSums(m: Picture, root: Chunk, p: Chunk, i: nat, x: Chunk, h: int)
    requires CanLeafSplit(m, root, p, i, x)
    ensures var n := LeafSplit(m, p, i, x, h); Sums(n, p) && n[p] == m[p].(kids := Put(m[p].kids, i + 1, x))
  {
    var n := LeafSplit(m, p, i, x, h);
    var ks := m[p].kids;
    var leaf := ks[i];
    var ls := m[leaf].lines;
    assert Local(m, p) && Local(m, leaf) && leaf in ks;
    assert ls == ls[..|ls| - 25] + ls[|ls| - 25..];
    assert n[leaf].content + n[x].content == m[leaf].content;
    SumsSplit(m, n, ks, i, x);
  }

  lemma LeafSplitParent(m: Picture, root: Chunk, p: Chunk, i: nat, x: Chunk, h: int)
    requires CanLeafSplit(m, root, p, i, x)
    ensures var n := LeafSplit(m, p, i, x, h); KidsOk(n, p) && UpOk(n, p) && Local(n, x) && Local(n, m[p].kids[i])
  {
    hide Rooted, Contents, Talls, NoDup;
    var n := LeafSplit(m, p, i, x, h);
    var ks := m[p].kids;
    var leaf := ks[i];
    assert Local(m, p) && Local(m, leaf) && leaf in ks && ks[0] in ks;
    PutFacts(ks, i + 1, x);
    assert n[p].kids == Put(ks, i + 1, x);
    assert n[p].kids[0] == ks[0] && n[p].kids[i] == leaf && n[ks[0]].leaf == m[ks[0]].leaf;
    NotOwnParent(m, p);
  }

  lemma LeafSplitOther(m: Picture, root: Chunk, p: Chunk, i: nat, x: Chunk, h: int, c: Chunk)
    requires CanLeafSplit(m, root, p, i, x) && c in m && c != p && c != m[p].kids[i]
    ensures Local(LeafSplit(m, p, i, x, h), c)
  {
    var n := LeafSplit(m, p, i, x, h);
    assert Local(m, p) && Local(m, c) && m[p].kids[i] in m[p].kids;
    PutFacts(m[p].kids, i + 1, x);
    forall k | k in m[c].kids
      ensures k in n && n[k].parent == c && n[k].rank == m[k].rank && n[k].leaf == m[k].leaf
      ensures n[k].content == m[k].content && n[k].tall == m[k].tall
    {
      assert Local(m, k);
    }
    SumsSame(m, n, m[c].kids);
  }

  lemma LeafSplitKeeps(m: Picture, root: Chunk, p: Chunk, i: nat, x: Chunk, h: int)
    requires CanLeafSplit(m, root, p, i, x)
    ensures var n := LeafSplit(m, p, i, x, h);
      TreeOf(n, root) && n[root].content == m[root].content && n[root].tall == m[root].tall
  {
    hide UpOk, Sums;
    var n := LeafSplit(m, p, i, x, h);
    LeafSplitParent(m, root, p, i, x, h);
    LeafSplitSums(m, root, p, i, x, h);
    forall c | c in m && c != p && c != m[p].kids[i]
      ensures Local(n, c)
    {
      LeafSplitOther(m, root, p, i, x, h, c);
    }
    assert Local(m, p);
  }

  lemma LeafSplitLines(m: Picture, root: Chunk, p: Chunk, i: nat, x: Chunk, h: int)
    requires CanLeafSplit(m, root, p, i, x)
    requires AllLines(m, {m[p].kids[i]})
    requires var ls := m[m[p].kids[i]].lines; NoDup(ls) && m[m[p].kids[i]].tall == HeightSum(ls)
    requires var n := LeafSplit(m, p, i, x, h);
      HeightSum(n[x].lines) == h && (forall l <- n[x].lines :: l.parent == x)
      && forall l <- n[m[p].kids[i]].lines :: l.parent == m[p].kids[i]
    ensures AllLines(LeafSplit(m, p, i, x, h), {})
  {
    var n := LeafSplit(m, p, i, x, h);
    var leaf := m[p].kids[i];
    var ls := m[leaf].lines;
    Halves(ls, |ls| - 25);
    HeightSumAppend(ls[..|ls| - 25], ls[|ls| - 25..]);
    assert LinesOk(n, leaf) && LinesOk(n, x);
    forall c | c in n && c != leaf && c != x
      ensures LinesOk(n, c)
    {
      assert c in m && (c != p ==> LinesOk(m, c));
    }
  }

  // ---------------------------------------------------------------- splitting a branch below its parent

  /** From `m` to `n`: `me` gives its last five children to the new chunk `sib`, which
      becomes its right neighbour, child number `i + 1` of the parent. */
  ghost predicate IsSplit(m: Picture, n: Picture, me: Chunk, i: nat, sib: Chunk)
    requires CanSplit(m, me, sib)
  {
    && i < |m[m[me].parent].kids| && m[m[me].parent].kids[i] == me
    && var (x, p) := (m[me], m[me].parent);
    && var spilled := x.kids[|x.kids| - 5..];
    && n.Keys == m.Keys + {sib}
    && n[sib] == BranchCell(m, spilled, p, x.rank)
    && n[me] == Shrunk(m, me)
    && n[p] == m[p].(kids := Put(m[p].kids, i + 1, sib))
    && forall c {:trigger n[c]} :: c in m && c != me && c != p ==>
         n[c] == m[c].(parent := if c in spilled then sib else m[c].parent)
  }

  ghost predicate CanSplit(m: Picture, me: Chunk, sib: Chunk)
  {
    && AllLocal(m, {}) && sib !in m && me in m && !m[me].leaf && |m[me].kids| > 5
    && m[me].parent != null && m[me].parent != me && m[me].parent in m && me in m[m[me].parent].kids
  }

  /** A chunk and its parent are not among its children. */
  lemma KinApart(m: Picture, me: Chunk, sib: Chunk)
    requires CanSplit(m, me, sib)
    ensures me !in m[me].kids && m[me].parent !in m[me].kids
    ensures m[me].size == |m[me].content| && m[me].height == m[me].tall
  {
    assert Local(m, me) && Local(m, m[me].parent);
  }

  lemma CutIsSplit(m: Picture, n: Picture, me: Chunk, i: nat, sib: Chunk)
    requires CanSplit(m, me, sib)
    requires i < |m[m[me].parent].kids| && m[m[me].parent].kids[i] == me
    requires var c := CutPicture(m, me, sib); var p: Chunk := m[me].parent;
      n == c[me := Shrunk(m, me)][p := m[p].(kids := Put(m[p].kids, i + 1, sib))][sib := c[sib].(parent := p)]
    ensures IsSplit(m, n, me, i, sib)
  {
  }

  /** What a split leaves alone. */
  lemma SplitFrame(m: Picture, n: Picture, me: Chunk, i: nat, sib: Chunk, c: Chunk)
    requires CanSplit(m, me, sib) && IsSplit(m, n, me, i, sib) && c in m
    ensures n[c].rank == m[c].rank && n[c].leaf == m[c].leaf
    ensures c != me ==> n[c].content == m[c].content && n[c].tall == m[c].tall
    ensures m[c].parent != me ==> n[c].parent == m[c].parent
    ensures c in n[me].kids ==> n[c].parent == me
    ensures c in n[sib].kids ==> n[c].parent == sib
  {
    var x := m[me];
    assert Local(m, me) && Local(m, x.parent);
    assert forall k <- n[sib].kids :: k in x.kids;
    assert forall k <- n[me].kids :: k in x.kids;
  }

  lemma SplitSums(m: Picture, n: Picture, me: Chunk, i: nat, sib: Chunk)
    requires CanSplit(m, me, sib) && IsSplit(m, n, me, i, sib)
    ensures n[me].content + n[sib].content == m[me].content
    ensures n[me].tall + n[sib].tall == m[me].tall
  {
    var x := m[me];
    assert Local(m, me);
    assert x.kids == x.kids[..|x.kids| - 5] + x.kids[|x.kids| - 5..];
    SumsAppend(m, x.kids[..|x.kids| - 5], x.kids[|x.kids| - 5..]);
  }

  /** The kids of `me` and `sib` after a split. */
  lemma SplitKids(m: Picture, n: Picture, me: Chunk, i: nat, sib: Chunk, c: Chunk)
    requires CanSplit(m, me, sib) && IsSplit(m, n, me, i, sib) && c in {me, sib}
    ensures KidsOk(n, c) && Contents(n, n[c].kids) == Contents(m, n[c].kids) && Talls(n, n[c].kids) == Talls(m, n[c].kids)
  {
    assert Local(m, me);
    forall k | k in n[c].kids
      ensures k in m[me].kids && k in n && n[k].parent == c
      ensures n[k].content == m[k].content && n[k].tall == m[k].tall && n[k].rank == m[k].rank && n[k].leaf == m[k].leaf
    {
      assert k in m[me].kids;
      SplitFrame(m, n, me, i, sib, k);
    }
    SumsSame(m, n, n[c].kids);
  }

  lemma SplitMe(m: Picture, n: Picture, me: Chunk, i: nat, sib: Chunk)
    requires CanSplit(m, me, sib) && IsSplit(m, n, me, i, sib)
    ensures Local(n, me) && Local(n, sib)
  {
    assert Local(m, me);
    SplitKids(m, n, me, i, sib, me);
    SplitKids(m, n, me, i, sib, sib);
    SplitSums(m, n, me, i, sib);
    PutFacts(m[m[me].parent].kids, i + 1, sib);
  }

  lemma SplitParentSums(m: Picture, n: Picture, me: Chunk, i: nat, sib: Chunk)
    requires CanSplit(m, me, sib) && IsSplit(m, n, me, i, sib)
    ensures var p := m[me].parent; Contents(n, n[p].kids) == m[p].content && Talls(n, n[p].kids) == m[p].tall
  {
    var p := m[me].parent;
    assert Local(m, p);
    SplitSums(m, n, me, i, sib);
    forall k | k in m[p].kids
      ensures k in m && k in n && (k != me ==> n[k].content == m[k].content && n[k].tall == m[k].tall)
    {
      SplitFrame(m, n, me, i, sib, k);
    }
    SumsSplit(m, n, m[p].kids, i, sib);
  }

  /** The parent, and any other old chunk: its kids keep their place in the tree. */
  lemma SplitOther(m: Picture, n: Picture, me: Chunk, i: nat, sib: Chunk, c: Chunk)
    requires CanSplit(m, me, sib) && IsSplit(m, n, me, i, sib) && c in m && c != me
    ensures Local(n, c)
  {
    var p := m[me].parent;
    assert Local(m, me) && Local(m, p) && Local(m, c);
    forall k | k in m[c].kids
      ensures k in n && n[k].parent == c && n[k].rank == m[k].rank && n[k].leaf == m[k].leaf
      ensures c != p ==> n[k].content == m[k].content && n[k].tall == m[k].tall
    {
      SplitFrame(m, n, me, i, sib, k);
    }
    SplitUp(m, n, me, i, sib, c);
    PutFacts(m[p].kids, i + 1, sib);
    if c == p {
      SplitParentSums(m, n, me, i, sib);
    } else {
      SumsSame(m, n, m[c].kids);
    }
  }

  lemma SplitUp(m: Picture, n: Picture, me: Chunk, i: nat, sib: Chunk, c: Chunk)
    requires CanSplit(m, me, sib) && IsSplit(m, n, me, i, sib) && c in m && c != me
    ensures UpOk(n, c)
  {
    assert Local(m, me) && Local(m, c);
    PutFacts(m[m[me].parent].kids, i + 1, sib);
    SplitFrame(m, n, me, i, sib, c);
    var x := m[me];
    assert x.kids == x.kids[..|x.kids| - 5] + x.kids[|x.kids| - 5..];
    if m[c].parent == me && c !in n[sib].kids {
      assert c in x.kids && c in n[me].kids;
    }
  }

  lemma SplitKeeps(m: Picture, n: Picture, root: Chunk, me: Chunk, i: nat, sib: Chunk)
    requires CanSplit(m, me, sib) && IsSplit(m, n, me, i, sib) && TreeOf(m, root) && CapBut(m, me)
    ensures TreeOf(n, root) && CapBut(n, me) && SameLeaves(m, n)
    ensures n[root].content == m[root].content && n[root].tall == m[root].tall
  {
    SplitMe(m, n, me, i, sib);
    forall c | c in m && c != me
      ensures Local(n, c)
    {
      SplitOther(m, n, me, i, sib, c);
    }
    assert Local(m, me);
  }

  // ---------------------------------------------------------------- a new level below the root

  /** From `m` to `n`: the new chunk `copy` takes over all children of the root and becomes
      its only child. */
  ghost predicate IsWrap(m: Picture, n: Picture, root: Chunk, copy: Chunk)
  {
    && TreeOf(m, root) && copy !in m && m[root].kids != []
    && n.Keys == m.Keys + {copy}
    && n[copy] == m[root].(parent := root)
    && n[root] == m[root].(kids := [copy], rank := m[root].rank + 1)
    && forall c {:trigger n[c]} :: c in m && c != root ==>
         n[c] == m[c].(parent := if c in m[root].kids then copy else m[c].parent)
  }

  lemma WrapOther(m: Picture, n: Picture, root: Chunk, copy: Chunk, c: Chunk)
    requires IsWrap(m, n, root, copy) && c in m && c != root
    ensures Local(n, c)
  {
    assert Local(m, root) && Local(m, c);
    forall k | k in m[c].kids
      ensures k in n && n[k] == m[k]
    {
      assert Local(m, k) && k != root;
    }
    SumsSame(m, n, m[c].kids);
  }

  lemma WrapKeeps(m: Picture, n: Picture, root: Chunk, copy: Chunk)
    requires IsWrap(m, n, root, copy) && CapBut(m, root)
    ensures TreeOf(n, root) && CapBut(n, copy) && SameLeaves(m, n) && n[root].content == m[root].content && n[root].tall == m[root].tall
  {
    assert Local(m, root);
    forall k | k in m[root].kids
      ensures k in n && n[k] == m[k].(parent := copy)
    {
      assert Local(m, k) && k != root;
    }
    SumsSame(m, n, m[root].kids);
    SumsOne(n, copy);
    assert Local(n, root) && Local(n, copy);
    forall c | c in m && c != root
      ensures Local(n, c)
    {
      WrapOther(m, n, root, copy, c);
    }
  }

  /** From `m` to `n`: the root keeps two children, both new. `copy` has all of its former
      children but the last five, `sib` has those. */
  ghost predicate IsRootSplit(m: Picture, n: Picture, root: Chunk, copy: Chunk, sib: Chunk)
    requires root in m && |m[root].kids| > 5
  {
    var (rest, spilled) := (m[root].kids[..|m[root].kids| - 5], m[root].kids[|m[root].kids| - 5..]);
    && n.Keys == m.Keys + {copy, sib}
    && n[copy] == BranchCell(m, rest, root, m[root].rank)
    && n[sib] == BranchCell(m, spilled, root, m[root].rank)
    && n[root] == m[root].(kids := [copy, sib], rank := m[root].rank + 1)
    && (forall c {:trigger n[c]} :: c in m && c != root ==> n[c] == m[c].(parent := n[c].parent))
    && (forall c {:trigger n[c]} :: c in m && c != root ==>
          n[c].parent == if c in rest then copy else if c in spilled then sib else m[c].parent)
  }

  ghost function WrapOf(m: Picture, root: Chunk, copy: Chunk): Picture
    requires root in m
  {
    map c | c in m.Keys + {copy} ::
      if c == copy then m[root].(parent := root)
      else if c == root then m[root].(kids := [copy], rank := m[root].rank + 1)
      else m[c].(parent := if c in m[root].kids then copy else m[c].parent)
  }

  lemma CutFacts(m: Picture, root: Chunk, sib: Chunk)
    requires TreeOf(m, root) && |m[root].kids| > 5 && sib !in m
    ensures var c := CutPicture(m, root, sib); var kids := m[root].kids[..|m[root].kids| - 5];
      && root !in m[root].kids && (forall k <- m[root].kids :: k in m)
      && (forall k <- kids :: k in m[root].kids && k in m && k in c && Cached(c[k]))
      && Contents(c, kids) == Contents(m, kids) && Talls(c, kids) == Talls(m, kids)
  {
    var c := CutPicture(m, root, sib);
    var kids := m[root].kids;
    assert Local(m, root);
    forall k | k in kids[..|kids| - 5]
      ensures k in kids && k in m && k in c && c[k] == m[k].(parent := c[k].parent) && Cached(c[k])
    {
      assert k in kids;
      assert Local(m, k) && k != root;
    }
    SumsSame(m, c, kids[..|kids| - 5]);
  }

  lemma DeepIsRootSplit(m: Picture, n: Picture, root: Chunk, copy: Chunk, sib: Chunk)
    requires TreeOf(m, root) && |m[root].kids| > 5 && sib !in m && copy !in m && copy != sib
    requires n == Covered(DeepPicture(m, root, copy, sib), root, copy, sib)
    ensures IsRootSplit(m, n, root, copy, sib)
  {
    hide Adopted, CutPicture;
    CutFacts(m, root, sib);
    DeepFacts(m, root, copy, sib);
  }

  ghost function DeepPicture(m: Picture, root: Chunk, copy: Chunk, sib: Chunk): Picture
    requires root in m && |m[root].kids| > 5
  {
    var c := CutPicture(m, root, sib);
    Adopted(c, c[root].kids, copy)[copy := BranchCell(c, c[root].kids, null, c[root].rank)]
  }

  lemma DeepFacts(m: Picture, root: Chunk, copy: Chunk, sib: Chunk)
    requires root in m && |m[root].kids| > 5 && sib !in m && copy !in m && copy != sib && root !in m[root].kids
    requires forall k <- m[root].kids :: k in m
    ensures var n := DeepPicture(m, root, copy, sib);
      var (rest, spilled) := (m[root].kids[..|m[root].kids| - 5], m[root].kids[|m[root].kids| - 5..]);
      && n.Keys == m.Keys + {copy, sib}
      && n[copy] == BranchCell(CutPicture(m, root, sib), rest, null, m[root].rank)
      && n[sib] == BranchCell(m, spilled, null, m[root].rank)
      && n[root] == m[root].(kids := rest)
      && (forall c {:trigger n[c]} :: c in m && c != root ==>
            n[c] == m[c].(parent := if c in rest then copy else if c in spilled then sib else m[c].parent))
  {
    assert forall k <- m[root].kids[..|m[root].kids| - 5] :: k in m[root].kids;
  }

  /** Splitting the root is wrapping it and splitting the new only child. */
  lemma RootSplitIsSplit(m: Picture, n: Picture, root: Chunk, copy: Chunk, sib: Chunk)
    requires TreeOf(m, root) && |m[root].kids| > 5 && IsRootSplit(m, n, root, copy, sib)
    requires copy !in m && sib !in m && copy != sib
    requires IsWrap(m, WrapOf(m, root, copy), root, copy) && CanSplit(WrapOf(m, root, copy), copy, sib)
    ensures IsSplit(WrapOf(m, root, copy), n, copy, 0, sib)
  {
    hide Contents, Talls, UpOk, AllLocal;
    var w := WrapOf(m, root, copy);
    var kids := m[root].kids;
    WrapHalves(m, root, copy);
    assert kids == kids[..|kids| - 5] + kids[|kids| - 5..];
  }

  /** The root's children, seen below a copy of it. */
  lemma WrapHalves(m: Picture, root: Chunk, copy: Chunk)
    requires TreeOf(m, root) && |m[root].kids| > 5 && copy !in m
    ensures var (w, kids) := (WrapOf(m, root, copy), m[root].kids);
      var (rest, spilled) := (kids[..|kids| - 5], kids[|kids| - 5..]);
      && (forall k <- kids :: k in m && k in w && w[k] == m[k].(parent := copy) && k != root && m[k].parent == root)
      && Contents(w, rest) == Contents(m, rest) && Talls(w, rest) == Talls(m, rest)
      && Contents(w, spilled) == Contents(m, spilled) && Talls(w, spilled) == Talls(m, spilled)
      && m[root].content == Contents(m, rest) + Contents(m, spilled) && m[root].height == Talls(m, rest) + Talls(m, spilled)
      && m[root].size == |m[root].content| && m[root].lines == [] && NoDup(kids)
      && forall c :: c in m && c != root && c !in kids ==> m[c].parent != root
  {
    var w := WrapOf(m, root, copy);
    var kids := m[root].kids;
    assert Local(m, root);
    assert kids == kids[..|kids| - 5] + kids[|kids| - 5..];
    forall k | k in kids
      ensures k in m && k in w && w[k] == m[k].(parent := copy) && k != root && m[k].parent == root
    {
      assert Local(m, k) && k != root;
    }
    forall c | c in m && c != root && c !in kids
      ensures m[c].parent != root
    {
      assert Local(m, c);
    }
    SumsSame(m, w, kids[..|kids| - 5]);
    SumsSame(m, w, kids[|kids| - 5..]);
    SumsAppend(m, kids[..|kids| - 5], kids[|kids| - 5..]);
  }

  lemma RootSplitKeeps(m: Picture, n: Picture, root: Chunk, copy: Chunk, sib: Chunk)
    requires TreeOf(m, root) && |m[root].kids| > 5 && IsRootSplit(m, n, root, copy, sib)
    requires copy !in m && sib !in m && copy != sib && CapBut(m, root)
    ensures TreeOf(n, root) && CapBut(n, copy) && SameLeaves(m, n) && n[root].content == m[root].content && n[root].tall == m[root].tall
  {
    var w := WrapOf(m, root, copy);
    WrapKeeps(m, w, root, copy);
    RootSplitIsSplit(m, n, root, copy, sib);
    SplitKeeps(w, n, root, copy, 0, sib);
  }

  /** Where the spilling loop that began at `start` in the picture `m` stands. */
  ghost predicate Spilling(m: Picture, n: Picture, root: Chunk, start: Chunk, me: Chunk)
  {
    && TreeOf(n, root) && me in n && !n[me].leaf && |n[me].kids| >= 1 && CapBut(n, me)
    && m.Keys <= n.Keys && root in m && start in m
    && n[root].content == m[root].content && n[root].tall == m[root].tall && SameLeaves(m, n)
    && if start == root then
         if me == root then n == m
         else n[me].parent == root && 5 < |n[me].kids| == |m[root].kids| - 5 * (|n[root].kids| - 1)
       else
         me == start && n[me].parent == m[me].parent && n[me].rank == m[me].rank && n[root].rank == m[root].rank
  }

  /** Once the loop ends, its parent is closer to the root, or it is the root with fewer children. */
  lemma SpillingClimbs(m: Picture, n: Picture, root: Chunk, start: Chunk, me: Chunk)
    requires TreeOf(m, root) && Spilling(m, n, root, start, me) && |n[me].kids| <= 10 && |m[start].kids| > 10
    ensures n[me].parent != null && n[me].parent in n && !n[n[me].parent].leaf && me in n[n[me].parent].kids
    ensures forall c {:trigger n[c]} :: c in n && c != n[me].parent ==> Cap(n[c])
    ensures var p := n[me].parent;
      if start == root then p == root && |n[p].kids| < |m[root].kids| else m[start].rank < n[p].rank <= n[root].rank == m[root].rank
  {
    assert Local(n, me) && Local(m, start);
    assert Local(n, n[me].parent);
  }

  // ---------------------------------------------------------------- the chunks below a chunk

  /** All chunks below those of `kids` that rank below `bound`, themselves included. */
  ghost function Subtrees(m: Picture, kids: seq<Chunk>, bound: nat): set<Chunk>
    decreases bound, |kids|
  {
    if kids == [] then {}
    else
      (if kids[0] in m && m[kids[0]].rank < bound then {kids[0]} + Subtrees(m, m[kids[0]].kids, m[kids[0]].rank) else {})
      + Subtrees(m, kids[1..], bound)
  }

  /** `d` is below one of `kids`: it is one of them, or its parent is below one of them. */
  lemma {:induction false} SubtreesUp(m: Picture, kids: seq<Chunk>, bound: nat, busy: set<Chunk>, d: Chunk)
    requires AllLocal(m, busy) && d in Subtrees(m, kids, bound)
    requires forall k <- kids :: k in m && m[k].rank < bound
    requires forall b <- busy :: b in m ==> bound <= m[b].rank
    ensures d in m && m[d].rank < bound && d !in busy
    ensures d in kids || (m[d].parent != null && m[d].parent in Subtrees(m, kids, bound))
    ensures forall k <- m[d].kids :: k in Subtrees(m, kids, bound)
    decreases bound, |kids|
  {
    if kids == [] {
    } else {
      var k := kids[0];
      assert Local(m, k);
      if d in Subtrees(m, m[k].kids, m[k].rank) {
        SubtreesUp(m, m[k].kids, m[k].rank, busy, d);
      } else if d != k {
        SubtreesUp(m, kids[1..], bound, busy, d);
      } else {
        SubtreesOf(m, m[k].kids, m[k].rank);
      }
    }
  }

  lemma {:induction false} SubtreesOf(m: Picture, kids: seq<Chunk>, bound: nat)
    requires forall k <- kids :: k in m && m[k].rank < bound
    ensures forall k <- kids :: k in Subtrees(m, kids, bound)
  {
    if kids == [] {
    } else {
      SubtreesOf(m, kids[1..], bound);
    }
  }

  /** Each line of the contents is in a leaf below, which it points to. */
  lemma {:induction false} LineHome(m: Picture, kids: seq<Chunk>, bound: nat, busy: set<Chunk>, l: Line)
    requires AllLocal(m, busy) && AllLines(m, {}) && l in Contents(m, kids)
    requires forall k <- kids :: k in m && m[k].rank < bound
    requires forall b <- busy :: b in m ==> bound <= m[b].rank
    ensures l.parent != null && l.parent in Subtrees(m, kids, bound) && l.parent in m && m[l.parent].leaf && l in m[l.parent].lines
    decreases bound, |kids|
  {
    var k := kids[0];
    assert Local(m, k) && LinesOk(m, k);
    if l in m[k].content {
      if !m[k].leaf {
        LineHome(m, m[k].kids, m[k].rank, busy, l);
      }
    } else {
      LineHome(m, kids[1..], bound, busy, l);
    }
  }

  /** Cached heights are the heights of the lines below. */
  lemma {:induction false} TallsAreHeights(m: Picture, kids: seq<Chunk>, bound: nat, busy: set<Chunk>)
    requires AllLocal(m, busy) && AllLines(m, {})
    requires forall k <- kids :: k in m && m[k].rank < bound
    requires forall b <- busy :: b in m ==> bound <= m[b].rank
    ensures Talls(m, kids) == HeightSum(Contents(m, kids))
    decreases bound, |kids|
  {
    if kids == [] {
    } else {
      var k := kids[0];
      assert Local(m, k) && LinesOk(m, k);
      if !m[k].leaf {
        TallsAreHeights(m, m[k].kids, m[k].rank, busy);
      }
      TallsAreHeights(m, kids[1..], bound, busy);
      HeightSumAppend(m[k].content, Contents(m, kids[1..]));
    }
  }

  // ---------------------------------------------------------------- taking subtrees away

  /** `p` loses the children `gone`, with all that is below them, and keeps `kept`. */
  ghost function Prune(m: Picture, p: Chunk, gone: seq<Chunk>, kept: seq<Chunk>): Picture
    requires p in m
  {
    map c | c in m.Keys - Subtrees(m, gone, m[p].rank) :: if c == p then m[p].(kids := kept) else m[c]
  }

  /** `p` is being worked on, as are the chunks `busy` above it. */
  ghost predicate Working(m: Picture, busy: set<Chunk>, p: Chunk)
  {
    && p in m && !m[p].leaf && m[p].rank > 0 && p !in busy && AllLocal(m, busy + {p}) && KidsOk(m, p) && UpOk(m, p)
    && (m[p].parent != null ==> m[p].parent in busy)
    && forall b <- busy :: b in m && m[p].rank < m[b].rank
  }

  ghost predicate CanPrune(m: Picture, busy: set<Chunk>, p: Chunk, gone: seq<Chunk>, kept: seq<Chunk>)
  {
    && Working(m, busy, p) && NoDup(kept)
    && (forall k <- gone :: k in m[p].kids)
    && (forall k <- kept :: k in m[p].kids && k !in gone)
    && (forall k <- m[p].kids :: k in gone || k in kept)
  }

  /** What is pruned hangs off the children given up; nothing else does. */
  lemma PrunedBelow(m: Picture, busy: set<Chunk>, p: Chunk, gone: seq<Chunk>, kept: seq<Chunk>, d: Chunk)
    requires CanPrune(m, busy, p, gone, kept) && d in Subtrees(m, gone, m[p].rank)
    ensures d in m && d != p && d !in busy && d !in kept
    ensures d in gone || (m[d].parent != null && m[d].parent in Subtrees(m, gone, m[p].rank))
    ensures forall k <- m[d].kids :: k in Subtrees(m, gone, m[p].rank)
    ensures m[d].parent !in busy
  {
    SubtreesUp(m, gone, m[p].rank, busy + {p}, d);
    if d !in gone {
      SubtreesUp(m, gone, m[p].rank, busy + {p}, m[d].parent);
    }
  }

  lemma PruneOther(m: Picture, busy: set<Chunk>, p: Chunk, gone: seq<Chunk>, kept: seq<Chunk>, c: Chunk)
    requires CanPrune(m, busy, p, gone, kept) && c in Prune(m, p, gone, kept) && c != p && c !in busy
    ensures Local(Prune(m, p, gone, kept), c)
  {
    var n := Prune(m, p, gone, kept);
    assert Local(m, c);
    forall k | k in m[c].kids
      ensures k in n && (k != p ==> n[k] == m[k])
    {
      if k in Subtrees(m, gone, m[p].rank) {
        PrunedBelow(m, busy, p, gone, kept, k);
      }
    }
    SumsSame(m, n, m[c].kids);
    PruneUp(m, busy, p, gone, kept, c);
  }

  lemma PruneUp(m: Picture, busy: set<Chunk>, p: Chunk, gone: seq<Chunk>, kept: seq<Chunk>, c: Chunk)
    requires CanPrune(m, busy, p, gone, kept) && c in Prune(m, p, gone, kept) && UpOk(m, c)
    ensures UpOk(Prune(m, p, gone, kept), c)
  {
    var q := m[c].parent;
    if q != null {
      if q in Subtrees(m, gone, m[p].rank) {
        PrunedBelow(m, busy, p, gone, kept, q);
      }
      SubtreesOf(m, gone, m[p].rank);
    }
  }

  lemma PruneKeeps(m: Picture, busy: set<Chunk>, p: Chunk, gone: seq<Chunk>, kept: seq<Chunk>)
    requires CanPrune(m, busy, p, gone, kept)
    ensures var n := Prune(m, p, gone, kept);
      && Working(n, busy, p)
      && (forall b <- busy :: b in n && n[b] == m[b])
      && (forall c {:trigger m[c]} :: c in m && m[c].parent != null && m[c].parent in busy && c != p ==> c in n && n[c] == m[c])
      && (forall k <- kept :: k in n && n[k] == m[k])
  {
    var n := Prune(m, p, gone, kept);
    forall d | d in Subtrees(m, gone, m[p].rank)
      ensures d in m && d !in busy && d !in kept && d != p && m[d].parent !in busy
    {
      PrunedBelow(m, busy, p, gone, kept, d);
    }
    forall c | c in n && c != p && c !in busy
      ensures Local(n, c)
    {
      PruneOther(m, busy, p, gone, kept, c);
    }
    PruneUp(m, busy, p, gone, kept, p);
    if kept != [] {
      assert kept[0] in kept && m[p].kids[0] in m[p].kids;
    }
  }

  ghost function Collapsed(m: Picture, p: Chunk, leaf: Chunk): Picture
    requires p in m
  {
    Prune(m, p, m[p].kids, [])[p := m[p].(kids := [leaf])][leaf := LeafCell(m[p].content, m[p].tall, p)]
  }

  /** A branch may put all its lines into one new leaf. */
  lemma CollapseKeeps(m: Picture, busy: set<Chunk>, p: Chunk, leaf: Chunk)
    requires Working(m, busy, p) && Local(m, p) && leaf !in m
    ensures var n := Collapsed(m, p, leaf);
      && AllLocal(n, busy)
      && (forall b <- busy :: b in n && n[b] == m[b])
      && (forall c {:trigger m[c]} :: c in m && m[c].parent != null && m[c].parent in busy && c != p ==> c in n && n[c] == m[c])
  {
    var n, q := Collapsed(m, p, leaf), Prune(m, p, m[p].kids, []);
    PruneKeeps(m, busy, p, m[p].kids, []);
    SumsOne(n, leaf);
    assert Local(n, leaf) && Local(n, p);
    forall c | c in n && c != p && c != leaf && c !in busy
      ensures Local(n, c)
    {
      CollapseOther(m, busy, p, leaf, c);
    }
  }

  lemma CollapseOther(m: Picture, busy: set<Chunk>, p: Chunk, leaf: Chunk, c: Chunk)
    requires Working(m, busy, p) && Local(m, p) && leaf !in m
    requires c in Collapsed(m, p, leaf) && c != p && c != leaf && c !in busy
    ensures Local(Collapsed(m, p, leaf), c)
  {
    hide Contents, Talls;
    var n, q := Collapsed(m, p, leaf), Prune(m, p, m[p].kids, []);
    PruneKeeps(m, busy, p, m[p].kids, []);
    assert Local(q, c);
    SumsSame(q, n, q[c].kids);
  }

  // ---------------------------------------------------------------- removing lines

  function Cut<T>(s: seq<T>, at: nat, n: nat): seq<T>
    requires at + n <= |s|
  {
    s[..at] + s[at + n..]
  }

  /** From `m` to `r`, the lines `at..at + n` of `p` went, and nothing changed outside `p`. */
  ghost predicate Trimmed(m: Picture, r: Picture, busy: set<Chunk>, p: Chunk, at: nat, n: nat)
  {
    && p in m && p in r && at + n <= |m[p].content| && r[p].content == Cut(m[p].content, at, n)
    && r[p].parent == m[p].parent && r[p].rank == m[p].rank && r[p].leaf == m[p].leaf
    && AllLocal(r, busy) && Outside(m, r, busy, p)
  }

  ghost predicate Outside(m: Picture, r: Picture, busy: set<Chunk>, p: Chunk)
  {
    && p in m
    && (forall b <- busy :: b in m && b in r && r[b] == m[b])
    && (forall c {:trigger m[c]} {:trigger r[c]} ::
          c in m && m[c].parent != null && m[c].parent in busy && c != p ==> c in r && r[c] == m[c])
    && (forall c {:trigger r[c]} :: c in r ==>
          || (c in m && r[c].parent == m[c].parent && r[c].rank == m[c].rank)
          || (r[c].parent != null && r[c].rank < m[p].rank))
  }

  ghost predicate CapOutside(m: Picture, busy: set<Chunk>)
  {
    forall c {:trigger m[c]} :: c in m && c !in busy ==> Cap(m[c])
  }

  /** The loop of `remove` on `p`, with `n` of the `n0` lines from `at0` still to go. */
  ghost predicate Removing(m: Picture, q: Picture, busy: set<Chunk>, p: Chunk, at0: nat, n0: nat, n: nat)
  {
    && p in m && n <= n0 && at0 + n0 <= |m[p].content| && Working(q, busy, p) && Outside(m, q, busy, p)
    && CapOutside(q, busy + {p}) && |q[p].kids| <= 10
    && q[p] == m[p].(kids := q[p].kids, size := m[p].size - n0, height := Talls(q, q[p].kids))
    && Contents(q, q[p].kids) == Cut(m[p].content, at0, n0 - n)
  }

  ghost function LeafTrim(m: Picture, leaf: Chunk, at: nat, n: nat, h: int): Picture
    requires leaf in m && at + n <= |m[leaf].lines|
  {
    var ls := Cut(m[leaf].lines, at, n);
    m[leaf := m[leaf].(lines := ls, content := ls, height := h, tall := h)]
  }

  /** A chunk may be trimmed while the chunks `busy` above it are being worked on. */
  ghost predicate CanTrim(m: Picture, busy: set<Chunk>, p: Chunk)
  {
    && p in m && p !in busy && AllLocal(m, busy) && CapOutside(m, busy) && NoDup(m[p].content)
    && (m[p].parent != null ==> m[p].parent in busy)
    && forall b <- busy :: b in m && m[p].rank < m[b].rank
  }

  lemma LeafTrimKeeps(m: Picture, busy: set<Chunk>, leaf: Chunk, at: nat, n: nat, h: int)
    requires CanTrim(m, busy, leaf) && m[leaf].leaf && at + n <= |m[leaf].lines|
    ensures Trimmed(m, LeafTrim(m, leaf, at, n, h), busy, leaf, at, n) && CapOutside(LeafTrim(m, leaf, at, n, h), busy)
  {
    var r := LeafTrim(m, leaf, at, n, h);
    assert Local(m, leaf) && Local(r, leaf);
    forall c | c in r && c != leaf && c !in busy
      ensures Local(r, c)
    {
      assert Local(m, c);
      forall k | k in m[c].kids
        ensures k != leaf
      {
        assert m[k].parent == c;
      }
      SumsSame(m, r, m[c].kids);
    }
  }

  /** The loop of `remove` is at child `i`, and `at` lines into it the removal goes on. */
  ghost predicate RemovePos(m: Picture, q: Picture, busy: set<Chunk>, p: Chunk, at0: nat, n0: nat, n: nat, i: nat, at: nat)
  {
    && Removing(m, q, busy, p, at0, n0, n) && Local(m, p) && NoDup(m[p].content)
    && p in m && p in q && q[p].rank == m[p].rank && !q[p].leaf && n <= n0 && at0 + n0 <= |m[p].content|
    && i <= |q[p].kids| && |Contents(q, q[p].kids[..i])| + at == at0
  }

  lemma RemoveBegins(m: Picture, q: Picture, busy: set<Chunk>, p: Chunk, at: nat, n: nat)
    requires CanTrim(m, busy, p) && !m[p].leaf && at + n <= |m[p].content| && AllLines(m, {})
    requires q == m[p := m[p].(size := m[p].size - n)]
    ensures RemovePos(m, q, busy, p, at, n, n, 0, at) && AllLines(q, {})
  {
    hide Working, Outside, CapOutside, UpOk;
    assert Local(m, p);
    SizeWorking(m, busy, p, m[p].size - n);
    SizeOutside(m, busy, p, m[p].size - n);
    SumsSame(m, q, m[p].kids);
    SizeLines(m, p, m[p].size - n);
  }

  lemma SizeWorking(m: Picture, busy: set<Chunk>, p: Chunk, size: int)
    requires CanTrim(m, busy, p) && !m[p].leaf
    ensures Working(m[p := m[p].(size := size)], busy, p)
  {
    var q := m[p := m[p].(size := size)];
    assert Local(m, p);
    forall c | c in q && c != p && c !in busy
      ensures Local(q, c)
    {
      assert Local(m, c);
      SizeLocal(m, p, size, c);
    }
  }

  lemma SizeOutside(m: Picture, busy: set<Chunk>, p: Chunk, size: int)
    requires CanTrim(m, busy, p)
    ensures var q := m[p := m[p].(size := size)]; Outside(m, q, busy, p) && CapOutside(q, busy + {p}) && Cap(m[p])
  {
  }

  /** Chunks do not ask for their own or their parents' counts. */
  lemma SizeLocal(m: Picture, p: Chunk, size: int, c: Chunk)
    requires p in m && Local(m, c) && c != p && Cached(m[p])
    ensures Local(m[p := m[p].(size := size)], c)
  {
    var q := m[p := m[p].(size := size)];
    assert forall k <- m[c].kids :: k in q && q[k].content == m[k].content && q[k].tall == m[k].tall;
    SumsSame(m, q, m[c].kids);
  }

  lemma SizeLines(m: Picture, p: Chunk, size: int)
    requires p in m && AllLines(m, {})
    ensures AllLines(m[p := m[p].(size := size)], {})
  {
    var q := m[p := m[p].(size := size)];
    forall c | c in q
      ensures LinesOk(q, c)
    {
      assert LinesOk(m, c);
    }
  }

  /** The child under the loop of `remove`: its size, and what skipping it does. */
  lemma KidSize(m: Picture, q: Picture, busy: set<Chunk>, p: Chunk, at0: nat, n0: nat, n: nat, i: nat, at: nat)
    requires RemovePos(m, q, busy, p, at0, n0, n, i, at) && i < |q[p].kids|
    ensures var k := q[p].kids[i]; k in q && Cached(q[k]) && k != p
    ensures var sz := |q[q[p].kids[i]].content|; sz <= at ==> RemovePos(m, q, busy, p, at0, n0, n, i + 1, at - sz)
  {
    var k := q[p].kids[i];
    assert k in q[p].kids;
    assert Local(q, k);
    SumsSnoc(q, q[p].kids, i);
  }

  lemma RemoveEnds(m: Picture, q: Picture, busy: set<Chunk>, p: Chunk, at0: nat, n0: nat, n: nat, i: nat, at: nat)
    requires RemovePos(m, q, busy, p, at0, n0, n, i, at) && i == |q[p].kids|
    ensures n == 0
  {
    assert q[p].kids[..i] == q[p].kids;
  }

  /** The child under the loop of `remove` may be trimmed. */
  lemma KidCanTrim(m: Picture, q: Picture, busy: set<Chunk>, p: Chunk, at0: nat, n0: nat, n: nat, i: nat, at: nat, k: Chunk)
    requires RemovePos(m, q, busy, p, at0, n0, n, i, at) && i < |q[p].kids| && k == q[p].kids[i] && k in q
    ensures CanTrim(q, busy + {p}, k) && q[k].rank < q[p].rank && k != p
  {
    assert k in q[p].kids;
    SumsAt(q, q[p].kids, i);
    CutApart(m[p].content, at0, n0 - n);
    Middle(Contents(q, q[p].kids[..i]), q[k].content, Contents(q, q[p].kids[i + 1..]));
  }

  /** Its lines are the next ones to go. */
  lemma KidLines(m: Picture, q: Picture, busy: set<Chunk>, p: Chunk, at0: nat, n0: nat, n: nat, i: nat, at: nat, rm: nat, x: seq<Line>)
    requires RemovePos(m, q, busy, p, at0, n0, n, i, at) && i < |q[p].kids| && q[p].kids[i] in q && x == q[q[p].kids[i]].content
    requires at + rm <= |x| && rm <= n
    ensures forall l <- x :: l in m[p].content
    ensures forall j :: at0 <= j < at0 + (n0 - n) ==> m[p].content[j] !in x
    ensures x[at..at + rm] == m[p].content[at0 + (n0 - n)..at0 + (n0 - n) + rm]
  {
    SumsAt(q, q[p].kids, i);
    NextLines(Contents(q, q[p].kids[..i]), x, Contents(q, q[p].kids[i + 1..]), m[p].content, at0, n0 - n, at, rm);
  }

  lemma NextLines<T>(a: seq<T>, x: seq<T>, b: seq<T>, all: seq<T>, at0: nat, done: nat, at: nat, rm: nat)
    requires at0 + done + rm <= |all| && NoDup(all) && a + x + b == Cut(all, at0, done)
    requires |a| + at == at0 && at + rm <= |x|
    ensures (forall l <- x :: l in all) && (forall j :: at0 <= j < at0 + done ==> all[j] !in x)
    ensures x[at..at + rm] == all[at0 + done..at0 + done + rm]
  {
    CutApart(all, at0, done);
    Middle(a, x, b);
    assert forall j :: at0 <= j < at0 + done ==> all[j] in all[at0..at0 + done];
    var u, v := x[at..at + rm], all[at0 + done..at0 + done + rm];
    forall j | 0 <= j < rm
      ensures u[j] == v[j]
    {
      assert (a + x + b)[at0 + j] == x[at + j];
      assert Cut(all, at0, done)[at0 + j] == all[at0 + done + j];
    }
  }

  /** Where the loop of `remove` goes on after a child has lost its lines. */
  lemma RemovedPos(m: Picture, q: Picture, r: Picture, s: Picture, busy: set<Chunk>, p: Chunk,
                   at0: nat, n0: nat, n: nat, i: nat, at: nat, rm: nat, k: Chunk)
    requires CanRemove(m, q, r, busy, p, at0, n0, n, i, at, rm) && k == q[p].kids[i] && k in q && k in r && p in r
    requires s == r[p := r[p].(height := r[p].height - (q[k].height - r[k].height))]
    requires Removing(m, s, busy, p, at0, n0, n - rm) && s[p].kids == q[p].kids
    requires Contents(s, q[p].kids[..i]) == Contents(q, q[p].kids[..i])
    ensures k in s && k != p && s[k].rank < s[p].rank
    ensures rm == |q[k].content| ==> s[k].content == [] && |Contents(s, s[p].kids[..i])| == at0
    ensures at + rm == |q[k].content| ==> |Contents(s, s[p].kids[..i + 1])| == at0
  {
    assert k in q[p].kids && k in s[p].kids;
    SumsSnoc(s, s[p].kids, i);
  }

  lemma GoOn(m: Picture, q: Picture, t: Picture, busy: set<Chunk>, p: Chunk, at0: nat, n0: nat, n: nat, i: nat, at: nat, n': nat, i': nat)
    requires RemovePos(m, q, busy, p, at0, n0, n, i, at) && Removing(m, t, busy, p, at0, n0, n')
    requires p in t && i' <= |t[p].kids| && |Contents(t, t[p].kids[..i'])| == at0
    ensures RemovePos(m, t, busy, p, at0, n0, n', i', 0)
  {
  }

  lemma DropEmpty(m: Picture, s: Picture, busy: set<Chunk>, p: Chunk, at0: nat, n0: nat, n: nat, i: nat, k: Chunk)
    requires Removing(m, s, busy, p, at0, n0, n) && AllLines(s, {}) && i < |s[p].kids| && s[p].kids[i] == k && k in s && s[k].content == []
    ensures var t := Prune(s, p, [k], Cut(s[p].kids, i, 1));
      && p in t && Removing(m, t, busy, p, at0, n0, n) && t[p].kids == Cut(s[p].kids, i, 1) && SameLeaves(s, t)
      && Contents(t, t[p].kids[..i]) == Contents(s, s[p].kids[..i])
  {
    assert k in s[p].kids;
    TallsAreHeights(s, [k], s[p].rank, busy + {p});
    SumsOne(s, k);
    RemovedWhole(m, s, Prune(s, p, [k], Cut(s[p].kids, i, 1)), busy, p, at0, n0, n, i);
  }

  lemma Middle<T>(a: seq<T>, x: seq<T>, b: seq<T>)
    ensures NoDup(a + x + b) ==> NoDup(x)
    ensures forall l <- x :: l in a + x + b
  {
    var t := a + x + b;
    assert forall j :: 0 <= j < |x| ==> t[|a| + j] == x[j];
  }

  lemma OrphansJoin(all: seq<Line>, at0: nat, done: nat, x: seq<Line>, at: nat, rm: nat)
    requires Orphans(all, at0, done) && Orphans(x, at, rm) && at0 + done + rm <= |all|
    requires x[at..at + rm] == all[at0 + done..at0 + done + rm]
    ensures Orphans(all, at0, done + rm)
  {
    forall k | at0 + done <= k < at0 + done + rm
      ensures all[k].parent == null
    {
      assert all[k] == all[at0 + done..at0 + done + rm][k - at0 - done] == x[at..at + rm][k - at0 - done] == x[at + k - at0 - done];
    }
  }

  lemma CutApart<T>(s: seq<T>, at: nat, n: nat)
    requires at + n <= |s| && NoDup(s)
    ensures NoDup(Cut(s, at, n)) && forall x <- Cut(s, at, n) :: x in s && x !in s[at..at + n]
  {
  }

  lemma DetachedRest(ls: seq<Line>, at: nat, n: nat, c: Chunk, h: int, left: seq<Line>)
    requires at + n <= |ls| && NoDup(ls) && left == Cut(ls, at, n) && h == HeightSum(ls) - HeightSum(ls[at..at + n])
    requires forall l <- ls :: l.parent == if l in ls[at..at + n] then null else c
    ensures NoDup(left) && HeightSum(left) == h && forall l <- left :: l.parent == c
  {
    CutApart(ls, at, n);
    HeightSumCut(ls, at, n);
  }

  lemma HeightSumCut(s: seq<Line>, at: nat, n: nat)
    requires at + n <= |s|
    ensures HeightSum(Cut(s, at, n)) == HeightSum(s) - HeightSum(s[at..at + n])
  {
    assert s == s[..at] + s[at..at + n] + s[at + n..];
    HeightSumAppend(s[..at] + s[at..at + n], s[at + n..]);
    HeightSumAppend(s[..at], s[at..at + n]);
    HeightSumAppend(s[..at], s[at + n..]);
  }

  lemma CutStep<T>(a: seq<T>, x: seq<T>, b: seq<T>, s: seq<T>, at0: nat, done: nat, at: nat, rm: nat)
    requires at0 + done <= |s| && a + x + b == Cut(s, at0, done) && |a| + at == at0 && at + rm <= |x|
    ensures at0 + done + rm <= |s| && a + Cut(x, at, rm) + b == Cut(s, at0, done + rm)
  {
    var t := Cut(s, at0, done);
    assert t[..at0] == s[..at0] && t[at0..] == s[at0 + done..];
    assert (a + x + b)[..at0] == a + x[..at] && (a + x + b)[at0..] == x[at..] + b;
    assert (x[at..] + b)[rm..] == x[at + rm..] + b;
  }

  /** Only the cached height of a chunk that is being worked on changes. */
  lemma HeightOnly(r: Picture, busy: set<Chunk>, p: Chunk, h: int)
    requires Working(r, busy, p)
    ensures Working(r[p := r[p].(height := h)], busy, p)
  {
    var s := r[p := r[p].(height := h)];
    forall c | c in s && c !in busy + {p}
      ensures Local(s, c)
    {
      assert Local(r, c);
      SumsSame(r, s, r[c].kids);
    }
  }

  lemma {:induction false} HeightOnlySums(r: Picture, s: Picture, p: Chunk, kids: seq<Chunk>)
    requires p in r && p in s && s == r[p := r[p].(height := s[p].height)]
    ensures Contents(s, kids) == Contents(r, kids) && Talls(s, kids) == Talls(r, kids)
  {
    if kids == [] {
    } else {
      HeightOnlySums(r, s, p, kids[1..]);
    }
  }

  ghost predicate CanRemove(m: Picture, q: Picture, r: Picture, busy: set<Chunk>, p: Chunk, at0: nat, n0: nat, n: nat, i: nat, at: nat, rm: nat)
  {
    && Removing(m, q, busy, p, at0, n0, n) && i < |q[p].kids| && rm <= n
    && Trimmed(q, r, busy + {p}, q[p].kids[i], at, rm) && CapOutside(r, busy + {p})
    && |Contents(q, q[p].kids[..i])| + at == at0
  }

  /** The other children of `p` are untouched while one is trimmed. */
  lemma RemovedKids(m: Picture, q: Picture, r: Picture, busy: set<Chunk>, p: Chunk, at0: nat, n0: nat, n: nat, i: nat, at: nat, rm: nat)
    requires CanRemove(m, q, r, busy, p, at0, n0, n, i, at, rm)
    ensures Working(r, busy, p) && r[p] == q[p]
    ensures forall c <- q[p].kids :: c in q && c in r && (c != q[p].kids[i] ==> r[c] == q[c])
  {
    var kids := q[p].kids;
    assert kids[i] in kids && kids[0] in kids;
    forall c | c in kids
      ensures c in q && c in r && r[c].parent == p && r[c].rank == q[c].rank && r[c].leaf == q[c].leaf
      ensures c != kids[i] ==> r[c] == q[c]
    {
      assert q[c].parent == p;
    }
  }

  lemma RemovedContents(q: Picture, r: Picture, kids: seq<Chunk>, i: nat, s: seq<Line>, at0: nat, done: nat, at: nat, rm: nat)
    requires i < |kids| && NoDup(kids)
    requires forall c <- kids :: c in q && c in r && (c != kids[i] ==> r[c] == q[c])
    requires at0 + done <= |s| && Contents(q, kids) == Cut(s, at0, done) && |Contents(q, kids[..i])| + at == at0
    requires at + rm <= |q[kids[i]].content| && r[kids[i]].content == Cut(q[kids[i]].content, at, rm)
    ensures at0 + done + rm <= |s| && Contents(r, kids) == Cut(s, at0, done + rm)
    ensures Talls(r, kids) == Talls(q, kids) - q[kids[i]].tall + r[kids[i]].tall
    ensures Contents(r, kids[..i]) == Contents(q, kids[..i])
  {
    SumsAt(q, kids, i);
    SumsAt(r, kids, i);
    SumsSame(q, r, kids[..i]);
    SumsSame(q, r, kids[i + 1..]);
    CutStep(Contents(q, kids[..i]), q[kids[i]].content, Contents(q, kids[i + 1..]), s, at0, done, at, rm);
  }

  lemma OutsideTwice(m: Picture, q: Picture, r: Picture, busy: set<Chunk>, p: Chunk, k: Chunk, h: int)
    requires Outside(m, q, busy, p) && Outside(q, r, busy + {p}, k) && p !in busy
    requires k in q && q[k].parent == p && p in q && q[k].rank < q[p].rank == m[p].rank && p in r
    ensures Outside(m, r[p := r[p].(height := h)], busy, p)
  {
    var s := r[p := r[p].(height := h)];
    forall c | c in m && m[c].parent != null && m[c].parent in busy && c != p
      ensures c in s && s[c] == m[c]
    {
      assert q[c] == m[c] && q[c].parent in busy + {p};
    }
    forall c | c in s
      ensures (c in m && s[c].parent == m[c].parent && s[c].rank == m[c].rank) || (s[c].parent != null && s[c].rank < m[p].rank)
    {
      if c in q {
        var was := q[c];
      }
    }
  }

  /** One child of `p` has lost the lines `at..at + rm`. The caches of `p` follow. */
  lemma RemovedFromChild(m: Picture, q: Picture, r: Picture, s: Picture, busy: set<Chunk>, p: Chunk,
                         at0: nat, n0: nat, n: nat, i: nat, at: nat, rm: nat, k: Chunk)
    requires CanRemove(m, q, r, busy, p, at0, n0, n, i, at, rm) && k == q[p].kids[i] && k in q && k in r && p in r
    requires s == r[p := r[p].(height := r[p].height - (q[k].height - r[k].height))]
    ensures Removing(m, s, busy, p, at0, n0, n - rm) && s[p].kids == q[p].kids
    ensures Contents(s, q[p].kids[..i]) == Contents(q, q[p].kids[..i])
  {
    hide Outside, Sums, Contents, Cut, First;
    RemovedKids(m, q, r, busy, p, at0, n0, n, i, at, rm);
    assert k in q[p].kids;
    RemovedContents(q, r, q[p].kids, i, m[p].content, at0, n0 - n, at, rm);
    HeightOnly(r, busy, p, s[p].height);
    HeightOnlySums(r, s, p, q[p].kids);
    HeightOnlySums(r, s, p, q[p].kids[..i]);
    assert Local(q, k) && Local(r, k);
    OutsideTwice(m, q, r, busy, p, k, s[p].height);
  }

  lemma CutOne<T>(s: seq<T>, i: nat)
    requires i < |s| && NoDup(s)
    ensures NoDup(Cut(s, i, 1)) && forall x :: x in Cut(s, i, 1) <==> x in s && x != s[i]
    ensures Cut(s, i, 1)[..i] == s[..i] && Cut(s, i, 1)[i..] == s[i + 1..]
  {
    forall x | x in s && x != s[i]
      ensures x in Cut(s, i, 1)
    {
      var j :| 0 <= j < |s| && s[j] == x;
      assert Cut(s, i, 1)[if j < i then j else j - 1] == x;
    }
  }

  lemma PrunedSums(s: Picture, t: Picture, kids: seq<Chunk>, i: nat)
    requires i < |kids| && NoDup(kids) && kids[i] in s && s[kids[i]].content == [] && s[kids[i]].tall == 0
    requires forall c <- Cut(kids, i, 1) :: c in s && c in t && t[c] == s[c]
    ensures Contents(t, Cut(kids, i, 1)) == Contents(s, kids) && Talls(t, Cut(kids, i, 1)) == Talls(s, kids)
    ensures Contents(t, Cut(kids, i, 1)[..i]) == Contents(s, kids[..i])
  {
    CutOne(kids, i);
    SumsAt(s, kids, i);
    SumsAppend(t, kids[..i], kids[i + 1..]);
    SumsSame(s, t, kids[..i]);
    SumsSame(s, t, kids[i + 1..]);
  }

  lemma OutsidePruned(m: Picture, s: Picture, t: Picture, busy: set<Chunk>, p: Chunk, gone: seq<Chunk>, kept: seq<Chunk>)
    requires Outside(m, s, busy, p) && CanPrune(s, busy, p, gone, kept) && t == Prune(s, p, gone, kept)
    ensures Outside(m, t, busy, p)
  {
    PruneKeeps(s, busy, p, gone, kept);
    forall c | c in m && m[c].parent != null && m[c].parent in busy && c != p
      ensures c in t && t[c] == m[c]
    {
      assert s[c] == m[c];
    }
  }

  /** A child that has lost all its lines goes. */
  lemma RemovedWhole(m: Picture, s: Picture, t: Picture, busy: set<Chunk>, p: Chunk, at0: nat, n0: nat, n: nat, i: nat)
    requires Removing(m, s, busy, p, at0, n0, n) && i < |s[p].kids| && s[p].kids[i] in s
    requires s[s[p].kids[i]].content == [] && s[s[p].kids[i]].tall == 0
    requires t == Prune(s, p, [s[p].kids[i]], Cut(s[p].kids, i, 1))
    ensures Removing(m, t, busy, p, at0, n0, n) && t[p].kids == Cut(s[p].kids, i, 1)
    ensures Contents(t, t[p].kids[..i]) == Contents(s, s[p].kids[..i])
  {
    var kids := s[p].kids;
    CutOne(kids, i);
    assert kids[i] in kids;
    PruneKeeps(s, busy, p, [kids[i]], Cut(kids, i, 1));
    OutsidePruned(m, s, t, busy, p, [kids[i]], Cut(kids, i, 1));
    PrunedSums(s, t, kids, i);
  }

  ghost function Done(q: Picture, p: Chunk): Picture
    requires p in q
  {
    q[p := q[p].(content := Contents(q, q[p].kids), tall := q[p].height)]
  }

  /** The loop of `remove` has ended. */
  lemma RemoveDone(m: Picture, q: Picture, busy: set<Chunk>, p: Chunk, at: nat, n: nat)
    requires Removing(m, q, busy, p, at, n, 0) && Local(m, p)
    ensures Working(Done(q, p), busy, p) && Local(Done(q, p), p) && Trimmed(m, Done(q, p), busy, p, at, n)
    ensures CapOutside(Done(q, p), busy + {p})
  {
    var f := Done(q, p);
    SumsSame(q, f, q[p].kids);
    forall c | c in f && c !in busy + {p}
      ensures Local(f, c)
    {
      assert Local(q, c);
      DoneKids(q, f, busy, p, c);
    }
    assert Local(f, p);
  }

  /** What is left and what went have no line in common. */
  lemma TrimmedApart(m: Picture, f: Picture, busy: set<Chunk>, p: Chunk, at: nat, n: nat)
    requires Trimmed(m, f, busy, p, at, n) && NoDup(m[p].content)
    ensures p in m && p in f && at + n <= |m[p].content|
    ensures NoDup(f[p].content) && forall l <- f[p].content :: l in m[p].content
    ensures forall j :: at <= j < at + n ==> m[p].content[j] !in f[p].content
  {
    CutApart(m[p].content, at, n);
    assert forall j :: at <= j < at + n ==> m[p].content[j] in m[p].content[at..at + n];
  }

  /** Leaves that are not below `p` share no line with it; its height is that of its lines. */
  lemma CollapseApart(f: Picture, busy: set<Chunk>, p: Chunk)
    requires Working(f, busy, p) && Local(f, p) && AllLines(f, {})
    ensures forall c {:trigger f[c]} :: c in Prune(f, p, f[p].kids, []) && f[c].leaf ==> forall l <- f[c].lines :: l !in f[p].content
    ensures f[p].tall == HeightSum(f[p].content) && p !in Subtrees(f, f[p].kids, f[p].rank)
  {
    TallsAreHeights(f, f[p].kids, f[p].rank, busy);
    PruneKeeps(f, busy, p, f[p].kids, []);
    forall c, l | c in Prune(f, p, f[p].kids, []) && f[c].leaf && l in f[c].lines
      ensures l !in f[p].content
    {
      assert LinesOk(f, c);
      if l in f[p].content {
        LineHome(f, f[p].kids, f[p].rank, busy, l);
      }
    }
  }

  lemma CollapseLines(f: Picture, p: Chunk, leaf: Chunk)
    requires p in f && !f[p].leaf && leaf !in f
    requires forall c {:trigger LinesOk(f, c)} :: c in Prune(f, p, f[p].kids, []) ==> LinesOk(f, c)
    requires NoDup(f[p].content) && f[p].tall == HeightSum(f[p].content) && forall l <- f[p].content :: l.parent == leaf
    ensures AllLines(Collapsed(f, p, leaf), {})
  {
    forall c | c in Collapsed(f, p, leaf)
      ensures LinesOk(Collapsed(f, p, leaf), c)
    {
      assert c in f ==> LinesOk(f, c) || c == p;
    }
  }

  lemma WorkingFacts(f: Picture, busy: set<Chunk>, p: Chunk)
    requires Working(f, busy, p) && Local(f, p)
    ensures p in f && !f[p].leaf && p !in busy && AllLocal(f, busy) && f[p].size == |f[p].content|
    ensures forall b <- busy :: b in f && f[p].rank < f[b].rank
  {
  }

  lemma StaysBranch(m: Picture, q: Picture, busy: set<Chunk>, p: Chunk, at: nat, n: nat)
    requires Removing(m, q, busy, p, at, n, 0) && Local(m, p) && Done(q, p)[p].size >= 25
    ensures CapOutside(Done(q, p), busy)
  {
    assert Contents(q, []) == [];
  }

  lemma DoneKids(q: Picture, f: Picture, busy: set<Chunk>, p: Chunk, c: Chunk)
    requires Working(q, busy, p) && f == Done(q, p) && Local(q, c) && c !in busy + {p}
    ensures Local(f, c)
  {
    forall k | k in q[c].kids
      ensures k != p && f[k] == q[k]
    {
      assert q[k].parent == c;
    }
    SumsSame(q, f, q[c].kids);
  }

  lemma CollapseDone(m: Picture, f: Picture, busy: set<Chunk>, p: Chunk, at: nat, n: nat, leaf: Chunk)
    requires Working(f, busy, p) && Local(f, p) && Trimmed(m, f, busy, p, at, n) && leaf !in f
    requires CapOutside(f, busy + {p}) && |f[p].content| <= 50
    ensures Trimmed(m, Collapsed(f, p, leaf), busy, p, at, n) && CapOutside(Collapsed(f, p, leaf), busy)
  {
    hide AllLocal, Subtrees, KidsOk;
    var g := Collapsed(f, p, leaf);
    CollapseKeeps(f, busy, p, leaf);
    forall c | c in m && m[c].parent != null && m[c].parent in busy && c != p
      ensures c in g && g[c] == m[c]
    {
      assert f[c] == m[c];
    }
  }
}
