/** Looking things up in the line tree: lines by number, numbers of lines, and heights. */
module Lines {
  import opened Wrappers
  import opened Rope

  /** The picture `m` shows a document: a sound tree, within capacity, and no line twice. */
  ghost predicate Doc(m: Picture, root: Chunk)
    reads m.Keys, set c <- m.Keys, l <- m[c].lines :: l
  {
    Shows(m) && TreeOf(m, root) && AllCap(m) && AllLines(m, {}) && NoDup(m[root].content)
  }

  /** The first child that reaches beyond the line `n`. */
  method ChildAt(chunk: Chunk, n: nat, ghost m: Picture, ghost root: Chunk) returns (child: Chunk, n': nat, ghost i: nat)
    requires Doc(m, root) && chunk in m && !chunk.isLeaf && n < |m[chunk].content|
    ensures i < |m[chunk].kids| && child == m[chunk].kids[i] && child in m && m[child].rank < m[chunk].rank
    ensures |Contents(m, m[chunk].kids[..i])| + n' == n && n' < |m[child].content|
    ensures m[chunk].content[n] == m[child].content[n']
  {
    hide AllCap, AllLines, Talls, NoDup, Rooted;
    i, n' := 0, n;
    var j := 0;
    assert Local(m, chunk);
    while true
      invariant j == i <= |chunk.children| && |Contents(m, chunk.children[..i])| + n' == n
      invariant i < |chunk.children|
      decreases |chunk.children| - i
    {
      child := chunk.children[j];
      assert child in m[chunk].kids;
      assert Local(m, child);
      var sz := child.ChunkSize();
      SumsAt(m, chunk.children, i);
      SumsSnoc(m, chunk.children, i);
      if n' < sz {
        break;
      }
      n' := n' - sz;
      j, i := j + 1, i + 1;
      assert chunk.children[..|chunk.children|] == chunk.children;
    }
  }

  method GetLineAt(doc: Chunk, n: nat, ghost m: Picture) returns (line: Line)
    requires Doc(m, doc) && n < |m[doc].content|
    ensures line == m[doc].content[n]
  {
    var chunk, n': nat := doc, n;
    while !chunk.isLeaf
      invariant chunk in m && n' < |m[chunk].content| && m[chunk].content[n'] == m[doc].content[n]
      decreases m[chunk].rank
    {
      ghost var i;
      chunk, n', i := ChildAt(chunk, n', m, doc);
    }
    assert Local(m, chunk);
    line := chunk.lines[n'];
  }

  /** The number of lines before the child `cur`, added to `no`. */
  method CountBefore(chunk: Chunk, cur: Chunk, no: nat, ghost m: Picture, ghost root: Chunk) returns (no': nat)
    requires Doc(m, root) && chunk in m && cur in m && cur in chunk.children && no < |m[cur].content|
    ensures no' < |m[chunk].content| && m[chunk].content[no'] == m[cur].content[no]
  {
    hide AllCap, AllLines, Talls, NoDup;
    no' := no;
    var i := 0;
    assert Local(m, chunk);
    while chunk.children[i] != cur
      invariant i < |chunk.children| && cur in chunk.children[i..]
      invariant no' == no + |Contents(m, chunk.children[..i])|
      decreases |chunk.children| - i
    {
      assert chunk.children[i] in m[chunk].kids;
      assert Local(m, chunk.children[i]);
      SumsSnoc(m, chunk.children, i);
      no' := no' + chunk.children[i].ChunkSize();
      i := i + 1;
    }
    SumsAt(m, chunk.children, i);
  }

  /** The number of a line, if it is in the document. */
  method LineNo(line: Line, ghost m: Picture, ghost doc: Chunk) returns (r: Option<nat>)
    requires Doc(m, doc) && (line in m[doc].content || line.parent == null)
    ensures r.None? <==> line !in m[doc].content
    ensures r.None? <==> line.parent == null
    ensures r.Some? ==> r.value < |m[doc].content| && m[doc].content[r.value] == line
  {
    hide NoDup;
    Home(line, m, doc);
    if line.parent == null {
      return None;
    }
    var cur := line.parent;
    var no: nat := IndexOf(cur.lines, line);
    var chunk := cur.parent;
    assert Local(m, cur);
    while chunk != null
      invariant cur in m && chunk == m[cur].parent && no < |m[cur].content| && m[cur].content[no] == line
      decreases m[doc].rank - m[cur].rank
    {
      assert Local(m, cur);
      assert Local(m, chunk);
      no := CountBefore(chunk, cur, no, m, doc);
      cur, chunk := chunk, chunk.parent;
    }
    return Some(no);
  }

  /** A line of the document points to the leaf it is in. */
  lemma Home(line: Line, m: Picture, doc: Chunk)
    requires Doc(m, doc)
    ensures line in m[doc].content ==>
      line.parent != null && line.parent in m && m[line.parent].leaf && line in m[line.parent].lines
  {
    assert Local(m, doc);
    if line in m[doc].content {
      LineHome(m, m[doc].kids, m[doc].rank, {}, line);
    }
  }

  // ---------------------------------------------------------------- visiting lines

  /** The up to `n` elements from `at` on, as many as there are. */
  function Part<T>(s: seq<T>, at: nat, n: int): seq<T>
  {
    if at >= |s| || n <= 0 then [] else if at + n <= |s| then s[at..at + n] else s[at..]
  }

  /** `iterN` with an operation that collects the lines it is called on. */
  method IterN(chunk: Chunk, at: nat, n: int, acc: seq<Line>, ghost m: Picture, ghost root: Chunk) returns (all: seq<Line>)
    requires Doc(m, root) && chunk in m && (chunk.isLeaf ==> at + n <= |m[chunk].content|)
    ensures all == acc + Part(m[chunk].content, at, n) && Doc(m, root)
    decreases m[chunk].rank
  {
    hide Doc, NoDup, Part, Local;
    all := acc;
    if chunk.isLeaf {
      PartEmpty(m[chunk].content, at, 0);
      LeafLines(m, root, chunk);
      var k := at;
      while k < at + n
        invariant Doc(m, root) && at <= k && (k > at ==> k <= at + n) && all == acc + Part(chunk.lines, at, k - at)
      {
        PartSnoc(chunk.lines, at, k);
        all := all + [chunk.lines[k]];
        k := k + 1;
      }
      PartEmpty(chunk.lines, at, n);
      return;
    }
    Kids(m, root, chunk, [], 0);
    var at': nat, n' := at, n;
    ghost var whole := acc + Part(m[chunk].content, at, n);
    for i := 0 to |chunk.children|
      invariant Doc(m, root) && whole == all + Part(Contents(m, chunk.children[i..]), at', n')
    {
      var child := chunk.children[i];
      ghost var rest := Contents(m, chunk.children[i + 1..]);
      NextKid(m, root, chunk, i);
      PartSplit(m[child].content, rest, at', n');
      var sz := child.ChunkSize();
      if at' < sz {
        var used := if n' < sz - at' then n' else sz - at';
        all := IterN(child, at', used, all, m, root);
        n' := n' - used;
        if n' == 0 {
          return;
        }
        at' := 0;
      } else {
        at' := at' - sz;
      }
    }
    PartOfNone<Line>(at', n');
  }

  lemma PartSnoc<T>(s: seq<T>, at: nat, k: nat)
    requires at <= k < |s|
    ensures Part(s, at, k + 1 - at) == Part(s, at, k - at) + [s[k]]
  {
  }

  lemma NextKid(m: Picture, root: Chunk, chunk: Chunk, i: nat)
    requires Doc(m, root) && chunk in m && !chunk.isLeaf && i < |chunk.children|
    ensures var k := chunk.children[i];
      && k in m && k.ChunkSize() == |m[k].content| && m[k].rank < m[chunk].rank
      && Contents(m, chunk.children[i..]) == m[k].content + Contents(m, chunk.children[i + 1..])
  {
    assert Local(m, chunk) && chunk.children[i] in m[chunk].kids;
    assert Local(m, chunk.children[i]);
    assert chunk.children[i..][1..] == chunk.children[i + 1..];
  }

  /** How a visit goes on from one part to the next. */
  lemma PartSplit<T>(x: seq<T>, rest: seq<T>, at: nat, n: int)
    ensures at >= |x| ==> Part(x + rest, at, n) == Part(rest, at - |x|, n)
    ensures at < |x| ==> var used := if n < |x| - at then n else |x| - at;
      Part(x + rest, at, n) == Part(x, at, used) + (if n == used then [] else Part(rest, 0, n - used))
  {
  }

  lemma PartEmpty<T>(s: seq<T>, at: nat, n: int)
    ensures n <= 0 ==> Part(s, at, n) == []
  {
  }

  lemma PartOfNone<T>(at: nat, n: int)
    ensures Part<T>([], at, n) == []
  {
  }

  /** The lines `from..to`, as many of them as there are. */
  method Iter(doc: Chunk, from: nat, to: int, ghost m: Picture) returns (ls: seq<Line>)
    requires Doc(m, doc)
    ensures ls == Part(m[doc].content, from, to - from) && Doc(m, doc)
  {
    ls := IterN(doc, from, to - from, [], m, doc);
  }

  // ---------------------------------------------------------------- heights

  function Clip(n: int, size: nat): nat
  {
    if n < 0 then 0 else if n > size then size else n
  }

  /** A chunk is as tall as its lines. */
  lemma ChunkHeight(m: Picture, root: Chunk, c: Chunk)
    requires Doc(m, root) && c in m
    ensures c.height == HeightSum(m[c].content) && Cached(m[c])
  {
    assert Local(m, c) && LinesOk(m, c);
    if !c.isLeaf {
      TallsAreHeights(m, m[c].kids, m[c].rank, {});
    }
  }

  /** The chunk `c` holds the lines of `all` from `base` on, and `h` is the height before them. */
  ghost predicate Passed(m: Picture, c: Chunk, all: seq<Line>, base: nat, h: int)
    reads set l <- all
  {
    c in m && PartAt(all, base, m[c].content) && h == HeightSum(all[..base])
  }

  /** The loop over the children: find the one that holds line `n`, and add up the heights before it. */
  method SkipByLines(chunk: Chunk, n: int, h: int, ghost m: Picture, ghost root: Chunk, ghost base: nat)
    returns (child: Chunk?, n': int, h': int, ghost base': nat)
    requires Doc(m, root) && chunk in m && !chunk.isLeaf && root in m && Passed(m, chunk, m[root].content, base, h)
    ensures Doc(m, root) && n' + base' == n + base && (if n < 0 then base' == base else n' >= 0)
    ensures child == null ==> n' >= 0 && base' == base + |m[chunk].content| && h' == HeightSum(m[root].content[..base'])
    ensures child != null ==> child in m && n' < |m[child].content| && m[child].rank < m[chunk].rank && Passed(m, child, m[root].content, base', h')
  {
    hide Doc, NoDup, HeightSum, PartAt;
    ghost var all := m[root].content;
    h', n', base' := h, n, base;
    Kids(m, root, chunk, all, base);
    for i := 0 to |chunk.children|
      invariant base' == base + |Contents(m, chunk.children[..i])| && n' + base' == n + base
      invariant Doc(m, root) && base' <= |all| && h' == HeightSum(all[..base'])
      invariant (n < 0 ==> i == 0) && (n >= 0 || i > 0 ==> n' >= 0)
    {
      child := chunk.children[i];
      KidPart(m, root, chunk, all, base, i);
      var sz := child.ChunkSize();
      if n' < sz {
        return;
      }
      PartSum(all, base', m[child].content);
      n', h', base' := n' - sz, h' + child.height, base' + sz;
    }
    assert chunk.children[..|chunk.children|] == chunk.children;
    child := null;
  }

  lemma Kids(m: Picture, root: Chunk, chunk: Chunk, all: seq<Line>, base: nat)
    requires Doc(m, root) && chunk in m && !chunk.isLeaf
    ensures chunk.children != [] && m[chunk].kids == chunk.children && m[chunk].content == Contents(m, chunk.children)
    ensures PartAt(all, base, m[chunk].content) ==> base + |m[chunk].content| <= |all|
  {
    assert Local(m, chunk) && Cap(m[chunk]);
  }

  /** The child number `i` of a part of `all`. */
  lemma KidPart(m: Picture, root: Chunk, chunk: Chunk, all: seq<Line>, base: nat, i: nat)
    requires Doc(m, root) && chunk in m && !chunk.isLeaf && i < |chunk.children| && PartAt(all, base, m[chunk].content)
    ensures var (kids, k) := (chunk.children, chunk.children[i]);
      && k in m && k.height == HeightSum(m[k].content) && k.ChunkSize() == |m[k].content| && m[k].rank < m[chunk].rank && k != root
      && PartAt(all, base + |Contents(m, kids[..i])|, m[k].content)
      && |Contents(m, kids[..i + 1])| == |Contents(m, kids[..i])| + |m[k].content|
  {
    hide NoDup;
    var k := chunk.children[i];
    assert Local(m, chunk) && k in m[chunk].kids;
    ChunkHeight(m, root, k);
    SumsAt(m, chunk.children, i);
    SumsSnoc(m, chunk.children, i);
    PartOfPart(all, base, Contents(m, chunk.children[..i]), m[k].content, Contents(m, chunk.children[i + 1..]));
  }

  lemma PartOfPart<T>(s: seq<T>, n: nat, a: seq<T>, x: seq<T>, b: seq<T>)
    requires PartAt(s, n, a + x + b)
    ensures PartAt(s, n + |a|, x)
  {
    var t := a + x + b;
    assert forall j :: 0 <= j < |x| ==> x[j] == t[|a| + j] == s[n..n + |t|][|a| + j];
  }

  lemma PartSum(s: seq<Line>, n: nat, x: seq<Line>)
    requires PartAt(s, n, x)
    ensures n + |x| <= |s| && HeightSum(s[..n + |x|]) == HeightSum(s[..n]) + HeightSum(x)
  {
    HeightSumAppend(s[..n], x);
    assert s[..n + |x|] == s[..n] + x;
  }

  ghost predicate PartAt<T>(s: seq<T>, n: nat, x: seq<T>)
  {
    n + |x| <= |s| && x == s[n..n + |x|]
  }

  /** The height of everything before line `n`; of everything, when `n` is past the end. */
  method HeightAtLine(doc: Chunk, n: int, ghost m: Picture) returns (h: int)
    requires Doc(m, doc)
    ensures h == HeightSum(m[doc].content[..Clip(n, |m[doc].content|)])
  {
    hide Doc, HeightSum;
    RootIsBranch(m, doc);
    var chunk: Chunk, child: Chunk?, n' := doc, null, n;
    ghost var base: nat := 0;
    h := 0;
    while true
      invariant Doc(m, doc) && chunk in m && !chunk.isLeaf && Passed(m, chunk, m[doc].content, base, h)
      invariant n' + base == n && (if n < 0 then base == 0 else n' >= 0) && (chunk != doc ==> n' < |m[chunk].content|) && (chunk == doc ==> base == 0)
      decreases m[chunk].rank
    {
      child, n', h, base := SkipByLines(chunk, n', h, m, doc, base);
      if child == null {
        assert base == |m[doc].content|;
        return;
      }
      chunk := child;
      if chunk.isLeaf {
        break;
      }
    }
    LeafLines(m, doc, chunk);
    h := AddHeights(chunk.lines, n', h, m[doc].content, base);
  }

  /** The loop over the lines of a leaf. */
  method AddHeights(lines: seq<Line>, n: int, h: int, ghost all: seq<Line>, ghost base: nat) returns (r: int)
    requires n <= |lines| && PartAt(all, base, lines) && h == HeightSum(all[..base])
    ensures r == HeightSum(all[..base + Clip(n, |lines|)])
  {
    r := h;
    var i := 0;
    while i < n
      invariant 0 <= i <= Clip(n, |lines|) && r == HeightSum(all[..base + i])
    {
      assert lines[i] == all[base + i];
      HeightSumSnoc(all, base + i);
      r := r + lines[i].height;
      i := i + 1;
    }
  }

  lemma RootIsBranch(m: Picture, doc: Chunk)
    requires Doc(m, doc)
    ensures doc in m && !doc.isLeaf && Passed(m, doc, m[doc].content, 0, 0)
  {
  }

  lemma LeafLines(m: Picture, doc: Chunk, c: Chunk)
    requires Doc(m, doc) && c in m && c.isLeaf
    ensures c.lines == m[c].content
  {
    assert Local(m, c);
  }

  /** Line `r` is at height `h`: nothing before it reaches beyond `h`, but it does. Past the
      end, `r` is the number of lines. */
  ghost predicate AtHeight(all: seq<Line>, h: int, r: nat)
    reads set l <- all
  {
    r <= |all| && (r > 0 ==> HeightSum(all[..r]) <= h) && (r < |all| ==> h < HeightSum(all[..r + 1]))
  }

  /** The lookup is at the chunk `c`, before which lie `n` lines; `rest` of the height `h` is left. */
  ghost predicate Seeking(m: Picture, root: Chunk, c: Chunk, n: nat, h: int, rest: int)
    reads set l <- m[root].content
    requires root in m
  {
    var all := m[root].content;
    && c in m && PartAt(all, n, m[c].content) && rest == h - HeightSum(all[..n]) && (n > 0 ==> rest >= 0)
    && (if c == root then n == 0 else h < HeightSum(all[..n + |m[c].content|]))
  }

  /** The loop over the children: find the one that reaches beyond height `rest`. */
  method SkipByHeight(chunk: Chunk, n: nat, rest: int, ghost h: int, ghost m: Picture, ghost root: Chunk)
    returns (child: Chunk?, n': nat, rest': int)
    requires Doc(m, root) && root in m && Seeking(m, root, chunk, n, h, rest) && !chunk.isLeaf
    ensures Doc(m, root)
    ensures child == null ==> n' == |m[root].content| && AtHeight(m[root].content, h, n')
    ensures child != null ==> child in m && m[child].rank < m[chunk].rank && child != root && Seeking(m, root, child, n', h, rest')
  {
    hide Doc, NoDup, HeightSum, PartAt;
    ghost var all := m[root].content;
    rest', n' := rest, n;
    Kids(m, root, chunk, all, n);
    for i := 0 to |chunk.children|
      invariant Doc(m, root) && n' == n + |Contents(m, chunk.children[..i])| <= |all| && rest' == h - HeightSum(all[..n'])
      invariant n' > 0 || i > 0 ==> rest' >= 0
    {
      child := chunk.children[i];
      KidPart(m, root, chunk, all, n, i);
      PartSum(all, n', m[child].content);
      var ch := child.height;
      if rest' < ch {
        return;
      }
      rest', n' := rest' - ch, n' + child.ChunkSize();
    }
    assert chunk.children[..|chunk.children|] == chunk.children;
    assert n' == n + |m[chunk].content|;
    child := null;
  }

  /** The line at height `h`. */
  method LineAtHeight(doc: Chunk, h: int, ghost m: Picture) returns (r: nat)
    requires Doc(m, doc)
    ensures AtHeight(m[doc].content, h, r)
  {
    hide Doc, HeightSum;
    RootIsBranch(m, doc);
    var chunk: Chunk, child: Chunk?, rest := doc, null, h;
    r := 0;
    while true
      invariant Doc(m, doc) && doc in m && Seeking(m, doc, chunk, r, h, rest) && !chunk.isLeaf
      decreases m[chunk].rank
    {
      child, r, rest := SkipByHeight(chunk, r, rest, h, m, doc);
      if child == null {
        return;
      }
      chunk := child;
      if chunk.isLeaf {
        break;
      }
    }
    LeafLines(m, doc, chunk);
    var i := LineInLeaf(chunk.lines, rest, h, m[doc].content, r);
    r := r + i;
  }

  /** The loop over the lines of a leaf. */
  method LineInLeaf(lines: seq<Line>, rest: int, ghost h: int, ghost all: seq<Line>, ghost n: nat) returns (i: nat)
    requires PartAt(all, n, lines) && rest == h - HeightSum(all[..n]) && (n > 0 ==> rest >= 0) && h < HeightSum(all[..n + |lines|])
    ensures AtHeight(all, h, n + i)
  {
    hide HeightSum;
    var h' := rest;
    i := 0;
    while i < |lines|
      invariant i <= |lines| && h' == h - HeightSum(all[..n + i]) && (n + i > 0 ==> h' >= 0)
    {
      assert lines[i] == all[n + i];
      HeightSumSnoc(all, n + i);
      var lh := lines[i].height;
      if h' < lh {
        break;
      }
      h' := h' - lh;
      i := i + 1;
    }
    if n + i < |all| {
      HeightSumSnoc(all, n + i);
    }
  }

  /** Going down the document never loses height. */
  lemma {:induction false} HeightsGrow(ls: seq<Line>, i: nat, j: nat)
    requires i <= j <= |ls|
    ensures HeightSum(ls[..i]) <= HeightSum(ls[..j])
  {
    HeightSumAppend(ls[..i], ls[i..j]);
    assert ls[..j] == ls[..i] + ls[i..j];
  }

  /** There is one line at each height. */
  lemma OneLineAtHeight(all: seq<Line>, h: int, r: nat, r': nat)
    requires AtHeight(all, h, r) && AtHeight(all, h, r')
    ensures r == r'
  {
    if r < r' {
      HeightsGrow(all, r + 1, r');
    } else if r' < r {
      HeightsGrow(all, r' + 1, r);
    }
  }

  /** Further down is never before. */
  lemma HigherIsLater(all: seq<Line>, h: int, h': int, r: nat, r': nat)
    requires h <= h' && AtHeight(all, h, r) && AtHeight(all, h', r')
    ensures r <= r'
  {
    if r' < r {
      HeightsGrow(all, r' + 1, r);
    }
  }

  /** From line `n` to its height and back: the first line from `n` on that has a height. */
  lemma LineToHeightAndBack(all: seq<Line>, n: nat, r: nat)
    requires n <= |all|
    ensures AtHeight(all, HeightSum(all[..n]), r) <==>
      n <= r <= |all| && (forall k :: n <= k < r ==> all[k].height == 0) && (r < |all| ==> all[r].height > 0)
  {
    if n <= r <= |all| {
      FlatPart(all, n, r);
      HeightsGrow(all, n, r);
      if r < |all| {
        HeightSumSnoc(all, r);
      }
    } else if r < n {
      HeightsGrow(all, r + 1, n);
    }
  }

  /** No height is gained exactly over lines without height. */
  lemma {:induction false} FlatPart(all: seq<Line>, n: nat, r: nat)
    requires n <= r <= |all|
    ensures HeightSum(all[..n]) == HeightSum(all[..r]) <==> forall k :: n <= k < r ==> all[k].height == 0
    decreases r
  {
    if n < r {
      FlatPart(all, n, r - 1);
      HeightSumSnoc(all, r - 1);
      HeightsGrow(all, n, r - 1);
    }
  }

  // ---------------------------------------------------------------- a line changes its height

  ghost function Bumped(q: Picture, c: Chunk, diff: int): Picture
    requires c in q
  {
    q[c := q[c].(height := q[c].height + diff, tall := q[c].tall + diff)]
  }

  /** All chunks agree but `c`, which is still short by `diff`. */
  ghost predicate Climbing(m: Picture, q: Picture, root: Chunk, c: Chunk, diff: int)
  {
    && q.Keys == m.Keys && c in m && root in m && AllLocal(q, {c}) && Local(Bumped(q, c, diff), c)
    && SamePlaces(m, q)
  }

  /** `q` differs from `m` only in heights. */
  ghost predicate SamePlaces(m: Picture, q: Picture)
  {
    && q.Keys == m.Keys
    && forall d {:trigger q[d]} {:trigger m[d]} :: d in m ==> q[d] == m[d].(height := q[d].height, tall := q[d].tall)
  }

  lemma BumpOther(m: Picture, q: Picture, root: Chunk, c: Chunk, diff: int, d: Chunk)
    requires Climbing(m, q, root, c, diff) && d in m && d != c && d != q[c].parent
    ensures Local(Bumped(q, c, diff), d)
  {
    var q' := Bumped(q, c, diff);
    assert Local(q, d);
    assert forall k <- q[d].kids :: q[k].parent == d;
    SumsSame(q, q', q[d].kids);
  }

  /** The sums over `kids`, of which `c` has grown by `diff`. */
  lemma BumpSums(q: Picture, q2: Picture, kids: seq<Chunk>, c: Chunk, diff: int)
    requires NoDup(kids) && c in kids
    requires forall k <- kids :: k in q && k in q2 && q2[k].content == q[k].content && q2[k].tall == q[k].tall + if k == c then diff else 0
    ensures Contents(q2, kids) == Contents(q, kids) && Talls(q2, kids) == Talls(q, kids) + diff
  {
    var i :| 0 <= i < |kids| && kids[i] == c;
    SumsAt(q, kids, i);
    SumsAt(q2, kids, i);
    assert forall k <- kids[..i] :: k in kids && k != c;
    assert forall k <- kids[i + 1..] :: k in kids && k != c;
    SumsSame(q, q2, kids[..i]);
    SumsSame(q, q2, kids[i + 1..]);
  }

  lemma BumpUp(m: Picture, q: Picture, root: Chunk, c: Chunk, diff: int, p: Chunk)
    requires Climbing(m, q, root, c, diff) && p == q[c].parent
    ensures p in q && p != c && q[c].rank < q[p].rank && c in q[p].kids && Local(q, p)
  {
    var q' := Bumped(q, c, diff);
    assert UpOk(q', c) && p in q && c in q[p].kids;
    assert forall k <- q'[c].kids :: q'[k].rank < q'[c].rank;
    assert Local(q, p);
  }

  lemma BumpParent(m: Picture, q: Picture, root: Chunk, c: Chunk, diff: int, p: Chunk)
    requires Climbing(m, q, root, c, diff) && p == q[c].parent && p in q && p != c && c in q[p].kids && Local(q, p)
    ensures Local(Bumped(Bumped(q, c, diff), p, diff), p)
  {
    var q2 := Bumped(Bumped(q, c, diff), p, diff);
    assert p !in q[p].kids;
    BumpSums(q, q2, q[p].kids, c, diff);
    assert First(q2, q2[p]).leaf == First(q, q[p]).leaf;
  }

  lemma BumpStep(m: Picture, q: Picture, root: Chunk, c: Chunk, diff: int, p: Chunk)
    requires Climbing(m, q, root, c, diff) && p == q[c].parent
    ensures p in q && q[c].rank < q[p].rank && Climbing(m, Bumped(q, c, diff), root, p, diff)
  {
    BumpUp(m, q, root, c, diff, p);
    BumpParent(m, q, root, c, diff, p);
    forall d | d in m && d != c && d != p
      ensures Local(Bumped(q, c, diff), d)
    {
      BumpOther(m, q, root, c, diff, d);
    }
  }

  lemma BumpEnd(m: Picture, q: Picture, root: Chunk, c: Chunk, diff: int)
    requires Climbing(m, q, root, c, diff) && q[c].parent == null && TreeOf(m, root) && AllCap(m)
    ensures TreeOf(Bumped(q, c, diff), root) && AllCap(Bumped(q, c, diff)) && Bumped(q, c, diff)[root].content == m[root].content
    ensures SamePlaces(m, Bumped(q, c, diff))
  {
    var q' := Bumped(q, c, diff);
    forall d | d in q' && d != c
      ensures Local(q', d)
    {
      BumpOther(m, q, root, c, diff, d);
    }
    forall d | d in q'
      ensures Cap(q'[d]) && q'[d].rank <= q'[root].rank && (d != root ==> q'[d].parent != null)
    {
      assert Cap(m[d]);
    }
  }

  /** One line of `ls` gets a new height. */
  method SetHeight(line: Line, height: nat, ghost ls: seq<Line>)
    requires NoDup(ls) && line in ls
    modifies line`height
    ensures line.height == height && HeightSum(ls) == old(HeightSum(ls)) + height - old(line.height)
  {
    ghost var i :| 0 <= i < |ls| && ls[i] == line;
    ghost var a, b := ls[..i], ls[i + 1..];
    assert ls == a + [line] + b && line !in a && line !in b;
    HeightSumAppend(a + [line], b);
    HeightSumAppend(a, [line]);
    line.height := height;
    HeightSumAppend(a + [line], b);
    HeightSumAppend(a, [line]);
  }

  method Bump(c: Chunk, diff: int, ghost q: Picture)
    requires Shows(q) && c in q
    modifies c`height, c`tall
    ensures Shows(Bumped(q, c, diff))
  {
    c.height := c.height + diff;
    c.tall := c.tall + diff;
    assert Look(c) == Bumped(q, c, diff)[c];
  }

  ghost function LinesOf(q: Picture, leaf: Chunk): seq<Line>
  {
    if leaf in q then q[leaf].lines else []
  }

  /** All leaves but `leaf` agree with their lines; it does once it has grown by `diff`. */
  ghost predicate LinesBut(m: Picture, q: Picture, leaf: Chunk, diff: int, grown: bool)
    reads set l <- LinesOf(q, leaf)
    reads set c <- q.Keys, l <- q[c].lines :: l
  {
    && AllLines(q, {leaf}) && leaf in q && leaf in m && m[leaf].leaf && q[leaf].leaf && q[leaf].lines == m[leaf].lines
    && q[leaf].tall == m[leaf].tall + (if grown then diff else 0)
    && NoDup(q[leaf].lines) && m[leaf].tall + diff == HeightSum(q[leaf].lines) && forall l <- q[leaf].lines :: l.parent == leaf
  }

  lemma BumpLines(m: Picture, q: Picture, leaf: Chunk, diff: int, grown: bool, c: Chunk)
    requires LinesBut(m, q, leaf, diff, grown) && c in q && (if grown then !q[c].leaf else c == leaf)
    ensures LinesBut(m, Bumped(q, c, diff), leaf, diff, true) && AllLines(Bumped(q, c, diff), {})
  {
    var q' := Bumped(q, c, diff);
    forall d | d in q'
      ensures LinesOk(q', d)
    {
      assert d == leaf || LinesOk(q, d);
    }
  }

  /** The other leaves do not have the line that changes. */
  method SetLine(line: Line, height: nat, ghost leaf: Chunk, ghost m: Picture)
    requires Shows(m) && AllLines(m, {}) && leaf in m && m[leaf].leaf && line in m[leaf].lines
    modifies line`height
    ensures Shows(m) && line.height == height && LinesBut(m, m, leaf, height - old(line.height), false)
  {
    assert LinesOk(m, leaf);
    LeavesApart(m, leaf);
    SetHeight(line, height, m[leaf].lines);
    forall d | d in m && d != leaf
      ensures LinesOk(m, d)
    {
      assert old(LinesOk(m, d));
    }
  }

  lemma BumpBegins(m: Picture, doc: Chunk, leaf: Chunk, diff: int)
    requires TreeOf(m, doc) && leaf in m && m[leaf].leaf
    ensures Climbing(m, m, doc, leaf, diff)
  {
    assert Local(m, leaf);
  }

  lemma ParentIsBranch(m: Picture, q: Picture, root: Chunk, c: Chunk, diff: int)
    requires Climbing(m, q, root, c, diff) && AllLocal(m, {}) && q[c].parent != null
    ensures q[c].parent in m && !m[q[c].parent].leaf
  {
    assert Local(m, c);
    assert Local(m, m[c].parent);
  }

  /** A line changes its height: the caches of all chunks above it follow. */
  method UpdateLineHeight(line: Line, height: nat, ghost m: Picture, ghost doc: Chunk) returns (ghost n: Picture)
    requires Doc(m, doc) && line in m[doc].content
    modifies m.Keys, line`height
    ensures Doc(n, doc) && SamePlaces(m, n) && n[doc].content == m[doc].content && line.height == height
  {
    hide Climbing, LinesBut, AllLocal, AllCap, HeightSum, SamePlaces, NoDup;
    var diff := height - line.height;
    Home(line, m, doc);
    var leaf := line.parent;
    SetLine(line, height, leaf, m);
    BumpBegins(m, doc, leaf, diff);
    var c := leaf;
    n := m;
    while c.parent != null
      invariant Shows(n) && c in n && c in m && LinesBut(m, n, leaf, diff, c != leaf) && Climbing(m, n, doc, c, diff)
      invariant (c == leaf || !n[c].leaf) && line.height == height
      decreases m[doc].rank - m[c].rank
    {
      n, c := ClimbOne(m, n, doc, leaf, c, diff);
    }
    n := ClimbLast(m, n, doc, leaf, c, diff);
  }

  method ClimbLast(ghost m: Picture, ghost q: Picture, ghost doc: Chunk, ghost leaf: Chunk, c: Chunk, diff: int) returns (ghost n: Picture)
    requires Shows(q) && c in q && c in m && LinesBut(m, q, leaf, diff, c != leaf) && Climbing(m, q, doc, c, diff)
    requires TreeOf(m, doc) && AllCap(m) && NoDup(m[doc].content) && (c == leaf || !q[c].leaf) && c.parent == null
    modifies c`height, c`tall
    ensures Doc(n, doc) && SamePlaces(m, n) && n[doc].content == m[doc].content
  {
    hide Climbing, LinesBut, AllLocal, AllCap, HeightSum, SamePlaces, NoDup, AllLines;
    BumpEnd(m, q, doc, c, diff);
    BumpLines(m, q, leaf, diff, c != leaf, c);
    Bump(c, diff, q);
    n := Bumped(q, c, diff);
  }

  method ClimbOne(ghost m: Picture, ghost q: Picture, ghost doc: Chunk, ghost leaf: Chunk, c: Chunk, diff: int) returns (ghost n: Picture, p: Chunk)
    requires Shows(q) && c in q && c in m && LinesBut(m, q, leaf, diff, c != leaf) && Climbing(m, q, doc, c, diff)
    requires AllLocal(m, {}) && (c == leaf || !q[c].leaf) && c.parent != null
    modifies c`height, c`tall
    ensures Shows(n) && p in n && p in m && LinesBut(m, n, leaf, diff, p != leaf) && Climbing(m, n, doc, p, diff)
    ensures p != leaf && !n[p].leaf && m[p].rank > m[c].rank
  {
    hide Local, Bumped;
    p := c.parent;
    BumpStep(m, q, doc, c, diff, p);
    ParentIsBranch(m, q, doc, c, diff);
    BumpLines(m, q, leaf, diff, c != leaf, c);
    Bump(c, diff, q);
    n := Bumped(q, c, diff);
  }
}
