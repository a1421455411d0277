/** Decoding a document into a generic value: aliases stand for the nodes that bear their anchors, and
    may lead back to themselves. */
module Aliases {
  import opened Wrappers

  /** `merge`: a plain "<<". */
  datatype Node =
    | Scalar(anchor: string, value: string, merge: bool)
    | Alias(name: string)
    | Sequence(anchor: string, children: seq<Node>)
    | Mapping(anchor: string, pairs: seq<Pair>)

  datatype Pair = Pair(key: Node, val: Node)

  type Anchors = map<string, Node>

  type Dict = map<string, Value>

  /** What a scalar resolves to is represented by a string. */
  datatype Value = Atom(s: string) | List(items: seq<Value>) | Table(entries: Dict)

  datatype Error = UnknownAnchor(name: string) | SelfContained(name: string) | InvalidKey | WantMap

  datatype Result<T> = Ok(value: T) | Err(error: Error)

  // ---------------------------------------------------------------- unfolding

  /** A node with the node meant put under each alias. */
  datatype Tree =
    | Leaf(value: string, merge: bool)
    | Ref(target: Tree)
    | Items(children: seq<Tree>)
    | Pairs(pairs: seq<TreePair>)

  datatype TreePair = TreePair(key: Tree, val: Tree)

  predicate Unfolds(anchors: Anchors, n: Node, t: Tree)
    decreases t
  {
    match n
    case Scalar(_, value, merge) => t == Leaf(value, merge)
    case Alias(name) => t.Ref? && name in anchors && Unfolds(anchors, anchors[name], t.target)
    case Sequence(_, children) => t.Items? && |t.children| == |children| && forall i :: 0 <= i < |children| ==> Unfolds(anchors, children[i], t.children[i])
    case Mapping(_, pairs) =>
      && t.Pairs? && |t.pairs| == |pairs|
      && forall i :: 0 <= i < |pairs| ==> Unfolds(anchors, pairs[i].key, t.pairs[i].key) && Unfolds(anchors, pairs[i].val, t.pairs[i].val)
  }

  lemma {:induction false} UnfoldsOnce(anchors: Anchors, n: Node, t: Tree, u: Tree)
    requires Unfolds(anchors, n, t) && Unfolds(anchors, n, u)
    ensures t == u
    decreases t
  {
    match n
    case Scalar(_, _, _) =>
    case Alias(name) => UnfoldsOnce(anchors, anchors[name], t.target, u.target);
    case Sequence(_, children) =>
      forall i | 0 <= i < |children|
        ensures t.children[i] == u.children[i]
      {
        UnfoldsOnce(anchors, children[i], t.children[i], u.children[i]);
      }
    case Mapping(_, pairs) =>
      forall i | 0 <= i < |pairs|
        ensures t.pairs[i] == u.pairs[i]
      {
        UnfoldsOnce(anchors, pairs[i].key, t.pairs[i].key, u.pairs[i].key);
        UnfoldsOnce(anchors, pairs[i].val, t.pairs[i].val, u.pairs[i].val);
      }
  }

  function Height(t: Tree): nat
  {
    match t
    case Leaf(_, _) => 0
    case Ref(u) => Height(u) + 1
    case Items(ts) => Highest(ts) + 1
    case Pairs(ps) => HighestPair(ps) + 1
  }

  function Highest(ts: seq<Tree>): nat
  {
    if ts == [] then 0
    else
      var (a, b) := (Height(ts[|ts| - 1]), Highest(ts[..|ts| - 1]));
      if a > b then a else b
  }

  function HighestPair(ps: seq<TreePair>): nat
  {
    if ps == [] then 0
    else
      var p := ps[|ps| - 1];
      assert p.key < p && p.val < p;
      var (a, b, c) := (Height(p.key), Height(p.val), HighestPair(ps[..|ps| - 1]));
      if a > b then (if a > c then a else c) else if b > c then b else c
  }

  lemma {:induction false} HighestPairAt(ps: seq<TreePair>, i: nat)
    requires i < |ps|
    ensures Height(ps[i].key) <= HighestPair(ps) && Height(ps[i].val) <= HighestPair(ps)
  {
    if i < |ps| - 1 {
      HighestPairAt(ps[..|ps| - 1], i);
    }
  }

  lemma {:induction false} HighestAt(ts: seq<Tree>, i: nat)
    requires i < |ts|
    ensures Height(ts[i]) <= Highest(ts)
  {
    if i < |ts| - 1 {
      HighestAt(ts[..|ts| - 1], i);
    }
  }

  // ---------------------------------------------------------------- the value of a tree

  /** The value of an unfolded tree. A mapping may be read into entries that are there already. */
  function Plain(t: Tree, out: Dict): Result<Value>
    decreases t, 0
  {
    match t
    case Leaf(value, _) => Ok(Atom(value))
    case Ref(u) => Plain(u, out)
    case Items(ts) =>
      (match PlainItems(ts) case Ok(vs) => Ok(List(vs)) case Err(e) => Err(e))
    case Pairs(ps) =>
      (match PlainPairs(ps, out) case Ok(m) => Ok(Table(m)) case Err(e) => Err(e))
  }

  function PlainItems(ts: seq<Tree>): Result<seq<Value>>
    decreases ts, 1
  {
    if ts == [] then Ok([])
    else
      match PlainItems(ts[..|ts| - 1])
      case Err(e) => Err(e)
      case Ok(vs) => match Plain(ts[|ts| - 1], map[]) case Err(e) => Err(e) case Ok(v) => Ok(vs + [v])
  }

  /** The entries that pairs of keys and values add to `out`, in order. */
  function PlainPairs(ps: seq<TreePair>, out: Dict): Result<Dict>
    decreases ps, 1
  {
    if ps == [] then Ok(out)
    else
      match PlainPairs(ps[..|ps| - 1], out)
      case Err(e) => Err(e)
      case Ok(m) => PlainPair(ps[|ps| - 1], m)
  }

  function PlainPair(p: TreePair, out: Dict): Result<Dict>
    decreases p, 0
  {
    if p.key.Leaf? && p.key.merge then PlainMerge(p.val, out)
    else
      match Plain(p.key, map[])
      case Err(e) => Err(e)
      case Ok(key) =>
        if !key.Atom? then Err(InvalidKey)
        else match Plain(p.val, map[]) case Err(e) => Err(e) case Ok(val) => Ok(out[key.s := val])
  }

  /** A merge key takes a mapping, an alias of one, or a sequence of such. */
  function PlainMerge(t: Tree, out: Dict): Result<Dict>
    decreases t, 1
  {
    match t
    case Items(ts) => PlainMerges(ts, out)
    case _ => PlainMergeOne(t, out)
  }

  function PlainMergeOne(t: Tree, out: Dict): Result<Dict>
    decreases t, 0
  {
    match t
    case Pairs(ps) => PlainPairs(ps, out)
    case Ref(u) => if u.Pairs? then PlainPairs(u.pairs, out) else Err(WantMap)
    case _ => Err(WantMap)
  }

  /** From the last one to the first. */
  function PlainMerges(ts: seq<Tree>, out: Dict): Result<Dict>
    decreases ts, 1
  {
    if ts == [] then Ok(out)
    else
      match PlainMergeOne(ts[|ts| - 1], out)
      case Err(e) => Err(e)
      case Ok(m) => PlainMerges(ts[..|ts| - 1], m)
  }

  // ---------------------------------------------------------------- chains of aliases

  /** The aliases in a node. */
  function Mentions(n: Node): set<string>
  {
    match n
    case Scalar(_, _, _) => {}
    case Alias(name) => {name}
    case Sequence(_, children) => set i, x | 0 <= i < |children| && x in Mentions(children[i]) :: x
    case Mapping(_, pairs) => set i, x | 0 <= i < |pairs| && x in Mentions(pairs[i].key) + Mentions(pairs[i].val) :: x
  }

  /** The aliases that may come next after a chain of aliases that starts in `root`. */
  function Scope(anchors: Anchors, root: Node, chain: seq<string>): set<string>
  {
    if chain == [] then Mentions(root)
    else if chain[|chain| - 1] in anchors then Mentions(anchors[chain[|chain| - 1]])
    else {}
  }

  /** Each alias of the chain is in what the one before it stands for. */
  predicate IsChain(anchors: Anchors, root: Node, chain: seq<string>)
  {
    forall i :: 0 <= i < |chain| ==> chain[i] in Scope(anchors, root, chain[..i])
  }

  /** Following aliases from `root`, one comes to `name` within what `name` stands for. */
  ghost predicate Loops(anchors: Anchors, root: Node, name: string)
  {
    exists chain: seq<string> :: IsChain(anchors, root, chain) && name in chain && name in Scope(anchors, root, chain)
  }

  lemma ChainSnoc(anchors: Anchors, root: Node, chain: seq<string>, name: string)
    requires IsChain(anchors, root, chain) && name in Scope(anchors, root, chain)
    ensures IsChain(anchors, root, chain + [name])
  {
    var c := chain + [name];
    forall i | 0 <= i < |c|
      ensures c[i] in Scope(anchors, root, c[..i])
    {
      assert c[..i] == chain[..i];
      assert chain[..|chain|] == chain;
    }
  }

  /** What an alias in an unfolded node stands for is unfolded, and lower. */
  lemma {:induction false} MentionUnfolds(anchors: Anchors, n: Node, t: Tree, name: string) returns (u: Tree)
    requires Unfolds(anchors, n, t) && name in Mentions(n)
    ensures name in anchors && Unfolds(anchors, anchors[name], u) && Height(u) < Height(t)
    decreases t
  {
    match n
    case Alias(_) => u := t.target;
    case Sequence(_, children) =>
      var i :| 0 <= i < |children| && name in Mentions(children[i]);
      u := MentionUnfolds(anchors, children[i], t.children[i], name);
      HighestAt(t.children, i);
    case Mapping(_, pairs) =>
      var i :| 0 <= i < |pairs| && name in Mentions(pairs[i].key) + Mentions(pairs[i].val);
      HighestPairAt(t.pairs, i);
      if name in Mentions(pairs[i].key) {
        u := MentionUnfolds(anchors, pairs[i].key, t.pairs[i].key, name);
      } else {
        u := MentionUnfolds(anchors, pairs[i].val, t.pairs[i].val, name);
      }
  }

  /** All that a chain of aliases from an unfolded node leads to is unfolded, and lower and lower. */
  lemma {:induction false} ChainUnfolds(anchors: Anchors, root: Node, t: Tree, chain: seq<string>, name: string) returns (u: Tree)
    requires Unfolds(anchors, root, t) && IsChain(anchors, root, chain) && name in Scope(anchors, root, chain)
    ensures name in anchors && Unfolds(anchors, anchors[name], u)
    ensures forall i, v {:trigger Unfolds(anchors, anchors[chain[i]], v)} :: 0 <= i < |chain| && chain[i] in anchors && Unfolds(anchors, anchors[chain[i]], v) ==> Height(u) < Height(v)
    decreases |chain|
  {
    if chain == [] {
      u := MentionUnfolds(anchors, root, t, name);
    } else {
      var init, last := chain[..|chain| - 1], chain[|chain| - 1];
      assert IsChain(anchors, root, init) by {
        assert forall i :: 0 <= i < |init| ==> init[..i] == chain[..i];
      }
      var w := ChainUnfolds(anchors, root, t, init, last);
      u := MentionUnfolds(anchors, anchors[last], w, name);
      forall i, v | 0 <= i < |chain| && chain[i] in anchors && Unfolds(anchors, anchors[chain[i]], v)
        ensures Height(u) < Height(v)
      {
        if i < |init| {
          assert init[i] == chain[i];
        } else {
          UnfoldsOnce(anchors, anchors[last], v, w);
        }
      }
    }
  }

  /** A document that can be unfolded has no alias within itself. */
  lemma UnfoldedHasNoLoop(anchors: Anchors, root: Node, t: Tree, name: string)
    requires Unfolds(anchors, root, t)
    ensures !Loops(anchors, root, name)
  {
    forall chain: seq<string> | IsChain(anchors, root, chain) && name in Scope(anchors, root, chain)
      ensures name !in chain
    {
      var u := ChainUnfolds(anchors, root, t, chain, name);
    }
  }

  // ---------------------------------------------------------------- what goes wrong

  /** A chain of aliases from `root` leads to `name`. */
  ghost predicate Reaches(anchors: Anchors, root: Node, name: string)
  {
    exists chain: seq<string> :: IsChain(anchors, root, chain) && name in Scope(anchors, root, chain)
  }

  /** What the decoder reports about aliases is true of them. */
  ghost predicate Explained(anchors: Anchors, root: Node, e: Error)
  {
    match e
    case UnknownAnchor(name) => name !in anchors && Reaches(anchors, root, name)
    case SelfContained(name) => Loops(anchors, root, name)
    case _ => true
  }

  /** `t` is within what each of the names stands for. */
  ghost predicate Within(anchors: Anchors, names: set<string>, t: Tree)
  {
    forall a, s :: a in names && a in anchors && Unfolds(anchors, anchors[a], s) ==> Height(t) <= Height(s)
  }

  function Names(chain: seq<string>): set<string>
  {
    set x | x in chain
  }

  /** `n` is in what the last alias of the chain stands for. */
  predicate At(anchors: Anchors, root: Node, chain: seq<string>, n: Node)
  {
    IsChain(anchors, root, chain) && Mentions(n) <= Scope(anchors, root, chain)
  }

  /** The unfolding of `n`, if there is one, is within what is being expanded. */
  ghost predicate Expected(anchors: Anchors, names: set<string>, n: Node, tree: Option<Tree>)
  {
    tree.Some? ==> Unfolds(anchors, n, tree.value) && Within(anchors, names, tree.value)
  }

  function TargetOf(tree: Option<Tree>): Option<Tree>
  {
    if tree.Some? && tree.value.Ref? then Some(tree.value.target) else None
  }

  function ChildOf(tree: Option<Tree>, i: nat): Option<Tree>
  {
    if tree.Some? && tree.value.Items? && i < |tree.value.children| then Some(tree.value.children[i]) else None
  }

  function KeyOf(tree: Option<Tree>, i: nat): Option<Tree>
  {
    if tree.Some? && tree.value.Pairs? && i < |tree.value.pairs| then Some(tree.value.pairs[i].key) else None
  }

  function ValOf(tree: Option<Tree>, i: nat): Option<Tree>
  {
    if tree.Some? && tree.value.Pairs? && i < |tree.value.pairs| then Some(tree.value.pairs[i].val) else None
  }

  lemma ExpectTarget(anchors: Anchors, root: Node, chain: seq<string>, n: Node, tree: Option<Tree>)
    requires n.Alias? && At(anchors, root, chain, n) && Expected(anchors, Names(chain), n, tree)
    ensures n.name in chain ==> tree.None? && Loops(anchors, root, n.name)
    ensures n.name !in anchors ==> tree.None? && Reaches(anchors, root, n.name)
    ensures n.name in anchors ==> At(anchors, root, chain + [n.name], anchors[n.name])
    ensures n.name in anchors ==> Expected(anchors, Names(chain + [n.name]), anchors[n.name], TargetOf(tree)) && (tree.Some? ==> tree.value.Ref?)
  {
    assert n.name in Scope(anchors, root, chain);
    if n.name in anchors {
      ChainSnoc(anchors, root, chain, n.name);
      if tree.Some? {
        var u := tree.value.target;
        forall a, s | a in Names(chain + [n.name]) && a in anchors && Unfolds(anchors, anchors[a], s)
          ensures Height(u) <= Height(s)
        {
          if a == n.name {
            UnfoldsOnce(anchors, anchors[a], u, s);
          }
        }
      }
    }
  }

  lemma ExpectChild(anchors: Anchors, root: Node, chain: seq<string>, n: Node, tree: Option<Tree>, i: nat)
    requires n.Sequence? && i < |n.children| && At(anchors, root, chain, n) && Expected(anchors, Names(chain), n, tree)
    ensures At(anchors, root, chain, n.children[i]) && Expected(anchors, Names(chain), n.children[i], ChildOf(tree, i))
    ensures tree.Some? ==> tree.value.Items? && |tree.value.children| == |n.children|
  {
    if tree.Some? {
      HighestAt(tree.value.children, i);
    }
  }

  lemma ExpectPair(anchors: Anchors, root: Node, chain: seq<string>, n: Node, tree: Option<Tree>, i: nat)
    requires n.Mapping? && i < |n.pairs| && At(anchors, root, chain, n) && Expected(anchors, Names(chain), n, tree)
    ensures At(anchors, root, chain, n.pairs[i].key) && Expected(anchors, Names(chain), n.pairs[i].key, KeyOf(tree, i))
    ensures At(anchors, root, chain, n.pairs[i].val) && Expected(anchors, Names(chain), n.pairs[i].val, ValOf(tree, i))
    ensures tree.Some? ==> tree.value.Pairs? && |tree.value.pairs| == |n.pairs|
  {
    forall x | x in Mentions(n.pairs[i].key) || x in Mentions(n.pairs[i].val)
      ensures x in Mentions(n)
    {
      assert x in Mentions(n.pairs[i].key) + Mentions(n.pairs[i].val);
    }
    if tree.Some? {
      HighestPairAt(tree.value.pairs, i);
    }
  }

  // ---------------------------------------------------------------- the decoder

  class Decoder {
    const anchors: Anchors
    ghost const root: Node
    var aliases: set<string>

    constructor (anchors: Anchors, ghost root: Node)
      ensures aliases == {} && this.anchors == anchors && this.root == root
    {
      this.anchors, this.root, aliases := anchors, root, {};
    }

    ghost predicate Ready(n: Node, chain: seq<string>, tree: Option<Tree>)
      reads this
    {
      At(anchors, root, chain, n) && Expected(anchors, Names(chain), n, tree) && aliases == Names(chain) && aliases <= anchors.Keys
    }

    /** Reads a node, into the given entries if it is a mapping. It ends well exactly if the node
        can be unfolded to a tree with a value, and that value is the result. */
    method Unmarshal(n: Node, out: Dict, ghost chain: seq<string>, ghost tree: Option<Tree>) returns (r: Result<Value>, ghost t: Tree)
      requires Ready(n, chain, tree)
      modifies this
      ensures r.Ok? ==> aliases == old(aliases) && Unfolds(anchors, n, t) && Plain(t, out) == r
      ensures r.Err? ==> Explained(anchors, root, r.error)
      ensures tree.Some? ==> r == Plain(tree.value, out)
      decreases anchors.Keys - aliases, n, 3
    {
      t := Leaf("", false);
      match n {
        case Alias(name) =>
          r, t := ReadAlias(n, out, chain, tree);
        case Scalar(_, value, merge) =>
          r, t := Ok(Atom(value)), Leaf(value, merge);
        case Sequence(_, _) =>
          ghost var ts;
          var items;
          items, ts := ReadSequence(n, chain, tree);
          t := Items(ts);
          r := match items case Ok(vs) => Ok(List(vs)) case Err(e) => Err(e);
        case Mapping(_, _) =>
          ghost var ps;
          var m;
          m, ps := ReadMapping(n, out, chain, tree);
          t := Pairs(ps);
          r := match m case Ok(d) => Ok(Table(d)) case Err(e) => Err(e);
      }
    }

    /** An alias is read as the node that it stands for, unless that is being read already. */
    method ReadAlias(n: Node, out: Dict, ghost chain: seq<string>, ghost tree: Option<Tree>) returns (r: Result<Value>, ghost t: Tree)
      requires n.Alias? && Ready(n, chain, tree)
      modifies this
      ensures r.Ok? ==> aliases == old(aliases) && Unfolds(anchors, n, t) && Plain(t, out) == r
      ensures r.Err? ==> Explained(anchors, root, r.error)
      ensures tree.Some? ==> r == Plain(tree.value, out)
      decreases anchors.Keys - aliases, n, 2
    {
      ExpectTarget(anchors, root, chain, n, tree);
      t := Leaf("", false);
      if n.name !in anchors {
        return Err(UnknownAnchor(n.name)), t;
      }
      if n.name in aliases {
        return Err(SelfContained(n.name)), t;
      }
      aliases := aliases + {n.name};
      assert Names(chain + [n.name]) == Names(chain) + {n.name};
      r, t := Unmarshal(anchors[n.name], out, chain + [n.name], TargetOf(tree));
      t := Ref(t);
      if r.Ok? {
        aliases := aliases - {n.name};
      }
    }

    method ReadSequence(n: Node, ghost chain: seq<string>, ghost tree: Option<Tree>) returns (r: Result<seq<Value>>, ghost ts: seq<Tree>)
      requires n.Sequence? && Ready(n, chain, tree)
      modifies this
      ensures r.Ok? ==> aliases == old(aliases) && Unfolds(anchors, n, Items(ts)) && PlainItems(ts) == r
      ensures r.Err? ==> Explained(anchors, root, r.error)
      ensures tree.Some? ==> tree.value.Items? && r == PlainItems(tree.value.children)
      decreases anchors.Keys - aliases, n, 2
    {
      var items := [];
      ts := [];
      for i := 0 to |n.children|
        invariant aliases == old(aliases) && |ts| == i && PlainItems(ts) == Ok(items)
        invariant forall j :: 0 <= j < i ==> Unfolds(anchors, n.children[j], ts[j])
      {
        ExpectChild(anchors, root, chain, n, tree, i);
        var v;
        ghost var t;
        v, t := Unmarshal(n.children[i], map[], chain, ChildOf(tree, i));
        SameItems(anchors, n, tree, ts, i);
        if v.Err? {
          ItemsError(anchors, n, tree, ts, i, v.error);
          return Err(v.error), ts;
        }
        assert (ts + [t])[..i] == ts;
        items := items + [v.value];
        ts := ts + [t];
      }
      SameItems(anchors, n, tree, ts, |n.children|);
      r := Ok(items);
    }

    method ReadMapping(n: Node, out: Dict, ghost chain: seq<string>, ghost tree: Option<Tree>) returns (r: Result<Dict>, ghost ps: seq<TreePair>)
      requires n.Mapping? && Ready(n, chain, tree)
      modifies this
      ensures r.Ok? ==> aliases == old(aliases) && Unfolds(anchors, n, Pairs(ps)) && PlainPairs(ps, out) == r
      ensures r.Err? ==> Explained(anchors, root, r.error)
      ensures tree.Some? ==> tree.value.Pairs? && r == PlainPairs(tree.value.pairs, out)
      decreases anchors.Keys - aliases, n, 2
    {
      var m := out;
      ps := [];
      for i := 0 to |n.pairs|
        invariant aliases == old(aliases) && |ps| == i && PlainPairs(ps, out) == Ok(m)
        invariant forall j :: 0 <= j < i ==> UnfoldsPair(anchors, n.pairs[j], ps[j])
      {
        ghost var p;
        r, p := ReadPair(n, i, m, chain, tree);
        SamePairs(anchors, n, tree, ps, i);
        if r.Err? {
          PairsError(n, tree, ps, out, m, i, r.error);
          return;
        }
        assert (ps + [p])[..i] == ps;
        m := r.value;
        ps := ps + [p];
      }
      SamePairs(anchors, n, tree, ps, |n.pairs|);
      r := Ok(m);
    }

    /** One key and its value. */
    method ReadPair(n: Node, i: nat, out: Dict, ghost chain: seq<string>, ghost tree: Option<Tree>) returns (r: Result<Dict>, ghost p: TreePair)
      requires n.Mapping? && i < |n.pairs| && Ready(n, chain, tree)
      modifies this
      ensures r.Ok? ==> aliases == old(aliases) && UnfoldsPair(anchors, n.pairs[i], p) && PlainPair(p, out) == r
      ensures r.Err? ==> Explained(anchors, root, r.error)
      ensures tree.Some? ==> tree.value.Pairs? && |tree.value.pairs| == |n.pairs| && r == PlainPair(tree.value.pairs[i], out)
      decreases anchors.Keys - aliases, n, 1
    {
      hide Reaches, Plain;
      ExpectPair(anchors, root, chain, n, tree, i);
      var key, val := n.pairs[i].key, n.pairs[i].val;
      assert n.pairs[i] < n && key < n.pairs[i] && val < n.pairs[i];
      ghost var kt, vt := Leaf("", false), Leaf("", false);
      p := TreePair(kt, vt);
      if key.Scalar? && key.merge {
        r, vt := Merge(val, out, chain, ValOf(tree, i));
        p := TreePair(Leaf(key.value, true), vt);
        return;
      }
      var k, v;
      k, kt := Unmarshal(key, map[], chain, KeyOf(tree, i));
      if k.Err? {
        return Err(k.error), p;
      }
      KeyIsNoMerge(anchors, key, kt, KeyOf(tree, i));
      if !k.value.Atom? {
        return Err(InvalidKey), p;
      }
      v, vt := Unmarshal(val, map[], chain, ValOf(tree, i));
      p := TreePair(kt, vt);
      if v.Err? {
        return Err(v.error), p;
      }
      r := Ok(out[k.value.s := v.value]);
    }

    /** The value of a merge key adds its entries. */
    method Merge(n: Node, out: Dict, ghost chain: seq<string>, ghost tree: Option<Tree>) returns (r: Result<Dict>, ghost t: Tree)
      requires Ready(n, chain, tree)
      modifies this
      ensures r.Ok? ==> aliases == old(aliases) && Unfolds(anchors, n, t) && PlainMerge(t, out) == r
      ensures r.Err? ==> Explained(anchors, root, r.error)
      ensures tree.Some? ==> r == PlainMerge(tree.value, out)
      decreases anchors.Keys - aliases, n, 5
    {
      if n.Sequence? {
        r, t := MergeAll(n, out, chain, tree);
      } else {
        r, t := MergeOne(n, out, chain, tree);
      }
    }

    method MergeOne(n: Node, out: Dict, ghost chain: seq<string>, ghost tree: Option<Tree>) returns (r: Result<Dict>, ghost t: Tree)
      requires Ready(n, chain, tree)
      modifies this
      ensures r.Ok? ==> aliases == old(aliases) && Unfolds(anchors, n, t) && !t.Items? && PlainMergeOne(t, out) == r
      ensures r.Err? ==> Explained(anchors, root, r.error)
      ensures tree.Some? ==> r == PlainMergeOne(tree.value, out)
      decreases anchors.Keys - aliases, n, 4
    {
      t := Leaf("", false);
      match n {
        case Alias(name) =>
          assert name in anchors && tree.Some? ==> Unfolds(anchors, anchors[name], tree.value.target);
          if name in anchors && !anchors[name].Mapping? {
            return Err(WantMap), t;
          }
          var v;
          v, t := ReadAlias(n, out, chain, tree);
          if v.Err? {
            return Err(v.error), t;
          }
          r := Ok(v.value.entries);
        case Mapping(_, _) =>
          ghost var ps;
          r, ps := ReadMapping(n, out, chain, tree);
          t := Pairs(ps);
        case _ =>
          return Err(WantMap), t;
      }
    }

    /** The last one first, as earlier ones take precedence. */
    method MergeAll(n: Node, out: Dict, ghost chain: seq<string>, ghost tree: Option<Tree>) returns (r: Result<Dict>, ghost t: Tree)
      requires n.Sequence? && Ready(n, chain, tree)
      modifies this
      ensures r.Ok? ==> aliases == old(aliases) && Unfolds(anchors, n, t) && PlainMerge(t, out) == r
      ensures r.Err? ==> Explained(anchors, root, r.error)
      ensures tree.Some? ==> r == PlainMerge(tree.value, out)
      decreases anchors.Keys - aliases, n, 4
    {
      hide MergedSoFar, PlainMerges, PlainMergeOne;
      var m := out;
      ghost var ts: seq<Tree> := [];
      MergedNone(out);
      t := Leaf("", false);
      var i := |n.children|;
      while i > 0
        invariant 0 <= i <= |n.children| && aliases == old(aliases) && |ts| == |n.children| - i
        invariant forall j :: i <= j < |n.children| ==> Unfolds(anchors, n.children[j], ts[j - i])
        invariant MergedSoFar(ts, out, m)
      {
        i := i - 1;
        ExpectChild(anchors, root, chain, n, tree, i);
        ghost var u;
        r, u := MergeOne(n.children[i], m, chain, ChildOf(tree, i));
        SameEnd(anchors, n, tree, ts, i + 1);
        if r.Err? {
          MergesError(n, tree, ts, out, m, i, r.error);
          return;
        }
        MergedMore(ts, out, m, u, r.value);
        m := r.value;
        ts := [u] + ts;
      }
      SameEnd(anchors, n, tree, ts, 0);
      MergedAll(ts, out, m);
      t := Items(ts);
      r := Ok(m);
    }
  }

  /** What has been read of a sequence is the beginning of its unfolding. */
  lemma SameItems(anchors: Anchors, n: Node, tree: Option<Tree>, ts: seq<Tree>, i: nat)
    requires n.Sequence? && |ts| == i <= |n.children| && forall j :: 0 <= j < i ==> Unfolds(anchors, n.children[j], ts[j])
    requires tree.Some? ==> Unfolds(anchors, n, tree.value)
    ensures tree.Some? ==> tree.value.Items? && |tree.value.children| == |n.children| && tree.value.children[..i] == ts
    ensures tree.Some? && i == |n.children| ==> tree.value.children == ts
  {
    if tree.Some? {
      forall j | 0 <= j < i
        ensures tree.value.children[j] == ts[j]
      {
        UnfoldsOnce(anchors, n.children[j], tree.value.children[j], ts[j]);
      }
    }
  }

  /** An item that cannot be read ends the sequence. */
  lemma ItemsError(anchors: Anchors, n: Node, tree: Option<Tree>, ts: seq<Tree>, i: nat, e: Error)
    requires n.Sequence? && i < |n.children| && PlainItems(ts).Ok?
    requires tree.Some? ==> tree.value.Items? && |tree.value.children| == |n.children| && tree.value.children[..i] == ts
    requires tree.Some? ==> Plain(tree.value.children[i], map[]) == Err(e)
    ensures tree.Some? ==> PlainItems(tree.value.children) == Err(e)
  {
    if tree.Some? {
      var all := tree.value.children;
      assert all[..i + 1][..i] == ts;
      ItemsStop(all, i + 1, e);
    }
  }

  lemma {:induction false} ItemsStop(ts: seq<Tree>, i: nat, e: Error)
    requires i <= |ts| && PlainItems(ts[..i]) == Err(e)
    ensures PlainItems(ts) == Err(e)
    decreases |ts|
  {
    if i < |ts| {
      assert ts[..|ts| - 1][..i] == ts[..i];
      ItemsStop(ts[..|ts| - 1], i, e);
    } else {
      assert ts[..i] == ts;
    }
  }

  predicate UnfoldsPair(anchors: Anchors, p: Pair, t: TreePair)
  {
    Unfolds(anchors, p.key, t.key) && Unfolds(anchors, p.val, t.val)
  }

  lemma KeyIsNoMerge(anchors: Anchors, key: Node, kt: Tree, tree: Option<Tree>)
    requires Unfolds(anchors, key, kt) && !(key.Scalar? && key.merge) && (tree.Some? ==> Unfolds(anchors, key, tree.value))
    ensures !(kt.Leaf? && kt.merge) && (tree.Some? ==> tree.value == kt)
  {
    if tree.Some? {
      UnfoldsOnce(anchors, key, kt, tree.value);
    }
  }

  lemma SamePairs(anchors: Anchors, n: Node, tree: Option<Tree>, ps: seq<TreePair>, i: nat)
    requires n.Mapping? && |ps| == i <= |n.pairs| && forall j :: 0 <= j < i ==> UnfoldsPair(anchors, n.pairs[j], ps[j])
    requires tree.Some? ==> Unfolds(anchors, n, tree.value)
    ensures tree.Some? ==> tree.value.Pairs? && |tree.value.pairs| == |n.pairs| && tree.value.pairs[..i] == ps
    ensures tree.Some? && i == |n.pairs| ==> tree.value.pairs == ps
  {
    if tree.Some? {
      forall j | 0 <= j < i
        ensures tree.value.pairs[j] == ps[j]
      {
        UnfoldsOnce(anchors, n.pairs[j].key, tree.value.pairs[j].key, ps[j].key);
        UnfoldsOnce(anchors, n.pairs[j].val, tree.value.pairs[j].val, ps[j].val);
      }
    }
  }

  lemma PairsError(n: Node, tree: Option<Tree>, ps: seq<TreePair>, out: Dict, m: Dict, i: nat, e: Error)
    requires n.Mapping? && i < |n.pairs| && PlainPairs(ps, out) == Ok(m)
    requires tree.Some? ==> tree.value.Pairs? && |tree.value.pairs| == |n.pairs| && tree.value.pairs[..i] == ps
    requires tree.Some? ==> PlainPair(tree.value.pairs[i], m) == Err(e)
    ensures tree.Some? ==> PlainPairs(tree.value.pairs, out) == Err(e)
  {
    if tree.Some? {
      var all := tree.value.pairs;
      assert all[..i + 1][..i] == ps;
      PairsStop(all, out, i + 1, e);
    }
  }

  lemma {:induction false} PairsStop(ps: seq<TreePair>, out: Dict, i: nat, e: Error)
    requires i <= |ps| && PlainPairs(ps[..i], out) == Err(e)
    ensures PlainPairs(ps, out) == Err(e)
    decreases |ps|
  {
    if i < |ps| {
      assert ps[..|ps| - 1][..i] == ps[..i];
      PairsStop(ps[..|ps| - 1], out, i, e);
    } else {
      assert ps[..i] == ps;
    }
  }

  /** Merging `ts` from the last one on has led from `out` to `m`. */
  ghost predicate MergedSoFar(ts: seq<Tree>, out: Dict, m: Dict)
  {
    forall pre: seq<Tree> {:trigger PlainMerges(pre + ts, out)} {:trigger PlainMerges(pre, m)} :: PlainMerges(pre + ts, out) == PlainMerges(pre, m)
  }

  lemma MergedNone(out: Dict)
    ensures MergedSoFar([], out, out)
  {
    forall pre: seq<Tree>
      ensures PlainMerges(pre + [], out) == PlainMerges(pre, out)
    {
      assert pre + [] == pre;
    }
  }

  lemma MergedMore(ts: seq<Tree>, out: Dict, m: Dict, u: Tree, m': Dict)
    requires MergedSoFar(ts, out, m) && PlainMergeOne(u, m) == Ok(m')
    ensures MergedSoFar([u] + ts, out, m')
  {
    forall pre: seq<Tree>
      ensures PlainMerges(pre + ([u] + ts), out) == PlainMerges(pre, m')
    {
      assert pre + ([u] + ts) == (pre + [u]) + ts;
      assert PlainMerges((pre + [u]) + ts, out) == PlainMerges(pre + [u], m);
      assert (pre + [u])[..|pre|] == pre;
    }
  }

  lemma MergedAll(ts: seq<Tree>, out: Dict, m: Dict)
    requires MergedSoFar(ts, out, m)
    ensures PlainMerges(ts, out) == Ok(m)
  {
    assert [] + ts == ts;
    assert PlainMerges([] + ts, out) == PlainMerges([], m);
  }

  lemma SameEnd(anchors: Anchors, n: Node, tree: Option<Tree>, ts: seq<Tree>, i: nat)
    requires n.Sequence? && i <= |n.children| && |ts| == |n.children| - i
    requires forall j :: i <= j < |n.children| ==> Unfolds(anchors, n.children[j], ts[j - i])
    requires tree.Some? ==> Unfolds(anchors, n, tree.value)
    ensures tree.Some? ==> tree.value.Items? && |tree.value.children| == |n.children| && tree.value.children[i..] == ts
    ensures tree.Some? && i == 0 ==> tree.value.children == ts
  {
    if tree.Some? {
      forall j | i <= j < |n.children|
        ensures tree.value.children[j] == ts[j - i]
      {
        UnfoldsOnce(anchors, n.children[j], tree.value.children[j], ts[j - i]);
      }
    }
  }

  lemma MergesError(n: Node, tree: Option<Tree>, ts: seq<Tree>, out: Dict, m: Dict, i: nat, e: Error)
    requires n.Sequence? && i < |n.children| && MergedSoFar(ts, out, m)
    requires tree.Some? ==> tree.value.Items? && |tree.value.children| == |n.children| && tree.value.children[i + 1..] == ts
    requires tree.Some? ==> PlainMergeOne(tree.value.children[i], m) == Err(e)
    ensures tree.Some? ==> PlainMerges(tree.value.children, out) == Err(e)
  {
    if tree.Some? {
      var all := tree.value.children;
      assert all == all[..i + 1] + ts;
      assert PlainMerges(all[..i + 1] + ts, out) == PlainMerges(all[..i + 1], m);
      assert all[..i + 1][..i] == all[..i];
    }
  }
}
