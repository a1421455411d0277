/** Aliases in a document: when they may be replaced by what they stand for. */
module Transparency {
  import opened Wrappers
  import opened Aliases
  import opened Meaning
  import opened Documents

  // ---------------------------------------------------------------- what can be read at all

  predicate IsMerge(t: Tree)
  {
    t.Leaf? && t.merge
  }

  /** The tree has a value. */
  predicate Readable(t: Tree)
    decreases t, 0
  {
    match t
    case Leaf(_, _) => true
    case Ref(u) => Readable(u)
    case Items(ts) => forall i :: 0 <= i < |ts| ==> Readable(ts[i])
    case Pairs(ps) => forall i :: 0 <= i < |ps| ==> ReadablePair(ps[i])
  }

  predicate ReadablePair(p: TreePair)
    decreases p, 0
  {
    if IsMerge(p.key) then Mergeable(p.val) else Readable(p.key) && Strip(p.key).Leaf? && Readable(p.val)
  }

  /** It can be the value of a merge key. */
  predicate Mergeable(t: Tree)
    decreases t, 2
  {
    match t
    case Items(ts) => forall i :: 0 <= i < |ts| ==> MergeableOne(ts[i])
    case _ => MergeableOne(t)
  }

  predicate MergeableOne(t: Tree)
    decreases t, 1
  {
    match t
    case Pairs(_) => Readable(t)
    case Ref(u) => u.Pairs? && Readable(u)
    case _ => false
  }

  /** Exactly such trees have a value, whatever entries they are read into. */
  lemma {:induction false} ReadableIff(t: Tree, out: Dict)
    ensures Plain(t, out).Ok? <==> Readable(t)
    ensures Readable(t) ==> (Plain(t, out).value.Atom? <==> Strip(t).Leaf?)
    decreases t, 0
  {
    match t
    case Leaf(_, _) =>
    case Ref(u) => ReadableIff(u, out);
    case Items(ts) => ItemsReadable(ts);
    case Pairs(ps) => PairsReadable(ps, out);
  }

  /** What a tree is read as: exactly what it means, if it can be read. */
  lemma MeaningIff(t: Tree, v: Value)
    ensures Plain(t, map[]) == Ok(v) <==> Readable(t) && Means(t, v)
  {
    ReadableIff(t, map[]);
    if Readable(t) {
      ReadsAsMeant(t, v);
    }
  }

  lemma {:induction false} ItemsReadable(ts: seq<Tree>)
    ensures PlainItems(ts).Ok? <==> forall i :: 0 <= i < |ts| ==> Readable(ts[i])
    decreases ts, 1
  {
    if ts == [] {
    } else {
      var n := |ts| - 1;
      ItemsReadable(ts[..n]);
      ReadableIff(ts[n], map[]);
      assert forall i :: 0 <= i < n ==> ts[..n][i] == ts[i];
    }
  }

  lemma {:induction false} PairsReadable(ps: seq<TreePair>, out: Dict)
    ensures PlainPairs(ps, out).Ok? <==> forall i :: 0 <= i < |ps| ==> ReadablePair(ps[i])
    decreases ps, 1
  {
    if ps == [] {
    } else {
      var n := |ps| - 1;
      PairsReadable(ps[..n], out);
      var r := PlainPairs(ps[..n], out);
      if r.Ok? {
        PairReadable(ps[n], r.value);
      }
      assert forall i :: 0 <= i < n ==> ps[..n][i] == ps[i];
    }
  }

  lemma {:induction false} PairReadable(p: TreePair, out: Dict)
    ensures PlainPair(p, out).Ok? <==> ReadablePair(p)
    decreases p, 0
  {
    assert p.key < p && p.val < p;
    if IsMerge(p.key) {
      MergeReadable(p.val, out);
    } else {
      ReadableIff(p.key, map[]);
      ReadableIff(p.val, map[]);
    }
  }

  lemma {:induction false} MergeReadable(t: Tree, out: Dict)
    ensures PlainMerge(t, out).Ok? <==> Mergeable(t)
    decreases t, 2
  {
    match t
    case Items(ts) => MergesReadable(ts, out);
    case _ => MergeOneReadable(t, out);
  }

  lemma {:induction false} MergeOneReadable(t: Tree, out: Dict)
    ensures PlainMergeOne(t, out).Ok? <==> MergeableOne(t)
    decreases t, 1
  {
    match t
    case Pairs(ps) => PairsReadable(ps, out);
    case Ref(u) =>
      if u.Pairs? {
        PairsReadable(u.pairs, out);
      }
    case _ =>
  }

  lemma {:induction false} MergesReadable(ts: seq<Tree>, out: Dict)
    ensures PlainMerges(ts, out).Ok? <==> forall i :: 0 <= i < |ts| ==> MergeableOne(ts[i])
    decreases ts, 2
  {
    if ts == [] {
    } else {
      var n := |ts| - 1;
      MergeOneReadable(ts[n], out);
      var r := PlainMergeOne(ts[n], out);
      if r.Ok? {
        MergesReadable(ts[..n], r.value);
      }
      assert forall i :: 0 <= i < n ==> ts[..n][i] == ts[i];
    }
  }

  // ---------------------------------------------------------------- entries are added

  /** `r` adds to `out` what `s` has. */
  predicate Adds(r: Result<Dict>, s: Result<Dict>, out: Dict)
  {
    r.Ok? && s.Ok? ==> r.value == out + s.value
  }

  lemma {:induction false} PairsAdd(ps: seq<TreePair>, out: Dict)
    ensures Adds(PlainPairs(ps, out), PlainPairs(ps, map[]), out)
    decreases ps, 1
  {
    if ps == [] {
    } else {
      var n := |ps| - 1;
      PairsAdd(ps[..n], out);
      var r, s := PlainPairs(ps[..n], out), PlainPairs(ps[..n], map[]);
      if r.Ok? && s.Ok? {
        PairReadable(ps[n], map[]);
        PairReadable(ps[n], r.value);
        PairAdds(ps[n], r.value);
        PairAdds(ps[n], s.value);
      }
    }
  }

  lemma {:induction false} PairAdds(p: TreePair, out: Dict)
    ensures Adds(PlainPair(p, out), PlainPair(p, map[]), out)
    decreases p, 0
  {
    if IsMerge(p.key) {
      assert p.val < p;
      if p.val.Items? {
        MergesAdd(p.val.children, out);
      } else {
        MergeOneAdds(p.val, out);
      }
    }
  }

  lemma {:induction false} MergeOneAdds(t: Tree, out: Dict)
    ensures Adds(PlainMergeOne(t, out), PlainMergeOne(t, map[]), out)
    decreases t, 1
  {
    match t
    case Pairs(ps) => PairsAdd(ps, out);
    case Ref(u) =>
      if u.Pairs? {
        PairsAdd(u.pairs, out);
      }
    case _ =>
  }

  lemma {:induction false} MergesAdd(ts: seq<Tree>, out: Dict)
    ensures Adds(PlainMerges(ts, out), PlainMerges(ts, map[]), out)
    decreases ts, 2
  {
    if ts == [] {
    } else {
      var n := |ts| - 1;
      MergeOneAdds(ts[n], out);
      var r, s := PlainMergeOne(ts[n], out), PlainMergeOne(ts[n], map[]);
      if r.Ok? && s.Ok? {
        MergesReadable(ts[..n], map[]);
        MergesReadable(ts[..n], r.value);
        MergesAdd(ts[..n], r.value);
        MergesAdd(ts[..n], s.value);
      }
    }
  }

  // ---------------------------------------------------------------- replacing aliases

  /** The tree with what is referred to in the place of each reference. */
  function Strip(t: Tree): (r: Tree)
    ensures !r.Ref?
    decreases t
  {
    match t
    case Leaf(_, _) => t
    case Ref(u) => Strip(u)
    case Items(ts) => Items(StripAll(ts))
    case Pairs(ps) => Pairs(StripPairs(ps))
  }

  function StripAll(ts: seq<Tree>): (r: seq<Tree>)
    ensures |r| == |ts|
    decreases ts
  {
    if ts == [] then [] else StripAll(ts[..|ts| - 1]) + [Strip(ts[|ts| - 1])]
  }

  function StripPairs(ps: seq<TreePair>): (r: seq<TreePair>)
    ensures |r| == |ps|
    decreases ps
  {
    if ps == [] then []
    else
      var p := ps[|ps| - 1];
      assert p.key < p && p.val < p;
      StripPairs(ps[..|ps| - 1]) + [TreePair(Strip(p.key), Strip(p.val))]
  }

  /** The same value, or none. */
  predicate Same<T(==)>(a: Result<T>, b: Result<T>)
  {
    a.Ok? == b.Ok? && (a.Ok? ==> a.value == b.value)
  }

  function StripPair(p: TreePair): TreePair
  {
    TreePair(Strip(p.key), Strip(p.val))
  }

  /** No alias of an alias. */
  predicate Single(t: Tree)
    decreases t
  {
    match t
    case Leaf(_, _) => true
    case Ref(u) => !u.Ref? && Single(u)
    case Items(ts) => forall i :: 0 <= i < |ts| ==> Single(ts[i])
    case Pairs(ps) => forall i :: 0 <= i < |ps| ==> Single(ps[i].key) && Single(ps[i].val)
  }

  /** Documents have none. */
  lemma {:induction false} UnfoldingSingle(anchors: Anchors, n: Node, t: Tree)
    requires TrueAnchors(anchors) && Unfolds(anchors, n, t)
    ensures Single(t)
    decreases t
  {
    match n
    case Scalar(_, _, _) =>
    case Alias(name) => UnfoldingSingle(anchors, anchors[name], t.target);
    case Sequence(_, children) =>
      forall i | 0 <= i < |children|
        ensures Single(t.children[i])
      {
        UnfoldingSingle(anchors, children[i], t.children[i]);
      }
    case Mapping(_, pairs) =>
      forall i | 0 <= i < |pairs|
        ensures Single(t.pairs[i].key) && Single(t.pairs[i].val)
      {
        UnfoldingSingle(anchors, pairs[i].key, t.pairs[i].key);
        UnfoldingSingle(anchors, pairs[i].val, t.pairs[i].val);
      }
  }

  /** Where the decoder looks at what is written, and not at what it stands for: a merge key must be
      written out, and so must a sequence of mappings to merge, unless neither could be read anyway. */
  predicate PairFine(p: TreePair)
  {
    && !(p.key.Ref? && IsMerge(Strip(p.key)) && Readable(p.val))
    && !(IsMerge(p.key) && p.val.Ref? && p.val.target.Items? && Mergeable(p.val.target))
  }

  predicate Written(t: Tree)
    decreases t
  {
    match t
    case Leaf(_, _) => true
    case Ref(u) => Written(u)
    case Items(ts) => forall i :: 0 <= i < |ts| ==> Written(ts[i])
    case Pairs(ps) => forall i :: 0 <= i < |ps| ==> PairWritten(ps[i])
  }

  predicate PairWritten(p: TreePair)
    decreases p
  {
    Written(p.key) && Written(p.val) && PairFine(p)
  }

  lemma MergeableIsReadable(t: Tree)
    requires Mergeable(t)
    ensures Readable(t)
  {
  }

  /** If all is written out that must be, every alias may be replaced by what it stands for. */
  lemma {:induction false} AliasesAreTransparent(t: Tree, out: Dict)
    requires Single(t) && Written(t)
    ensures Same(Plain(t, out), Plain(Strip(t), out))
    decreases t, 0
  {
    match t
    case Leaf(_, _) =>
    case Ref(u) => AliasesAreTransparent(u, out);
    case Items(ts) => ItemsTransparent(ts);
    case Pairs(ps) => PairsTransparent(ps, out);
  }

  lemma {:induction false} ItemsTransparent(ts: seq<Tree>)
    requires forall i :: 0 <= i < |ts| ==> Single(ts[i]) && Written(ts[i])
    ensures Same(PlainItems(ts), PlainItems(StripAll(ts)))
    decreases ts, 1
  {
    if ts == [] {
    } else {
      ItemsTransparent(ts[..|ts| - 1]);
      AliasesAreTransparent(ts[|ts| - 1], map[]);
      assert StripAll(ts)[..|ts| - 1] == StripAll(ts[..|ts| - 1]);
    }
  }

  lemma {:induction false} PairsTransparent(ps: seq<TreePair>, out: Dict)
    requires forall i :: 0 <= i < |ps| ==> Single(ps[i].key) && Single(ps[i].val) && PairWritten(ps[i])
    ensures Same(PlainPairs(ps, out), PlainPairs(StripPairs(ps), out))
    decreases ps, 1
  {
    if ps == [] {
    } else {
      PairsTransparent(ps[..|ps| - 1], out);
      var r := PlainPairs(ps[..|ps| - 1], out);
      if r.Ok? {
        PairTransparent(ps[|ps| - 1], r.value);
      }
      assert StripPairs(ps)[..|ps| - 1] == StripPairs(ps[..|ps| - 1]);
    }
  }

  lemma {:induction false} PairTransparent(p: TreePair, out: Dict)
    requires Single(p.key) && Single(p.val) && PairWritten(p)
    ensures Same(PlainPair(p, out), PlainPair(StripPair(p), out))
    decreases p, 0
  {
    assert p.key < p && p.val < p;
    if IsMerge(p.key) {
      MergeTransparent(p.val, out);
    } else {
      AliasesAreTransparent(p.key, map[]);
      AliasesAreTransparent(p.val, map[]);
      if IsMerge(Strip(p.key)) {
        ReadableIff(p.val, map[]);
        ReadableIff(Strip(p.val), map[]);
        MergeReadable(Strip(p.val), out);
        if Mergeable(Strip(p.val)) {
          MergeableIsReadable(Strip(p.val));
        }
      }
    }
  }

  lemma {:induction false} MergeTransparent(t: Tree, out: Dict)
    requires Single(t) && Written(t) && (t.Ref? && t.target.Items? ==> !Mergeable(t.target))
    ensures Same(PlainMerge(t, out), PlainMerge(Strip(t), out))
    decreases t, 2
  {
    if t.Items? {
      MergesTransparent(t.children, out);
    } else if t.Ref? && t.target.Items? {
      MergesTransparent(t.target.children, out);
      MergesReadable(t.target.children, out);
    } else {
      MergeOneTransparent(t, out);
    }
  }

  lemma {:induction false} MergeOneTransparent(t: Tree, out: Dict)
    requires Single(t) && Written(t)
    ensures Same(PlainMergeOne(t, out), PlainMergeOne(Strip(t), out))
    decreases t, 1
  {
    match t
    case Pairs(ps) => PairsTransparent(ps, out);
    case Ref(u) =>
      if u.Pairs? {
        PairsTransparent(u.pairs, out);
      }
    case _ =>
  }

  lemma {:induction false} MergesTransparent(ts: seq<Tree>, out: Dict)
    requires forall i :: 0 <= i < |ts| ==> Single(ts[i]) && Written(ts[i])
    ensures Same(PlainMerges(ts, out), PlainMerges(StripAll(ts), out))
    decreases ts, 2
  {
    if ts == [] {
    } else {
      MergeOneTransparent(ts[|ts| - 1], out);
      assert StripAll(ts)[..|ts| - 1] == StripAll(ts[..|ts| - 1]);
      var r := PlainMergeOne(ts[|ts| - 1], out);
      if r.Ok? {
        MergesTransparent(ts[..|ts| - 1], r.value);
      }
    }
  }

  // ---------------------------------------------------------------- where aliases may not be replaced

  /** An entry that is merged comes from one of the mappings. */
  lemma {:induction false} MergedFrom(ts: seq<Tree>, k: string) returns (i: nat)
    requires PlainMerges(ts, map[]).Ok? && k in PlainMerges(ts, map[]).value
    ensures i < |ts| && PlainMergeOne(ts[i], map[]).Ok? && k in PlainMergeOne(ts[i], map[]).value
    ensures PlainMergeOne(ts[i], map[]).value[k] == PlainMerges(ts, map[]).value[k]
    decreases |ts|
  {
    var n := |ts| - 1;
    var m := PlainMergeOne(ts[n], map[]).value;
    MergesReadable(ts[..n], m);
    MergesReadable(ts[..n], map[]);
    MergesAdd(ts[..n], m);
    if k in PlainMerges(ts[..n], map[]).value {
      i := MergedFrom(ts[..n], k);
    } else {
      i := n;
    }
  }

  /** What a value adds as the value of a merge key is never one entry with that value. */
  lemma MergeIsNoEntry(t: Tree, k: string)
    requires !t.Ref? && Readable(t) && Mergeable(t) && forall i :: t.Items? && 0 <= i < |t.children| ==> !t.children[i].Ref?
    ensures Plain(t, map[]).Ok? && PlainMerge(t, map[]).Ok?
    ensures PlainMerge(t, map[]).value != map[k := Plain(t, map[]).value]
  {
    ReadableIff(t, map[]);
    MergeReadable(t, map[]);
    var m, v := PlainMerge(t, map[]).value, Plain(t, map[]).value;
    if k in m {
      if t.Items? {
        var i := MergedFrom(t.children, k);
        ItemAt(t.children, i);
        EntryIsLess(PlainMergeOne(t.children[i], map[]).value, k);
        assert m[k] < v.items[i] < v;
      } else {
        EntryIsLess(m, k);
      }
    }
    assert k in m ==> m[k] != v;
  }

  lemma EntryIsLess(m: Dict, k: string)
    requires k in m
    ensures m[k] < Table(m)
  {
  }

  lemma {:induction false} StripNoRefs(ts: seq<Tree>)
    ensures forall i :: 0 <= i < |ts| ==> StripAll(ts)[i] == Strip(ts[i])
  {
    if ts == [] {
    } else {
      StripNoRefs(ts[..|ts| - 1]);
    }
  }

  /** Where something is not written out, an empty mapping shows the difference. */
  lemma PairDiffers(p: TreePair)
    requires Single(p.key) && Single(p.val) && Written(p.key) && Written(p.val) && !PairFine(p)
    ensures !Same(PlainPair(p, map[]), PlainPair(StripPair(p), map[]))
  {
    var v := Strip(p.val);
    AliasesAreTransparent(p.val, map[]);
    ReadableIff(p.val, map[]);
    ReadableIff(v, map[]);
    MergeReadable(v, map[]);
    if IsMerge(p.key) {
      var ts := p.val.target.children;
      MergesTransparent(ts, map[]);
      MergesReadable(ts, map[]);
      assert v == Items(StripAll(ts));
      assert PlainMerge(v, map[]).Ok?;
      assert PlainMerge(p.val, map[]).Err?;
      assert PlainPair(StripPair(p), map[]) == PlainMerge(v, map[]);
    } else {
      AliasesAreTransparent(p.key, map[]);
      if v.Items? && p.val.Items? {
        StripNoRefs(p.val.children);
      } else if v.Items? {
        StripNoRefs(p.val.target.children);
      }
      if Mergeable(v) {
        MergeIsNoEntry(v, Strip(p.key).value);
      }
    }
  }

  // ---------------------------------------------------------------- exactly when they may

  /** Wherever the pair occurs, aliases in it may be replaced. */
  ghost predicate Transparent(p: TreePair)
  {
    forall out: Dict :: Same(PlainPair(p, out), PlainPair(StripPair(p), out))
  }

  /** So it is with all pairs of a tree. */
  ghost predicate AllTransparent(t: Tree)
    decreases t
  {
    match t
    case Leaf(_, _) => true
    case Ref(u) => AllTransparent(u)
    case Items(ts) => forall i :: 0 <= i < |ts| ==> AllTransparent(ts[i])
    case Pairs(ps) => forall i :: 0 <= i < |ps| ==> AllTransparent(ps[i].key) && AllTransparent(ps[i].val) && Transparent(ps[i])
  }

  lemma PairTransparentIff(p: TreePair)
    requires Single(p.key) && Single(p.val) && Written(p.key) && Written(p.val)
    ensures Transparent(p) <==> PairFine(p)
  {
    if PairFine(p) {
      forall out: Dict
        ensures Same(PlainPair(p, out), PlainPair(StripPair(p), out))
      {
        PairTransparent(p, out);
      }
    } else {
      PairDiffers(p);
    }
  }

  /** In all pairs of a tree aliases may be replaced exactly if all is written out that must be. */
  lemma {:induction false} TransparentIff(t: Tree)
    requires Single(t)
    ensures AllTransparent(t) <==> Written(t)
    decreases t
  {
    match t
    case Leaf(_, _) =>
    case Ref(u) => TransparentIff(u);
    case Items(ts) =>
      forall i | 0 <= i < |ts|
        ensures AllTransparent(ts[i]) <==> Written(ts[i])
      {
        TransparentIff(ts[i]);
      }
    case Pairs(ps) =>
      forall i | 0 <= i < |ps|
        ensures AllTransparent(ps[i].key) && AllTransparent(ps[i].val) && Transparent(ps[i]) <==> PairWritten(ps[i])
      {
        var p := ps[i];
        assert p.key < p && p.val < p;
        TransparentIff(p.key);
        TransparentIff(p.val);
        if Written(p.key) && Written(p.val) {
          PairTransparentIff(p);
        }
      }
  }

  // ---------------------------------------------------------------- documents

  /** A document without aliases that is written as the tree stands. */
  function Expand(t: Tree): (n: Node)
    decreases t
  {
    match t
    case Leaf(value, merge) => Scalar("", value, merge)
    case Ref(u) => Expand(u)
    case Items(ts) => Sequence("", ExpandAll(ts))
    case Pairs(ps) => Mapping("", ExpandPairs(ps))
  }

  function ExpandAll(ts: seq<Tree>): (ns: seq<Node>)
    ensures |ns| == |ts|
    decreases ts
  {
    if ts == [] then [] else ExpandAll(ts[..|ts| - 1]) + [Expand(ts[|ts| - 1])]
  }

  function ExpandPairs(ps: seq<TreePair>): (ns: seq<Pair>)
    ensures |ns| == |ps|
    decreases ps
  {
    if ps == [] then []
    else
      var p := ps[|ps| - 1];
      assert p.key < p && p.val < p;
      ExpandPairs(ps[..|ps| - 1]) + [Pair(Expand(p.key), Expand(p.val))]
  }

  /** It mentions no alias, and unfolds to the tree with what is referred to in the place of references. */
  lemma {:induction false} ExpandUnfolds(t: Tree, anchors: Anchors)
    ensures Mentions(Expand(t)) == {} && Unfolds(anchors, Expand(t), Strip(t))
    decreases t
  {
    match t
    case Leaf(_, _) =>
    case Ref(u) => ExpandUnfolds(u, anchors);
    case Items(ts) => ExpandAllUnfolds(ts, anchors);
    case Pairs(ps) => ExpandPairsUnfolds(ps, anchors);
  }

  lemma {:induction false} ExpandAllUnfolds(ts: seq<Tree>, anchors: Anchors)
    ensures forall i :: 0 <= i < |ts| ==> Mentions(ExpandAll(ts)[i]) == {} && Unfolds(anchors, ExpandAll(ts)[i], StripAll(ts)[i])
    decreases ts
  {
    if ts == [] {
    } else {
      ExpandAllUnfolds(ts[..|ts| - 1], anchors);
      ExpandUnfolds(ts[|ts| - 1], anchors);
    }
  }

  lemma {:induction false} ExpandPairsUnfolds(ps: seq<TreePair>, anchors: Anchors)
    ensures forall i :: 0 <= i < |ps| ==>
      && Mentions(ExpandPairs(ps)[i].key) == {} == Mentions(ExpandPairs(ps)[i].val)
      && UnfoldsPair(anchors, ExpandPairs(ps)[i], StripPairs(ps)[i])
    decreases ps
  {
    if ps == [] {
    } else {
      var p := ps[|ps| - 1];
      assert p.key < p && p.val < p;
      ExpandPairsUnfolds(ps[..|ps| - 1], anchors);
      ExpandUnfolds(p.key, anchors);
      ExpandUnfolds(p.val, anchors);
    }
  }

  /** A document that unfolds, and in which all is written out that must be, is read as the document
      with the anchored nodes in the place of their aliases. */
  lemma ExpandedReadsSame(doc: Node, t: Tree)
    requires Unfolds(Registered(doc, map[]), doc, t) && Written(t)
    ensures Mentions(Expand(t)) == {} && Unfolds(map[], Expand(t), Strip(t)) && Same(Plain(t, map[]), Plain(Strip(t), map[]))
  {
    RegisteredTrue(doc, map[]);
    UnfoldingSingle(Registered(doc, map[]), doc, t);
    AliasesAreTransparent(t, map[]);
    ExpandUnfolds(t, map[]);
  }

  /** A list of a node and a mapping of one pair. */
  function ListOf(a: Node, p: Pair): Node
  {
    Sequence("", [a, Mapping("", [p])])
  }

  function ItemsOf(a: Tree, p: TreePair): Tree
  {
    Items([a, Pairs([p])])
  }

  /** Here a merge key is an alias: replacing that changes what the mapping says. */
  lemma MergeKeyByAlias(name: string)
    requires name != ""
    ensures var (doc, t) := (ListOf(Scalar(name, "<<", true), Pair(Alias(name), Mapping("", []))), ItemsOf(Leaf("<<", true), TreePair(Ref(Leaf("<<", true)), Pairs([]))));
      && Unfolds(Registered(doc, map[]), doc, t)
      && Plain(t, map[]) == Ok(List([Atom("<<"), Table(map["<<" := Table(map[])])]))
      && Plain(Strip(t), map[]) == Ok(List([Atom("<<"), Table(map[])]))
  {
    hide PlainItems, PlainPairs, StripAll, StripPairs, RegisteredAll, RegisteredPairs;
    var (a, q, l, p) := (Scalar(name, "<<", true), Pair(Alias(name), Mapping("", [])), Leaf("<<", true), TreePair(Ref(Leaf("<<", true)), Pairs([])));
    NoPairs(map[]);
    ListUnfolds(a, q, l, p);
    ListReads(l, p, Atom("<<"), map["<<" := Table(map[])]);
    ListStripped(l, p);
    ListReads(l, StripPair(p), Atom("<<"), map[]);
  }

  /** And here it is what a merge key stands for: as an alias of a list, it cannot be read. */
  lemma MergeByAlias(name: string)
    requires name != ""
    ensures var (doc, t) := (ListOf(Sequence(name, []), Pair(Scalar("", "<<", true), Alias(name))), ItemsOf(Items([]), TreePair(Leaf("<<", true), Ref(Items([])))));
      && Unfolds(Registered(doc, map[]), doc, t)
      && Plain(t, map[]) == Err(WantMap)
      && Plain(Strip(t), map[]) == Ok(List([List([]), Table(map[])]))
  {
    hide PlainItems, PlainPairs, StripPairs, RegisteredPairs;
    var (a, q, l, p) := (Sequence(name, []), Pair(Scalar("", "<<", true), Alias(name)), Items([]), TreePair(Leaf("<<", true), Ref(Items([]))));
    NoItems();
    ListUnfolds(a, q, l, p);
    ListFails(l, p, List([]), WantMap);
    ListStripped(l, p);
    ListReads(l, StripPair(p), List([]), map[]);
  }

  lemma NoPairs(out: Dict)
    ensures PlainPairs([], out) == Ok(out) && StripPairs([]) == []
    ensures forall m :: RegisteredPairs([], m) == m
  {
  }

  lemma NoItems()
    ensures PlainItems([]) == Ok([]) && StripAll([]) == []
  {
  }

  lemma ListUnfolds(a: Node, q: Pair, l: Tree, p: TreePair)
    requires var anchors := Registered(q.val, Registered(q.key, Registered(a, map[]))); Unfolds(anchors, a, l) && UnfoldsPair(anchors, q, p)
    ensures Unfolds(Registered(ListOf(a, q), map[]), ListOf(a, q), ItemsOf(l, p))
  {
    var (all, qs, m) := ([a, Mapping("", [q])], [q], Registered(a, map[]));
    assert all[..1] == [a] && [a][..0] == [] && qs[..0] == [];
    assert RegisteredAll([a], map[]) == Registered(a, RegisteredAll([a][..0], map[]));
    assert RegisteredAll(all, map[]) == Registered(all[1], RegisteredAll(all[..1], map[]));
    assert RegisteredPairs(qs, m) == Registered(q.val, Registered(q.key, RegisteredPairs(qs[..0], m)));
  }

  lemma OnePair(p: TreePair)
    ensures PlainPairs([p], map[]) == PlainPair(p, map[]) && StripPairs([p]) == [StripPair(p)]
  {
    assert [p][..0] == [];
    assert PlainPairs([p][..0], map[]) == Ok(map[]);
  }

  lemma ItemsSnoc(ts: seq<Tree>, t: Tree)
    requires PlainItems(ts).Ok?
    ensures PlainItems(ts + [t]) == match Plain(t, map[]) case Err(e) => Err(e) case Ok(v) => Ok(PlainItems(ts).value + [v])
  {
    var all := ts + [t];
    assert all[..|all| - 1] == ts && all[|all| - 1] == t;
  }

  lemma ListReads(a: Tree, p: TreePair, v: Value, m: Dict)
    requires Plain(a, map[]) == Ok(v) && PlainPair(p, map[]) == Ok(m)
    ensures Plain(ItemsOf(a, p), map[]) == Ok(List([v, Table(m)]))
  {
    OnePair(p);
    ItemsSnoc([], a);
    ItemsSnoc([a], Pairs([p]));
    assert [] + [a] == [a] && [a] + [Pairs([p])] == [a, Pairs([p])];
    assert [] + [v] == [v] && [v] + [Table(m)] == [v, Table(m)];
  }

  lemma ListFails(a: Tree, p: TreePair, v: Value, e: Error)
    requires Plain(a, map[]) == Ok(v) && PlainPair(p, map[]) == Err(e)
    ensures Plain(ItemsOf(a, p), map[]) == Err(e)
  {
    OnePair(p);
    ItemsSnoc([], a);
    ItemsSnoc([a], Pairs([p]));
    assert [] + [a] == [a] && [a] + [Pairs([p])] == [a, Pairs([p])];
  }

  lemma ListStripped(a: Tree, p: TreePair)
    requires Strip(a) == a
    ensures Strip(ItemsOf(a, p)) == ItemsOf(a, StripPair(p))
  {
    OnePair(p);
    var all := [a, Pairs([p])];
    assert all[..1] == [a] && [a][..0] == [] && all[1] == Pairs([p]);
    assert StripAll([a]) == StripAll([a][..0]) + [Strip(a)];
    assert StripAll(all) == StripAll(all[..1]) + [Strip(all[1])];
  }
}
