/** Whole documents: which node an alias means, and when a document can be read. */
module Documents {
  import opened Wrappers
  import opened Aliases
  import opened Meaning

  // ---------------------------------------------------------------- anchors

  function Put(m: Anchors, anchor: string, n: Node): Anchors
  {
    if anchor == "" then m else m[anchor := n]
  }

  /** The anchors of a document: each is registered before what is below its node, and a later one
      takes the place of an earlier one of the same name. */
  function Registered(n: Node, m: Anchors): Anchors
    decreases n
  {
    match n
    case Scalar(anchor, _, _) => Put(m, anchor, n)
    case Alias(_) => m
    case Sequence(anchor, children) => RegisteredAll(children, Put(m, anchor, n))
    case Mapping(anchor, pairs) => RegisteredPairs(pairs, Put(m, anchor, n))
  }

  function RegisteredAll(ns: seq<Node>, m: Anchors): Anchors
    decreases ns
  {
    if ns == [] then m else Registered(ns[|ns| - 1], RegisteredAll(ns[..|ns| - 1], m))
  }

  function RegisteredPairs(ps: seq<Pair>, m: Anchors): Anchors
    decreases ps
  {
    if ps == [] then m
    else
      var p := ps[|ps| - 1];
      assert p.key < p && p.val < p;
      Registered(p.val, Registered(p.key, RegisteredPairs(ps[..|ps| - 1], m)))
  }

  function AnchorOf(n: Node): string
  {
    if n.Alias? then "" else n.anchor
  }

  predicate TrueAnchors(m: Anchors)
  {
    forall name <- m :: !m[name].Alias? && AnchorOf(m[name]) == name
  }

  /** An anchor stands for a node that bears it, never for an alias. */
  lemma {:induction false} RegisteredTrue(n: Node, m: Anchors)
    requires TrueAnchors(m)
    ensures TrueAnchors(Registered(n, m))
    decreases n
  {
    match n
    case Scalar(_, _, _) =>
    case Alias(_) =>
    case Sequence(anchor, children) => RegisteredAllTrue(children, Put(m, anchor, n));
    case Mapping(anchor, pairs) => RegisteredPairsTrue(pairs, Put(m, anchor, n));
  }

  lemma {:induction false} RegisteredAllTrue(ns: seq<Node>, m: Anchors)
    requires TrueAnchors(m)
    ensures TrueAnchors(RegisteredAll(ns, m))
    decreases ns
  {
    if ns == [] {
    } else {
      RegisteredAllTrue(ns[..|ns| - 1], m);
      RegisteredTrue(ns[|ns| - 1], RegisteredAll(ns[..|ns| - 1], m));
    }
  }

  lemma {:induction false} RegisteredPairsTrue(ps: seq<Pair>, m: Anchors)
    requires TrueAnchors(m)
    ensures TrueAnchors(RegisteredPairs(ps, m))
    decreases ps
  {
    if ps == [] {
    } else {
      var p := ps[|ps| - 1];
      assert p.key < p && p.val < p;
      RegisteredPairsTrue(ps[..|ps| - 1], m);
      RegisteredTrue(p.key, RegisteredPairs(ps[..|ps| - 1], m));
      RegisteredTrue(p.val, Registered(p.key, RegisteredPairs(ps[..|ps| - 1], m)));
    }
  }

  /** The nodes of a document in the order of their beginnings. */
  function InOrder(n: Node): seq<Node>
    decreases n
  {
    match n
    case Scalar(_, _, _) => [n]
    case Alias(_) => [n]
    case Sequence(_, children) => [n] + AllInOrder(children)
    case Mapping(_, pairs) => [n] + PairsInOrder(pairs)
  }

  function AllInOrder(ns: seq<Node>): seq<Node>
    decreases ns
  {
    if ns == [] then [] else AllInOrder(ns[..|ns| - 1]) + InOrder(ns[|ns| - 1])
  }

  function PairsInOrder(ps: seq<Pair>): seq<Node>
    decreases ps
  {
    if ps == [] then []
    else
      var p := ps[|ps| - 1];
      assert p.key < p && p.val < p;
      PairsInOrder(ps[..|ps| - 1]) + (InOrder(p.key) + InOrder(p.val))
  }

  /** The last of some nodes that bears an anchor; else what `m` says. */
  function LastWith(ns: seq<Node>, name: string, m: Anchors): Option<Node>
  {
    if ns == [] then (if name in m then Some(m[name]) else None)
    else if AnchorOf(ns[|ns| - 1]) == name then Some(ns[|ns| - 1])
    else LastWith(ns[..|ns| - 1], name, m)
  }

  /** What is registered of a name. */
  function Meant(m: Anchors, name: string): Option<Node>
  {
    LastWith([], name, m)
  }

  lemma {:induction false} LastAppend(a: seq<Node>, b: seq<Node>, name: string, m: Anchors, m': Anchors)
    requires LastWith(a, name, m) == Meant(m', name)
    ensures LastWith(a + b, name, m) == LastWith(b, name, m')
  {
    if b == [] {
      assert a + b == a;
    } else {
      assert (a + b)[..|a + b| - 1] == a + b[..|b| - 1];
      LastAppend(a, b[..|b| - 1], name, m, m');
    }
  }

  lemma PutIsLast(m: Anchors, n: Node, name: string)
    requires name != ""
    ensures LastWith([n], name, m) == Meant(if n.Alias? then m else Put(m, n.anchor, n), name)
  {
    assert [n][..0] == [];
    assert LastWith([n][..0], name, m) == Meant(m, name);
  }

  /** An alias means the last node of the document that bears the anchor. */
  lemma {:induction false} LastIsRegistered(n: Node, m: Anchors, name: string)
    requires name != ""
    ensures Meant(Registered(n, m), name) == LastWith(InOrder(n), name, m)
    decreases n
  {
    hide Meant, LastWith, Put;
    PutIsLast(m, n, name);
    match n
    case Scalar(_, _, _) =>
    case Alias(_) =>
    case Sequence(anchor, children) =>
      LastOfAll(children, Put(m, anchor, n), name);
      LastAppend([n], AllInOrder(children), name, m, Put(m, anchor, n));
    case Mapping(anchor, pairs) =>
      LastOfPairs(pairs, Put(m, anchor, n), name);
      LastAppend([n], PairsInOrder(pairs), name, m, Put(m, anchor, n));
  }

  lemma {:induction false} LastOfAll(ns: seq<Node>, m: Anchors, name: string)
    requires name != ""
    ensures Meant(RegisteredAll(ns, m), name) == LastWith(AllInOrder(ns), name, m)
    decreases ns
  {
    if ns == [] {
    } else {
      var (init, n) := (ns[..|ns| - 1], ns[|ns| - 1]);
      LastOfAll(init, m, name);
      LastIsRegistered(n, RegisteredAll(init, m), name);
      LastAppend(AllInOrder(init), InOrder(n), name, m, RegisteredAll(init, m));
    }
  }

  lemma {:induction false} LastOfPairs(ps: seq<Pair>, m: Anchors, name: string)
    requires name != ""
    ensures Meant(RegisteredPairs(ps, m), name) == LastWith(PairsInOrder(ps), name, m)
    decreases ps
  {
    hide Meant, LastWith, Registered;
    if ps == [] {
      assert Meant(m, name) == LastWith([], name, m) by {
        MeantIs(m, name);
      }
    } else {
      var (init, p) := (ps[..|ps| - 1], ps[|ps| - 1]);
      assert p.key < p && p.val < p;
      LastOfPairs(init, m, name);
      var m1 := RegisteredPairs(init, m);
      LastIsRegistered(p.key, m1, name);
      var m2 := Registered(p.key, m1);
      LastIsRegistered(p.val, m2, name);
      LastAppend(InOrder(p.key), InOrder(p.val), name, m1, m2);
      LastAppend(PairsInOrder(init), InOrder(p.key) + InOrder(p.val), name, m, m1);
    }
  }

  lemma MeantIs(m: Anchors, name: string)
    ensures Meant(m, name) == LastWith([], name, m)
  {
  }

  // ---------------------------------------------------------------- reading a document

  /** Reads a document. It always ends, and it ends well exactly if the document unfolds to a finite
      tree with a value; the result is what the tree means. An error about aliases is never reported of a document that unfolds. */
  method Decode(doc: Node) returns (r: Result<Value>)
    ensures var anchors := Registered(doc, map[]);
      && (forall t :: Unfolds(anchors, doc, t) ==> r == Plain(t, map[]))
      && (r.Ok? ==> DocumentMeans(anchors, doc, r.value))
      && (r.Err? ==> Explained(anchors, doc, r.error))
  {
    var anchors := Registered(doc, map[]);
    var d := new Decoder(anchors, doc);
    ghost var tree: Option<Tree> := None;
    if Finite(anchors, doc) {
      ghost var t :| Unfolds(anchors, doc, t);
      tree := Some(t);
    }
    assert Names([]) == {};
    ghost var u;
    r, u := d.Unmarshal(doc, map[], [], tree);
    if r.Ok? {
      HasUnfolding(anchors, doc, u);
      ReadsAsMeant(u, r.value);
      assert DocumentMeans(anchors, doc, r.value);
    }
    forall t | Unfolds(anchors, doc, t)
      ensures r == Plain(t, map[])
    {
      HasUnfolding(anchors, doc, t);
      UnfoldsOnce(anchors, doc, t, tree.value);
    }
  }

  /** The node unfolds to a finite tree that means `v`. */
  ghost predicate DocumentMeans(anchors: Anchors, n: Node, v: Value)
  {
    exists t :: Unfolds(anchors, n, t) && Means(t, v)
  }

  /** The node unfolds to a finite tree. */
  ghost predicate Finite(anchors: Anchors, n: Node)
  {
    exists t :: Unfolds(anchors, n, t)
  }

  lemma HasUnfolding(anchors: Anchors, n: Node, t: Tree)
    requires Unfolds(anchors, n, t)
    ensures Finite(anchors, n)
  {
  }

  /** A document unfolds exactly if all its aliases, however they are come to, have anchors, and none
      is within itself. */
  lemma UnfoldsIff(anchors: Anchors, doc: Node)
    ensures Finite(anchors, doc) <==> Sound(anchors, doc)
  {
    if Finite(anchors, doc) {
      var t :| Unfolds(anchors, doc, t);
      UnfoldedIsSound(anchors, doc, t);
    } else if Sound(anchors, doc) {
      var t := Unfold(anchors, doc, [], doc);
      HasUnfolding(anchors, doc, t);
    }
  }

  /** No alias without an anchor, and none within itself, can be come to from the document. */
  ghost predicate Sound(anchors: Anchors, doc: Node)
  {
    (forall name :: Reaches(anchors, doc, name) ==> name in anchors) && (forall name :: !Loops(anchors, doc, name))
  }

  lemma UnfoldedIsSound(anchors: Anchors, doc: Node, t: Tree)
    requires Unfolds(anchors, doc, t)
    ensures Sound(anchors, doc)
  {
    forall name
      ensures !Loops(anchors, doc, name) && (Reaches(anchors, doc, name) ==> name in anchors)
    {
      UnfoldedHasNoLoop(anchors, doc, t, name);
      if Reaches(anchors, doc, name) {
        var chain :| IsChain(anchors, doc, chain) && name in Scope(anchors, doc, chain);
        var u := ChainUnfolds(anchors, doc, t, chain, name);
      }
    }
  }

  lemma {:induction false} Unfold(anchors: Anchors, doc: Node, chain: seq<string>, n: Node) returns (t: Tree)
    requires forall name :: Reaches(anchors, doc, name) ==> name in anchors
    requires forall name :: !Loops(anchors, doc, name)
    requires At(anchors, doc, chain, n)
    ensures Unfolds(anchors, n, t)
    decreases anchors.Keys - Names(chain), n
  {
    hide IsChain;
    match n {
      case Scalar(_, value, merge) =>
        t := Leaf(value, merge);
      case Alias(name) =>
        assert name in Scope(anchors, doc, chain);
        assert Reaches(anchors, doc, name) && !Loops(anchors, doc, name);
        ChainSnoc(anchors, doc, chain, name);
        assert Names(chain + [name]) == Names(chain) + {name};
        var u := Unfold(anchors, doc, chain + [name], anchors[name]);
        t := Ref(u);
      case Sequence(_, children) =>
        var ts := [];
        for i := 0 to |children|
          invariant |ts| == i && forall j :: 0 <= j < i ==> Unfolds(anchors, children[j], ts[j])
        {
          var u := Unfold(anchors, doc, chain, children[i]);
          ts := ts + [u];
        }
        t := Items(ts);
      case Mapping(_, pairs) =>
        var ps := [];
        for i := 0 to |pairs|
          invariant |ps| == i && forall j :: 0 <= j < i ==> UnfoldsPair(anchors, pairs[j], ps[j])
        {
          ExpectPair(anchors, doc, chain, n, None, i);
          assert pairs[i] < n && pairs[i].key < pairs[i] && pairs[i].val < pairs[i];
          var k := Unfold(anchors, doc, chain, pairs[i].key);
          var v := Unfold(anchors, doc, chain, pairs[i].val);
          ps := ps + [TreePair(k, v)];
        }
        t := Pairs(ps);
    }
  }
}
