/** What an unfolded document means, said without the order in which it is read: which key of a mapping
    has which value. */
module Meaning {
  import opened Wrappers
  import opened Aliases

  /** The text of a key. */
  function KeyText(t: Tree): Option<string>
  {
    match t
    case Leaf(value, _) => Some(value)
    case Ref(u) => KeyText(u)
    case _ => None
  }

  // ---------------------------------------------------------------- which keys are given

  predicate Has(p: TreePair, k: string)
    decreases p, 0
  {
    if p.key.Leaf? && p.key.merge then MergeHas(p.val, k) else KeyText(p.key) == Some(k)
  }

  predicate PairsHave(ps: seq<TreePair>, k: string)
    decreases ps, 1
  {
    exists i :: 0 <= i < |ps| && Has(ps[i], k)
  }

  predicate MergeHas(t: Tree, k: string)
    decreases t, 1
  {
    match t
    case Items(ts) => MergesHave(ts, k)
    case _ => MergeOneHas(t, k)
  }

  predicate MergesHave(ts: seq<Tree>, k: string)
    decreases ts, 1
  {
    exists i :: 0 <= i < |ts| && MergeOneHas(ts[i], k)
  }

  predicate MergeOneHas(t: Tree, k: string)
    decreases t, 0
  {
    match t
    case Pairs(ps) => PairsHave(ps, k)
    case Ref(u) => u.Pairs? && PairsHave(u.pairs, k)
    case _ => false
  }

  // ---------------------------------------------------------------- which values they have

  predicate Entry(m: Dict, k: string, v: Value)
  {
    k in m && m[k] == v
  }

  /** A sequence means the list of what its items mean, a mapping the table of the entries that its pairs give. */
  ghost predicate Means(t: Tree, v: Value)
    decreases t, 0
  {
    match t
    case Leaf(value, _) => v == Atom(value)
    case Ref(u) => Means(u, v)
    case Items(ts) => v.List? && |v.items| == |ts| && forall i :: 0 <= i < |ts| ==> Means(ts[i], v.items[i])
    case Pairs(ps) => v.Table? && forall k, w :: Entry(v.entries, k, w) <==> PairsGive(ps, k, w)
  }

  /** The last pair with a key gives its value. */
  ghost predicate PairsGive(ps: seq<TreePair>, k: string, v: Value)
    decreases ps, 1
  {
    exists i :: 0 <= i < |ps| && Gives(ps[i], k, v) && forall j :: i < j < |ps| ==> !Has(ps[j], k)
  }

  ghost predicate Gives(p: TreePair, k: string, v: Value)
    decreases p, 0
  {
    Has(p, k) && if p.key.Leaf? && p.key.merge then MergeGives(p.val, k, v) else Means(p.val, v)
  }

  ghost predicate MergeGives(t: Tree, k: string, v: Value)
    decreases t, 1
  {
    match t
    case Items(ts) => MergesGive(ts, k, v)
    case _ => MergeOneGives(t, k, v)
  }

  /** Of several merged mappings, the first with a key gives its value. */
  ghost predicate MergesGive(ts: seq<Tree>, k: string, v: Value)
    decreases ts, 1
  {
    exists i :: 0 <= i < |ts| && MergeOneGives(ts[i], k, v) && forall j :: 0 <= j < i ==> !MergeOneHas(ts[j], k)
  }

  ghost predicate MergeOneGives(t: Tree, k: string, v: Value)
    decreases t, 0
  {
    match t
    case Pairs(ps) => PairsGive(ps, k, v)
    case Ref(u) => u.Pairs? && PairsGive(u.pairs, k, v)
    case _ => false
  }

  // ---------------------------------------------------------------- what is read is what is meant

  lemma GivesHave(ps: seq<TreePair>, k: string, v: Value)
    ensures PairsGive(ps, k, v) ==> PairsHave(ps, k)
  {
    if i :| 0 <= i < |ps| && Gives(ps[i], k, v) {
      assert Has(ps[i], k);
    }
  }

  lemma MergeGivesHas(t: Tree, k: string, v: Value)
    ensures MergeOneGives(t, k, v) ==> MergeOneHas(t, k)
  {
    if t.Pairs? {
      GivesHave(t.pairs, k, v);
    } else if t.Ref? && t.target.Pairs? {
      GivesHave(t.target.pairs, k, v);
    }
  }

  lemma PairsSnoc(ps: seq<TreePair>, k: string, v: Value)
    requires ps != []
    ensures var (init, p) := (ps[..|ps| - 1], ps[|ps| - 1]);
      && (PairsHave(ps, k) <==> PairsHave(init, k) || Has(p, k))
      && (PairsGive(ps, k, v) <==> if Has(p, k) then Gives(p, k, v) else PairsGive(init, k, v))
  {
    hide Has, Gives, PairsGive;
    var n := |ps| - 1;
    var init, p := ps[..n], ps[n];
    assert forall i :: 0 <= i < n ==> init[i] == ps[i];
    if PairsHave(init, k) {
      var i :| 0 <= i < n && Has(init[i], k);
      assert Has(ps[i], k);
    }
    if PairsHave(ps, k) && !Has(p, k) {
      var i :| 0 <= i < |ps| && Has(ps[i], k);
      assert Has(init[i], k);
    }
    if Has(p, k) {
      LastGives(ps, k, v);
    } else {
      EarlierGives(ps, k, v);
    }
  }

  lemma LastGives(ps: seq<TreePair>, k: string, v: Value)
    requires ps != [] && Has(ps[|ps| - 1], k)
    ensures PairsGive(ps, k, v) <==> Gives(ps[|ps| - 1], k, v)
  {
    hide Has, Gives;
    var n := |ps| - 1;
    assert Has(ps[n], k);
  }

  lemma EarlierGives(ps: seq<TreePair>, k: string, v: Value)
    requires ps != [] && !Has(ps[|ps| - 1], k)
    ensures PairsGive(ps, k, v) <==> PairsGive(ps[..|ps| - 1], k, v)
  {
    hide Has, MergeGives, Means;
    var n := |ps| - 1;
    var init := ps[..n];
    assert forall i :: 0 <= i < n ==> init[i] == ps[i];
    if PairsGive(ps, k, v) {
      var i :| 0 <= i < |ps| && Gives(ps[i], k, v) && forall j :: i < j < |ps| ==> !Has(ps[j], k);
      assert Gives(init[i], k, v) && forall j :: i < j < n ==> !Has(init[j], k);
    }
    if PairsGive(init, k, v) {
      var i :| 0 <= i < n && Gives(init[i], k, v) && forall j :: i < j < n ==> !Has(init[j], k);
      assert Gives(ps[i], k, v) && forall j :: i < j < |ps| ==> !Has(ps[j], k);
    }
  }

  lemma MergesSnoc(ts: seq<Tree>, k: string, v: Value)
    requires ts != []
    ensures var (init, t) := (ts[..|ts| - 1], ts[|ts| - 1]);
      && (MergesHave(ts, k) <==> MergesHave(init, k) || MergeOneHas(t, k))
      && (MergesGive(ts, k, v) <==> if MergesHave(init, k) then MergesGive(init, k, v) else MergeOneGives(t, k, v))
  {
    hide MergeOneHas, MergeOneGives;
    var n := |ts| - 1;
    var init, t := ts[..n], ts[n];
    assert forall i :: 0 <= i < n ==> init[i] == ts[i];
    if MergesHave(init, k) {
      var i :| 0 <= i < n && MergeOneHas(init[i], k);
      assert MergeOneHas(ts[i], k);
    }
    if MergesHave(ts, k) && !MergeOneHas(t, k) {
      var i :| 0 <= i < |ts| && MergeOneHas(ts[i], k);
      assert MergeOneHas(init[i], k);
    }
    if MergesGive(ts, k, v) {
      var i :| 0 <= i < |ts| && MergeOneGives(ts[i], k, v) && forall j :: 0 <= j < i ==> !MergeOneHas(ts[j], k);
      MergeGivesHas(ts[i], k, v);
      if i < n {
        assert MergeOneGives(init[i], k, v) && MergeOneHas(init[i], k);
      } else {
        assert forall j :: 0 <= j < n ==> !MergeOneHas(init[j], k);
      }
    }
    if MergesGive(init, k, v) {
      var i :| 0 <= i < n && MergeOneGives(init[i], k, v) && forall j :: 0 <= j < i ==> !MergeOneHas(init[j], k);
      assert MergeOneGives(ts[i], k, v) && forall j :: 0 <= j < i ==> !MergeOneHas(ts[j], k);
    }
    if !MergesHave(init, k) && MergeOneGives(t, k, v) {
      assert MergeOneGives(ts[n], k, v) && forall j :: 0 <= j < n ==> !MergeOneHas(init[j], k);
    }
  }

  lemma {:induction false} KeyReads(t: Tree, s: string)
    requires Plain(t, map[]).Ok?
    ensures Plain(t, map[]) == Ok(Atom(s)) <==> KeyText(t) == Some(s)
    decreases t
  {
    match t
    case Leaf(_, _) =>
    case Ref(u) => KeyReads(u, s);
    case Items(_) =>
    case Pairs(_) =>
  }

  /** A tree that can be read is read as what it means. */
  lemma {:induction false} ReadsAsMeant(t: Tree, v: Value)
    requires Plain(t, map[]).Ok?
    ensures Plain(t, map[]) == Ok(v) <==> Means(t, v)
    decreases t, 0
  {
    match t
    case Leaf(_, _) =>
    case Ref(u) => ReadsAsMeant(u, v);
    case Items(ts) =>
      ItemsSize(ts);
      if v.List? && |v.items| == |ts| {
        forall i | 0 <= i < |ts|
          ensures PlainItems(ts).value[i] == v.items[i] <==> Means(ts[i], v.items[i])
        {
          ItemAt(ts, i);
          ReadsAsMeant(ts[i], v.items[i]);
        }
        if Means(t, v) {
          assert PlainItems(ts).value == v.items;
        }
      }
    case Pairs(ps) =>
      var m := PlainPairs(ps, map[]).value;
      forall k, w
        ensures Entry(m, k, w) <==> PairsGive(ps, k, w)
      {
        EntryOfPairs(ps, map[], k, w);
        GivesHave(ps, k, w);
      }
      if v.Table? && forall k, w :: Entry(v.entries, k, w) <==> PairsGive(ps, k, w) {
        SameEntries(m, v.entries);
      }
  }

  lemma SameEntries(m: Dict, d: Dict)
    requires forall k, w :: Entry(m, k, w) <==> Entry(d, k, w)
    ensures m == d
  {
    forall k
      ensures k in m <==> k in d
      ensures k in m ==> k in d && d[k] == m[k]
    {
      if k in m {
        assert Entry(m, k, m[k]) && Entry(d, k, m[k]);
      }
      if k in d {
        assert Entry(d, k, d[k]) && Entry(m, k, d[k]);
      }
    }
  }

  /** Pairs read into entries that are there already: theirs replace those. */
  lemma {:induction false} EntryOfPairs(ps: seq<TreePair>, out: Dict, k: string, w: Value)
    requires PlainPairs(ps, out).Ok?
    ensures Entry(PlainPairs(ps, out).value, k, w) <==> if PairsHave(ps, k) then PairsGive(ps, k, w) else Entry(out, k, w)
    decreases ps, 1
  {
    hide Entry, Has, Gives, PairsHave, PairsGive, PlainPair;
    if ps == [] {
      assert !PairsHave(ps, k) by {
        NoneHas(k);
      }
    } else {
      var n := |ps| - 1;
      PairsSnoc(ps, k, w);
      EntryOfPairs(ps[..n], out, k, w);
      EntryOfPair(ps[n], PlainPairs(ps[..n], out).value, k, w);
    }
  }

  lemma NoneHas(k: string)
    ensures !PairsHave([], k) && !MergesHave([], k)
  {
  }

  lemma {:induction false} EntryOfPair(p: TreePair, out: Dict, k: string, w: Value)
    requires PlainPair(p, out).Ok?
    ensures Entry(PlainPair(p, out).value, k, w) <==> if Has(p, k) then Gives(p, k, w) else Entry(out, k, w)
    decreases p, 0
  {
    hide PlainMerge, MergeHas, MergeGives, Means;
    assert p.key < p && p.val < p;
    if p.key.Leaf? && p.key.merge {
      EntryOfMerge(p.val, out, k, w);
    } else {
      KeyReads(p.key, k);
      ReadsAsMeant(p.val, w);
    }
  }

  lemma {:induction false} EntryOfMerge(t: Tree, out: Dict, k: string, w: Value)
    requires PlainMerge(t, out).Ok?
    ensures Entry(PlainMerge(t, out).value, k, w) <==> if MergeHas(t, k) then MergeGives(t, k, w) else Entry(out, k, w)
    decreases t, 1
  {
    if t.Items? {
      EntryOfMerges(t.children, out, k, w);
    } else {
      EntryOfMergeOne(t, out, k, w);
    }
  }

  lemma {:induction false} EntryOfMergeOne(t: Tree, out: Dict, k: string, w: Value)
    requires PlainMergeOne(t, out).Ok?
    ensures Entry(PlainMergeOne(t, out).value, k, w) <==> if MergeOneHas(t, k) then MergeOneGives(t, k, w) else Entry(out, k, w)
    decreases t, 0
  {
    match t
    case Pairs(ps) => EntryOfPairs(ps, out, k, w);
    case Ref(u) => EntryOfPairs(u.pairs, out, k, w);
    case _ => assert false;
  }

  lemma {:induction false} EntryOfMerges(ts: seq<Tree>, out: Dict, k: string, w: Value)
    requires PlainMerges(ts, out).Ok?
    ensures Entry(PlainMerges(ts, out).value, k, w) <==> if MergesHave(ts, k) then MergesGive(ts, k, w) else Entry(out, k, w)
    decreases ts, 1
  {
    hide Entry, MergeOneHas, MergeOneGives, MergesHave, MergesGive, PlainMergeOne;
    if ts == [] {
      assert !MergesHave(ts, k) by {
        NoneHas(k);
      }
    } else {
      var n := |ts| - 1;
      var m := PlainMergeOne(ts[n], out).value;
      MergesSnoc(ts, k, w);
      EntryOfMergeOne(ts[n], out, k, w);
      EntryOfMerges(ts[..n], m, k, w);
    }
  }

  /** A mapping of one key reads as that key with its value; of two pairs with a key the later one counts,
      of two merged mappings the earlier one. */
  lemma SmallMappings(a: string, b: string, c: string)
    ensures var (ab, ac, m) := (TextPair(a, b), TextPair(a, c), Leaf("<<", true));
      && Plain(Pairs([ab]), map[]) == Ok(Table(map[a := Atom(b)]))
      && Plain(Pairs([ab, ac]), map[]) == Ok(Table(map[a := Atom(c)]))
      && Plain(Pairs([TreePair(m, Items([Pairs([ab]), Pairs([ac])]))]), map[]) == Ok(Table(map[a := Atom(b)]))
      && Plain(Pairs([ac, TreePair(m, Pairs([ab]))]), map[]) == Ok(Table(map[a := Atom(b)]))
  {
    var (ab, ac, m) := (TextPair(a, b), TextPair(a, c), Leaf("<<", true));
    var (mb, mc) := (map[a := Atom(b)], map[a := Atom(c)]);
    assert mc[a := Atom(b)] == mb && mb[a := Atom(c)] == mc;
    ReadText(a, b, map[]);
    ReadText(a, c, map[]);
    ReadText(a, b, mc);
    TwoPairs(ab, ac, map[]);
    TwoMerged(Pairs([ab]), Pairs([ac]), map[]);
    SinglePair(TreePair(m, Items([Pairs([ab]), Pairs([ac])])), map[]);
    TwoPairs(ac, TreePair(m, Pairs([ab])), map[]);
    ReadText(a, c, mb);
  }

  function TextPair(key: string, val: string): TreePair
  {
    TreePair(Leaf(key, false), Leaf(val, false))
  }

  lemma ReadText(a: string, b: string, out: Dict)
    ensures PlainPair(TextPair(a, b), out) == Ok(out[a := Atom(b)])
    ensures PlainPairs([TextPair(a, b)], out) == Ok(out[a := Atom(b)])
  {
    SinglePair(TextPair(a, b), out);
  }

  lemma SinglePair(p: TreePair, out: Dict)
    ensures PlainPairs([p], out) == PlainPair(p, out)
  {
    assert [p][..0] == [];
    assert PlainPairs([p][..0], out) == Ok(out);
  }

  lemma TwoPairs(p: TreePair, q: TreePair, out: Dict)
    requires PlainPair(p, out).Ok?
    ensures PlainPairs([p, q], out) == PlainPair(q, PlainPair(p, out).value)
  {
    SinglePair(p, out);
    assert [p, q][..1] == [p];
  }

  lemma TwoMerged(t: Tree, u: Tree, out: Dict)
    requires PlainMergeOne(u, out).Ok? && PlainMergeOne(t, PlainMergeOne(u, out).value).Ok?
    ensures PlainMerges([t, u], out) == PlainMergeOne(t, PlainMergeOne(u, out).value)
  {
    assert [t, u][..1] == [t] && [t][..0] == [];
    assert PlainMerges([t][..0], PlainMergeOne(t, PlainMergeOne(u, out).value).value) == PlainMergeOne(t, PlainMergeOne(u, out).value);
  }

  // ---------------------------------------------------------------- lists

  /** The items of a list are read one by one. */
  lemma {:induction false} ItemAt(ts: seq<Tree>, i: nat)
    requires i < |ts| && PlainItems(ts).Ok?
    ensures Plain(ts[i], map[]).Ok? && i < |PlainItems(ts).value| && PlainItems(ts).value[i] == Plain(ts[i], map[]).value
  {
    var n := |ts| - 1;
    ItemsSize(ts[..n]);
    if i < n {
      ItemAt(ts[..n], i);
    }
  }

  lemma {:induction false} ItemsSize(ts: seq<Tree>)
    ensures PlainItems(ts).Ok? ==> |PlainItems(ts).value| == |ts|
  {
    if ts == [] {
    } else {
      ItemsSize(ts[..|ts| - 1]);
    }
  }
}
