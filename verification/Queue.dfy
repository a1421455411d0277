/** The emitter's queue: some events wait until it is known what follows them. */
module Queue {
  import opened Wrappers
  import opened Machine

  function Level(e: Event): int
  {
    match e
    case StreamStart => 1
    case DocumentStart => 1
    case SequenceStart(_, _) => 1
    case MappingStart(_, _) => 1
    case StreamEnd => -1
    case DocumentEnd => -1
    case SequenceEnd => -1
    case MappingEnd => -1
    case _ => 0
  }

  function LevelSum(s: seq<Event>): int
  {
    if s == [] then 0 else LevelSum(s[..|s| - 1]) + Level(s[|s| - 1])
  }

  /** How many events to wait for after a start event. */
  function Accumulate(e: Event): nat
  {
    match e
    case DocumentStart => 1
    case SequenceStart(_, _) => 2
    case MappingStart(_, _) => 3
    case _ => 0
  }

  /** What starts with the first event has not ended yet. */
  predicate StillOpen(q: seq<Event>)
  {
    forall i :: 1 <= i <= |q| ==> LevelSum(q[..i]) != 0
  }

  predicate NeedMore(q: seq<Event>)
  {
    q == [] || (Accumulate(q[0]) > 0 && |q| <= Accumulate(q[0]) && StillOpen(q))
  }

  lemma SliceOfRest<T>(q: seq<T>, n: nat)
    requires n < |q|
    ensures q[1..][|q| - 1 - n..] == q[|q| - n..]
  {
  }

  /** What is left to wait when all that can be emitted has been. */
  function Drained(q: seq<Event>): (r: seq<Event>)
    ensures NeedMore(r) && |r| <= |q| && r == q[|q| - |r|..]
  {
    if NeedMore(q) then q
    else
      var r := Drained(q[1..]);
      SliceOfRest(q, |r|);
      r
  }

  /** The queue after more events, one at a time. */
  function Feed(q: seq<Event>, evs: seq<Event>): seq<Event>
    decreases |evs|
  {
    if evs == [] then q else Feed(Drained(q + [evs[0]]), evs[1..])
  }

  lemma {:induction false} ScalarsKeepLevel(e: Event, rest: seq<Event>)
    requires forall x <- rest :: x.Alias? || x.Scalar?
    ensures LevelSum([e] + rest) == Level(e)
  {
    if rest == [] {
      BalancedOne(e);
      assert [e] + rest == [e];
    } else {
      assert ([e] + rest)[..|rest|] == [e] + rest[..|rest| - 1];
      assert rest[|rest| - 1] in rest && ([e] + rest)[|rest|] == rest[|rest| - 1];
      ScalarsKeepLevel(e, rest[..|rest| - 1]);
    }
  }

  /** Before scalars, a document start waits for one of them, a sequence start for two, a mapping start for
      three; nothing else waits. */
  lemma ScalarsAwaited(e: Event, rest: seq<Event>)
    requires forall x <- rest :: x.Alias? || x.Scalar?
    ensures NeedMore([e] + rest) <==> |rest| < if e.DocumentStart? then 1 else if e.SequenceStart? then 2 else if e.MappingStart? then 3 else 0
  {
    var q := [e] + rest;
    forall i | 1 <= i <= |q|
      ensures LevelSum(q[..i]) == Level(e)
    {
      assert q[..i] == [e] + rest[..i - 1];
      ScalarsKeepLevel(e, rest[..i - 1]);
    }
  }

  // ---------------------------------------------------------------- streams are drained

  lemma {:induction false} LevelAppend(a: seq<Event>, b: seq<Event>)
    ensures LevelSum(a + b) == LevelSum(a) + LevelSum(b)
  {
    if b == [] {
      assert a + b == a;
    } else {
      assert (a + b)[..|a + b| - 1] == a + b[..|b| - 1];
      LevelAppend(a, b[..|b| - 1]);
    }
  }

  /** The levels of `s` add up to `total`, and never go below zero before its end. */
  predicate Balanced(s: seq<Event>, total: int)
  {
    LevelSum(s) == total && forall k :: 0 <= k < |s| ==> LevelSum(s[..k]) >= 0
  }

  lemma BalancedAppend(a: seq<Event>, b: seq<Event>, total: int)
    requires Balanced(a, 0) && Balanced(b, total)
    ensures Balanced(a + b, total)
  {
    LevelAppend(a, b);
    forall k | 0 <= k < |a + b|
      ensures LevelSum((a + b)[..k]) >= 0
    {
      if k < |a| {
        assert (a + b)[..k] == a[..k];
      } else {
        assert (a + b)[..k] == a + b[..k - |a|];
        LevelAppend(a, b[..k - |a|]);
      }
    }
  }

  lemma BalancedOne(e: Event)
    ensures LevelSum([e]) == Level(e) && Balanced([e], Level(e))
  {
    assert [e][..0] == [];
  }

  lemma BalancedStart(e: Event, b: seq<Event>, total: int)
    requires Level(e) == 1 && Balanced(b, total)
    ensures Balanced([e] + b, total + 1)
  {
    BalancedOne(e);
    LevelAppend([e], b);
    forall k | 0 <= k < |b| + 1
      ensures LevelSum(([e] + b)[..k]) >= 0
    {
      if k > 0 {
        assert ([e] + b)[..k] == [e] + b[..k - 1];
        LevelAppend([e], b[..k - 1]);
      }
    }
  }

  lemma {:induction false} NodeBalanced(n: Node)
    ensures Balanced(NodeEvents(n), 0)
    decreases n
  {
    match n
    case AliasNode(size) => BalancedOne(Alias(size));
    case ScalarNode(size, multiline) => BalancedOne(Scalar(size, multiline));
    case SequenceNode(flow, size, items) =>
      ItemsBalanced(items);
      BalancedStart(SequenceStart(flow, size), ItemEvents(items), -1);
    case MappingNode(flow, size, pairs) =>
      PairsBalanced(pairs);
      BalancedStart(MappingStart(flow, size), PairEvents(pairs), -1);
  }

  lemma {:induction false} ItemsBalanced(ns: Nodes)
    ensures Balanced(ItemEvents(ns), -1)
    decreases ns
  {
    match ns
    case Nil => BalancedOne(SequenceEnd);
    case Cons(n, rest) =>
      NodeBalanced(n);
      ItemsBalanced(rest);
      BalancedAppend(NodeEvents(n), ItemEvents(rest), -1);
  }

  lemma {:induction false} PairsBalanced(ps: Pairs)
    ensures Balanced(PairEvents(ps), -1)
    decreases ps
  {
    match ps
    case PNil => BalancedOne(MappingEnd);
    case PCons(k, v, rest) =>
      NodeBalanced(k);
      NodeBalanced(v);
      PairsBalanced(rest);
      BalancedAppend(NodeEvents(v), PairEvents(rest), -1);
      BalancedAppend(NodeEvents(k), NodeEvents(v) + PairEvents(rest), -1);
  }

  lemma {:induction false} DocumentsBalanced(ds: Nodes)
    ensures Balanced(DocumentEvents(ds), -1)
    decreases ds
  {
    match ds
    case Nil => BalancedOne(StreamEnd);
    case Cons(d, rest) =>
      NodeBalanced(d);
      DocumentsBalanced(rest);
      DocumentBalanced(NodeEvents(d), DocumentEvents(rest));
  }

  lemma DocumentBalanced(n: seq<Event>, rest: seq<Event>)
    requires Balanced(n, 0) && Balanced(rest, -1)
    ensures Balanced([DocumentStart] + (n + ([DocumentEnd] + rest)), -1)
  {
    BalancedOne(DocumentEnd);
    BalancedAppend(n, [DocumentEnd], -1);
    BalancedStart(DocumentStart, n + [DocumentEnd], -1);
    BalancedAppend([DocumentStart] + (n + [DocumentEnd]), rest, -1);
    assert [DocumentStart] + (n + [DocumentEnd]) + rest == [DocumentStart] + (n + ([DocumentEnd] + rest));
  }

  /** Levels change one by one: from above zero to below, they come through zero. */
  lemma {:induction false} ThroughZero(s: seq<Event>, j: nat)
    requires 1 <= j <= |s| && LevelSum(s[..1]) > 0 && LevelSum(s[..j]) < 0
    ensures !StillOpen(s)
    decreases j
  {
    assert s[..j][..j - 1] == s[..j - 1];
    if LevelSum(s[..j - 1]) < 0 {
      ThroughZero(s, j - 1);
    }
  }

  /** Nothing that a stream ends with has to wait. */
  lemma StreamReady(evs: seq<Event>, ds: Nodes, p: nat)
    requires IsStream(evs, ds) && p < |evs|
    ensures !NeedMore(evs[p..])
  {
    var s := evs[p..];
    if Accumulate(s[0]) > 0 {
      DocumentsBalanced(ds);
      BalancedStart(StreamStart, DocumentEvents(ds), -1);
      assert evs[..p] == [StreamStart] + DocumentEvents(ds)[..p - 1];
      LevelAppend([StreamStart], DocumentEvents(ds)[..p - 1]);
      BalancedOne(StreamStart);
      assert evs == evs[..p] + s;
      LevelAppend(evs[..p], s);
      assert s[..|s|] == s && s[..1] == [s[0]];
      BalancedOne(s[0]);
      ThroughZero(s, |s|);
    }
  }

  lemma {:induction false} SuffixDrains(evs: seq<Event>, ds: Nodes, p: nat)
    requires IsStream(evs, ds) && p <= |evs|
    ensures Drained(evs[p..]) == []
    decreases |evs| - p
  {
    if p < |evs| {
      StreamReady(evs, ds, p);
      assert evs[p..][1..] == evs[p + 1..];
      SuffixDrains(evs, ds, p + 1);
    }
  }

  /** When the last event of a stream has come in, nothing is left waiting. */
  lemma {:induction false} StreamDrains(evs: seq<Event>, ds: Nodes, p: nat, q: seq<Event>)
    requires IsStream(evs, ds) && p < |evs| && |q| <= p && q == evs[p - |q|..p]
    ensures Feed(q, evs[p..]) == []
    decreases |evs| - p
  {
    hide Drained, IsStream;
    var q1 := q + [evs[p]];
    assert q1 == evs[p - |q|..p + 1];
    FeedOne(q, evs[p..]);
    assert evs[p..][1..] == evs[p + 1..] && evs[p..][0] == evs[p];
    var r := Drained(q1);
    if p + 1 == |evs| {
      assert q1 == evs[p - |q|..];
      SuffixDrains(evs, ds, p - |q|);
      assert evs[p + 1..] == [];
    } else {
      TailSlice(evs, p - |q|, p + 1, |q1| - |r|);
      StreamDrains(evs, ds, p + 1, r);
    }
  }

  lemma FeedOne(q: seq<Event>, evs: seq<Event>)
    requires evs != []
    ensures Feed(q, evs) == Feed(Drained(q + [evs[0]]), evs[1..])
    ensures forall r :: Feed(r, []) == r
  {
  }

  lemma TailSlice<T>(s: seq<T>, i: nat, j: nat, k: nat)
    requires i + k <= j <= |s|
    ensures s[i..j][k..] == s[i + k..j]
  {
  }

  /** A collection start is emitted only when the event after it is there. */
  lemma StartHasNext(q: seq<Event>)
    requires !NeedMore(q) && (q[0].SequenceStart? || q[0].MappingStart?)
    ensures |q| >= 2
  {
    if |q| == 1 {
      assert q == [q[0]] == q[..1];
      BalancedOne(q[0]);
    }
  }
}
