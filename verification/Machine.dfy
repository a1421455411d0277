/** The emitter's state machine over events, and the language it accepts. What is printed, and what
    only steers the printing, enters as a choice that may fall either way. */
module Machine {
  import opened Wrappers

  datatype Event =
    | StreamStart | StreamEnd | DocumentStart | DocumentEnd
    | Alias(size: nat)
    | Scalar(size: nat, multiline: bool)
    | SequenceStart(flow: bool, size: nat) | SequenceEnd
    | MappingStart(flow: bool, size: nat) | MappingEnd

  datatype State =
    | AtStreamStart | AtFirstDocumentStart | AtDocumentStart | AtDocumentContent | AtDocumentEnd
    | FlowSequenceFirstItem | FlowSequenceItem
    | FlowMappingFirstKey | FlowMappingKey | FlowMappingSimpleValue | FlowMappingValue
    | BlockSequenceFirstItem | BlockSequenceItem
    | BlockMappingFirstKey | BlockMappingKey | BlockMappingSimpleValue | BlockMappingValue
    | AtEnd

  datatype Config = Config(state: State, states: seq<State>, indents: seq<int>, indent: int, flowLevel: int)

  /** Whether a collection is written in flow style, a key as a simple key, and a block sequence
      without indentation of its own. */
  datatype Choice = Choice(flow: bool, simple: bool, indentless: bool, bestIndent: int)

  function Push(m: Config, k: State): Config
  {
    m.(states := m.states + [k])
  }

  function Pop(m: Config): Config
    requires m.states != []
  {
    m.(state := m.states[|m.states| - 1], states := m.states[..|m.states| - 1])
  }

  /** The indentation of what is inside. */
  function Deeper(indent: int, flow: bool, indentless: bool, bestIndent: int): int
  {
    if indent < 0 then (if flow then bestIndent else 0) else if !indentless then indent + bestIndent else indent
  }

  function IncreaseIndent(m: Config, flow: bool, indentless: bool, bestIndent: int): Config
  {
    m.(indents := m.indents + [m.indent], indent := Deeper(m.indent, flow, indentless, bestIndent))
  }

  function PopIndent(m: Config): Config
    requires m.indents != []
  {
    m.(indent := m.indents[|m.indents| - 1], indents := m.indents[..|m.indents| - 1])
  }

  function EmitNode(m: Config, ev: Event, c: Choice): Option<Config>
    requires m.states != []
  {
    match ev
    case Alias(_) => Some(Pop(m))
    case Scalar(_, _) => Some(Pop(m))
    case SequenceStart(_, _) => Some(m.(state := if m.flowLevel > 0 || c.flow then FlowSequenceFirstItem else BlockSequenceFirstItem))
    case MappingStart(_, _) => Some(m.(state := if m.flowLevel > 0 || c.flow then FlowMappingFirstKey else BlockMappingFirstKey))
    case _ => None
  }

  predicate IsFlow(s: State)
  {
    s.FlowSequenceFirstItem? || s.FlowSequenceItem? || s.FlowMappingFirstKey? || s.FlowMappingKey? || s.FlowMappingSimpleValue? || s.FlowMappingValue?
  }

  predicate InSequence(s: State)
  {
    s.FlowSequenceFirstItem? || s.FlowSequenceItem? || s.BlockSequenceFirstItem? || s.BlockSequenceItem?
  }

  predicate AtKey(s: State)
  {
    s.FlowMappingFirstKey? || s.FlowMappingKey? || s.BlockMappingFirstKey? || s.BlockMappingKey?
  }

  /** Before the first item of a collection. */
  predicate Entering(s: State)
  {
    s.FlowSequenceFirstItem? || s.FlowMappingFirstKey? || s.BlockSequenceFirstItem? || s.BlockMappingFirstKey?
  }

  /** After that: the collection has its indentation. */
  predicate Inside(s: State)
  {
    || s.FlowSequenceItem? || s.FlowMappingKey? || s.FlowMappingSimpleValue? || s.FlowMappingValue?
    || s.BlockSequenceItem? || s.BlockMappingKey? || s.BlockMappingSimpleValue? || s.BlockMappingValue?
  }

  /** The first time round, a collection gets its indentation, and a flow collection its level. */
  function Enter(m: Config, c: Choice): Config
  {
    if !Entering(m.state) then m
    else if IsFlow(m.state) then IncreaseIndent(m, true, false, c.bestIndent).(flowLevel := m.flowLevel + 1)
    else IncreaseIndent(m, false, m.state.BlockSequenceFirstItem? && c.indentless, c.bestIndent)
  }

  /** The end of a collection. */
  function Leave(m: Config, flow: bool): Config
    requires m.states != [] && m.indents != []
  {
    Pop(PopIndent(m.(flowLevel := if flow then m.flowLevel - 1 else m.flowLevel)))
  }

  predicate Closes(s: State, ev: Event)
  {
    (InSequence(s) && ev == SequenceEnd) || (AtKey(s) && ev == MappingEnd)
  }

  /** Where a collection goes on after the node that is next. */
  function After(s: State, simple: bool): State
  {
    if InSequence(s) then (if IsFlow(s) then FlowSequenceItem else BlockSequenceItem)
    else if AtKey(s) then
      (if IsFlow(s) then (if simple then FlowMappingSimpleValue else FlowMappingValue)
       else if simple then BlockMappingSimpleValue else BlockMappingValue)
    else if IsFlow(s) then FlowMappingKey
    else BlockMappingKey
  }

  function Step(m: Config, ev: Event, c: Choice): Option<Config>
    requires Sound(m)
  {
    match m.state
    case AtStreamStart => if ev == StreamStart then Some(m.(state := AtFirstDocumentStart, indent := -1)) else None
    case AtFirstDocumentStart => StartDocument(m, ev)
    case AtDocumentStart => StartDocument(m, ev)
    case AtDocumentContent => EmitNode(Push(m, AtDocumentEnd), ev, c)
    case AtDocumentEnd => if ev == DocumentEnd then Some(m.(state := AtDocumentStart)) else None
    case AtEnd => None
    case _ => StepInside(m, ev, c)
  }

  function StepInside(m: Config, ev: Event, c: Choice): Option<Config>
    requires Sound(m) && (Entering(m.state) || Inside(m.state))
  {
    if Closes(m.state, ev) then Some(Leave(Enter(m, c), IsFlow(m.state))) else EmitNode(Push(Enter(m, c), After(m.state, c.simple)), ev, c)
  }

  function StartDocument(m: Config, ev: Event): Option<Config>
  {
    if ev == DocumentStart then Some(m.(state := AtDocumentContent))
    else if ev == StreamEnd then Some(m.(state := AtEnd))
    else None
  }

  // ---------------------------------------------------------------- the stacks never run empty

  /** Below the root node's end come only states within collections, each with its indentation. */
  predicate Sound(m: Config)
  {
    && (Entering(m.state) || Inside(m.state) <==> m.states != [])
    && (m.states != [] ==> m.states[0] == AtDocumentEnd)
    && (forall i :: 0 < i < |m.states| ==> Inside(m.states[i]))
    && |m.indents| == (if m.states == [] then 0 else |m.states| - 1) + (if Inside(m.state) then 1 else 0)
  }

  lemma NodeKeepsSound(m: Config, ev: Event, c: Choice)
    requires m.states != [] && m.states[0] == AtDocumentEnd && |m.indents| == |m.states| - 1
    requires forall i :: 0 < i < |m.states| ==> Inside(m.states[i])
    ensures EmitNode(m, ev, c).Some? ==> Sound(EmitNode(m, ev, c).value)
  {
  }

  lemma LeaveKeepsSound(m: Config, flow: bool)
    requires m.states != [] && m.states[0] == AtDocumentEnd && |m.indents| == |m.states|
    requires forall i :: 0 < i < |m.states| ==> Inside(m.states[i])
    ensures Sound(Leave(m, flow))
  {
  }

  lemma EnterFacts(m: Config, c: Choice)
    requires Sound(m) && (Entering(m.state) || Inside(m.state))
    ensures Enter(m, c).states == m.states && |Enter(m, c).indents| == |m.states| && Enter(m, c).state == m.state
    ensures Inside(After(m.state, c.simple))
  {
  }

  lemma StepKeepsSound(m: Config, ev: Event, c: Choice)
    requires Sound(m)
    ensures Step(m, ev, c).Some? ==> Sound(Step(m, ev, c).value)
  {
    hide Leave, EmitNode, Enter, After;
    if Entering(m.state) || Inside(m.state) {
      EnterFacts(m, c);
      LeaveKeepsSound(Enter(m, c), IsFlow(m.state));
      NodeKeepsSound(Push(Enter(m, c), After(m.state, c.simple)), ev, c);
    } else if m.state.AtDocumentContent? {
      NodeKeepsSound(Push(m, AtDocumentEnd), ev, c);
    }
  }

  // ---------------------------------------------------------------- runs

  function Run(m: Config, evs: seq<Event>, cs: seq<Choice>): (r: Option<Config>)
    requires Sound(m) && |cs| == |evs|
    ensures r.Some? ==> Sound(r.value)
    decreases |evs|
  {
    if evs == [] then Some(m)
    else
      var n := Step(m, evs[0], cs[0]);
      StepKeepsSound(m, evs[0], cs[0]);
      if n.None? then None else Run(n.value, evs[1..], cs[1..])
  }

  lemma {:induction false} RunAppend(m: Config, a: seq<Event>, b: seq<Event>, cs: seq<Choice>)
    requires Sound(m) && |cs| == |a + b|
    ensures Run(m, a + b, cs) == if Run(m, a, cs[..|a|]).None? then None else Run(Run(m, a, cs[..|a|]).value, b, cs[|a|..])
    decreases |a|
  {
    if a == [] {
      assert a + b == b && cs[0..] == cs;
    } else {
      assert (a + b)[1..] == a[1..] + b;
      assert cs[..|a|][1..] == cs[1..][..|a| - 1] && cs[1..][|a| - 1..] == cs[|a|..];
      StepKeepsSound(m, a[0], cs[0]);
      var n := Step(m, a[0], cs[0]);
      if n.Some? {
        RunAppend(n.value, a[1..], b, cs[1..]);
      }
    }
  }

  // ---------------------------------------------------------------- the event grammar

  datatype Node =
    | AliasNode(size: nat)
    | ScalarNode(size: nat, multiline: bool)
    | SequenceNode(flow: bool, size: nat, items: Nodes)
    | MappingNode(flow: bool, size: nat, pairs: Pairs)

  datatype Nodes = Nil | Cons(head: Node, tail: Nodes)

  datatype Pairs = PNil | PCons(key: Node, val: Node, rest: Pairs)

  function NodeEvents(n: Node): (evs: seq<Event>)
    ensures evs != []
  {
    match n
    case AliasNode(size) => [Alias(size)]
    case ScalarNode(size, multiline) => [Scalar(size, multiline)]
    case SequenceNode(flow, size, items) => [SequenceStart(flow, size)] + ItemEvents(items)
    case MappingNode(flow, size, pairs) => [MappingStart(flow, size)] + PairEvents(pairs)
  }

  /** The events of the items of a sequence, and its end. */
  function ItemEvents(ns: Nodes): (evs: seq<Event>)
    ensures evs != []
  {
    match ns
    case Nil => [SequenceEnd]
    case Cons(n, rest) => NodeEvents(n) + ItemEvents(rest)
  }

  function PairEvents(ps: Pairs): (evs: seq<Event>)
    ensures evs != []
  {
    match ps
    case PNil => [MappingEnd]
    case PCons(k, v, rest) => NodeEvents(k) + (NodeEvents(v) + PairEvents(rest))
  }

  /** The events of documents, and the end of the stream. */
  function DocumentEvents(ds: Nodes): seq<Event>
  {
    match ds
    case Nil => [StreamEnd]
    case Cons(d, rest) => [DocumentStart] + (NodeEvents(d) + ([DocumentEnd] + DocumentEvents(rest)))
  }

  predicate IsStream(evs: seq<Event>, ds: Nodes)
  {
    evs == [StreamStart] + DocumentEvents(ds)
  }

  // ---------------------------------------------------------------- every node leaves the stacks as they were

  predicate WantsNode(s: State)
  {
    s.AtDocumentContent? || Entering(s) || Inside(s)
  }

  /** The configuration in which `emit_node` is called. */
  function Before(m: Config, c: Choice): (b: Config)
    requires Sound(m) && WantsNode(m.state)
    ensures b.states != []
  {
    if m.state.AtDocumentContent? then Push(m, AtDocumentEnd) else Push(Enter(m, c), After(m.state, c.simple))
  }

  /** After a node: the continuation is the state, and all else is as before the node. */
  function AfterNode(m: Config, c: Choice): (a: Config)
    requires Sound(m) && WantsNode(m.state)
    ensures Sound(a) && a.states == m.states && (Inside(m.state) || m.state.AtDocumentContent? ==> a == m.(state := a.state))
  {
    AfterKeepsSound(m, c);
    if m.state.AtDocumentContent? then m.(state := AtDocumentEnd) else Enter(m, c).(state := After(m.state, c.simple))
  }

  lemma AfterKeepsSound(m: Config, c: Choice)
    requires Sound(m) && WantsNode(m.state)
    ensures m.state.AtDocumentContent? ==> Sound(m.(state := AtDocumentEnd))
    ensures !m.state.AtDocumentContent? ==> Sound(Enter(m, c).(state := After(m.state, c.simple))) && Enter(m, c).states == m.states
  {
    if !m.state.AtDocumentContent? {
      EnterFacts(m, c);
    }
  }

  /** The continuation is what has been pushed. */
  lemma PopBefore(m: Config, c: Choice)
    requires Sound(m) && WantsNode(m.state)
    ensures Pop(Before(m, c)) == AfterNode(m, c)
  {
    hide Sound, Enter, After;
  }

  /** A collection's indentation is no less than what is around it, and leaving it brings that back. */
  lemma EnterAndLeave(m: Config, c: Choice)
    requires Sound(m) && Entering(m.state)
    ensures var e := Enter(m, c); e.indents != [] && e.states != [] && Leave(e, IsFlow(m.state)) == Pop(m)
    ensures c.bestIndent >= 0 ==> Enter(m, c).indent >= m.indent && Enter(m, c).indent >= 0
  {
    var e := Enter(m, c);
    assert e.indents == m.indents + [m.indent];
  }

  // ---------------------------------------------------------------- indentations

  /** Once the stream has begun, no indentation is left of that outside all collections. */
  predicate Indented(m: Config)
  {
    m.state.AtStreamStart? || (m.indent >= -1 && forall i <- m.indents :: i >= -1)
  }

  lemma EnterIndented(m: Config, c: Choice)
    requires Indented(m) && Entering(m.state) && c.bestIndent >= 0
    ensures Indented(Enter(m, c))
  {
  }

  lemma LeaveIndented(m: Config, flow: bool)
    requires m.indent >= -1 && (forall i <- m.indents :: i >= -1) && m.states != [] && m.indents != []
    ensures Indented(Leave(m, flow))
  {
    var n := |m.indents| - 1;
    assert m.indents[n] in m.indents && Leave(m, flow).indent == m.indents[n];
    assert forall i :: i in m.indents[..n] ==> i in m.indents;
  }

  lemma StepIndented(m: Config, ev: Event, c: Choice)
    requires Sound(m) && Indented(m) && (m.state.AtStreamStart? || c.bestIndent >= 0)
    ensures Step(m, ev, c).Some? ==> Indented(Step(m, ev, c).value) && !Step(m, ev, c).value.state.AtStreamStart?
  {
    hide Enter, Leave, Closes, IsFlow;
    if Entering(m.state) || Inside(m.state) {
      EnterFacts(m, c);
      EnterOnly(m, c);
      if Entering(m.state) {
        EnterIndented(m, c);
      }
      LeaveIndented(Enter(m, c), IsFlow(m.state));
      LeavesTo(m, c);
    } else {
      StaysBelow(m);
    }
  }

  lemma EnterOnly(m: Config, c: Choice)
    ensures !Entering(m.state) ==> Enter(m, c) == m
  {
  }

  /** What is left in the end of a collection is no start of a stream. */
  lemma LeavesTo(m: Config, c: Choice)
    requires Sound(m) && (Entering(m.state) || Inside(m.state))
    ensures var e := Enter(m, c); e.states != [] && e.indents != [] && !Leave(e, IsFlow(m.state)).state.AtStreamStart?
  {
    EnterFacts(m, c);
  }

  lemma StaysBelow(m: Config)
    requires Sound(m) && !Entering(m.state) && !Inside(m.state)
    ensures m.states == []
  {
  }

  /** A scalar is never written at the left margin, wherever in a stream it comes: neither the run so far
      nor the indentation width, which is 2 or more, can lead there. */
  lemma {:induction false} ScalarsOffMargin(m: Config, evs: seq<Event>, cs: seq<Choice>, c: Choice)
    requires Sound(m) && Indented(m) && |cs| == |evs| && (forall x <- cs + [c] :: x.bestIndent >= 2)
    requires Run(m, evs, cs).Some? && WantsNode(Run(m, evs, cs).value.state)
    ensures Deeper(Before(Run(m, evs, cs).value, c).indent, true, false, c.bestIndent) >= 2
    decreases |evs|
  {
    hide Step;
    assert c in cs + [c];
    if evs == [] {
      BeforeIndented(m, c);
    } else {
      assert cs[0] in cs + [c] && forall x :: x in cs[1..] + [c] ==> x in cs + [c];
      StepIndented(m, evs[0], cs[0]);
      RunOne(m, evs, cs);
      ScalarsOffMargin(Step(m, evs[0], cs[0]).value, evs[1..], cs[1..], c);
    }
  }

  lemma BeforeIndented(m: Config, c: Choice)
    requires Sound(m) && Indented(m) && WantsNode(m.state) && c.bestIndent >= 0
    ensures Before(m, c).indent >= -1
  {
  }

  lemma RunOne(m: Config, evs: seq<Event>, cs: seq<Choice>)
    requires Sound(m) && |cs| == |evs| > 0
    ensures var n := Step(m, evs[0], cs[0]); n.Some? ==> Sound(n.value) && Run(m, evs, cs) == Run(n.value, evs[1..], cs[1..])
    ensures Step(m, evs[0], cs[0]).None? ==> Run(m, evs, cs).None?
  {
    StepKeepsSound(m, evs[0], cs[0]);
  }

  /** The events of a node, whatever is in it and however it is written, lead to the continuation. */
  lemma {:induction false} NodeRestores(m: Config, n: Node, cs: seq<Choice>)
    requires Sound(m) && WantsNode(m.state) && |cs| == |NodeEvents(n)|
    ensures Run(m, NodeEvents(n), cs) == Some(AfterNode(m, cs[0]))
    decreases n
  {
    hide Enter, After, Leave, Sound, Step, Before, AfterNode;
    var evs := NodeEvents(n);
    NodeBegins(m, n, cs);
    PopBefore(m, cs[0]);
    RunOne(m, evs, cs);
    match n
    case AliasNode(_) =>
    case ScalarNode(_, _) =>
    case SequenceNode(flow, size, items) =>
      var m1 := Step(m, evs[0], cs[0]).value;
      assert evs[1..] == ItemEvents(items);
      ItemsRestore(m1, items, cs[1..]);
      EnterAndLeave(m1, cs[1]);
    case MappingNode(flow, size, pairs) =>
      var m1 := Step(m, evs[0], cs[0]).value;
      assert evs[1..] == PairEvents(pairs);
      PairsRestore(m1, pairs, cs[1..]);
      EnterAndLeave(m1, cs[1]);
  }

  /** The first event of a node. */
  lemma NodeBegins(m: Config, n: Node, cs: seq<Choice>)
    requires Sound(m) && WantsNode(m.state) && |cs| == |NodeEvents(n)|
    ensures var (s, b) := (Step(m, NodeEvents(n)[0], cs[0]), Before(m, cs[0]));
      match n
      case AliasNode(_) => s == Some(Pop(b))
      case ScalarNode(_, _) => s == Some(Pop(b))
      case SequenceNode(_, _, _) => s.Some? && s.value == b.(state := s.value.state) && Entering(s.value.state) && InSequence(s.value.state) && Sound(s.value)
      case MappingNode(_, _, _) => s.Some? && s.value == b.(state := s.value.state) && Entering(s.value.state) && AtKey(s.value.state) && Sound(s.value)
  {
    hide Enter, After, Sound;
    StepKeepsSound(m, NodeEvents(n)[0], cs[0]);
    StepIsNode(m, NodeEvents(n)[0], cs[0]);
  }

  lemma StepIsNode(m: Config, ev: Event, c: Choice)
    requires Sound(m) && WantsNode(m.state) && !Closes(m.state, ev)
    ensures Step(m, ev, c) == EmitNode(Before(m, c), ev, c)
  {
  }

  lemma {:induction false} ItemsRestore(m: Config, ns: Nodes, cs: seq<Choice>)
    requires Sound(m) && InSequence(m.state) && |cs| == |ItemEvents(ns)|
    ensures var e := Enter(m, cs[0]); e.states != [] && e.indents != [] && Run(m, ItemEvents(ns), cs) == Some(Leave(e, IsFlow(m.state)))
    decreases ns
  {
    hide Enter, After;
    EnterFacts(m, cs[0]);
    match ns
    case Nil =>
      RunOne(m, [SequenceEnd], cs);
    case Cons(n, rest) =>
      var a := NodeEvents(n);
      RunAppend(m, a, ItemEvents(rest), cs);
      NodeRestores(m, n, cs[..|a|]);
      var m1 := AfterNode(m, cs[0]);
      SequenceGoesOn(m, cs[0], cs[|a|]);
      ItemsRestore(m1, rest, cs[|a|..]);
  }

  lemma SequenceGoesOn(m: Config, c: Choice, c': Choice)
    requires Sound(m) && InSequence(m.state)
    ensures var (e, m1) := (Enter(m, c), AfterNode(m, c));
      && InSequence(m1.state) && Enter(m1, c') == m1 && e.states != [] && e.indents != []
      && m1.states != [] && m1.indents != [] && Leave(m1, IsFlow(m1.state)) == Leave(e, IsFlow(m.state))
  {
  }

  lemma {:induction false} PairsRestore(m: Config, ps: Pairs, cs: seq<Choice>)
    requires Sound(m) && AtKey(m.state) && |cs| == |PairEvents(ps)|
    ensures var e := Enter(m, cs[0]); e.states != [] && e.indents != [] && Run(m, PairEvents(ps), cs) == Some(Leave(e, IsFlow(m.state)))
    decreases ps
  {
    hide Enter, After;
    EnterFacts(m, cs[0]);
    match ps
    case PNil =>
      RunOne(m, [MappingEnd], cs);
    case PCons(k, v, rest) =>
      var (a, b) := (NodeEvents(k), NodeEvents(v));
      var cs1 := cs[|a|..];
      RunAppend(m, a, b + PairEvents(rest), cs);
      NodeRestores(m, k, cs[..|a|]);
      var m1 := AfterNode(m, cs[0]);
      MappingGoesOn(m, cs[0], cs1[0], cs1[|b|]);
      RunAppend(m1, b, PairEvents(rest), cs1);
      NodeRestores(m1, v, cs1[..|b|]);
      PairsRestore(AfterNode(m1, cs1[0]), rest, cs1[|b|..]);
  }

  lemma MappingGoesOn(m: Config, c: Choice, c1: Choice, c2: Choice)
    requires Sound(m) && AtKey(m.state)
    ensures var m1 := AfterNode(m, c);
      && Sound(m1) && Inside(m1.state)
      && var (e, m2) := (Enter(m, c), AfterNode(m1, c1));
      && AtKey(m2.state) && Enter(m2, c2) == m2 && e.states != [] && e.indents != []
      && m2.states != [] && m2.indents != [] && Leave(m2, IsFlow(m2.state)) == Leave(e, IsFlow(m.state))
  {
    hide Enter, Leave, Sound;
    EnterFacts(m, c);
    InCollection(m);
    var m1 := AfterNode(m, c);
    ValueThenKey(m.state, c.simple, c1.simple);
    EnterOnce(m1, c1);
    var m2 := AfterNode(m1, c1);
    EnterOnce(m2, c2);
    LeaveForgetsState(Enter(m, c), m2.state, IsFlow(m.state));
  }

  lemma InCollection(m: Config)
    requires Sound(m) && (Entering(m.state) || Inside(m.state))
    ensures m.states != []
  {
  }

  lemma EnterOnce(m: Config, c: Choice)
    requires Inside(m.state)
    ensures Enter(m, c) == m
  {
  }

  /** After a key comes its value, and then the next key. */
  lemma ValueThenKey(s: State, simple: bool, simple': bool)
    requires AtKey(s)
    ensures var v := After(s, simple); var k := After(v, simple');
      Inside(v) && Inside(k) && AtKey(k) && IsFlow(k) == IsFlow(v) == IsFlow(s)
  {
  }

  lemma LeaveForgetsState(m: Config, s: State, flow: bool)
    requires m.states != [] && m.indents != []
    ensures Leave(m.(state := s), flow) == Leave(m, flow)
  {
  }

  // ---------------------------------------------------------------- styles and depths

  function FlowCount(states: seq<State>): nat
  {
    if states == [] then 0 else FlowCount(states[..|states| - 1]) + if IsFlow(states[|states| - 1]) then 1 else 0
  }

  /** The flow level counts the flow collections around, and what is within one of them is in flow style. */
  predicate Nested(m: Config)
  {
    && m.flowLevel == FlowCount(m.states) + (if Inside(m.state) && IsFlow(m.state) then 1 else 0)
    && (forall i, j :: 0 <= i < j < |m.states| && IsFlow(m.states[i]) ==> IsFlow(m.states[j]))
    && (m.states != [] && IsFlow(m.states[|m.states| - 1]) ==> IsFlow(m.state))
  }

  lemma NodeNested(m: Config, s: State, ev: Event, c: Choice)
    requires m.flowLevel == FlowCount(m.states) + (if IsFlow(s) then 1 else 0) && (Inside(s) || s.AtDocumentEnd?)
    requires forall i, j :: 0 <= i < j < |m.states| && IsFlow(m.states[i]) ==> IsFlow(m.states[j])
    requires m.states != [] && IsFlow(m.states[|m.states| - 1]) ==> IsFlow(s)
    ensures EmitNode(Push(m, s), ev, c).Some? ==> Nested(EmitNode(Push(m, s), ev, c).value)
  {
    hide FlowCount, Nested;
    var b := Push(m, s);
    if ev.Alias? || ev.Scalar? {
      assert Pop(b).states == m.states && Pop(b) == m.(state := s);
      PoppedNested(m, s);
    } else if ev.SequenceStart? || ev.MappingStart? {
      PushedNested(m, s, EmitNode(b, ev, c).value.state);
    }
  }

  lemma PoppedNested(m: Config, s: State)
    requires m.flowLevel == FlowCount(m.states) + (if IsFlow(s) then 1 else 0) && (Inside(s) || s.AtDocumentEnd?)
    requires forall i, j :: 0 <= i < j < |m.states| && IsFlow(m.states[i]) ==> IsFlow(m.states[j])
    requires m.states != [] && IsFlow(m.states[|m.states| - 1]) ==> IsFlow(s)
    ensures Nested(m.(state := s))
  {
  }

  lemma PushedNested(m: Config, s: State, t: State)
    requires m.flowLevel == FlowCount(m.states) + (if IsFlow(s) then 1 else 0) && Entering(t) && (m.flowLevel > 0 ==> IsFlow(t))
    requires forall i, j :: 0 <= i < j < |m.states| && IsFlow(m.states[i]) ==> IsFlow(m.states[j])
    requires m.states != [] && IsFlow(m.states[|m.states| - 1]) ==> IsFlow(s)
    ensures Nested(Push(m, s).(state := t))
  {
    hide IsFlow;
    var b, n := Push(m, s).(state := t), |m.states|;
    assert b.states[..n] == m.states && b.states[n] == s;
    forall i, j | 0 <= i < j < |b.states| && IsFlow(b.states[i])
      ensures IsFlow(b.states[j])
    {
      if j == n && i < n - 1 {
        assert IsFlow(m.states[n - 1]);
      }
    }
  }

  lemma LeaveNested(m: Config, flow: bool)
    requires m.states != [] && m.indents != [] && m.flowLevel == FlowCount(m.states) + (if flow then 1 else 0)
    requires forall i, j :: 0 <= i < j < |m.states| && IsFlow(m.states[i]) ==> IsFlow(m.states[j])
    requires Inside(m.states[|m.states| - 1]) || !IsFlow(m.states[|m.states| - 1])
    ensures Nested(Leave(m, flow))
  {
    var n := |m.states| - 1;
    assert n > 0 ==> m.states[..n][n - 1] == m.states[n - 1];
    assert forall i :: 0 <= i < n ==> m.states[..n][i] == m.states[i];
  }

  lemma EnterLevel(m: Config, c: Choice)
    requires Sound(m) && Nested(m) && (Entering(m.state) || Inside(m.state))
    ensures var e := Enter(m, c); e.states == m.states && e.flowLevel == FlowCount(m.states) + (if IsFlow(m.state) then 1 else 0)
    ensures IsFlow(After(m.state, c.simple)) == IsFlow(m.state) && Inside(After(m.state, c.simple))
    ensures Inside(m.states[|m.states| - 1]) || !IsFlow(m.states[|m.states| - 1])
  {
  }

  lemma StepNested(m: Config, ev: Event, c: Choice)
    requires Sound(m) && Nested(m)
    ensures Step(m, ev, c).Some? ==> Nested(Step(m, ev, c).value)
  {
    hide Leave, EmitNode, Enter, After, FlowCount;
    if Entering(m.state) || Inside(m.state) {
      EnterFacts(m, c);
      EnterLevel(m, c);
      LeaveNested(Enter(m, c), IsFlow(m.state));
      NodeNested(Enter(m, c), After(m.state, c.simple), ev, c);
    } else {
      NodeNested(m, AtDocumentEnd, ev, c);
    }
  }

  /** However the choices fall: within a flow collection, however deep, all is in flow style. A run from
      the beginning starts nested: nothing is around it. */
  lemma {:induction false} FlowWithinFlow(m: Config, evs: seq<Event>, cs: seq<Choice>)
    requires Sound(m) && Nested(m) && |cs| == |evs| && Run(m, evs, cs).Some?
    ensures var r := Run(m, evs, cs).value; Nested(r) && forall i :: 0 <= i < |r.states| && IsFlow(r.states[i]) ==> IsFlow(r.state)
    decreases |evs|
  {
    hide Step, Nested, Sound;
    if evs == [] {
      FlowUpwards(m);
    } else {
      StepNested(m, evs[0], cs[0]);
      RunOne(m, evs, cs);
      FlowWithinFlow(Step(m, evs[0], cs[0]).value, evs[1..], cs[1..]);
    }
  }

  lemma FlowUpwards(m: Config)
    requires Nested(m)
    ensures forall i :: 0 <= i < |m.states| && IsFlow(m.states[i]) ==> IsFlow(m.state)
  {
    hide IsFlow;
    var n := |m.states| - 1;
    forall i | 0 <= i <= n && IsFlow(m.states[i])
      ensures IsFlow(m.state)
    {
      assert i < n ==> IsFlow(m.states[n]);
    }
  }

  /** The indentation at depth `k`: those around, and the one now. */
  function IndentAt(m: Config, k: nat): int
    requires k <= |m.indents|
  {
    if k < |m.indents| then m.indents[k] else m.indent
  }

  /** Outside all collections there is no indentation, the root's is none or one width, and each collection
      is deeper by one width than what it is in. */
  predicate Stepped(m: Config, width: int)
  {
    && IndentAt(m, 0) == -1 && (m.indents != [] ==> IndentAt(m, 1) == 0 || IndentAt(m, 1) == width)
    && forall k :: 1 <= k < |m.indents| ==> IndentAt(m, k + 1) == IndentAt(m, k) + width
  }

  lemma EnterStepped(m: Config, c: Choice)
    requires Stepped(m, c.bestIndent) && c.bestIndent >= 0 && !c.indentless
    ensures Stepped(Enter(m, c), c.bestIndent)
  {
    var e := Enter(m, c);
    assert forall k :: 0 <= k < |m.indents| ==> IndentAt(e, k) == IndentAt(m, k);
    if Entering(m.state) {
      assert IndentAt(e, |m.indents|) == m.indent == IndentAt(m, |m.indents|);
      RootIndent(m, c.bestIndent, |m.indents|);
    }
  }

  lemma {:induction false} RootIndent(m: Config, width: int, k: nat)
    requires Stepped(m, width) && width >= 0 && k <= |m.indents|
    ensures IndentAt(m, k) >= if k == 0 then -1 else 0
  {
    if k > 1 {
      RootIndent(m, width, k - 1);
    }
  }

  lemma LeaveStepped(m: Config, flow: bool, width: int)
    requires Stepped(m, width) && m.states != [] && m.indents != []
    ensures Stepped(Leave(m, flow), width)
  {
    var r := Leave(m, flow);
    assert forall k :: 0 <= k <= |r.indents| ==> IndentAt(r, k) == IndentAt(m, k);
  }

  /** Where no sequence goes without indentation of its own, every collection is indented by one width
      more than the one around it. */
  lemma StepStepped(m: Config, ev: Event, c: Choice)
    requires Sound(m) && (m.state.AtStreamStart? || Stepped(m, c.bestIndent)) && c.bestIndent >= 0 && !c.indentless
    ensures Step(m, ev, c).Some? ==> Stepped(Step(m, ev, c).value, c.bestIndent)
  {
    hide Enter, Leave, After, Stepped, EmitNode, StepInside;
    var n := Step(m, ev, c);
    if n.None? {
    } else if Entering(m.state) || Inside(m.state) {
      StepInsideStepped(m, ev, c);
    } else if m.state.AtStreamStart? {
      NoSteps(n.value, c.bestIndent);
    } else {
      NodeStepped(Push(m, AtDocumentEnd), ev, c);
      SameSteps(m, n.value, c.bestIndent);
    }
  }

  lemma StepInsideStepped(m: Config, ev: Event, c: Choice)
    requires Sound(m) && (Entering(m.state) || Inside(m.state)) && Stepped(m, c.bestIndent) && c.bestIndent >= 0 && !c.indentless
    ensures StepInside(m, ev, c).Some? ==> Stepped(StepInside(m, ev, c).value, c.bestIndent)
  {
    hide Enter, Leave, After, Stepped, EmitNode;
    EnterFacts(m, c);
    EnterStepped(m, c);
    if Closes(m.state, ev) {
      LeaveStepped(Enter(m, c), IsFlow(m.state), c.bestIndent);
    } else if StepInside(m, ev, c).Some? {
      NodeStepped(Push(Enter(m, c), After(m.state, c.simple)), ev, c);
      SameSteps(Enter(m, c), StepInside(m, ev, c).value, c.bestIndent);
    }
  }

  /** So it is throughout a run. */
  lemma {:induction false} RunStepped(m: Config, evs: seq<Event>, cs: seq<Choice>, width: nat)
    requires Sound(m) && (m.state.AtStreamStart? || Stepped(m, width)) && |cs| == |evs| && Run(m, evs, cs).Some?
    requires forall c <- cs :: c.bestIndent == width && !c.indentless
    ensures var r := Run(m, evs, cs).value; r.state.AtStreamStart? || Stepped(r, width)
    decreases |evs|
  {
    hide Step, Stepped, Sound;
    if evs == [] {
    } else {
      assert cs[0] in cs && forall c <- cs[1..] :: c in cs;
      StepStepped(m, evs[0], cs[0]);
      RunOne(m, evs, cs);
      RunStepped(Step(m, evs[0], cs[0]).value, evs[1..], cs[1..], width);
    }
  }

  lemma NoSteps(m: Config, width: int)
    requires m.indents == [] && m.indent == -1
    ensures Stepped(m, width)
  {
  }

  lemma SameSteps(m: Config, r: Config, width: int)
    requires Stepped(m, width) && r.indents == m.indents && r.indent == m.indent
    ensures Stepped(r, width)
  {
    assert forall k :: 0 <= k <= |m.indents| ==> IndentAt(r, k) == IndentAt(m, k);
  }

  lemma NodeStepped(m: Config, ev: Event, c: Choice)
    requires m.states != []
    ensures EmitNode(m, ev, c).Some? ==> EmitNode(m, ev, c).value.indents == m.indents && EmitNode(m, ev, c).value.indent == m.indent
  {
  }

  // ---------------------------------------------------------------- exactly the streams are accepted

  predicate AtDocument(s: State)
  {
    s.AtFirstDocumentStart? || s.AtDocumentStart?
  }

  lemma {:induction false} DocumentsRun(m: Config, ds: Nodes, cs: seq<Choice>)
    requires Sound(m) && AtDocument(m.state) && |cs| == |DocumentEvents(ds)|
    ensures Run(m, DocumentEvents(ds), cs) == Some(m.(state := AtEnd))
    decreases ds
  {
    hide Enter, After, Sound, NodeEvents;
    match ds
    case Nil =>
      RunOne(m, [StreamEnd], cs);
    case Cons(d, rest) =>
      var evs, n := DocumentEvents(ds), NodeEvents(d);
      RunOne(m, evs, cs);
      var m1 := m.(state := AtDocumentContent);
      assert evs[1..] == n + ([DocumentEnd] + DocumentEvents(rest));
      RunAppend(m1, n, [DocumentEnd] + DocumentEvents(rest), cs[1..]);
      NodeRestores(m1, d, cs[1..][..|n|]);
      var m2, cs2 := m.(state := AtDocumentEnd), cs[1..][|n|..];
      RunOne(m2, [DocumentEnd] + DocumentEvents(rest), cs2);
      assert ([DocumentEnd] + DocumentEvents(rest))[1..] == DocumentEvents(rest);
      DocumentsRun(m.(state := AtDocumentStart), rest, cs2[1..]);
  }

  function Fresh(indent: int): (m: Config)
    ensures Sound(m)
  {
    Config(AtStreamStart, [], [], indent, 0)
  }

  predicate Accepts(evs: seq<Event>, cs: seq<Choice>, indent: int)
    requires |cs| == |evs|
  {
    var r := Run(Fresh(indent), evs, cs);
    r.Some? && r.value.state.AtEnd?
  }

  predicate StartsNode(ev: Event)
  {
    ev.Alias? || ev.Scalar? || ev.SequenceStart? || ev.MappingStart?
  }

  /** A run that ends well, from a place where a node is due, begins with a step into a node. */
  lemma NodeStarts(m: Config, evs: seq<Event>, cs: seq<Choice>)
    requires Sound(m) && WantsNode(m.state) && |cs| == |evs| && (evs != [] ==> !Closes(m.state, evs[0]))
    requires Run(m, evs, cs).Some? && Run(m, evs, cs).value.state.AtEnd?
    ensures evs != [] && StartsNode(evs[0])
    ensures var n := Step(m, evs[0], cs[0]);
      && n.Some? && Sound(n.value) && Run(n.value, evs[1..], cs[1..]) == Run(m, evs, cs)
      && (evs[0].SequenceStart? ==> InSequence(n.value.state)) && (evs[0].MappingStart? ==> AtKey(n.value.state))
  {
    hide Enter, After, Sound;
    RunOne(m, evs, cs);
    StepIsNode(m, evs[0], cs[0]);
  }

  /** A run that ends well, from a place where a node is due, begins with the events of a node. */
  lemma {:induction false} TakeNode(m: Config, evs: seq<Event>, cs: seq<Choice>) returns (n: Node, k: nat)
    requires Sound(m) && WantsNode(m.state) && |cs| == |evs| && (evs != [] ==> !Closes(m.state, evs[0]))
    requires Run(m, evs, cs).Some? && Run(m, evs, cs).value.state.AtEnd?
    ensures 0 < k <= |evs| && evs[..k] == NodeEvents(n)
    decreases |evs|, 0
  {
    hide Enter, After, Sound, Step, Run, EmitNode, WantsNode, Closes, InSequence, AtKey, AfterNode;
    NodeStarts(m, evs, cs);
    var e := evs[0];
    if e.SequenceStart? {
      var ns;
      ns, k := TakeItems(Step(m, e, cs[0]).value, evs[1..], cs[1..]);
      n, k := SequenceNode(e.flow, e.size, ns), k + 1;
      assert evs[..k] == [e] + evs[1..][..k - 1];
    } else if e.MappingStart? {
      var ps;
      ps, k := TakePairs(Step(m, e, cs[0]).value, evs[1..], cs[1..]);
      n, k := MappingNode(e.flow, e.size, ps), k + 1;
      assert evs[..k] == [e] + evs[1..][..k - 1];
    } else {
      n, k := if e.Alias? then AliasNode(e.size) else ScalarNode(e.size, e.multiline), 1;
    }
  }

  /** The same, and what follows the node. */
  lemma {:induction false} TakeNodeAndGoOn(m: Config, evs: seq<Event>, cs: seq<Choice>) returns (n: Node, k: nat)
    requires Sound(m) && WantsNode(m.state) && |cs| == |evs| && (evs != [] ==> !Closes(m.state, evs[0]))
    requires Run(m, evs, cs).Some? && Run(m, evs, cs).value.state.AtEnd?
    ensures 0 < k <= |evs| && evs[..k] == NodeEvents(n)
    ensures Run(AfterNode(m, cs[0]), evs[k..], cs[k..]) == Run(m, evs, cs)
    decreases |evs|, 1
  {
    hide Enter, After, Sound;
    n, k := TakeNode(m, evs, cs);
    assert evs == evs[..k] + evs[k..];
    RunAppend(m, evs[..k], evs[k..], cs);
    NodeRestores(m, n, cs[..k]);
  }

  lemma {:induction false} TakeItems(m: Config, evs: seq<Event>, cs: seq<Choice>) returns (ns: Nodes, k: nat)
    requires Sound(m) && InSequence(m.state) && |cs| == |evs|
    requires Run(m, evs, cs).Some? && Run(m, evs, cs).value.state.AtEnd?
    ensures 0 < k <= |evs| && evs[..k] == ItemEvents(ns)
    decreases |evs|, 2
  {
    hide Enter, After, Sound;
    if evs[0] == SequenceEnd {
      ns, k := Nil, 1;
    } else {
      var n, k1 := TakeNodeAndGoOn(m, evs, cs);
      AfterItem(m, cs[0]);
      var rest, k2 := TakeItems(AfterNode(m, cs[0]), evs[k1..], cs[k1..]);
      ns, k := Cons(n, rest), k1 + k2;
      assert evs[..k] == evs[..k1] + evs[k1..][..k2];
    }
  }

  lemma AfterItem(m: Config, c: Choice)
    requires Sound(m) && WantsNode(m.state)
    ensures InSequence(m.state) ==> InSequence(AfterNode(m, c).state)
    ensures AtKey(m.state) ==> Inside(AfterNode(m, c).state) && !InSequence(AfterNode(m, c).state) && !AtKey(AfterNode(m, c).state)
    ensures Inside(m.state) && !InSequence(m.state) && !AtKey(m.state) ==> AtKey(AfterNode(m, c).state)
  {
  }

  lemma {:induction false} TakePairs(m: Config, evs: seq<Event>, cs: seq<Choice>) returns (ps: Pairs, k: nat)
    requires Sound(m) && AtKey(m.state) && |cs| == |evs|
    requires Run(m, evs, cs).Some? && Run(m, evs, cs).value.state.AtEnd?
    ensures 0 < k <= |evs| && evs[..k] == PairEvents(ps)
    decreases |evs|, 2
  {
    hide Enter, After, Sound;
    if evs[0] == MappingEnd {
      ps, k := PNil, 1;
    } else {
      var key, k1 := TakeNodeAndGoOn(m, evs, cs);
      AfterItem(m, cs[0]);
      var m1 := AfterNode(m, cs[0]);
      var val, k2 := TakeNodeAndGoOn(m1, evs[k1..], cs[k1..]);
      AfterItem(m1, cs[k1]);
      var rest, k3 := TakePairs(AfterNode(m1, cs[k1]), evs[k1..][k2..], cs[k1..][k2..]);
      ps, k := PCons(key, val, rest), k1 + k2 + k3;
      ThreeParts(evs, k1, k2, k3);
    }
  }

  lemma ThreeParts<T>(s: seq<T>, i: nat, j: nat, k: nat)
    requires i + j + k <= |s|
    ensures s[..i + j + k] == s[..i] + (s[i..][..j] + s[i..][j..][..k])
  {
  }

  lemma DocumentParts<T>(s: seq<T>, k: nat)
    requires 0 < |s| && k + 1 < |s|
    ensures s == [s[0]] + (s[1..][..k] + ([s[1..][k..][0]] + s[1..][k..][1..]))
  {
  }

  lemma EndStops(m: Config, evs: seq<Event>, cs: seq<Choice>)
    requires Sound(m) && m.state.AtEnd? && |cs| == |evs| && Run(m, evs, cs).Some?
    ensures evs == []
  {
  }

  lemma {:induction false} TakeDocuments(m: Config, evs: seq<Event>, cs: seq<Choice>) returns (ds: Nodes)
    requires Sound(m) && AtDocument(m.state) && |cs| == |evs|
    requires Run(m, evs, cs).Some? && Run(m, evs, cs).value.state.AtEnd?
    ensures evs == DocumentEvents(ds)
    decreases |evs|
  {
    hide Enter, After, Sound, NodeEvents;
    RunOne(m, evs, cs);
    if evs[0] == StreamEnd {
      ds := Nil;
      EndStops(m.(state := AtEnd), evs[1..], cs[1..]);
      assert evs == [evs[0]] + evs[1..];
    } else {
      var m1 := m.(state := AtDocumentContent);
      var d, k := TakeNodeAndGoOn(m1, evs[1..], cs[1..]);
      var m2, evs2, cs2 := AfterNode(m1, cs[1]), evs[1..][k..], cs[1..][k..];
      RunOne(m2, evs2, cs2);
      var rest := TakeDocuments(m2.(state := AtDocumentStart), evs2[1..], cs2[1..]);
      ds := Cons(d, rest);
      DocumentParts(evs, k);
    }
  }

  /** However the choices fall, the machine accepts an event sequence exactly if it is a stream. */
  lemma AcceptsStreams(evs: seq<Event>, cs: seq<Choice>, indent: int)
    requires |cs| == |evs|
    ensures Accepts(evs, cs, indent) <==> exists ds :: IsStream(evs, ds)
  {
    var m := Fresh(indent);
    if evs != [] {
      RunOne(m, evs, cs);
      if Accepts(evs, cs, indent) {
        var ds := TakeDocuments(m.(state := AtFirstDocumentStart, indent := -1), evs[1..], cs[1..]);
        assert IsStream(evs, ds);
      }
      if ds :| IsStream(evs, ds) {
        assert evs[1..] == DocumentEvents(ds);
        DocumentsRun(m.(state := AtFirstDocumentStart, indent := -1), ds, cs[1..]);
      }
    }
  }
}
