/** The emitter as an object: events go in one by one, wait in its queue, and drive its states. */
module Emitting {
  import opened Wrappers
  import opened Machine
  import opened Queue

  class Emitter {
    const canonical: bool
    var bestIndent: int
    var state: State
    var states: seq<State>
    var indents: seq<int>
    var indent: int
    var flowLevel: int
    var mappingContext: bool
    var events: seq<Event>
    var eventsHead: nat
    /** Ghost: how the choices fell for the events emitted so far. */
    ghost var choices: seq<Choice>

    constructor (canonical: bool, bestIndent: int)
      ensures Valid() && events == []
    {
      this.canonical, this.bestIndent := canonical, bestIndent;
      state, states, indents, indent, flowLevel, mappingContext := AtStreamStart, [], [], 0, 0, false;
      events, eventsHead, choices := [], 0, [];
    }

    function View(): Config
      reads this
    {
      Config(state, states, indents, indent, flowLevel)
    }

    /** No indentation is left of that outside all collections, and the indentation width is in its range. */
    predicate Margins()
      reads this
    {
      Indented(View()) && (!state.AtStreamStart? ==> 2 <= bestIndent <= 9)
    }

    predicate InContext()
      reads this
    {
      TellsContext(state, states, mappingContext)
    }

    /** The event after the one at the head of the queue. */
    function Next(): Event
      reads this
    {
      NextOf(events, eventsHead)
    }

    /** The emitter is where the events before the head of the queue have led the machine, and the
        others wait. */
    ghost predicate Valid()
      reads this
    {
      && Margins() && Sound(View()) && eventsHead <= |events| == eventsHead + |Feed([], events)| && |choices| == eventsHead
      && Run(Fresh(0), events[..eventsHead], choices) == Some(View())
      && events[eventsHead..] == Feed([], events) && InContext() && TrueChoices(events, choices, canonical)
    }

    /** Takes one more event. It is refused only if no stream begins with the events so far; and when
        a stream is complete, all of it has been emitted. */
    method Emit(event: Event) returns (ok: bool)
      requires Valid()
      modifies this
      ensures events == old(events) + [event]
      ensures ok ==> Valid()
      ensures ok ==> forall ds {:trigger IsStream(events, ds)} :: IsStream(events, ds) ==> eventsHead == |events| && state == AtEnd
      ensures !ok ==> forall ds {:trigger DocumentEvents(ds)} :: !(events <= [StreamStart] + DocumentEvents(ds))
    {
      hide Sound, Run, Feed, NeedMore, Drained, IsStream, DocumentEvents, Fresh, Indented, TrueChoices, TellsContext;
      TruthStays(events, choices, canonical, event);
      events := events + [event];
      FeedSnoc([], old(events), event);
      assert events[..eventsHead] == old(events)[..eventsHead] && events[eventsHead..] == old(events)[eventsHead..] + [event];
      var more := NeedMoreEvents();
      while !more
        invariant events == old(events) + [event] && eventsHead <= |events| && |choices| == eventsHead && Sound(View()) && Margins()
        invariant Run(Fresh(0), events[..eventsHead], choices) == Some(View())
        invariant Drained(events[eventsHead..]) == Feed([], events)
        invariant more == NeedMore(events[eventsHead..])
        invariant InContext() && TrueChoices(events, choices, canonical)
        decreases |events| - eventsHead
      {
        ok := EmitHead();
        if !ok {
          return;
        }
        more := NeedMoreEvents();
      }
      StreamsEnd(events, choices, eventsHead, View());
      return true;
    }

    /** Whether the event at the head of the queue has to wait. */
    method NeedMoreEvents() returns (r: bool)
      requires eventsHead <= |events|
      ensures r == NeedMore(events[eventsHead..])
    {
      if eventsHead == |events| {
        return true;
      }
      var accumulate := Accumulate(events[eventsHead]);
      if accumulate == 0 {
        return false;
      }
      if |events| - eventsHead > accumulate {
        return false;
      }
      var level := 0;
      ghost var q := events[eventsHead..];
      var i := eventsHead;
      while i < |events|
        invariant eventsHead <= i <= |events| && level == LevelSum(q[..i - eventsHead])
        invariant forall j :: 1 <= j <= i - eventsHead ==> LevelSum(q[..j]) != 0
      {
        assert q[..i + 1 - eventsHead][..i - eventsHead] == q[..i - eventsHead] && q[i - eventsHead] == events[i];
        level := level + Level(events[i]);
        if level == 0 {
          return false;
        }
        i := i + 1;
      }
      return true;
    }

    /** Emits the event at the head of the queue. */
    method EmitHead() returns (ok: bool)
      requires eventsHead < |events| && |choices| == eventsHead && Sound(View()) && Margins() && !NeedMore(events[eventsHead..])
      requires Run(Fresh(0), events[..eventsHead], choices) == Some(View()) && InContext() && TrueChoices(events, choices, canonical)
      modifies this
      ensures events == old(events)
      ensures ok ==> eventsHead == old(eventsHead) + 1 && |choices| == eventsHead && Sound(View()) && Margins()
      ensures ok ==> Run(Fresh(0), events[..eventsHead], choices) == Some(View()) && InContext() && TrueChoices(events, choices, canonical)
      ensures ok ==> Drained(events[eventsHead..]) == Drained(old(events[eventsHead..]))
      ensures !ok ==> forall ds {:trigger DocumentEvents(ds)} :: !(events <= [StreamStart] + DocumentEvents(ds))
    {
      hide Sound, Run, NeedMore, Drained, Indented, TrueChoices, TrueChoice, TellsContext;
      ghost var c;
      ghost var m := View();
      NextIsThere(events, eventsHead);
      ok, c := StateMachine(events[eventsHead]);
      RunSnoc(events, choices, eventsHead, m, c);
      DrainedStep(events, eventsHead);
      if ok {
        OneMoreTrue(events, choices, canonical, m, c);
        eventsHead := eventsHead + 1;
        choices := choices + [c];
      }
    }

    /** The state dispatcher. */
    method StateMachine(event: Event) returns (ok: bool, ghost c: Choice)
      requires Sound(View()) && Margins() && InContext() && eventsHead < |events| && event == events[eventsHead] && !NeedMore(events[eventsHead..])
      modifies `bestIndent, `state, `states, `indents, `indent, `flowLevel, `mappingContext
      ensures !old(state).AtStreamStart? ==> bestIndent == old(bestIndent) == c.bestIndent
      ensures ok <==> Step(old(View()), event, c).Some?
      ensures ok ==> View() == Step(old(View()), event, c).value && Sound(View()) && Margins()
      ensures ok ==> InContext() && TrueChoice(old(View()), event, Next(), canonical, c)
    {
      hide NeedMore, Sound, Step, Indented, TrueChoice, TellsContext;
      StepKeeps(View(), event);
      NextIsThere(events, eventsHead);
      var indention: bool := *;
      match state {
        case AtStreamStart => ok, c := EmitStreamStart(event);
        case AtFirstDocumentStart => ok, c := EmitDocumentStart(event, true);
        case AtDocumentStart => ok, c := EmitDocumentStart(event, false);
        case AtDocumentContent => ok, c := EmitDocumentContent(event);
        case AtDocumentEnd => ok, c := EmitDocumentEnd(event);
        case FlowSequenceFirstItem => ok, c := EmitFlowSequenceItem(event, true);
        case FlowSequenceItem => ok, c := EmitFlowSequenceItem(event, false);
        case FlowMappingFirstKey => ok, c := EmitFlowMappingKey(event, true);
        case FlowMappingKey => ok, c := EmitFlowMappingKey(event, false);
        case FlowMappingSimpleValue => ok, c := EmitFlowMappingValue(event);
        case FlowMappingValue => ok, c := EmitFlowMappingValue(event);
        case BlockSequenceFirstItem => ok, c := EmitBlockSequenceItem(event, true, indention);
        case BlockSequenceItem => ok, c := EmitBlockSequenceItem(event, false, indention);
        case BlockMappingFirstKey => ok, c := EmitBlockMappingKey(event, true);
        case BlockMappingKey => ok, c := EmitBlockMappingKey(event, false);
        case BlockMappingSimpleValue => ok, c := EmitBlockMappingValue(event);
        case BlockMappingValue => ok, c := EmitBlockMappingValue(event);
        case AtEnd => ok, c := false, Choice(false, false, false, bestIndent);
      }
    }

    method EmitStreamStart(event: Event) returns (ok: bool, ghost c: Choice)
      requires Sound(View()) && state.AtStreamStart?
      modifies `bestIndent, `state, `indent
      ensures ok <==> Step(old(View()), event, c).Some?
      ensures ok ==> View() == Step(old(View()), event, c).value && bestIndent == if 2 <= old(bestIndent) <= 9 then old(bestIndent) else 2
      ensures ok ==> InContext() && TrueChoice(old(View()), event, Next(), canonical, c)
    {
      c := Choice(false, false, false, bestIndent);
      if event != StreamStart {
        return false, c;
      }
      if bestIndent < 2 || bestIndent > 9 {
        bestIndent := 2;
      }
      indent := -1;
      state := AtFirstDocumentStart;
      return true, c;
    }

    method EmitDocumentStart(event: Event, first: bool) returns (ok: bool, ghost c: Choice)
      requires Sound(View()) && Margins() && (if first then state.AtFirstDocumentStart? else state.AtDocumentStart?)
      modifies `state
      ensures c.bestIndent == bestIndent && (ok <==> Step(old(View()), event, c).Some?)
      ensures ok ==> InContext() && TrueChoice(old(View()), event, Next(), canonical, c)
      ensures ok ==> View() == Step(old(View()), event, c).value
    {
      c := Choice(false, false, false, bestIndent);
      if event == DocumentStart {
        state := AtDocumentContent;
        return true, c;
      }
      if event == StreamEnd {
        state := AtEnd;
        return true, c;
      }
      return false, c;
    }

    method EmitDocumentContent(event: Event) returns (ok: bool, ghost c: Choice)
      requires Sound(View()) && Margins() && state.AtDocumentContent? && AtHead(event)
      modifies `state, `states, `indents, `indent, `mappingContext
      ensures c.bestIndent == bestIndent && (ok <==> Step(old(View()), event, c).Some?)
      ensures ok ==> InContext() && TrueChoice(old(View()), event, Next(), canonical, c)
      ensures ok ==> View() == Step(old(View()), event, c).value
    {
      states := states + [AtDocumentEnd];
      ok, c := EmitNode(event, true, false, false, false, Choice(false, false, false, bestIndent));
    }

    method EmitDocumentEnd(event: Event) returns (ok: bool, ghost c: Choice)
      requires Sound(View()) && Margins() && state.AtDocumentEnd?
      modifies `state
      ensures c.bestIndent == bestIndent && (ok <==> Step(old(View()), event, c).Some?)
      ensures ok ==> InContext() && TrueChoice(old(View()), event, Next(), canonical, c)
      ensures ok ==> View() == Step(old(View()), event, c).value
    {
      c := Choice(false, false, false, bestIndent);
      if event != DocumentEnd {
        return false, c;
      }
      state := AtDocumentStart;
      return true, c;
    }

    predicate AtHead(event: Event)
      reads this
    {
      eventsHead < |events| && event == events[eventsHead] && ((event.SequenceStart? || event.MappingStart?) ==> eventsHead + 1 < |events|)
    }

    method IncreaseIndent(flow: bool, indentless: bool)
      modifies `indents, `indent
      ensures View() == Machine.IncreaseIndent(old(View()), flow, indentless, bestIndent)
    {
      indents := indents + [indent];
      if indent < 0 {
        indent := if flow then bestIndent else 0;
      } else if !indentless {
        indent := indent + bestIndent;
      }
    }

    method PopState()
      requires states != []
      modifies `state, `states
      ensures View() == Pop(old(View()))
    {
      state := states[|states| - 1];
      states := states[..|states| - 1];
    }

    method PopIndent()
      requires indents != []
      modifies `indent, `indents
      ensures View() == Machine.PopIndent(old(View()))
    {
      indent := indents[|indents| - 1];
      indents := indents[..|indents| - 1];
    }

    method EmitFlowSequenceItem(event: Event, first: bool) returns (ok: bool, ghost c: Choice)
      requires Sound(View()) && Margins() && (if first then state.FlowSequenceFirstItem? else state.FlowSequenceItem?) && AtHead(event)
      modifies `state, `states, `indents, `indent, `flowLevel, `mappingContext
      ensures c.bestIndent == bestIndent && (ok <==> Step(old(View()), event, c).Some?)
      ensures ok ==> InContext() && TrueChoice(old(View()), event, Next(), canonical, c)
      ensures ok ==> View() == Step(old(View()), event, c).value
    {
      hide Step, Machine.EmitNode, Sound, TrueChoice, IsSimpleKey;
      ghost var m := View();
      StatesWithin(m);
      c := Choice(false, false, false, bestIndent);
      if first {
        IncreaseIndent(true, false);
        flowLevel := flowLevel + 1;
      }
      if event == SequenceEnd {
        StepWithin(m, event, c);
        EndTrue(m, event, Next(), canonical, c);
        flowLevel := flowLevel - 1;
        PopIndent();
        PopState();
        return true, c;
      }
      states := states + [FlowSequenceItem];
      ok, c := EmitNode(event, false, true, false, false, c);
      StepWithin(m, event, c);
      if ok {
        ItemTrue(m, event, Next(), canonical, c);
      }
    }

    method EmitFlowMappingKey(event: Event, first: bool) returns (ok: bool, ghost c: Choice)
      requires Sound(View()) && Margins() && (if first then state.FlowMappingFirstKey? else state.FlowMappingKey?) && AtHead(event)
      modifies `state, `states, `indents, `indent, `flowLevel, `mappingContext
      ensures c.bestIndent == bestIndent && (ok <==> Step(old(View()), event, c).Some?)
      ensures ok ==> InContext() && TrueChoice(old(View()), event, Next(), canonical, c)
      ensures ok ==> View() == Step(old(View()), event, c).value
      ensures ok && event != MappingEnd ==> (c.simple <==> !canonical && IsSimpleKey(event, Next()))
    {
      hide Step, Machine.EmitNode, Sound, TrueChoice, IsSimpleKey;
      ghost var m := View();
      StatesWithin(m);
      c := Choice(false, false, false, bestIndent);
      if first {
        IncreaseIndent(true, false);
        flowLevel := flowLevel + 1;
      }
      if event == MappingEnd {
        StepWithin(m, event, c);
        EndTrue(m, event, Next(), canonical, c);
        flowLevel := flowLevel - 1;
        PopIndent();
        PopState();
        return true, c;
      }
      var simple := CheckSimpleKey();
      simple := !canonical && simple;
      c := c.(simple := simple);
      states := states + [if simple then FlowMappingSimpleValue else FlowMappingValue];
      ok, c := EmitNode(event, false, false, true, simple, c);
      StepWithin(m, event, c);
      if ok {
        KeyTrue(m, event, Next(), canonical, c);
      }
    }

    method EmitFlowMappingValue(event: Event) returns (ok: bool, ghost c: Choice)
      requires Sound(View()) && Margins() && (state.FlowMappingSimpleValue? || state.FlowMappingValue?) && AtHead(event)
      modifies `state, `states, `indents, `indent, `mappingContext
      ensures c.bestIndent == bestIndent && (ok <==> Step(old(View()), event, c).Some?)
      ensures ok ==> InContext() && TrueChoice(old(View()), event, Next(), canonical, c)
      ensures ok ==> View() == Step(old(View()), event, c).value
    {
      hide Step, Machine.EmitNode, Sound, TrueChoice, IsSimpleKey;
      ghost var m := View();
      states := states + [FlowMappingKey];
      ok, c := EmitNode(event, false, false, true, false, Choice(false, false, false, bestIndent));
      StepWithin(m, event, c);
      if ok {
        ItemTrue(m, event, Next(), canonical, c);
      }
    }

    /** `indention`: whether only indentation has been written on the line, which is the printer's affair. */
    method EmitBlockSequenceItem(event: Event, first: bool, indention: bool) returns (ok: bool, ghost c: Choice)
      requires Sound(View()) && Margins() && (if first then state.BlockSequenceFirstItem? else state.BlockSequenceItem?) && AtHead(event) && InContext()
      modifies `state, `states, `indents, `indent, `mappingContext
      ensures c.bestIndent == bestIndent && (ok <==> Step(old(View()), event, c).Some?)
      ensures ok ==> InContext() && TrueChoice(old(View()), event, Next(), canonical, c)
      ensures ok ==> View() == Step(old(View()), event, c).value
      ensures c.indentless <==> old(mappingContext) && !indention
    {
      hide Step, Machine.EmitNode, Sound, TrueChoice, IsSimpleKey, Machine.PopIndent;
      ghost var m := View();
      StatesWithin(m);
      c := Choice(false, false, mappingContext && !indention, bestIndent);
      if first {
        IncreaseIndent(false, mappingContext && !indention);
      }
      if event == SequenceEnd {
        StepWithin(m, event, c);
        EndTrue(m, event, Next(), canonical, c);
        PopIndent();
        PopState();
        return true, c;
      }
      states := states + [BlockSequenceItem];
      ok, c := EmitNode(event, false, true, false, false, c);
      StepWithin(m, event, c);
      if ok {
        ItemTrue(m, event, Next(), canonical, c);
      }
    }

    method EmitBlockMappingKey(event: Event, first: bool) returns (ok: bool, ghost c: Choice)
      requires Sound(View()) && Margins() && (if first then state.BlockMappingFirstKey? else state.BlockMappingKey?) && AtHead(event)
      modifies `state, `states, `indents, `indent, `mappingContext
      ensures c.bestIndent == bestIndent && (ok <==> Step(old(View()), event, c).Some?)
      ensures ok ==> InContext() && TrueChoice(old(View()), event, Next(), canonical, c)
      ensures ok ==> View() == Step(old(View()), event, c).value
      ensures ok && event != MappingEnd ==> (c.simple <==> IsSimpleKey(event, Next()))
    {
      hide Step, Machine.EmitNode, Sound, TrueChoice, IsSimpleKey, Machine.PopIndent;
      ghost var m := View();
      StatesWithin(m);
      c := Choice(false, false, false, bestIndent);
      if first {
        IncreaseIndent(false, false);
      }
      if event == MappingEnd {
        StepWithin(m, event, c);
        EndTrue(m, event, Next(), canonical, c);
        PopIndent();
        PopState();
        return true, c;
      }
      var simple := CheckSimpleKey();
      c := c.(simple := simple);
      states := states + [if simple then BlockMappingSimpleValue else BlockMappingValue];
      ok, c := EmitNode(event, false, false, true, simple, c);
      StepWithin(m, event, c);
      if ok {
        KeyTrue(m, event, Next(), canonical, c);
      }
    }

    method EmitBlockMappingValue(event: Event) returns (ok: bool, ghost c: Choice)
      requires Sound(View()) && Margins() && (state.BlockMappingSimpleValue? || state.BlockMappingValue?) && AtHead(event)
      modifies `state, `states, `indents, `indent, `mappingContext
      ensures c.bestIndent == bestIndent && (ok <==> Step(old(View()), event, c).Some?)
      ensures ok ==> InContext() && TrueChoice(old(View()), event, Next(), canonical, c)
      ensures ok ==> View() == Step(old(View()), event, c).value
    {
      hide Step, Machine.EmitNode, Sound, TrueChoice, IsSimpleKey;
      ghost var m := View();
      states := states + [BlockMappingKey];
      ok, c := EmitNode(event, false, false, true, false, Choice(false, false, false, bestIndent));
      StepWithin(m, event, c);
      if ok {
        ItemTrue(m, event, Next(), canonical, c);
      }
    }

    /** A node. Its collections are in flow style if that is asked for, or if they are empty. */
    method EmitNode(event: Event, root: bool, sequence: bool, mapping: bool, simpleKey: bool, ghost c0: Choice) returns (ok: bool, ghost c: Choice)
      requires states != [] && AtHead(event) && indent >= -1 && bestIndent >= 2
      requires !Entering(states[|states| - 1]) && (mapping <==> InMapping(states[|states| - 1]))
      modifies `state, `states, `indents, `indent, `mappingContext
      ensures c == c0.(flow := c.flow) && (ok <==> Machine.EmitNode(old(View()), event, c).Some?)
      ensures ok ==> View() == Machine.EmitNode(old(View()), event, c).value && InContext()
      ensures event.SequenceStart? ==> (c.flow <==> canonical || event.flow || Next() == SequenceEnd)
      ensures event.MappingStart? ==> (c.flow <==> canonical || event.flow || Next() == MappingEnd)
    {
      c := c0;
      mappingContext := mapping;
      match event {
        case Alias(_) =>
          PopState();
          ok := true;
        case Scalar(_, _) =>
          var _ := EmitScalar();
          ok := true;
        case SequenceStart(flow, _) =>
          var empty := CheckEmptySequence();
          c := c.(flow := canonical || flow || empty);
          state := if flowLevel > 0 || canonical || flow || empty then FlowSequenceFirstItem else BlockSequenceFirstItem;
          ok := true;
        case MappingStart(flow, _) =>
          var empty := CheckEmptyMapping();
          c := c.(flow := canonical || flow || empty);
          state := if flowLevel > 0 || canonical || flow || empty then FlowMappingFirstKey else BlockMappingFirstKey;
          ok := true;
        case _ =>
          ok := false;
      }
    }

    /** A scalar, and the indentation that it is written with. */
    method EmitScalar() returns (written: int)
      requires states != [] && indent >= -1 && bestIndent >= 2
      modifies `state, `states, `indents, `indent
      ensures View() == Pop(old(View())) && written == Deeper(old(indent), true, false, bestIndent) >= 2
    {
      ghost var m := View();
      IncreaseIndent(true, false);
      written := indent;
      assert indents[..|indents| - 1] == m.indents;
      PopIndent();
      PopState();
    }

    method CheckEmptySequence() returns (r: bool)
      requires eventsHead <= |events|
      ensures r <==> eventsHead + 1 < |events| && events[eventsHead].SequenceStart? && events[eventsHead + 1] == SequenceEnd
    {
      if |events| - eventsHead < 2 {
        return false;
      }
      return events[eventsHead].SequenceStart? && events[eventsHead + 1] == SequenceEnd;
    }

    method CheckEmptyMapping() returns (r: bool)
      requires eventsHead <= |events|
      ensures r <==> eventsHead + 1 < |events| && events[eventsHead].MappingStart? && events[eventsHead + 1] == MappingEnd
    {
      if |events| - eventsHead < 2 {
        return false;
      }
      return events[eventsHead].MappingStart? && events[eventsHead + 1] == MappingEnd;
    }

    /** Whether the node at the head of the queue can be a simple key: it is short, on one line, and
        no collection but an empty one. */
    method CheckSimpleKey() returns (r: bool)
      requires eventsHead < |events| && AtHead(events[eventsHead])
      ensures r <==> IsSimpleKey(events[eventsHead], Next())
    {
      match events[eventsHead] {
        case Alias(size) =>
          return size <= 128;
        case Scalar(size, multiline) =>
          if multiline {
            return false;
          }
          return size <= 128;
        case SequenceStart(_, size) =>
          var empty := CheckEmptySequence();
          if !empty {
            return false;
          }
          return size <= 128;
        case MappingStart(_, size) =>
          var empty := CheckEmptyMapping();
          if !empty {
            return false;
          }
          return size <= 128;
        case _ =>
          return false;
      }
    }
  }

  /** Before the first item of a collection, the mapping context is whether it is within a mapping. */
  predicate TellsContext(state: State, states: seq<State>, mappingContext: bool)
  {
    Entering(state) ==> states != [] && (mappingContext <==> InMapping(states[|states| - 1]))
  }

  /** The continuation is one within a mapping. */
  predicate InMapping(s: State)
  {
    s.FlowMappingKey? || s.FlowMappingSimpleValue? || s.FlowMappingValue? || s.BlockMappingKey? || s.BlockMappingSimpleValue? || s.BlockMappingValue?
  }

  function NextOf(events: seq<Event>, k: nat): Event
  {
    if k + 1 < |events| then events[k + 1] else StreamEnd
  }

  // ---------------------------------------------------------------- what the choices are made by

  /** The choices follow from the events and the state: a key is simple if it can be one, and in flow
      style only where the output is not canonical; a collection is in flow style if that is asked
      for, or if it is empty; only in a mapping may a sequence go without indentation of its own. */
  predicate TrueChoice(m: Config, ev: Event, next: Event, canonical: bool, c: Choice)
  {
    && (AtKey(m.state) && ev != MappingEnd ==> (c.simple <==> (IsFlow(m.state) ==> !canonical) && IsSimpleKey(ev, next)))
    && (ev.SequenceStart? ==> (c.flow <==> canonical || ev.flow || next == SequenceEnd))
    && (ev.MappingStart? ==> (c.flow <==> canonical || ev.flow || next == MappingEnd))
    && (m.state.BlockSequenceFirstItem? && c.indentless ==> m.states != [] && InMapping(m.states[|m.states| - 1]))
    && (m.state.AtStreamStart? || 2 <= c.bestIndent <= 9)
  }

  lemma EndTrue(m: Config, ev: Event, next: Event, canonical: bool, c: Choice)
    requires Closes(m.state, ev) && 2 <= c.bestIndent <= 9
    requires m.state.BlockSequenceFirstItem? && c.indentless ==> m.states != [] && InMapping(m.states[|m.states| - 1])
    ensures TrueChoice(m, ev, next, canonical, c)
  {
  }

  lemma ItemTrue(m: Config, ev: Event, next: Event, canonical: bool, c: Choice)
    requires !AtKey(m.state) && 2 <= c.bestIndent <= 9
    requires ev.SequenceStart? ==> (c.flow <==> canonical || ev.flow || next == SequenceEnd)
    requires ev.MappingStart? ==> (c.flow <==> canonical || ev.flow || next == MappingEnd)
    requires m.state.BlockSequenceFirstItem? && c.indentless ==> m.states != [] && InMapping(m.states[|m.states| - 1])
    ensures TrueChoice(m, ev, next, canonical, c)
  {
  }

  lemma KeyTrue(m: Config, ev: Event, next: Event, canonical: bool, c: Choice)
    requires AtKey(m.state) && 2 <= c.bestIndent <= 9 && (c.simple <==> (IsFlow(m.state) ==> !canonical) && IsSimpleKey(ev, next))
    requires ev.SequenceStart? ==> (c.flow <==> canonical || ev.flow || next == SequenceEnd)
    requires ev.MappingStart? ==> (c.flow <==> canonical || ev.flow || next == MappingEnd)
    ensures TrueChoice(m, ev, next, canonical, c)
  {
  }

  /** So it was at every event emitted. */
  ghost predicate TrueChoices(events: seq<Event>, choices: seq<Choice>, canonical: bool)
  {
    |choices| <= |events| && forall k :: 0 <= k < |choices| ==> TrueAt(events, choices, k, canonical)
  }

  ghost predicate TrueAt(events: seq<Event>, choices: seq<Choice>, k: nat, canonical: bool)
    requires k < |choices| <= |events|
  {
    && (events[k].SequenceStart? || events[k].MappingStart? ==> k + 1 < |events|)
    && var m := Run(Fresh(0), events[..k], choices[..k]);
       m.Some? && TrueChoice(m.value, events[k], NextOf(events, k), canonical, choices[k])
  }

  lemma TruthStays(events: seq<Event>, choices: seq<Choice>, canonical: bool, e: Event)
    requires TrueChoices(events, choices, canonical)
    ensures TrueChoices(events + [e], choices, canonical)
  {
    hide Run;
    forall k | 0 <= k < |choices|
      ensures TrueAt(events + [e], choices, k, canonical)
    {
      assert TrueAt(events, choices, k, canonical);
      assert (events + [e])[..k] == events[..k];
    }
  }

  lemma OneMoreTrue(events: seq<Event>, choices: seq<Choice>, canonical: bool, m: Config, c: Choice)
    requires TrueChoices(events, choices, canonical) && |choices| < |events|
    requires Run(Fresh(0), events[..|choices|], choices) == Some(m)
    requires TrueChoice(m, events[|choices|], NextOf(events, |choices|), canonical, c)
    requires events[|choices|].SequenceStart? || events[|choices|].MappingStart? ==> |choices| + 1 < |events|
    ensures TrueChoices(events, choices + [c], canonical)
  {
    hide Run, TrueChoice;
    forall k | 0 <= k < |choices| + 1
      ensures TrueAt(events, choices + [c], k, canonical)
    {
      assert (choices + [c])[..k] == choices[..k];
      if k < |choices| {
        assert TrueAt(events, choices, k, canonical);
      } else {
        assert choices[..k] == choices;
      }
    }
  }

  /** The events of a node stand at `k`, where a key is due. */
  predicate KeyAt(events: seq<Event>, k: nat, n: Node)
  {
    k + |NodeEvents(n)| <= |events| && events[k..k + |NodeEvents(n)|] == NodeEvents(n)
  }

  /** The state that the emitter goes to after a key: where a simple one is due, or a complex one. */
  function AfterKey(s: State, n: Node, canonical: bool): State
  {
    if IsFlow(s) then (if OneLine(n) && !canonical then FlowMappingSimpleValue else FlowMappingValue)
    else if OneLine(n) then BlockMappingSimpleValue else BlockMappingValue
  }

  /** Wherever in a run a whole key has been emitted, the emitter has gone on as after a simple key exactly
      if the key is written on one line. */
  lemma KeyDecides(events: seq<Event>, choices: seq<Choice>, canonical: bool, k: nat, n: Node)
    requires TrueChoices(events, choices, canonical) && KeyAt(events, k, n) && k + |NodeEvents(n)| <= |choices|
    ensures var m := Run(Fresh(0), events[..k], choices[..k]); var j := k + |NodeEvents(n)|;
      m.Some? && (AtKey(m.value.state) ==>
        var m' := Run(Fresh(0), events[..j], choices[..j]); m'.Some? && m'.value.state == AfterKey(m.value.state, n, canonical))
  {
    hide Run, NodeEvents, TrueChoice, Step;
    var evs := NodeEvents(n);
    var j := k + |evs|;
    assert TrueAt(events, choices, k, canonical);
    var m := Run(Fresh(0), events[..k], choices[..k]).value;
    if AtKey(m.state) {
      assert events[..j] == events[..k] + evs && choices[..j][..k] == choices[..k];
      RunAppend(Fresh(0), events[..k], evs, choices[..j]);
      NodeRestores(m, n, choices[..j][k..]);
      assert choices[..j][k..][0] == choices[k];
      KeyToldApart(events, k, n);
      SimpleIsOneLine(m, events[k], NextOf(events, k), canonical, choices[k], n);
    }
  }

  lemma SimpleIsOneLine(m: Config, ev: Event, next: Event, canonical: bool, c: Choice, n: Node)
    requires Sound(m) && AtKey(m.state) && TrueChoice(m, ev, next, canonical, c) && ev != MappingEnd
    requires IsSimpleKey(ev, next) <==> OneLine(n)
    ensures AfterNode(m, c).state == AfterKey(m.state, n, canonical)
  {
  }

  lemma KeyToldApart(events: seq<Event>, k: nat, n: Node)
    requires KeyAt(events, k, n)
    ensures events[k] != MappingEnd && (IsSimpleKey(events[k], NextOf(events, k)) <==> OneLine(n))
  {
    var evs := NodeEvents(n);
    assert events[k] == events[k..k + |evs|][0] == evs[0];
    if n.SequenceNode? {
      FirstOfItems(n.items);
      assert events[k + 1] == events[k..k + |evs|][1] == ItemEvents(n.items)[0];
    } else if n.MappingNode? {
      FirstOfPairs(n.pairs);
      assert events[k + 1] == events[k..k + |evs|][1] == PairEvents(n.pairs)[0];
    }
  }

  /** The node is short and written on one line, and no collection but an empty one. */
  predicate OneLine(n: Node)
  {
    match n
    case AliasNode(size) => size <= 128
    case ScalarNode(size, multiline) => !multiline && size <= 128
    case SequenceNode(_, size, items) => items.Nil? && size <= 128
    case MappingNode(_, size, pairs) => pairs.PNil? && size <= 128
  }

  /** When a node comes to the head of the queue, what waits there is enough to see whether it is empty,
      and whether it can be a simple key. */
  lemma ChecksSeeNode(q: seq<Event>, n: Node, rest: seq<Event>, later: seq<Event>)
    requires q != [] && !NeedMore(q) && q + later == NodeEvents(n) + rest
    ensures var next := if |q| > 1 then q[1] else StreamEnd;
      && (q[0].SequenceStart? && next == SequenceEnd <==> n.SequenceNode? && n.items.Nil?)
      && (q[0].MappingStart? && next == MappingEnd <==> n.MappingNode? && n.pairs.PNil?)
      && (IsSimpleKey(q[0], next) <==> OneLine(n))
  {
    assert (q + later)[0] == q[0] && (NodeEvents(n) + rest)[0] == NodeEvents(n)[0];
    if n.SequenceNode? {
      StartHasNext(q);
      FirstOfItems(n.items);
      assert (q + later)[1] == q[1] && (NodeEvents(n) + rest)[1] == ItemEvents(n.items)[0];
    } else if n.MappingNode? {
      StartHasNext(q);
      FirstOfPairs(n.pairs);
      assert (q + later)[1] == q[1] && (NodeEvents(n) + rest)[1] == PairEvents(n.pairs)[0];
    }
  }

  lemma FirstOfItems(ns: Nodes)
    ensures ItemEvents(ns)[0] == SequenceEnd <==> ns.Nil?
  {
    if ns.Cons? {
      assert ItemEvents(ns)[0] == NodeEvents(ns.head)[0];
    }
  }

  lemma FirstOfPairs(ps: Pairs)
    ensures PairEvents(ps)[0] == MappingEnd <==> ps.PNil?
  {
    if ps.PCons? {
      assert PairEvents(ps)[0] == NodeEvents(ps.key)[0];
    }
  }

  /** A node that begins with `e`, before `next`, is a simple key. */
  predicate IsSimpleKey(e: Event, next: Event)
  {
    match e
    case Alias(size) => size <= 128
    case Scalar(size, multiline) => !multiline && size <= 128
    case SequenceStart(_, size) => next == SequenceEnd && size <= 128
    case MappingStart(_, size) => next == MappingEnd && size <= 128
    case _ => false
  }

  lemma StepKeeps(m: Config, ev: Event)
    requires Sound(m) && Indented(m)
    ensures forall c {:trigger Step(m, ev, c)} :: Step(m, ev, c).Some? ==> !m.state.AtEnd? && Sound(Step(m, ev, c).value)
    ensures forall c {:trigger Step(m, ev, c)} :: Step(m, ev, c).Some? && (m.state.AtStreamStart? || c.bestIndent >= 0) ==>
      Indented(Step(m, ev, c).value) && !Step(m, ev, c).value.state.AtStreamStart?
  {
    hide Step, Sound, Indented;
    forall c: Choice
      ensures Step(m, ev, c).Some? ==> !m.state.AtEnd? && Sound(Step(m, ev, c).value)
      ensures Step(m, ev, c).Some? && (m.state.AtStreamStart? || c.bestIndent >= 0) ==> Indented(Step(m, ev, c).value) && !Step(m, ev, c).value.state.AtStreamStart?
    {
      StepKeepsSound(m, ev, c);
      NoStepAtEnd(m, ev, c);
      if m.state.AtStreamStart? || c.bestIndent >= 0 {
        StepIndented(m, ev, c);
      }
    }
  }

  /** A step within a collection, with all its parts there. */
  lemma StepWithin(m: Config, ev: Event, c: Choice)
    requires Sound(m) && (Entering(m.state) || Inside(m.state))
    ensures var e := Enter(m, c); var b := Push(e, After(m.state, c.simple));
      && e.states == m.states != [] && |e.indents| == |m.states| && b.states != []
      && Step(m, ev, c) == if Closes(m.state, ev) then Some(Leave(e, IsFlow(m.state))) else EmitNode(b, ev, c)
  {
    hide Enter, EmitNode, Pop, After;
    EnterFacts(m, c);
  }

  lemma StatesWithin(m: Config)
    requires Sound(m) && (Entering(m.state) || Inside(m.state))
    ensures m.states != [] && (Inside(m.state) ==> m.indents != []) && !Entering(m.states[|m.states| - 1])
  {
  }

  lemma NoStepAtEnd(m: Config, ev: Event, c: Choice)
    requires Sound(m)
    ensures m.state.AtEnd? ==> Step(m, ev, c).None?
  {
  }

  lemma {:induction false} FeedSnoc(q: seq<Event>, evs: seq<Event>, e: Event)
    ensures Feed(q, evs + [e]) == Drained(Feed(q, evs) + [e])
    decreases |evs|
  {
    if evs == [] {
      assert [] + [e] == [e] && [e][1..] == [];
    } else {
      assert (evs + [e])[1..] == evs[1..] + [e];
      FeedSnoc(Drained(q + [evs[0]]), evs[1..], e);
    }
  }

  lemma DrainedStep(events: seq<Event>, head: nat)
    requires head < |events| && !NeedMore(events[head..])
    ensures Drained(events[head + 1..]) == Drained(events[head..])
  {
    assert events[head..][1..] == events[head + 1..];
  }

  /** One more event in a run; if it is refused, no stream begins like this. */
  lemma RunSnoc(events: seq<Event>, choices: seq<Choice>, head: nat, m: Config, c: Choice)
    requires head < |events| && |choices| == head && Sound(m) && Run(Fresh(0), events[..head], choices) == Some(m)
    ensures Step(m, events[head], c).Some? ==> Run(Fresh(0), events[..head + 1], choices + [c]) == Step(m, events[head], c)
    ensures Step(m, events[head], c).None? ==> forall ds {:trigger DocumentEvents(ds)} :: !(events <= [StreamStart] + DocumentEvents(ds))
  {
    hide InSequence, EmitNode, Sound, StepInside;
    var evs, cs := events[..head + 1], choices + [c];
    assert evs == events[..head] + [events[head]] && cs[..head] == choices && cs[head..] == [c];
    RunAppend(Fresh(0), events[..head], [events[head]], cs);
    RunOne(m, [events[head]], [c]);
    if Step(m, events[head], c).None? {
      forall ds | events <= [StreamStart] + DocumentEvents(ds)
        ensures false
      {
        assert ([StreamStart] + DocumentEvents(ds))[..head + 1] == evs;
        PrefixRuns([StreamStart] + DocumentEvents(ds), ds, head + 1, cs);
      }
    }
  }

  /** No part of a stream is refused. */
  lemma PrefixRuns(evs: seq<Event>, ds: Nodes, k: nat, cs: seq<Choice>)
    requires IsStream(evs, ds) && k <= |evs| && |cs| == k
    ensures Run(Fresh(0), evs[..k], cs).Some?
  {
    var more := seq(|evs| - k, _ => Choice(false, false, false, 0));
    AcceptsStreams(evs, cs + more, 0);
    assert evs == evs[..k] + evs[k..] && (cs + more)[..k] == cs;
    RunAppend(Fresh(0), evs[..k], evs[k..], cs + more);
  }

  /** A collection start is never emitted before the event after it is there. */
  lemma NextIsThere(events: seq<Event>, head: nat)
    requires head < |events| && !NeedMore(events[head..])
    ensures events[head].SequenceStart? || events[head].MappingStart? ==> head + 1 < |events|
  {
    if events[head].SequenceStart? || events[head].MappingStart? {
      StartHasNext(events[head..]);
    }
  }

  /** When the events so far are a whole stream, nothing waits, and the machine is at its end. */
  lemma StreamsEnd(events: seq<Event>, choices: seq<Choice>, head: nat, m: Config)
    requires head <= |events| && |choices| == head && Sound(m) && Run(Fresh(0), events[..head], choices) == Some(m)
    requires NeedMore(events[head..]) && Drained(events[head..]) == Feed([], events)
    ensures events[head..] == Feed([], events)
    ensures forall ds {:trigger IsStream(events, ds)} :: IsStream(events, ds) ==> head == |events| && m.state == AtEnd
  {
    hide Run, Feed, NeedMore, Sound;
    forall ds | IsStream(events, ds)
      ensures head == |events| && m.state == AtEnd
    {
      StreamEnds(events, choices, head, m, ds);
    }
  }

  lemma StreamEnds(events: seq<Event>, choices: seq<Choice>, head: nat, m: Config, ds: Nodes)
    requires head <= |events| && |choices| == head && Sound(m) && Run(Fresh(0), events[..head], choices) == Some(m)
    requires events[head..] == Feed([], events) && IsStream(events, ds)
    ensures head == |events| && m.state == AtEnd
  {
    hide Run, Feed, NeedMore, Sound, Drained;
    assert events[0..] == events && events[0..0] == [];
    StreamDrains(events, ds, 0, []);
    assert events[..head] == events;
    AcceptsStreams(events, choices, 0);
  }
}
