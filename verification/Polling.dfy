/** Workers count the queries they run while a poller reads the counts, one number at a time. */
module Polling {

  /** For each query, a count per worker. */
  type Counts = seq<seq<nat>>

  /** Where the poller is: between queries, or in the sum for query `q` with the first `w` workers read. */
  datatype Poller = Idle | Reading(q: nat, w: nat, sum: nat)

  /** `prevQs` is the poller's own memory. `reported` has every difference it has come to, and `seen`
      the counts it read last; `taken` has those of the sum it is in. */
  datatype State = State(counts: Counts, prevQs: seq<int>, workload: set<nat>, poller: Poller,
                         reported: seq<seq<int>>, seen: Counts, taken: seq<nat>)

  datatype Step =
    | Increment(q: nat, w: nat)     // a worker has run a query
    | Begin(q: nat)                 // the poller turns to a query of its workload
    | Read                          // and reads one worker's count
    | Finish                        // and notes the difference
    | Change(workload: set<nat>)    // the poller is interrupted between queries and gets a new workload

  function Sum(xs: seq<nat>): nat
  {
    if xs == [] then 0 else Sum(xs[..|xs| - 1]) + xs[|xs| - 1]
  }

  function SumInts(xs: seq<int>): int
  {
    if xs == [] then 0 else SumInts(xs[..|xs| - 1]) + xs[|xs| - 1]
  }

  predicate Enabled(s: State, step: Step)
  {
    match step
    case Increment(q, w) => q < |s.counts| && w < |s.counts[q]|
    case Begin(q) => s.poller == Idle && q in s.workload && q < |s.counts|
    case Read => s.poller.Reading? && s.poller.q < |s.counts| && s.poller.w < |s.counts[s.poller.q]|
    case Finish => s.poller.Reading? && s.poller.q < |s.counts| && s.poller.w == |s.counts[s.poller.q]|
    case Change(_) => s.poller == Idle
  }

  function Next(s: State, step: Step): State
    requires Sound(s) && Enabled(s, step)
  {
    match step
    case Increment(q, w) => s.(counts := s.counts[q := s.counts[q][w := s.counts[q][w] + 1]])
    case Begin(q) => s.(poller := Reading(q, 0, 0), taken := [])
    case Read =>
      var (q, w, c) := (s.poller.q, s.poller.w, s.counts[s.poller.q][s.poller.w]);
      s.(poller := Reading(q, w + 1, s.poller.sum + c), taken := s.taken + [c])
    case Finish =>
      var q := s.poller.q;
      var diff := s.poller.sum - s.prevQs[q];
      s.(poller := Idle, prevQs := s.prevQs[q := s.prevQs[q] + diff],
         reported := s.reported[q := s.reported[q] + [diff]], seen := s.seen[q := s.taken])
    case Change(workload) => s.(workload := workload)
  }

  /** No count is above another. */
  predicate AtMost(a: seq<nat>, b: seq<nat>)
  {
    |a| == |b| && forall w :: 0 <= w < |a| ==> a[w] <= b[w]
  }

  predicate Within(s: State, q: nat)
    requires q < |s.counts| == |s.seen| == |s.prevQs| == |s.reported|
  {
    && AtMost(s.seen[q], s.counts[q]) && s.prevQs[q] == Sum(s.seen[q]) == SumInts(s.reported[q])
    && forall d <- s.reported[q] :: d >= 0
  }

  predicate Sound(s: State)
  {
    && |s.counts| == |s.seen| == |s.prevQs| == |s.reported|
    && (forall q :: 0 <= q < |s.counts| ==> Within(s, q))
    && match s.poller
       case Idle => true
       case Reading(q, w, sum) =>
         && q < |s.counts| && w <= |s.counts[q]| == |s.seen[q]| && |s.taken| == w && sum == Sum(s.taken)
         && forall v :: 0 <= v < w ==> s.seen[q][v] <= s.taken[v] <= s.counts[q][v]
  }

  lemma {:induction false} SumAtMost(a: seq<nat>, b: seq<nat>)
    requires AtMost(a, b)
    ensures Sum(a) <= Sum(b)
  {
    if a == [] {
    } else {
      SumAtMost(a[..|a| - 1], b[..|b| - 1]);
    }
  }

  /** Every step keeps all differences non-negative and their sum at what was seen last. */
  lemma NextKeeps(s: State, step: Step)
    requires Sound(s) && Enabled(s, step)
    ensures Sound(Next(s, step))
  {
    var n := Next(s, step);
    match step
    case Increment(q, w) =>
      forall p | 0 <= p < |n.counts|
        ensures Within(n, p)
      {
        assert Within(s, p);
      }
    case Begin(q) =>
      assert Within(s, q);
      forall p | 0 <= p < |n.counts|
        ensures Within(n, p)
      {
        assert Within(s, p);
      }
    case Read =>
      var q, c := s.poller.q, s.counts[s.poller.q][s.poller.w];
      assert (s.taken + [c])[..|s.taken|] == s.taken;
      assert Within(s, q);
      forall p | 0 <= p < |n.counts|
        ensures Within(n, p)
      {
        assert Within(s, p);
      }
    case Finish =>
      FinishKeeps(s, s.poller.q);
    case Change(_) =>
      forall p | 0 <= p < |n.counts|
        ensures Within(n, p)
      {
        assert Within(s, p);
      }
  }

  lemma FinishKeeps(s: State, q: nat)
    requires Sound(s) && Enabled(s, Finish) && q == s.poller.q
    ensures Sound(Next(s, Finish)) && s.poller.sum - s.prevQs[q] >= 0
  {
    var n := Next(s, Finish);
    assert Within(s, q);
    SumAtMost(s.seen[q], s.taken);
    var diff := s.poller.sum - s.prevQs[q];
    assert (s.reported[q] + [diff])[..|s.reported[q]|] == s.reported[q];
    forall p | 0 <= p < |n.counts|
      ensures Within(n, p)
    {
      assert Within(s, p);
    }
  }

  lemma {:induction false} SumZeros(xs: seq<nat>)
    requires forall i :: 0 <= i < |xs| ==> xs[i] == 0
    ensures Sum(xs) == 0
  {
    if xs == [] {
    } else {
      SumZeros(xs[..|xs| - 1]);
    }
  }

  /** Nothing is counted yet. */
  function Start(queries: nat, workers: nat): (s: State)
    ensures Sound(s) && |s.counts| == queries
  {
    var zeros: seq<nat> := seq(workers, _ => 0);
    SumZeros(zeros);
    State(seq(queries, _ => zeros), seq(queries, _ => 0), {}, Idle, seq(queries, _ => []), seq(queries, _ => zeros), [])
  }

  // ---------------------------------------------------------------- whole runs

  predicate CanRun(s: State, steps: seq<Step>)
    requires Sound(s)
    decreases |steps|
  {
    steps != [] ==>
      && Enabled(s, steps[0])
      && (NextKeeps(s, steps[0]); CanRun(Next(s, steps[0]), steps[1..]))
  }

  function Run(s: State, steps: seq<Step>): (r: State)
    requires Sound(s) && CanRun(s, steps)
    ensures Sound(r)
    decreases |steps|
  {
    if steps == [] then s
    else
      NextKeeps(s, steps[0]);
      Run(Next(s, steps[0]), steps[1..])
  }

  lemma {:induction false} RunAppend(s: State, a: seq<Step>, b: seq<Step>)
    requires Sound(s) && CanRun(s, a + b)
    ensures CanRun(s, a) && CanRun(Run(s, a), b) && Run(s, a + b) == Run(Run(s, a), b)
    decreases |a|
  {
    if a == [] {
      assert a + b == b;
    } else {
      assert (a + b)[1..] == a[1..] + b;
      NextKeeps(s, a[0]);
      RunAppend(Next(s, a[0]), a[1..], b);
    }
  }

  /** How often the workers have run query `q`. */
  function Increments(steps: seq<Step>, q: nat): nat
  {
    if steps == [] then 0
    else (match steps[0] case Increment(p, _) => (if p == q then 1 else 0) case _ => 0) + Increments(steps[1..], q)
  }

  lemma {:induction false} IncrementsAppend(a: seq<Step>, b: seq<Step>, q: nat)
    ensures Increments(a + b, q) == Increments(a, q) + Increments(b, q)
  {
    if a == [] {
      assert a + b == b;
    } else {
      assert (a + b)[1..] == a[1..] + b;
      IncrementsAppend(a[1..], b, q);
    }
  }

  lemma {:induction false} SumUpdate(xs: seq<nat>, w: nat, x: nat)
    requires w < |xs|
    ensures Sum(xs[w := x]) == Sum(xs) - xs[w] + x
  {
    var n := |xs| - 1;
    if w < n {
      assert xs[w := x][..n] == xs[..n][w := x];
      SumUpdate(xs[..n], w, x);
    } else {
      assert xs[w := x][..n] == xs[..n];
    }
  }

  /** The counts of a query grow by what the workers run of it, worker by worker. */
  lemma {:induction false} RunCounts(s: State, steps: seq<Step>, q: nat)
    requires Sound(s) && CanRun(s, steps) && q < |s.counts|
    ensures var r := Run(s, steps);
      |r.counts| == |s.counts| && AtMost(s.counts[q], r.counts[q]) && Sum(r.counts[q]) == Sum(s.counts[q]) + Increments(steps, q)
    decreases |steps|
  {
    if steps == [] {
    } else {
      NextKeeps(s, steps[0]);
      if steps[0].Increment? {
        var p, w := steps[0].q, steps[0].w;
        SumUpdate(s.counts[p], w, s.counts[p][w] + 1);
      }
      RunCounts(Next(s, steps[0]), steps[1..], q);
    }
  }

  /** While the poller is in the sum for `q`: what it takes lies between the counts at its
      beginning and those now. */
  lemma {:induction false} TakesBetween(s: State, steps: seq<Step>, q: nat, low: seq<nat>)
    requires Sound(s) && CanRun(s, steps) && Finish !in steps
    requires s.poller.Reading? && s.poller.q == q && AtMost(low, s.counts[q]) && AtMost(low[..s.poller.w], s.taken)
    ensures var r := Run(s, steps);
      && r.poller.Reading? && r.poller.q == q && |r.counts[q]| == |low| && AtMost(low[..r.poller.w], r.taken)
      && r.reported == s.reported
    decreases |steps|
  {
    if steps == [] {
    } else {
      NextKeeps(s, steps[0]);
      var n := Next(s, steps[0]);
      assert steps[0] in steps && forall x :: x in steps[1..] ==> x in steps;
      TakesBetween(n, steps[1..], q, low);
    }
  }

  /** Without a poll of `q`, nothing is reported of it. */
  lemma {:induction false} NotPolled(s: State, steps: seq<Step>, q: nat)
    requires Sound(s) && CanRun(s, steps) && q < |s.counts| && Begin(q) !in steps && (s.poller.Reading? ==> s.poller.q != q)
    ensures var r := Run(s, steps); |r.counts| == |s.counts| && r.reported[q] == s.reported[q]
    decreases |steps|
  {
    if steps == [] {
    } else {
      NextKeeps(s, steps[0]);
      assert steps[0] in steps && forall x :: x in steps[1..] ==> x in steps;
      NotPolled(Next(s, steps[0]), steps[1..], q);
    }
  }

  /** From the beginning of a poll of `q` to its end: the differences reported so far add up to no less
      than was counted when it began, and to no more than has been counted since. */
  lemma PollAddsUp(s: State, during: seq<Step>, q: nat)
    requires Sound(s) && Finish !in during && CanRun(s, [Begin(q)] + during + [Finish])
    ensures var r := Run(s, [Begin(q)] + during + [Finish]);
      && r.poller == Idle && q < |s.counts| == |r.counts|
      && Sum(s.counts[q]) <= SumInts(r.reported[q]) <= Sum(s.counts[q]) + Increments(during, q)
  {
    var steps := [Begin(q)] + during + [Finish];
    assert steps[0] == Begin(q) && steps[1..] == during + [Finish];
    var b := Next(s, Begin(q));
    NextKeeps(s, Begin(q));
    RunAppend(b, during, [Finish]);
    assert Within(s, q);
    TakesBetween(b, during, q, s.counts[q]);
    RunCounts(b, during, q);
    var e := Run(b, during);
    assert [Finish][0] == Finish && [Finish][1..] == [];
    assert s.counts[q][..e.poller.w] == s.counts[q];
    SumAtMost(s.counts[q], e.taken);
    SumAtMost(e.taken, e.counts[q]);
    FinishKeeps(e, q);
    assert Within(Next(e, Finish), q);
  }

  /** In every run from the start, whatever the workers do while the poller reads: no difference is
      negative, and after the last poll of a query its differences add up to what the workers had run of
      it between the beginning and the end of that poll. What came later is still to be told. */
  lemma DifferencesAddUp(queries: nat, workers: nat, before: seq<Step>, during: seq<Step>, after: seq<Step>, q: nat)
    requires Finish !in during && Begin(q) !in after
    requires CanRun(Start(queries, workers), before + ([Begin(q)] + during + [Finish] + after))
    ensures var steps := before + ([Begin(q)] + during + [Finish] + after);
      var r := Run(Start(queries, workers), steps);
      && q < |r.reported| && (forall p, d :: 0 <= p < |r.reported| && d in r.reported[p] ==> d >= 0)
      && Increments(before, q) <= SumInts(r.reported[q]) <= Increments(before, q) + Increments(during, q)
      && Sum(r.counts[q]) == Increments(steps, q)
  {
    var s, poll := Start(queries, workers), [Begin(q)] + during + [Finish];
    RunAppend(s, before, poll + after);
    var b := Run(s, before);
    RunAppend(b, poll, after);
    PollAddsUp(b, during, q);
    NotPolled(Run(b, poll), after, q);
    StartCounts(queries, workers, before, q);
    StartCounts(queries, workers, before + (poll + after), q);
    var r := Run(s, before + (poll + after));
    forall p, d | 0 <= p < |r.reported| && d in r.reported[p]
      ensures d >= 0
    {
      assert Within(r, p);
    }
  }

  /** The counts are those of the queries run. */
  lemma StartCounts(queries: nat, workers: nat, steps: seq<Step>, q: nat)
    requires CanRun(Start(queries, workers), steps)
    ensures var r := Run(Start(queries, workers), steps); |r.counts| == queries && (q < queries ==> Sum(r.counts[q]) == Increments(steps, q))
  {
    if q < queries {
      SumZeros(seq(workers, _ => 0));
      RunCounts(Start(queries, workers), steps, q);
    } else {
      RunSize(Start(queries, workers), steps);
    }
  }

  lemma {:induction false} RunSize(s: State, steps: seq<Step>)
    requires Sound(s) && CanRun(s, steps)
    ensures |Run(s, steps).counts| == |s.counts|
    decreases |steps|
  {
    if steps == [] {
    } else {
      NextKeeps(s, steps[0]);
      RunSize(Next(s, steps[0]), steps[1..]);
    }
  }

  /** An undisturbed poll of a query: its difference is the rest, all counts are seen, and none is lost. */
  lemma PollCatchesUp(s: State, q: nat)
    requires Sound(s) && s.poller == Idle && q in s.workload && q < |s.counts|
    ensures var r := Polled(s, q);
      && Sound(r) && r.seen[q] == s.counts[q] && r.reported[q] == s.reported[q] + [Sum(s.counts[q]) - Sum(s.seen[q])]
      && r.counts == s.counts && forall p :: 0 <= p < |s.counts| && p != q ==> r.seen[p] == s.seen[p] && r.reported[p] == s.reported[p]
  {
    var b := Next(s, Begin(q));
    NextKeeps(s, Begin(q));
    ReadsAll(b, q, |s.counts[q]|);
    assert Within(s, q);
    FinishKeeps(Reads(b, |s.counts[q]|), q);
  }

  /** A poller that is interrupted has the new workload and no other: of all queries, those in it can be polled next. */
  lemma ChangeGivesWorkload(s: State, workload: set<nat>, q: nat)
    requires Sound(s) && s.poller == Idle
    ensures Enabled(s, Change(workload)) && (Enabled(Next(s, Change(workload)), Begin(q)) <==> q in workload && q < |s.counts|)
  {
  }

  /** From any place between two polls, a poller that is given a workload can poll each of its queries. Each poll
      ends after as many reads as there are workers, and reports the rest. */
  lemma WorkloadIsPolled(s: State, workload: set<nat>, q: nat)
    requires Sound(s) && s.poller == Idle && q in workload && q < |s.counts|
    ensures var steps := [Change(workload), Begin(q)] + seq(|s.counts[q]|, _ => Read) + [Finish];
      && CanRun(s, steps) && var r := Run(s, steps);
      && r.poller == Idle && r.workload == workload && r.counts == s.counts
      && r.reported[q] == s.reported[q] + [Sum(s.counts[q]) - Sum(s.seen[q])]
  {
    var n := |s.counts[q]|;
    var middle, end := seq(n, _ => Read), [Finish];
    var steps := [Change(workload), Begin(q)] + middle + end;
    var c := Next(s, Change(workload));
    NextKeeps(s, Change(workload));
    NextKeeps(c, Begin(q));
    var b := Next(c, Begin(q));
    PollCatchesUp(c, q);
    ReadsRun(b, n, end);
    assert steps[1..] == [Begin(q)] + (middle + end) && steps[1..][1..] == middle + end;
    assert end[0] == Finish && end[1..] == [];
    assert Within(c, q);
    FinishKeeps(Reads(b, n), q);
    assert Run(Next(Reads(b, n), Finish), end[1..]) == Next(Reads(b, n), Finish);
  }

  /** Reads in a row, as a run. */
  lemma {:induction false} ReadsRun(s: State, n: nat, rest: seq<Step>)
    requires Sound(s) && s.poller.Reading? && s.poller.w + n <= |s.counts[s.poller.q]|
    requires CanRun(Reads(s, n), rest)
    ensures CanRun(s, seq(n, _ => Read) + rest) && Run(s, seq(n, _ => Read) + rest) == Run(Reads(s, n), rest)
    decreases n
  {
    hide Sum, AtMost;
    if n == 0 {
      assert seq(n, _ => Read) + rest == rest;
    } else {
      NextKeeps(s, Read);
      ReadsRun(Next(s, Read), n - 1, rest);
      var steps := seq(n, _ => Read) + rest;
      assert steps[0] == Read && steps[1..] == seq(n - 1, _ => Read) + rest;
    }
  }

  /** `n` reads in a row. */
  function Reads(s: State, n: nat): (r: State)
    requires Sound(s) && s.poller.Reading? && s.poller.w + n <= |s.counts[s.poller.q]|
    ensures Sound(r) && r.poller.Reading? && r.poller.q == s.poller.q && r.poller.w == s.poller.w + n && r.counts == s.counts
    ensures r == s.(poller := r.poller, taken := r.taken)
    decreases n
  {
    if n == 0 then s
    else
      NextKeeps(s, Read);
      Reads(Next(s, Read), n - 1)
  }

  lemma {:induction false} ReadsAll(s: State, q: nat, n: nat)
    requires Sound(s) && s.poller.Reading? && s.poller.q == q && s.poller.w + n <= |s.counts[q]| && s.taken == s.counts[q][..s.poller.w]
    ensures Reads(s, n).taken == s.counts[q][..s.poller.w + n]
    decreases n
  {
    if n == 0 {
    } else {
      NextKeeps(s, Read);
      assert s.counts[q][..s.poller.w + 1] == s.counts[q][..s.poller.w] + [s.counts[q][s.poller.w]];
      ReadsAll(Next(s, Read), q, n - 1);
    }
  }

  function Polled(s: State, q: nat): State
    requires Sound(s) && s.poller == Idle && q in s.workload && q < |s.counts|
  {
    NextKeeps(s, Begin(q));
    Next(Reads(Next(s, Begin(q)), |s.counts[q]|), Finish)
  }
}
