/** Choosing queries at random, in proportion to their rates. Numbers are exact. */
module QueryTable {
  import opened Wrappers

  datatype Query = Query(id: int, qps: real)

  /** Python's `int` of a rate. */
  function Int(x: real): (r: int)
    requires x >= 0.0
    ensures r as real <= x < r as real + 1.0
  {
    x.Floor
  }

  predicate Rates(qs: seq<Query>)
  {
    forall q <- qs :: q.qps >= 0.0
  }

  function Total(qs: seq<Query>): (t: int)
    requires Rates(qs)
    ensures t >= 0
  {
    if qs == [] then 0 else Total(qs[..|qs| - 1]) + Int(qs[|qs| - 1].qps)
  }

  function Sum(qs: seq<Query>): (s: real)
    requires Rates(qs)
    ensures s >= 0.0
  {
    if qs == [] then 0.0 else Sum(qs[..|qs| - 1]) + qs[|qs| - 1].qps
  }

  /** All rates are whole numbers. */
  predicate Whole(qs: seq<Query>)
    requires Rates(qs)
  {
    forall q <- qs :: Int(q.qps) as real == q.qps
  }

  /** Cutting rates down to whole numbers loses something exactly if they are not. */
  lemma {:induction false} TotalIsSum(qs: seq<Query>)
    requires Rates(qs)
    ensures Total(qs) as real <= Sum(qs)
    ensures Total(qs) as real == Sum(qs) <==> Whole(qs)
  {
    if qs == [] {
    } else {
      var (init, last) := (qs[..|qs| - 1], qs[|qs| - 1]);
      TotalIsSum(init);
      assert qs == init + [last];
      assert Whole(qs) <==> Whole(init) && Int(last.qps) as real == last.qps;
    }
  }

  predicate ByRate(qs: seq<Query>)
  {
    forall i, j :: 0 <= i < j < |qs| ==> qs[i].qps <= qs[j].qps
  }

  // ---------------------------------------------------------------- sorting does not change the sums

  function Insert(q: Query, qs: seq<Query>): (r: seq<Query>)
    ensures |r| == |qs| + 1
  {
    if qs == [] || q.qps >= qs[|qs| - 1].qps then qs + [q] else Insert(q, qs[..|qs| - 1]) + [qs[|qs| - 1]]
  }

  /** The queries in order of their rates. */
  function Sorted(qs: seq<Query>): (r: seq<Query>)
    ensures |r| == |qs|
  {
    if qs == [] then [] else Insert(qs[|qs| - 1], Sorted(qs[..|qs| - 1]))
  }

  lemma {:induction false} InsertKeeps(q: Query, qs: seq<Query>)
    requires Rates(qs) && q.qps >= 0.0
    ensures multiset(Insert(q, qs)) == multiset(qs) + multiset{q}
    ensures forall x :: x in Insert(q, qs) <==> x in qs || x == q
  {
    if qs != [] && q.qps < qs[|qs| - 1].qps {
      InsertKeeps(q, qs[..|qs| - 1]);
      assert qs == qs[..|qs| - 1] + [qs[|qs| - 1]];
    }
  }

  lemma {:induction false} InsertOrders(q: Query, qs: seq<Query>)
    requires ByRate(qs) && Rates(qs) && q.qps >= 0.0
    ensures ByRate(Insert(q, qs))
  {
    if qs != [] && q.qps < qs[|qs| - 1].qps {
      var (init, last) := (qs[..|qs| - 1], qs[|qs| - 1]);
      InsertOrders(q, init);
      InsertKeeps(q, init);
      var r := Insert(q, init);
      forall i | 0 <= i < |r|
        ensures r[i].qps <= last.qps
      {
        assert r[i] in r;
      }
    }
  }

  lemma {:induction false} InsertAdds(q: Query, qs: seq<Query>)
    requires Rates(qs) && q.qps >= 0.0
    ensures Rates(Insert(q, qs)) && Total(Insert(q, qs)) == Total(qs) + Int(q.qps) && Sum(Insert(q, qs)) == Sum(qs) + q.qps
  {
    InsertKeeps(q, qs);
    var r := Insert(q, qs);
    if qs == [] || q.qps >= qs[|qs| - 1].qps {
      assert r[..|r| - 1] == qs;
    } else {
      InsertAdds(q, qs[..|qs| - 1]);
      assert r[..|r| - 1] == Insert(q, qs[..|qs| - 1]);
    }
  }

  lemma NoneByRate()
    ensures ByRate([])
  {
  }

  lemma {:induction false} SortedFacts(qs: seq<Query>)
    requires Rates(qs)
    ensures ByRate(Sorted(qs)) && Rates(Sorted(qs)) && multiset(Sorted(qs)) == multiset(qs)
    ensures Total(Sorted(qs)) == Total(qs) && Sum(Sorted(qs)) == Sum(qs)
  {
    hide Insert, ByRate;
    if qs == [] {
      NoneByRate();
    } else {
      var (init, last) := (qs[..|qs| - 1], qs[|qs| - 1]);
      SortedFacts(init);
      InsertKeeps(last, Sorted(init));
      InsertOrders(last, Sorted(init));
      InsertAdds(last, Sorted(init));
      assert qs == init + [last];
    }
  }

  // ---------------------------------------------------------------- the cumulative table

  /** The share of the first `k` queries. */
  function Share(qs: seq<Query>, k: nat, total: int): real
    requires Rates(qs) && total > 0 && k <= |qs|
  {
    Sum(qs[..k]) / total as real
  }

  /** Entry `k` of the table is the share of the first `k + 1` queries. */
  predicate IsTable(ps: seq<real>, qs: seq<Query>, total: int)
  {
    Rates(qs) && total > 0 && |ps| == |qs| && forall k :: 0 <= k < |ps| ==> ps[k] == Share(qs, k + 1, total)
  }

  predicate Ascending(ps: seq<real>)
  {
    forall i, j :: 0 <= i <= j < |ps| ==> ps[i] <= ps[j]
  }

  lemma {:induction false} SumGrows(qs: seq<Query>, i: nat, j: nat)
    requires Rates(qs) && i <= j <= |qs|
    ensures Sum(qs[..i]) <= Sum(qs[..j])
    decreases j
  {
    if i < j {
      SumGrows(qs, i, j - 1);
      assert qs[..j][..j - 1] == qs[..j - 1];
    }
  }

  lemma TableAscends(ps: seq<real>, qs: seq<Query>, total: int)
    requires IsTable(ps, qs, total)
    ensures Ascending(ps)
  {
    forall i, j | 0 <= i <= j < |ps|
      ensures ps[i] <= ps[j]
    {
      SumGrows(qs, i + 1, j + 1);
      DivideGrows(Sum(qs[..i + 1]), Sum(qs[..j + 1]), total as real);
    }
  }

  lemma DivideGrows(a: real, b: real, t: real)
    requires a <= b && t > 0.0
    ensures a / t <= b / t
  {
    assert b / t - a / t == (b - a) / t;
  }

  /** The table ends at 1 or above; at 1 exactly if the rates are whole numbers. */
  lemma TableEnds(ps: seq<real>, qs: seq<Query>)
    requires Rates(qs) && qs != [] && IsTable(ps, qs, Total(qs))
    ensures ps[|ps| - 1] >= 1.0
    ensures ps[|ps| - 1] == 1.0 <==> Whole(qs)
  {
    TotalIsSum(qs);
    assert qs[..|qs|] == qs;
    var (s, t) := (Sum(qs), Total(qs) as real);
    Quotient(s, t);
  }

  lemma Quotient(s: real, t: real)
    requires s >= t > 0.0
    ensures s / t >= 1.0 && (s / t == 1.0 <==> s == t)
  {
    DivideGrows(t, s, t);
    assert s == s / t * t;
  }

  // ---------------------------------------------------------------- drawing

  /** `bisect_right`: how many entries of an ascending table are not above `x`. */
  function BisectRight(ps: seq<real>, x: real): (i: nat)
    ensures i <= |ps|
  {
    if ps == [] then 0
    else if ps[|ps| - 1] <= x then |ps|
    else BisectRight(ps[..|ps| - 1], x)
  }

  lemma {:induction false} BisectSplits(ps: seq<real>, x: real)
    requires Ascending(ps)
    ensures forall k :: 0 <= k < |ps| ==> (ps[k] <= x <==> k < BisectRight(ps, x))
  {
    if ps != [] && ps[|ps| - 1] > x {
      BisectSplits(ps[..|ps| - 1], x);
    }
  }

  /** The draws that choose query `k` are those from the share of the queries before it up to its
      own share more; so none chooses a query without a rate. */
  lemma DrawnIff(ps: seq<real>, qs: seq<Query>, total: int, x: real, k: nat)
    requires IsTable(ps, qs, total) && 0.0 <= x && k < |qs|
    ensures BisectRight(ps, x) == k <==> Share(qs, k, total) <= x < Share(qs, k, total) + qs[k].qps / total as real
    ensures BisectRight(ps, x) == k ==> qs[k].qps > 0.0
  {
    TableAscends(ps, qs, total);
    BisectSplits(ps, x);
    var t := total as real;
    assert qs[..k + 1][..k] == qs[..k];
    assert Sum(qs[..k + 1]) == Sum(qs[..k]) + qs[k].qps;
    ShareAdds(Sum(qs[..k]), qs[k].qps, t);
    assert BisectRight(ps, x) == k <==> ps[k] > x && (k > 0 ==> ps[k - 1] <= x);
    if k == 0 {
      assert qs[..0] == [] && 0.0 / t == 0.0;
    } else {
      assert ps[k - 1] == Share(qs, k - 1 + 1, total);
    }
  }

  lemma ShareAdds(a: real, b: real, t: real)
    requires t > 0.0
    ensures (a + b) / t == a / t + b / t
  {
  }

  /** A query has draws exactly if it has a rate and those before it do not take up all of them. */
  lemma DrawableIff(ps: seq<real>, qs: seq<Query>, total: int, k: nat)
    requires IsTable(ps, qs, total) && k < |qs|
    ensures (exists x: real :: 0.0 <= x < 1.0 && BisectRight(ps, x) == k) <==> qs[k].qps > 0.0 && Share(qs, k, total) < 1.0
  {
    if qs[k].qps > 0.0 && Share(qs, k, total) < 1.0 {
      var x := Share(qs, k, total);
      ShareNotNegative(qs, k, total);
      DrawnIff(ps, qs, total, x, k);
      assert qs[k].qps / total as real > 0.0;
      assert 0.0 <= x < 1.0 && BisectRight(ps, x) == k;
    }
    forall x: real | 0.0 <= x < 1.0 && BisectRight(ps, x) == k
      ensures qs[k].qps > 0.0 && Share(qs, k, total) < 1.0
    {
      DrawnIff(ps, qs, total, x, k);
    }
  }

  lemma ShareNotNegative(qs: seq<Query>, k: nat, total: int)
    requires Rates(qs) && total > 0 && k <= |qs|
    ensures Share(qs, k, total) >= 0.0
  {
  }

  /** With rates that are whole numbers, every query with a rate is drawn. */
  lemma WholeRatesDraw(ps: seq<real>, qs: seq<Query>, k: nat)
    requires Rates(qs) && IsTable(ps, qs, Total(qs)) && Whole(qs) && k < |qs| && qs[k].qps > 0.0
    ensures exists x: real :: 0.0 <= x < 1.0 && BisectRight(ps, x) == k
  {
    hide Share;
    TableEnds(ps, qs);
    TableAscends(ps, qs, Total(qs));
    ShareStep(qs, k, Total(qs));
    assert ps[k] == Share(qs, k + 1, Total(qs));
    assert ps[k] <= ps[|ps| - 1] == 1.0;
    DrawableIff(ps, qs, Total(qs), k);
  }

  lemma ShareStep(qs: seq<Query>, k: nat, total: int)
    requires Rates(qs) && total > 0 && k < |qs|
    ensures Share(qs, k + 1, total) == Share(qs, k, total) + qs[k].qps / total as real
    ensures qs[k].qps > 0.0 ==> Share(qs, k + 1, total) > Share(qs, k, total)
  {
    assert qs[..k + 1][..k] == qs[..k];
    ShareAdds(Sum(qs[..k]), qs[k].qps, total as real);
    assert qs[k].qps > 0.0 ==> qs[k].qps / total as real > 0.0;
  }

  /** With other rates it may not be: of three queries of which two count as nothing, the one that
      counts is never drawn. */
  lemma NeverDrawn(x: real, ps: seq<real>)
    requires 0.5 <= x < 1.0
    requires var qs := [Query(0, x), Query(1, x), Query(2, 1.0)]; IsTable(ps, qs, 1)
    ensures var qs := [Query(0, x), Query(1, x), Query(2, 1.0)];
      ByRate(qs) && Rates(qs) && Total(qs) == 1 && forall d: real :: 0.0 <= d < 1.0 ==> BisectRight(ps, d) != 2
  {
    var qs := [Query(0, x), Query(1, x), Query(2, 1.0)];
    assert qs[..2] == [Query(0, x), Query(1, x)] && qs[..2][..1] == [Query(0, x)] && qs[..2][..1][..0] == [];
    assert Sum(qs[..2][..1]) == x && Sum(qs[..2]) == x + x;
    assert Total(qs[..2][..1]) == Total(qs[..2][..1][..0]) + Int(x) == 0;
    assert Total(qs[..2]) == Total(qs[..2][..1]) + Int(x) == 0;
    assert Share(qs, 2, 1) == (x + x) / 1.0 == x + x;
    DrawableIff(ps, qs, 1, 2);
  }

  /** All rates are zero. */
  predicate NoRate(qs: seq<Query>)
  {
    forall q <- qs :: q.qps == 0.0
  }

  /** What the loop makes of a workload in order: the table; or zeros only, if there is no rate at all. */
  predicate IsFilled(ps: seq<real>, qs: seq<Query>, total: int)
  {
    if total > 0 then IsTable(ps, qs, total) else NoRate(qs) && |ps| == |qs| && forall p <- ps :: p == 0.0
  }

  /** The loop that fills the table. It divides by zero exactly if there are rates, but all below 1. */
  method Accumulate(workload: seq<Query>, total: int) returns (ok: bool, probabilities: seq<real>, queries: seq<Query>)
    requires Rates(workload) && ByRate(workload) && total >= 0
    ensures ok <==> total > 0 || NoRate(workload)
    ensures ok ==> queries == workload && IsFilled(probabilities, workload, total)
  {
    hide Sum, ByRate, Share;
    if total > 0 {
      NoShare(workload, total);
    }
    var qpsProb := 0.0;
    probabilities, queries := [], [];
    for i := 0 to |workload|
      invariant queries == workload[..i] && |probabilities| == i
      invariant total > 0 ==> qpsProb == Share(workload, i, total) && forall k :: 0 <= k < i ==> probabilities[k] == Share(workload, k + 1, total)
      invariant total == 0 ==> NoRate(workload[..i]) && forall p <- probabilities :: p == 0.0
    {
      if workload[i].qps == 0.0 {
        qpsProb := 0.0;
      } else {
        if total == 0 {
          return false, [], [];
        }
        qpsProb := qpsProb + workload[i].qps / total as real;
      }
      if total > 0 {
        TableStep(workload, i, total);
      }
      probabilities := probabilities + [qpsProb];
      queries := queries + [workload[i]];
    }
    assert workload[..|workload|] == workload;
    ok := true;
  }

  class Table {
    var totalQps: int
    var probabilities: seq<real>
    var queries: seq<Query>

    predicate Valid()
      reads this
    {
      Rates(queries) && IsFilled(probabilities, queries, totalQps) && totalQps == Total(queries) && ByRate(queries)
    }

    constructor (totalQps: int, probabilities: seq<real>, queries: seq<Query>)
      ensures this.totalQps == totalQps && this.probabilities == probabilities && this.queries == queries
    {
      this.totalQps, this.probabilities, this.queries := totalQps, probabilities, queries;
    }

    predicate IsEmpty()
      reads this
    {
      totalQps == 0
    }

    /** The query that a number drawn from 0 up to 1 chooses. The index is beyond the table exactly if
        that is empty. */
    method GetRandomQuery(draw: real) returns (q: Option<Query>, ghost k: nat)
      requires Valid() && 0.0 <= draw < 1.0
      ensures q.None? <==> IsEmpty()
      ensures q.Some? ==> k < |queries| && q.value == queries[k] && q.value.qps > 0.0 && totalQps > 0
      ensures q.Some? ==> Share(queries, k, totalQps) <= draw < Share(queries, k, totalQps) + q.value.qps / totalQps as real
    {
      var i := BisectRight(probabilities, draw);
      k := i;
      if totalQps == 0 {
        ZerosAtMost(probabilities, draw);
      } else {
        assert queries != [];
        TableEnds(probabilities, queries);
        TableAscends(probabilities, queries, totalQps);
        BisectSplits(probabilities, draw);
        DrawnIff(probabilities, queries, totalQps, draw, i);
      }
      if i >= |queries| {
        return None, k;
      }
      q := Some(queries[i]);
    }
  }

  lemma ZerosAtMost(ps: seq<real>, x: real)
    requires x >= 0.0 && forall p <- ps :: p == 0.0
    ensures BisectRight(ps, x) == |ps|
  {
    assert ps != [] ==> ps[|ps| - 1] in ps;
  }

  /** Makes the table of a workload. It fails exactly if there is no query, or there are rates, but all
      of them below 1. */
  method MakeTable(workload: seq<Query>) returns (table: Option<Table>)
    requires Rates(workload)
    ensures table.None? <==> workload == [] || (Total(workload) == 0 && !NoRate(workload))
    ensures table.Some? ==> fresh(table.value) && table.value.Valid() && multiset(table.value.queries) == multiset(workload)
    ensures table.Some? ==> (table.value.IsEmpty() <==> NoRate(workload))
  {
    if workload == [] {
      return None;
    }
    var workloadL := Sorted(workload);
    SortedFacts(workload);
    RatesOrNone(workload, workloadL);
    var total := Total(workload);
    hide IsFilled, ByRate, Sum, Total, NoRate;
    var ok, probs, objects := Accumulate(workloadL, total);
    if !ok {
      return None;
    }
    var t := new Table(total, probs, objects);
    table := Some(t);
  }

  lemma RatesOrNone(qs: seq<Query>, sorted: seq<Query>)
    requires Rates(qs) && multiset(qs) == multiset(sorted)
    ensures NoRate(qs) <==> NoRate(sorted)
    ensures NoRate(qs) ==> Total(qs) == 0
  {
    assert forall q :: q in qs <==> q in multiset(qs);
    assert forall q :: q in sorted <==> q in multiset(sorted);
    if NoRate(qs) {
      NoTotal(qs);
    }
  }

  lemma {:induction false} NoTotal(qs: seq<Query>)
    requires Rates(qs) && NoRate(qs)
    ensures Total(qs) == 0
  {
    if qs == [] {
    } else {
      assert qs[|qs| - 1] in qs;
      NoTotal(qs[..|qs| - 1]);
    }
  }

  /** A query without a rate starts the sums afresh, but nothing has been summed before it. */
  lemma TableStep(qs: seq<Query>, i: nat, total: int)
    requires Rates(qs) && ByRate(qs) && i < |qs| && total > 0
    ensures Share(qs, i + 1, total) == Share(qs, i, total) + qs[i].qps / total as real
    ensures qs[i].qps == 0.0 ==> Share(qs, i + 1, total) == 0.0
  {
    assert qs[..i + 1][..i] == qs[..i];
    ShareAdds(Sum(qs[..i]), qs[i].qps, total as real);
    if qs[i].qps == 0.0 {
      NoRates(qs, i + 1);
    }
  }

  lemma NoShare(qs: seq<Query>, total: int)
    requires Rates(qs) && total > 0
    ensures Share(qs, 0, total) == 0.0
  {
    assert qs[..0] == [];
  }

  lemma {:induction false} NoRates(qs: seq<Query>, i: nat)
    requires Rates(qs) && i <= |qs| && forall k :: 0 <= k < i ==> qs[k].qps == 0.0
    ensures Sum(qs[..i]) == 0.0
  {
    if i == 0 {
    } else {
      NoRates(qs, i - 1);
      assert qs[..i][..i - 1] == qs[..i - 1];
    }
  }
}
