/** The summary of a run's q-errors (benchmarks/src/statistics.rs). */
module QErrorSummary {
  import opened Text
  import opened PlanStatistics
  import opened StatisticsReport

  /** The q-errors of the operators that have one, in order. */
  function Evaluated(operators: seq<Operator>): seq<QError> {
    if operators == [] then []
    else
      (if operators[0].qError.Some? then [operators[0].qError.value] else []) + Evaluated(operators[1..])
  }

  function AllEvaluated(reports: seq<QueryReport>): seq<QError> {
    if reports == [] then [] else Evaluated(reports[0].operators) + AllEvaluated(reports[1..])
  }

  function FiniteRatios(errors: seq<QError>): seq<real> {
    if errors == [] then []
    else (if errors[0].Finite? then [errors[0].ratio] else []) + FiniteRatios(errors[1..])
  }

  datatype Counts = Counts(evaluated: nat, finite: nat, exactZero: nat, infinite: nat)

  function CountOf(errors: seq<QError>, e: QError): nat {
    if errors == [] then 0 else (if errors[0] == e then 1 else 0) + CountOf(errors[1..], e)
  }

  // Sorting

  function Insert(x: real, s: seq<real>): seq<real> {
    if s == [] || x <= s[0] then [x] + s else [s[0]] + Insert(x, s[1..])
  }

  /** The ratios in ascending order. */
  function Sorted(s: seq<real>): seq<real> {
    if s == [] then [] else Insert(s[0], Sorted(s[1..]))
  }

  predicate Ascending(s: seq<real>) {
    forall i, j :: 0 <= i < j < |s| ==> s[i] <= s[j]
  }

  function AtMost(s: seq<real>, v: real): nat {
    if s == [] then 0 else (if s[0] <= v then 1 else 0) + AtMost(s[1..], v)
  }

  function Below(s: seq<real>, v: real): nat {
    if s == [] then 0 else (if s[0] < v then 1 else 0) + Below(s[1..], v)
  }

  lemma {:induction false} InsertedCounts(x: real, s: seq<real>, v: real)
    ensures AtMost(Insert(x, s), v) == AtMost(s, v) + if x <= v then 1 else 0
    ensures Below(Insert(x, s), v) == Below(s, v) + if x < v then 1 else 0
  {
    if s == [] || x <= s[0] {
      assert Insert(x, s)[1..] == s;
    } else {
      InsertedCounts(x, s[1..], v);
      assert Insert(x, s)[1..] == Insert(x, s[1..]);
    }
  }

  lemma {:induction false} InsertedElements(x: real, s: seq<real>)
    ensures multiset(Insert(x, s)) == multiset{x} + multiset(s)
  {
    if s != [] && x > s[0] {
      InsertedElements(x, s[1..]);
      assert s == [s[0]] + s[1..];
    }
  }

  lemma InsertedMembers(x: real, s: seq<real>)
    ensures forall y <- Insert(x, s) :: y == x || y in s
  {
    hide Insert;
    InsertedElements(x, s);
    forall y <- Insert(x, s) ensures y == x || y in s { assert y in multiset(Insert(x, s)); }
  }

  lemma AscendingCons(y: real, s: seq<real>)
    ensures Ascending([y] + s) <==> Ascending(s) && forall z <- s :: y <= z
  {
    var all := [y] + s;
    if Ascending(all) {
      forall i, j | 0 <= i < j < |s| ensures s[i] <= s[j] { assert all[i + 1] <= all[j + 1]; }
      forall z <- s ensures y <= z {
        var j :| 0 <= j < |s| && s[j] == z;
        assert all[0] <= all[j + 1];
      }
    }
    if Ascending(s) && forall z <- s :: y <= z {
      forall i, j | 0 <= i < j < |all| ensures all[i] <= all[j] {
        assert all[j] == s[j - 1] && s[j - 1] in s;
        assert i > 0 ==> all[i] == s[i - 1];
      }
    }
  }

  lemma {:induction false} InsertedOrder(x: real, s: seq<real>)
    requires Ascending(s)
    ensures Ascending(Insert(x, s))
  {
    if s == [] || x <= s[0] {
      AscendingCons(x, s);
    } else {
      hide Ascending;
      var y, rest := s[0], s[1..];
      assert s == [y] + rest;
      AscendingCons(y, rest);
      InsertedOrder(x, rest);
      InsertedMembers(x, rest);
      AscendingCons(y, Insert(x, rest));
    }
  }

  lemma SortedCons(s: seq<real>)
    requires s != []
    ensures Sorted(s) == Insert(s[0], Sorted(s[1..]))
  {
  }

  lemma {:induction false} SortedElements(s: seq<real>)
    ensures multiset(Sorted(s)) == multiset(s)
  {
    if s == [] {
    } else {
      hide Insert;
      SortedElements(s[1..]);
      InsertedElements(s[0], Sorted(s[1..]));
      assert s == [s[0]] + s[1..];
    }
  }

  lemma {:induction false} SortedOrder(s: seq<real>)
    ensures Ascending(Sorted(s))
  {
    if s == [] {
    } else {
      hide Ascending, Insert;
      SortedOrder(s[1..]);
      InsertedOrder(s[0], Sorted(s[1..]));
    }
  }

  lemma {:induction false} SortedCounts(s: seq<real>, v: real)
    ensures AtMost(Sorted(s), v) == AtMost(s, v) && Below(Sorted(s), v) == Below(s, v)
  {
    if s == [] {
    } else {
      hide Sorted, Insert;
      SortedCons(s);
      SortedCounts(s[1..], v);
      InsertedCounts(s[0], Sorted(s[1..]), v);
    }
  }

  lemma SortedIs(s: seq<real>)
    ensures Ascending(Sorted(s)) && multiset(Sorted(s)) == multiset(s) && |Sorted(s)| == |s|
    ensures forall v :: AtMost(Sorted(s), v) == AtMost(s, v) && Below(Sorted(s), v) == Below(s, v)
  {
    hide Ascending, Sorted, AtMost, Below;
    SortedOrder(s);
    SortedElements(s);
    assert |multiset(Sorted(s))| == |multiset(s)|;
    forall v { SortedCounts(s, v); }
  }

  /** The evaluated operators are those with a finite, an exactly zero and an infinite q-error, and
      the finite ones are those that the percentiles are of. */
  method QErrorCounts(reports: seq<QueryReport>) returns (c: Counts)
    ensures c.evaluated == |AllEvaluated(reports)| == c.finite + c.exactZero + c.infinite
    ensures c.finite == |Sorted(FiniteRatios(AllEvaluated(reports)))|
    ensures c.exactZero == CountOf(AllEvaluated(reports), ExactZero)
    ensures c.infinite == CountOf(AllEvaluated(reports), Infinite)
  {
    var errors := AllEvaluated(reports);
    SortedIs(FiniteRatios(errors));
    c := Counts(0, 0, 0, 0);
    for i := 0 to |errors|
      invariant c.evaluated == i == c.finite + c.exactZero + c.infinite
      invariant |FiniteRatios(errors)| == c.finite + |FiniteRatios(errors[i..])|
      invariant CountOf(errors, ExactZero) == c.exactZero + CountOf(errors[i..], ExactZero)
      invariant CountOf(errors, Infinite) == c.infinite + CountOf(errors[i..], Infinite)
    {
      assert errors[i..][1..] == errors[i + 1..];
      c := c.(evaluated := c.evaluated + 1);
      match errors[i] {
        case Finite(_) => c := c.(finite := c.finite + 1);
        case ExactZero => c := c.(exactZero := c.exactZero + 1);
        case Infinite => c := c.(infinite := c.infinite + 1);
      }
    }
  }

  // Percentiles

  function DivCeil(a: nat, b: nat): nat
    requires b > 0
  {
    (a + b - 1) / b
  }

  function Index(percentile: nat, n: nat): nat {
    var rank := DivCeil(percentile * n, 100);
    if rank == 0 then 0 else rank - 1
  }

  /** `percentile_q_error`, on sorted ratios. */
  function Percentile(sorted: seq<real>, percentile: nat): Option<real> {
    var i := Index(percentile, |sorted|);
    if i < |sorted| then Some(sorted[i]) else None
  }

  lemma IndexBounds(percentile: nat, n: nat)
    requires 1 <= percentile <= 100 && n > 0
    ensures Index(percentile, n) < n
    ensures 100 * Index(percentile, n) < percentile * n <= 100 * (Index(percentile, n) + 1)
  {
    var a := percentile * n;
    assert 0 < a <= 100 * n by {
      assert percentile * n <= 100 * n;
      assert percentile * n >= n;
    }
  }

  lemma ZerothIsFirst(sorted: seq<real>)
    ensures Percentile(sorted, 0) == if sorted == [] then None else Some(sorted[0])
  {
  }

  /** In ascending order at most `i` values are below the one at `i`, and more than `i` at most. */
  lemma {:induction false} RankOf(s: seq<real>, i: nat)
    requires Ascending(s) && i < |s|
    ensures Below(s, s[i]) <= i < AtMost(s, s[i])
  {
    if i == 0 {
      forall x <- s ensures s[0] <= x {}
      NoneBelow(s, s[0]);
    } else {
      RankOf(s[1..], i - 1);
    }
  }

  lemma {:induction false} NoneBelow(s: seq<real>, v: real)
    requires forall x <- s :: v <= x
    ensures Below(s, v) == 0
  {
    if s == [] {
    } else {
      assert s[0] in s && forall x <- s[1..] :: x in s;
      NoneBelow(s[1..], v);
    }
  }

  /** `v` is the nearest-rank percentile: at least that share of the values is at most `v`, and
      less than that share is below it. */
  predicate IsNearestRank(s: seq<real>, percentile: nat, v: real) {
    v in s && 100 * Below(s, v) < percentile * |s| <= 100 * AtMost(s, v)
  }

  /** The value that is returned is the nearest-rank percentile of the ratios. */
  lemma PercentileIsNearestRank(s: seq<real>, percentile: nat)
    requires s != [] && 1 <= percentile <= 100
    ensures Percentile(Sorted(s), percentile).Some?
    ensures IsNearestRank(s, percentile, Percentile(Sorted(s), percentile).value)
  {
    hide Sorted, Index;
    var sorted, i := Sorted(s), Index(percentile, |s|);
    SortedIs(s);
    IndexBounds(percentile, |s|);
    RankOf(sorted, i);
    assert sorted[i] in multiset(sorted);
  }

  lemma {:induction false} CountsGrow(s: seq<real>, u: real, v: real)
    requires u < v
    ensures AtMost(s, u) <= Below(s, v)
  {
    if s == [] {
    } else {
      CountsGrow(s[1..], u, v);
    }
  }

  lemma Share(p: nat, q: nat, n: nat)
    requires p <= q
    ensures p * n <= q * n
  {
  }

  /** A larger percentile is no smaller; there is only one value for each. */
  lemma NearestRankIsMonotone(s: seq<real>, p: nat, q: nat, u: real, v: real)
    requires p <= q && IsNearestRank(s, p, u) && IsNearestRank(s, q, v)
    ensures u <= v
    ensures p == q ==> u == v
  {
    Share(p, q, |s|);
    if v < u { CountsGrow(s, v, u); }
    if u < v { CountsGrow(s, u, v); }
  }
}
