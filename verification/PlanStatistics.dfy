/** Estimates and runtime metrics of a plan's operators (benchmarks/src/statistics.rs): two walks
    over the same tree that are paired by position. */
module PlanStatistics {
  import opened Text
  import D = Decimal

  datatype Estimate = Exact(value: nat) | Inexact(value: nat) | Absent

  /** An operator: what it is estimated to give, if that can be computed, and what it gave. */
  datatype Plan = Plan(name: string, estimates: Option<Estimates>, metrics: Metrics, children: seq<Plan>)

  datatype Estimates = Estimates(rows: Estimate, bytes: Estimate)

  datatype Metrics = Metrics(rows: Option<nat>, bytes: Option<nat>)

  datatype QError = Finite(ratio: real) | Infinite | ExactZero

  datatype Captured = Captured(path: string, name: string, estimates: Estimates)

  datatype Operator =
    Operator(path: string, name: string, estimates: Estimates, metrics: Metrics, qError: Option<QError>)

  function QErrorOf(estimated: Estimate, actual: Option<nat>): Option<QError> {
    if estimated.Absent? || actual.None? then None
    else
      var e, a := estimated.value, actual.value;
      if e == 0 && a == 0 then Some(ExactZero)
      else if e == 0 || a == 0 then Some(Infinite)
      else if e >= a then Some(Finite(e as real / a as real)) else Some(Finite(a as real / e as real))
  }

  /** The q-error is the factor, at least one, by which the smaller of the two counts has to be
      multiplied to give the other; there is none if exactly one of them is zero. */
  lemma QErrorIsFactor(e: nat, a: nat)
    ensures var r := QErrorOf(Exact(e), Some(a));
            && r.Some? && r == QErrorOf(Exact(a), Some(e)) && r == QErrorOf(Inexact(e), Some(a))
            && (r.value.ExactZero? <==> e == 0 && a == 0)
            && (r.value.Infinite? <==> (e == 0) != (a == 0))
            && (r.value.Finite? ==>
                  r.value.ratio >= 1.0
                  && r.value.ratio * (if e < a then e else a) as real == (if e < a then a else e) as real)
  {
    if e > 0 && a > 0 {
      var x, y := (if e < a then e else a) as real, (if e < a then a else e) as real;
      assert y / x * x == y;
      assert (y / x - 1.0) * x == y - x;
      NonNegative(y / x - 1.0, x);
    }
  }

  /** Without one of the two counts there is none. */
  lemma NoQError(estimated: Estimate, actual: Option<nat>)
    ensures QErrorOf(estimated, actual).None? <==> estimated.Absent? || actual.None?
  {
  }

  lemma NonNegative(p: real, x: real)
    requires p * x >= 0.0 && x > 0.0
    ensures p >= 0.0
  {
  }

  // The operators of a plan, by address

  /** An operator and the child indices that lead to it. */
  datatype Place = Place(address: seq<nat>, node: Plan)

  function Places(plan: Plan, address: seq<nat>): (places: seq<Place>)
    ensures places != []
    decreases plan, |plan.children| + 1
  {
    [Place(address, plan)] + ChildPlaces(plan, address, 0)
  }

  function ChildPlaces(plan: Plan, address: seq<nat>, k: nat): seq<Place>
    requires k <= |plan.children|
    decreases plan, |plan.children| - k
  {
    if k == |plan.children| then []
    else Places(plan.children[k], address + [k]) + ChildPlaces(plan, address, k + 1)
  }

  function Path(address: seq<nat>): string {
    if address == [] then "0" else Path(address[..|address| - 1]) + "." + D.Show(address[|address| - 1])
  }

  /** The operator at an address. */
  function At(plan: Plan, address: seq<nat>): Option<Plan>
    decreases |address|
  {
    if address == [] then Some(plan)
    else if address[0] >= |plan.children| then None
    else At(plan.children[address[0]], address[1..])
  }

  // Each place is where its address says, and no two share an address

  predicate Under(plan: Plan, address: seq<nat>, p: Place) {
    address <= p.address && At(plan, p.address[|address|..]) == Some(p.node)
  }

  lemma UnderChild(plan: Plan, address: seq<nat>, k: nat, p: Place)
    requires k < |plan.children| && Under(plan.children[k], address + [k], p)
    ensures Under(plan, address, p) && |p.address| > |address| && p.address[|address|] == k
  {
    assert p.address[|address|..][0] == k;
    assert p.address[|address|..][1..] == p.address[|address + [k]|..];
  }

  lemma {:induction false} PlacesAreUnder(plan: Plan, address: seq<nat>)
    ensures forall p <- Places(plan, address) :: Under(plan, address, p)
    decreases plan, |plan.children| + 1
  {
    hide Under;
    assert Under(plan, address, Place(address, plan)) by { UnderItself(plan, address); }
    ChildPlacesAreUnder(plan, address, 0);
  }

  lemma UnderItself(plan: Plan, address: seq<nat>)
    ensures Under(plan, address, Place(address, plan))
  {
    assert address[|address|..] == [];
  }

  predicate UnderFrom(plan: Plan, address: seq<nat>, k: nat, p: Place) {
    Under(plan, address, p) && |p.address| > |address| && p.address[|address|] >= k
  }

  lemma {:induction false} ChildPlacesAreUnder(plan: Plan, address: seq<nat>, k: nat)
    requires k <= |plan.children|
    ensures forall p <- ChildPlaces(plan, address, k) :: UnderFrom(plan, address, k, p)
    decreases plan, |plan.children| - k
  {
    hide Under;
    if k >= |plan.children| {
    } else {
      PlacesAreUnder(plan.children[k], address + [k]);
      ChildPlacesAreUnder(plan, address, k + 1);
      forall p <- ChildPlaces(plan, address, k) ensures UnderFrom(plan, address, k, p) {
        if p in Places(plan.children[k], address + [k]) {
          UnderChild(plan, address, k, p);
        } else {
          assert UnderFrom(plan, address, k + 1, p);
        }
      }
    }
  }

  ghost predicate Distinct(places: seq<Place>) {
    forall i, j :: 0 <= i < j < |places| ==> places[i].address != places[j].address
  }

  lemma {:induction false} PlacesAreDistinct(plan: Plan, address: seq<nat>)
    ensures Distinct(Places(plan, address))
    decreases plan, |plan.children| + 1
  {
    hide Under;
    ChildPlacesAreDistinct(plan, address, 0);
    ChildPlacesAreUnder(plan, address, 0);
    var rest := ChildPlaces(plan, address, 0);
    forall j | 0 <= j < |rest| ensures rest[j].address != address { assert UnderFrom(plan, address, 0, rest[j]); }
  }

  lemma {:induction false} ChildPlacesAreDistinct(plan: Plan, address: seq<nat>, k: nat)
    requires k <= |plan.children|
    ensures Distinct(ChildPlaces(plan, address, k))
    decreases plan, |plan.children| - k
  {
    hide Under;
    if k >= |plan.children| {
    } else {
      var first, rest := Places(plan.children[k], address + [k]), ChildPlaces(plan, address, k + 1);
      PlacesAreDistinct(plan.children[k], address + [k]);
      PlacesAreUnder(plan.children[k], address + [k]);
      ChildPlacesAreDistinct(plan, address, k + 1);
      ChildPlacesAreUnder(plan, address, k + 1);
      forall i, j | 0 <= i < |first| && 0 <= j < |rest| ensures first[i].address != rest[j].address {
        UnderChild(plan, address, k, first[i]);
        assert UnderFrom(plan, address, k + 1, rest[j]);
      }
    }
  }

  /** Every operator of the plan has a place. */
  lemma {:induction false} PlacesAreComplete(plan: Plan, address: seq<nat>, below: seq<nat>)
    requires At(plan, below).Some?
    ensures Place(address + below, At(plan, below).value) in Places(plan, address)
    decreases |below|
  {
    if below == [] {
      assert address + below == address;
    } else {
      var k := below[0];
      PlacesAreComplete(plan.children[k], address + [k], below[1..]);
      assert address + [k] + below[1..] == address + below;
      ChildPlacesInclude(plan, address, 0, k);
    }
  }

  lemma {:induction false} ChildPlacesInclude(plan: Plan, address: seq<nat>, from: nat, k: nat)
    requires from <= k < |plan.children|
    ensures forall p <- Places(plan.children[k], address + [k]) :: p in ChildPlaces(plan, address, from)
    decreases k - from
  {
    if from >= k {
    } else {
      ChildPlacesInclude(plan, address, from + 1, k);
    }
  }

  // Paths tell addresses apart

  function Dots(s: string): nat {
    if s == "" then 0 else (if s[0] == '.' then 1 else 0) + Dots(s[1..])
  }

  lemma {:induction false} DotsAppend(s: string, t: string)
    ensures Dots(s + t) == Dots(s) + Dots(t)
  {
    if s == "" {
      assert s + t == t;
    } else {
      DotsAppend(s[1..], t);
      assert (s + t)[1..] == s[1..] + t;
    }
  }

  lemma {:induction false} NoDots(s: string)
    requires '.' !in s
    ensures Dots(s) == 0
  {
    if s == "" {
    } else {
      NoDots(s[1..]);
    }
  }

  /** The dots of a path are the depth of its operator. */
  lemma {:induction false} DotsAreDepth(address: seq<nat>)
    ensures Dots(Path(address)) == |address|
  {
    if address == [] {
      assert Dots("0") == 0 by { NoDots("0"); }
    } else {
      var k := address[|address| - 1];
      DotsAreDepth(address[..|address| - 1]);
      DotsAppend(Path(address[..|address| - 1]) + ".", D.Show(k));
      DotsAppend(Path(address[..|address| - 1]), ".");
      assert Dots(".") == 1 + Dots("");
      NoDots(D.Show(k));
    }
  }

  lemma LastSegment(x: string, d: string, y: string, e: string)
    requires x + "." + d == y + "." + e && '.' !in d && '.' !in e
    ensures x == y && d == e
  {
    var s, t := x + "." + d, y + "." + e;
    assert s[|x|] == '.' && t[|y|] == '.';
    assert |x| == |y|;
    assert x == s[..|x|] && y == t[..|y|];
    assert d == s[|x| + 1..] && e == t[|y| + 1..];
  }

  lemma {:induction false} PathIsInjective(a: seq<nat>, b: seq<nat>)
    requires Path(a) == Path(b)
    ensures a == b
  {
    DotsAreDepth(a);
    DotsAreDepth(b);
    if a == [] {
    } else {
      var m, n := a[|a| - 1], b[|b| - 1];
      LastSegment(Path(a[..|a| - 1]), D.Show(m), Path(b[..|b| - 1]), D.Show(n));
      PathIsInjective(a[..|a| - 1], b[..|b| - 1]);
      D.ShowInjective(m, n);
      assert a == a[..|a| - 1] + [m] && b == b[..|b| - 1] + [n];
    }
  }

  // The two walks

  function CapturedAt(p: Place): Captured
    requires p.node.estimates.Some?
  {
    Captured(Path(p.address), p.node.name, p.node.estimates.value)
  }

  function OperatorAt(c: Captured, node: Plan): Operator {
    Operator(c.path, c.name, c.estimates, node.metrics, QErrorOf(c.estimates.rows, node.metrics.rows))
  }

  /** `entries` are what the places' estimates are. */
  ghost predicate AreCaptured(entries: seq<Captured>, places: seq<Place>) {
    && |entries| == |places|
    && forall i :: 0 <= i < |places| ==> places[i].node.estimates.Some? && entries[i] == CapturedAt(places[i])
  }

  /** `operators` join the entries with the places' metrics, position by position. */
  ghost predicate AreJoined(operators: seq<Operator>, entries: seq<Captured>, places: seq<Place>) {
    && |operators| == |entries| == |places|
    && forall i :: 0 <= i < |places| ==> operators[i] == OperatorAt(entries[i], places[i].node)
  }

  ghost predicate AllEstimated(places: seq<Place>) {
    forall p <- places :: p.node.estimates.Some?
  }

  lemma CapturedIsEstimated(entries: seq<Captured>, places: seq<Place>)
    requires AreCaptured(entries, places)
    ensures AllEstimated(places)
  {
  }

  lemma FirstCaptured(p: Place)
    requires p.node.estimates.Some?
    ensures AreCaptured([CapturedAt(p)], [p])
  {
  }

  lemma FirstJoined(entry: Captured, p: Place)
    ensures AreJoined([OperatorAt(entry, p.node)], [entry], [p])
  {
  }

  lemma CapturedAppend(e: seq<Captured>, p: seq<Place>, f: seq<Captured>, q: seq<Place>)
    requires AreCaptured(e, p) && AreCaptured(f, q)
    ensures AreCaptured(e + f, p + q)
  {
  }

  lemma JoinedAppend(o: seq<Operator>, e: seq<Captured>, p: seq<Place>, m: seq<Operator>, f: seq<Captured>,
                     q: seq<Place>)
    requires AreJoined(o, e, p) && AreJoined(m, f, q)
    ensures AreJoined(o + m, e + f, p + q)
  {
  }

  lemma Behind<T>(a: seq<T>, b: seq<T>, c: seq<T>)
    requires a <= b <= c
    ensures c[|a|..] == b[|a|..] + c[|b|..]
  {
  }

  lemma CapturedOneMore(result: seq<Captured>, before: seq<Captured>, out: seq<Captured>, p: seq<Place>, q: seq<Place>)
    requires result <= before <= out && AreCaptured(before[|result|..], p) && AreCaptured(out[|before|..], q)
    ensures AreCaptured(out[|result|..], p + q)
  {
    hide AreCaptured;
    Behind(result, before, out);
    CapturedAppend(before[|result|..], p, out[|before|..], q);
  }

  lemma JoinedOneMore(report: seq<Operator>, before: seq<Operator>, out: seq<Operator>, statistics: seq<Captured>,
                      p: seq<Place>, q: seq<Place>)
    requires report <= before <= out && |out| <= |statistics|
    requires AreJoined(before[|report|..], statistics[|report|..|before|], p)
    requires AreJoined(out[|before|..], statistics[|before|..|out|], q)
    ensures AreJoined(out[|report|..], statistics[|report|..|out|], p + q)
  {
    hide AreJoined;
    Behind(report, before, out);
    assert statistics[|report|..|out|] == statistics[|report|..|before|] + statistics[|before|..|out|];
    JoinedAppend(before[|report|..], statistics[|report|..|before|], p,
                 out[|before|..], statistics[|before|..|out|], q);
  }

  method CaptureInner(plan: Plan, path: string, result: seq<Captured>, ghost address: seq<nat>)
    returns (ok: bool, out: seq<Captured>)
    requires path == Path(address)
    ensures ok <==> AllEstimated(Places(plan, address))
    ensures ok ==> result <= out && AreCaptured(out[|result|..], Places(plan, address))
    decreases plan
  {
    hide Path, AreCaptured;
    ghost var all := Places(plan, address);
    if plan.estimates.None? {
      assert all[0] in all;
      return false, result;
    }
    out := result + [Captured(path, plan.name, plan.estimates.value)];
    ghost var done := [all[0]];
    assert out[|result|..] == [CapturedAt(all[0])];
    FirstCaptured(all[0]);
    for k := 0 to |plan.children|
      invariant all == done + ChildPlaces(plan, address, k)
      invariant result <= out && AreCaptured(out[|result|..], done)
    {
      ghost var here := Places(plan.children[k], address + [k]);
      ghost var before := out;
      PathOfChild(address, k);
      ok, out := CaptureInner(plan.children[k], path + "." + D.Show(k), out, address + [k]);
      assert all == done + here + ChildPlaces(plan, address, k + 1);
      if !ok {
        ghost var p :| p in here && p.node.estimates.None?;
        assert p in all;
        return;
      }
      CapturedOneMore(result, before, out, done, here);
      done := done + here;
    }
    assert done + [] == done;
    CapturedIsEstimated(out[|result|..], all);
    ok := true;
  }

  lemma PathOfChild(address: seq<nat>, k: nat)
    ensures Path(address + [k]) == Path(address) + "." + D.Show(k)
  {
    assert (address + [k])[..|address|] == address;
  }

  method AppendRuntime(plan: Plan, statistics: seq<Captured>, report: seq<Operator>, ghost address: seq<nat>)
    returns (out: seq<Operator>)
    requires |report| + |Places(plan, address)| <= |statistics|
    ensures report <= out && |out| == |report| + |Places(plan, address)|
    ensures AreJoined(out[|report|..], statistics[|report|..|out|], Places(plan, address))
    decreases plan
  {
    hide AreJoined, QErrorOf;
    ghost var all := Places(plan, address);
    var entry := statistics[|report|];
    var qError := QErrorOf(entry.estimates.rows, plan.metrics.rows);
    out := report + [Operator(entry.path, entry.name, entry.estimates, plan.metrics, qError)];
    ghost var done := [all[0]];
    assert out[|report|..] == [OperatorAt(entry, plan)] && statistics[|report|..|out|] == [entry];
    FirstJoined(entry, all[0]);
    for k := 0 to |plan.children|
      invariant all == done + ChildPlaces(plan, address, k)
      invariant report <= out && |out| == |report| + |done|
      invariant AreJoined(out[|report|..], statistics[|report|..|out|], done)
    {
      ghost var here := Places(plan.children[k], address + [k]);
      ghost var before := out;
      assert all == done + here + ChildPlaces(plan, address, k + 1);
      out := AppendRuntime(plan.children[k], statistics, out, address + [k]);
      JoinedOneMore(report, before, out, statistics, done, here);
      done := done + here;
    }
    assert done + [] == done;
  }

  /** The report of a statement: one entry for every operator, with the path, the estimates and
      the metrics of that operator and of no other; nothing if an estimate cannot be computed. */
  method ReportPlan(plan: Plan) returns (r: Option<seq<Operator>>)
    ensures r.Some? <==> AllEstimated(Places(plan, []))
    ensures r.Some? ==> IsReport(r.value, plan)
  {
    hide QErrorOf;
    var ok, statistics := CaptureInner(plan, "0", [], []);
    if !ok { return None; }
    assert statistics[0..] == statistics;
    var report := AppendRuntime(plan, statistics, [], []);
    assert report[0..] == report && statistics[0..|report|] == statistics;
    return Some(report);
  }

  ghost predicate IsReport(report: seq<Operator>, plan: Plan) {
    var places := Places(plan, []);
    && |report| == |places|
    && forall i :: 0 <= i < |places| ==>
         && places[i].node.estimates.Some?
         && report[i] == OperatorAt(CapturedAt(places[i]), places[i].node)
  }

  /** In a report every path leads to the operator it describes, and to no other entry's; the
      q-error is that of its rows. */
  lemma ReportIsAddressed(report: seq<Operator>, plan: Plan)
    requires IsReport(report, plan)
    ensures forall i, j :: 0 <= i < j < |report| ==> report[i].path != report[j].path
    ensures forall i :: 0 <= i < |report| ==>
              var p := Places(plan, [])[i];
              report[i].path == Path(p.address) && At(plan, p.address) == Some(p.node)
              && report[i].name == p.node.name && Some(report[i].estimates) == p.node.estimates
              && report[i].metrics == p.node.metrics && Dots(report[i].path) == |p.address|
              && report[i].qError == QErrorOf(report[i].estimates.rows, report[i].metrics.rows)
              && (report[i].qError.None? <==> report[i].estimates.rows.Absent? || report[i].metrics.rows.None?)
  {
    hide Path, QErrorOf, Places, At, Dots;
    var places := Places(plan, []);
    PlacesAreDistinct(plan, []);
    PlacesAreUnder(plan, []);
    forall i, j | 0 <= i < j < |report| ensures report[i].path != report[j].path {
      if report[i].path == report[j].path { PathIsInjective(places[i].address, places[j].address); }
    }
    forall i | 0 <= i < |report| ensures At(plan, places[i].address) == Some(places[i].node) {
      assert Under(plan, [], places[i]);
      assert places[i].address[0..] == places[i].address;
    }
    forall i | 0 <= i < |report|
      ensures Dots(report[i].path) == |places[i].address|
      ensures report[i].qError.None? <==> report[i].estimates.rows.Absent? || report[i].metrics.rows.None?
    {
      DotsAreDepth(places[i].address);
      NoQError(report[i].estimates.rows, report[i].metrics.rows);
    }
  }
}
