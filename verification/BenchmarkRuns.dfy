/** Running and verifying a benchmark (benchmarks/src/sql_benchmark.rs). The engine is a parameter:
    each run meets an answer of its own to each of its queries. */
module BenchmarkRuns {
  import opened Text
  import opened BenchmarkSyntax
  import opened BenchmarkSpec
  import C = ResultComparison
  import T = Template
  import TextSearch

  /** The rows of a batch. */
  type Batch = C.Table

  /** What the engine makes of a query: no plan, or a plan and perhaps its batches. */
  datatype Answer = NoPlan | Planned(plan: string, result: Option<seq<Batch>>)

  datatype RunError = NoRunQuery | PlanningFailed(query: nat) | PlanMismatch(query: nat) | ExecutionFailed(query: nat)

  /** The parts of a parsed benchmark that runs depend on. */
  datatype Script = Script(queries: Option<seq<string>>, plans: seq<string>)

  predicate StartsWithIgnoreCase(s: string, prefix: string) {
    |prefix| <= |s| && T.EqIgnoreAsciiCase(s[..|prefix|], prefix)
  }

  predicate IsResultStatement(query: string) {
    var q := TrimStart(query, SPACE);
    StartsWithIgnoreCase(q, "select") || StartsWithIgnoreCase(q, "with")
  }

  predicate PlanMatches(plans: seq<string>, plan: string) {
    forall e <- plans :: TextSearch.Has(plan, e)
  }

  predicate Shows(plans: seq<string>, answer: Answer) {
    answer.Planned? && PlanMatches(plans, answer.plan)
  }

  function RowCount(batches: seq<Batch>): nat {
    if batches == [] then 0 else |batches[0]| + RowCount(batches[1..])
  }

  function Rows(batches: seq<Batch>): C.Table {
    if batches == [] then [] else batches[0] + Rows(batches[1..])
  }

  /** What is kept of a result: at least one batch, which then holds the schema only. */
  function Saved(batches: seq<Batch>): seq<Batch> {
    if batches == [] then [[]] else batches
  }

  // One run

  datatype Outcome = Outcome(count: nat, saved: seq<Batch>)

  /** A run from query `i` on, with the count and the batches so far. */
  function ExecuteFrom(queries: seq<string>, plans: seq<string>, validated: bool, save: bool, answers: nat -> Answer,
                       i: nat, so: Outcome): Result<Outcome, RunError>
    requires i <= |queries|
    decreases |queries| - i
  {
    if i == |queries| then Ok(so)
    else match answers(i)
      case NoPlan => Err(PlanningFailed(i))
      case Planned(plan, result) =>
        if !validated && !PlanMatches(plans, plan) then Err(PlanMismatch(i))
        else if result.None? then Err(ExecutionFailed(i))
        else
          var next :=
            if !IsResultStatement(queries[i]) then so
            else Outcome(RowCount(result.value), if save then Saved(result.value) else so.saved);
          ExecuteFrom(queries, plans, validated, save, answers, i + 1, next)
  }

  function Execute(s: Script, validated: bool, save: bool, answers: nat -> Answer): Result<Outcome, RunError> {
    if s.queries.None? then Err(NoRunQuery)
    else ExecuteFrom(s.queries.value, s.plans, validated, save, answers, 0, Outcome(0, []))
  }

  /** A query that does not end the run. */
  predicate Passes(plans: seq<string>, validated: bool, answer: Answer) {
    answer.Planned? && answer.result.Some? && (validated || PlanMatches(plans, answer.plan))
  }

  predicate AllPass(plans: seq<string>, validated: bool, answers: nat -> Answer, n: nat) {
    forall k {:trigger answers(k)} :: 0 <= k < n ==> Passes(plans, validated, answers(k))
  }

  /** The last query whose result counts, or -1. */
  function LastResult(queries: seq<string>): (i: int)
    ensures -1 <= i < |queries|
    ensures i >= 0 ==> IsResultStatement(queries[i])
    ensures forall k :: i < k < |queries| ==> !IsResultStatement(queries[k])
  {
    if queries == [] then -1
    else if IsResultStatement(queries[|queries| - 1]) then |queries| - 1
    else LastResult(queries[..|queries| - 1])
  }

  /** What a run that no query ends returns and saves, said without following it. */
  function OutcomeOf(queries: seq<string>, save: bool, answers: nat -> Answer): Outcome
    requires forall k {:trigger answers(k)} :: 0 <= k < |queries| ==> answers(k).Planned? && answers(k).result.Some?
  {
    var i := LastResult(queries);
    if i < 0 then Outcome(0, [])
    else Outcome(RowCount(answers(i).result.value), if save then Saved(answers(i).result.value) else [])
  }

  /** A run succeeds exactly when every query passes; it returns the count of the last result and,
      if it saves results, saves that result only. */
  lemma ExecuteIs(s: Script, validated: bool, save: bool, answers: nat -> Answer)
    ensures Execute(s, validated, save, answers).Ok? <==>
            s.queries.Some? && AllPass(s.plans, validated, answers, |s.queries.value|)
    ensures Execute(s, validated, save, answers).Ok? ==>
              Execute(s, validated, save, answers).value == OutcomeOf(s.queries.value, save, answers)
  {
    if s.queries.Some? {
      var queries := s.queries.value;
      assert queries[..0] == [] && queries[..|queries|] == queries;
      ExecuteFromIs(queries, s.plans, validated, save, answers, 0);
    }
  }

  lemma {:induction false} ExecuteFromIs(queries: seq<string>, plans: seq<string>, validated: bool, save: bool,
                                         answers: nat -> Answer, i: nat)
    requires i <= |queries| && AllPass(plans, validated, answers, i)
    ensures var r := ExecuteFrom(queries, plans, validated, save, answers, i, OutcomeOf(queries[..i], save, answers));
            && (r.Ok? <==> AllPass(plans, validated, answers, |queries|))
            && (r.Ok? ==> r.value == OutcomeOf(queries, save, answers))
    decreases |queries| - i
  {
    hide PlanMatches, IsResultStatement, RowCount;
    if i == |queries| {
      assert queries[..i] == queries;
    } else if Passes(plans, validated, answers(i)) {
      assert queries[..i + 1][..i] == queries[..i];
      ExecuteFromIs(queries, plans, validated, save, answers, i + 1);
    }
  }

  /** Saving results changes neither the outcome nor the count. */
  lemma ModesAgree(s: Script, validated: bool, answers: nat -> Answer)
    ensures var saving, streaming := Execute(s, validated, true, answers), Execute(s, validated, false, answers);
            && (saving.Ok? <==> streaming.Ok?)
            && (saving.Ok? ==> saving.value.count == streaming.value.count && streaming.value.saved == [])
  {
    hide Execute;
    ExecuteIs(s, validated, true, answers);
    ExecuteIs(s, validated, false, answers);
  }

  /** A run that checks plans succeeds exactly when the same run without the check does and every
      plan has every expected string. */
  lemma ChecksEveryPlan(s: Script, save: bool, answers: nat -> Answer)
    ensures Execute(s, false, save, answers).Ok? <==>
            && Execute(s, true, save, answers).Ok?
            && forall k :: 0 <= k < |s.queries.value| ==> Shows(s.plans, answers(k))
  {
    hide Execute;
    ExecuteIs(s, true, save, answers);
    ExecuteIs(s, false, save, answers);
  }

  // Sequences of runs

  datatype Iteration = Iteration(save: bool, answers: nat -> Answer)

  datatype State = State(plansValidated: bool, lastResults: Option<seq<Batch>>)

  function Step(s: Script, state: State, run: Iteration): State {
    match Execute(s, state.plansValidated, run.save, run.answers)
    case Err(_) => state
    case Ok(o) => State(true, Some(o.saved))
  }

  function Replay(s: Script, runs: seq<Iteration>): State {
    if runs == [] then State(false, None) else Step(s, Replay(s, runs[..|runs| - 1]), runs[|runs| - 1])
  }

  /** Run `i` of a sequence succeeds. */
  predicate Succeeds(s: Script, runs: seq<Iteration>, i: nat)
    requires i < |runs|
  {
    Execute(s, Replay(s, runs[..i]).plansValidated, runs[i].save, runs[i].answers).Ok?
  }

  lemma SucceedsInPrefix(s: Script, runs: seq<Iteration>, n: nat, i: nat)
    requires i < n <= |runs|
    ensures Succeeds(s, runs[..n], i) <==> Succeeds(s, runs, i)
  {
    hide Execute, Replay;
    assert runs[..n][..i] == runs[..i];
  }

  /** In every sequence of runs the plans count as validated exactly when some run succeeded. */
  lemma {:induction false} ValidatedBySuccess(s: Script, runs: seq<Iteration>)
    ensures Replay(s, runs).plansValidated <==> exists i :: 0 <= i < |runs| && Succeeds(s, runs, i)
  {
    hide Execute;
    if runs == [] {
    } else {
      var n := |runs| - 1;
      ValidatedBySuccess(s, runs[..n]);
      forall i | 0 <= i < n ensures Succeeds(s, runs[..n], i) <==> Succeeds(s, runs, i) {
        SucceedsInPrefix(s, runs, n, i);
      }
      if Succeeds(s, runs, n) {}
    }
  }

  /** By the first success every query's plan has been found to hold every expected string. */
  lemma FirstSuccessChecksPlans(s: Script, runs: seq<Iteration>, i: nat)
    requires i < |runs| && Succeeds(s, runs, i) && forall k :: 0 <= k < i ==> !Succeeds(s, runs, k)
    ensures s.queries.Some? && forall k :: 0 <= k < |s.queries.value| ==> Shows(s.plans, runs[i].answers(k))
  {
    hide Execute, Replay, PlanMatches;
    ValidatedBySuccess(s, runs[..i]);
    forall k | 0 <= k < i ensures !Succeeds(s, runs[..i], k) { SucceedsInPrefix(s, runs, i, k); }
    ExecuteIs(s, false, runs[i].save, runs[i].answers);
  }

  lemma NextRun(s: Script, runs: seq<Iteration>, run: Iteration)
    ensures Succeeds(s, runs + [run], |runs|) <==>
            && s.queries.Some?
            && AllPass(s.plans, Replay(s, runs).plansValidated, run.answers, |s.queries.value|)
  {
    hide Execute, Replay, PlanMatches;
    assert (runs + [run])[..|runs|] == runs;
    ExecuteIs(s, Replay(s, runs).plansValidated, run.save, run.answers);
  }

  /** After the given runs, another run that succeeds is sure to have met only plans with every
      expected string exactly when none of those runs succeeded, there is no query, or no string
      is expected but the empty one. */
  lemma CheckedUntilSuccess(s: Script, runs: seq<Iteration>)
    ensures (forall run: Iteration :: Succeeds(s, runs + [run], |runs|) ==>
                                        forall k :: 0 <= k < |s.queries.value| ==> Shows(s.plans, run.answers(k))) <==>
            || (forall i :: 0 <= i < |runs| ==> !Succeeds(s, runs, i))
            || s.queries == Some([])
            || forall e <- s.plans :: e == ""
  {
    hide Execute, Replay, TextSearch.Has;
    ValidatedBySuccess(s, runs);
    forall run: Iteration
      ensures Succeeds(s, runs + [run], |runs|) <==>
              && s.queries.Some?
              && AllPass(s.plans, Replay(s, runs).plansValidated, run.answers, |s.queries.value|)
    {
      NextRun(s, runs, run);
    }
    if e :| e in s.plans && e != "" {
      NotInEmptyPlan(e);
      var run := Iteration(false, (_: nat) => Planned("", Some([])));
      assert !Shows(s.plans, run.answers(0));
      if Replay(s, runs).plansValidated {
        var i :| 0 <= i < |runs| && Succeeds(s, runs, i);
        ExecuteIs(s, Replay(s, runs[..i]).plansValidated, runs[i].save, runs[i].answers);
        assert Succeeds(s, runs + [run], |runs|);
      }
    } else {
      forall plan: string ensures TextSearch.Has(plan, "") {
        StartHas("", plan);
        assert "" + plan == plan;
      }
    }
  }

  lemma NotInEmptyPlan(e: string)
    requires e != ""
    ensures !TextSearch.Has("", e)
  {
  }

  lemma StartHas(e: string, rest: string)
    ensures TextSearch.Has(e + rest, e)
  {
    assert OccursAt(e + rest, e, 0);
  }

  /** A second run succeeds with a plan that the first run would have been refused for. */
  lemma SecondRunIsUnchecked()
    ensures var s := Script(Some(["SELECT 1"]), ["HashJoin"]);
            var joined, empty := Planned("HashJoin", Some([])), Planned("", Some([]));
            var runs := [Iteration(false, (_: nat) => joined), Iteration(false, (_: nat) => empty)];
            && Succeeds(s, runs, 0) && Succeeds(s, runs, 1)
            && !Shows(s.plans, runs[1].answers(0)) && !Succeeds(s, runs[1..], 0)
  {
    hide Execute, Replay, TextSearch.Has;
    var s := Script(Some(["SELECT 1"]), ["HashJoin"]);
    var joined, empty := Planned("HashJoin", Some([])), Planned("", Some([]));
    var runs := [Iteration(false, (_: nat) => joined), Iteration(false, (_: nat) => empty)];
    NotInEmptyPlan("HashJoin");
    ValidatedBySuccess(s, []);
    NextRun(s, [], runs[0]);
    assert Succeeds(s, [runs[0]], 0) by {
      assert [] + [runs[0]] == [runs[0]];
      StartHas("HashJoin", "");
      assert "HashJoin" + "" == "HashJoin";
    }
    ValidatedBySuccess(s, [runs[0]]);
    NextRun(s, [runs[0]], runs[1]);
    assert [runs[0]] + [runs[1]] == runs;
    SucceedsInPrefix(s, runs, 1, 0);
    assert runs[..1] == [runs[0]];
    NextRun(s, [], runs[1]);
    assert [] + [runs[1]] == runs[1..];
  }

  /** The saved results are those of the last success: failed runs leave them alone, and a run that
      streams saves an empty list. */
  lemma {:induction false} LastSuccessIsSaved(s: Script, runs: seq<Iteration>, i: nat)
    requires i < |runs| && Succeeds(s, runs, i) && forall k :: i < k < |runs| ==> !Succeeds(s, runs, k)
    ensures Replay(s, runs).plansValidated && s.queries.Some?
    ensures AllPass(s.plans, true, runs[i].answers, |s.queries.value|)
    ensures Replay(s, runs).lastResults == Some(OutcomeOf(s.queries.value, runs[i].save, runs[i].answers).saved)
  {
    hide Execute, PlanMatches;
    var n := |runs| - 1;
    if i == n {
      ExecuteIs(s, Replay(s, runs[..i]).plansValidated, runs[i].save, runs[i].answers);
    } else {
      forall k | 0 <= k < n ensures Succeeds(s, runs[..n], k) <==> Succeeds(s, runs, k) {
        SucceedsInPrefix(s, runs, n, k);
      }
      LastSuccessIsSaved(s, runs[..n], i);
      assert !Succeeds(s, runs, n);
    }
  }

  // The benchmark as an object

  method CheckPlan(plans: seq<string>, plan: string) returns (ok: bool)
    ensures ok <==> PlanMatches(plans, plan)
  {
    for i := 0 to |plans|
      invariant forall k :: 0 <= k < i ==> TextSearch.Has(plan, plans[k])
    {
      if !TextSearch.Has(plan, plans[i]) { return false; }
    }
    return true;
  }

  method CountRows(batches: seq<Batch>) returns (count: nat)
    ensures count == RowCount(batches)
  {
    count := 0;
    var i := 0;
    while i < |batches|
      invariant 0 <= i <= |batches|
      invariant RowCount(batches) == count + RowCount(batches[i..])
    {
      assert batches[i..][1..] == batches[i + 1..];
      count := count + |batches[i]|;
      i := i + 1;
    }
  }

  method ExecuteQueries(s: Script, validated: bool, save: bool, answers: nat -> Answer)
    returns (r: Result<Outcome, RunError>)
    ensures r == Execute(s, validated, save, answers)
  {
    hide PlanMatches, IsResultStatement, RowCount;
    if s.queries.None? { return Err(NoRunQuery); }
    var queries, count, result := s.queries.value, 0, [];
    var i := 0;
    while i < |queries|
      invariant 0 <= i <= |queries|
      invariant Execute(s, validated, save, answers)
                == ExecuteFrom(queries, s.plans, validated, save, answers, i, Outcome(count, result))
    {
      var answer := answers(i);
      if answer.NoPlan? { return Err(PlanningFailed(i)); }
      if !validated {
        var ok := CheckPlan(s.plans, answer.plan);
        if !ok { return Err(PlanMismatch(i)); }
      }
      if answer.result.None? { return Err(ExecutionFailed(i)); }
      var n := CountRows(answer.result.value);
      if IsResultStatement(queries[i]) {
        count := n;
        if save {
          result := answer.result.value;
          if result == [] { result := [[]]; }
        }
      }
      i := i + 1;
    }
    return Ok(Outcome(count, result));
  }

  /** A result file: its columns and its rows. */
  datatype Csv = Csv(columns: nat, rows: C.Table)

  datatype VerifyError =
    | NoResults
    | BadPath(key: string)
    | NoFile
    | NoColumns
    | QueryFailed
    | Differs(mismatch: C.Mismatch)

  /** The rows of a file have its columns. */
  ghost predicate Regular(files: string -> Option<Csv>) {
    forall p :: files(p).Some? ==> forall row <- files(p).value.rows :: |row| == files(p).value.columns
  }

  /** A query with the rows of its file, if it is one without text that has a file. */
  function Loaded(w: World, files: string -> Option<Csv>, q: BenchmarkQuery): Result<BenchmarkQuery, VerifyError> {
    if !Blank(q.query) || q.path.None? then Ok(q)
    else match T.Expand(ScopeOf(w, map[]), q.path.value)
      case Err(key) => Err(BadPath(key))
      case Ok(p) =>
        if files(p).None? then Err(NoFile)
        else if files(p).value.columns == 0 then Err(NoColumns)
        else Ok(q.(columnCount := files(p).value.columns, expected := files(p).value.rows))
  }

  class Benchmark {
    const script: Script
    var plansValidated: bool
    var lastResults: Option<seq<Batch>>
    var resultQueries: seq<BenchmarkQuery>
    ghost var runs: seq<Iteration>

    ghost predicate Valid()
      reads this
    {
      && State(plansValidated, lastResults) == Replay(script, runs)
      && forall q <- resultQueries :: Rectangular(q)
    }

    constructor (script: Script, resultQueries: seq<BenchmarkQuery>)
      requires forall q <- resultQueries :: Rectangular(q)
      ensures Valid() && this.script == script && this.resultQueries == resultQueries && runs == []
    {
      this.script, this.resultQueries := script, resultQueries;
      plansValidated, lastResults, runs := false, None, [];
    }

    method RunQueries(save: bool, answers: nat -> Answer) returns (r: Result<nat, RunError>)
      requires Valid()
      modifies this
      ensures Valid() && runs == old(runs) + [Iteration(save, answers)] && resultQueries == old(resultQueries)
      ensures match Execute(script, old(plansValidated), save, answers)
              case Err(e) => r == Err(e)
              case Ok(o) => r == Ok(o.count)
    {
      hide Execute;
      var run := Iteration(save, answers);
      assert (runs + [run])[..|runs + [run]| - 1] == runs;
      runs := runs + [run];
      var o := ExecuteQueries(script, plansValidated, save, answers);
      if o.Err? { return Err(o.error); }
      plansValidated := true;
      lastResults := Some(o.value.saved);
      return Ok(o.value.count);
    }

    method LoadExpected(w: World, files: string -> Option<Csv>) returns (r: Result<(), VerifyError>)
      requires Valid() && Regular(files)
      modifies this`resultQueries
      ensures Valid()
      ensures r.Ok? ==> |resultQueries| == |old(resultQueries)|
                        && forall i :: 0 <= i < |resultQueries| ==>
                             Loaded(w, files, old(resultQueries)[i]) == Ok(resultQueries[i])
      ensures r.Err? ==> exists q <- old(resultQueries) :: Loaded(w, files, q) == Err(r.error)
    {
      hide Replay, T.Expand;
      var i := 0;
      while i < |resultQueries|
        invariant Valid() && 0 <= i <= |resultQueries| == |old(resultQueries)|
        invariant forall k :: 0 <= k < i ==> Loaded(w, files, old(resultQueries)[k]) == Ok(resultQueries[k])
        invariant forall k :: i <= k < |resultQueries| ==> resultQueries[k] == old(resultQueries)[k]
      {
        var q := resultQueries[i];
        assert q in old(resultQueries) && q in resultQueries;
        if Blank(q.query) && q.path.Some? {
          var path := T.ProcessReplacements(ScopeOf(w, map[]), q.path.value);
          if path.Err? { return Err(BadPath(path.error)); }
          var file := files(path.value);
          if file.None? { return Err(NoFile); }
          if file.value.columns == 0 { return Err(NoColumns); }
          q := q.(columnCount := file.value.columns, expected := file.value.rows);
        }
        assert Rectangular(q);
        resultQueries := resultQueries[i := q];
        i := i + 1;
      }
      return Ok(());
    }

    /** There are results, every expectation can be loaded, and the rows are those of the first: the rows
        of its query's answer, or those of the last run if it has no query. */
    ghost predicate Holds(w: World, files: string -> Option<Csv>, queries: seq<BenchmarkQuery>,
                          answer: Option<seq<Batch>>)
      requires queries != []
      reads this
    {
      && lastResults.Some?
      && (forall q <- queries :: Loaded(w, files, q).Ok?)
      && var q := Loaded(w, files, queries[0]).value;
         if Blank(q.query) then C.SameTable(Rows(lastResults.value), q.expected)
         else answer.Some? && C.SameTable(Rows(answer.value), q.expected)
    }

    method Verify(w: World, files: string -> Option<Csv>, answer: Option<seq<Batch>>)
      returns (r: Result<(), VerifyError>)
      requires Valid() && Regular(files)
      modifies this`resultQueries
      ensures Valid()
      ensures r.Ok? <==> old(resultQueries) == [] || Holds(w, files, old(resultQueries), answer)
      ensures old(resultQueries) != [] && lastResults.None? ==> r == Err(NoResults)
    {
      hide Replay, T.Expand;
      if resultQueries == [] { return Ok(()); }
      if lastResults.None? { return Err(NoResults); }
      r := LoadExpected(w, files);
      if r.Err? { return; }
      var q := resultQueries[0];
      var actual := lastResults.value;
      if !Blank(q.query) {
        if answer.None? { return Err(QueryFailed); }
        actual := answer.value;
      }
      C.EveryCellIsCompared(q.columnCount, q.expected);
      assert q in resultQueries;
      var c := C.CompareResults(q.columnCount, Rows(actual), q.expected);
      if c.Err? { return Err(Differs(c.error)); }
      return Ok(());
    }
  }
}
