/** The report of a whole run (benchmarks/src/statistics.rs): which operators it can look up, and
    the percentiles of their q-errors. */
module StatisticsReport {
  import opened Text
  import opened PlanStatistics

  datatype QueryReport = QueryReport(query: string, statement: nat, operators: seq<Operator>, success: bool)

  /** A query file: its statements with the operators of those that succeed, or none if it cannot
      be parsed. */
  datatype QueryFile = QueryFile(stem: string, statements: Option<seq<Option<seq<Operator>>>>)

  function ReportOf(file: QueryFile, i: nat): QueryReport
    requires file.statements.Some? && i < |file.statements.value|
  {
    match file.statements.value[i]
    case Some(operators) => QueryReport(file.stem, i + 1, operators, true)
    case None => QueryReport(file.stem, i + 1, [], false)
  }

  function ReportsOf(file: QueryFile): seq<QueryReport> {
    if file.statements.None? then [QueryReport(file.stem, 1, [], false)]
    else seq(|file.statements.value|, i requires 0 <= i < |file.statements.value| => ReportOf(file, i))
  }

  function AllReports(files: seq<QueryFile>): seq<QueryReport> {
    if files == [] then [] else AllReports(files[..|files| - 1]) + ReportsOf(files[|files| - 1])
  }

  method ReportQueryFile(file: QueryFile, reports: seq<QueryReport>) returns (out: seq<QueryReport>)
    ensures out == reports + ReportsOf(file)
  {
    if file.statements.None? { return reports + [QueryReport(file.stem, 1, [], false)]; }
    out := reports;
    var statements := file.statements.value;
    for i := 0 to |statements|
      invariant out == reports + ReportsOf(file)[..i]
    {
      match statements[i] {
        case Some(operators) => out := out + [QueryReport(file.stem, i + 1, operators, true)];
        case None => out := out + [QueryReport(file.stem, i + 1, [], false)];
      }
      assert ReportsOf(file)[..i + 1] == ReportsOf(file)[..i] + [ReportOf(file, i)];
    }
    assert ReportsOf(file)[..|statements|] == ReportsOf(file);
  }

  method ReportFiles(files: seq<QueryFile>) returns (reports: seq<QueryReport>)
    ensures reports == AllReports(files)
  {
    reports := [];
    for i := 0 to |files|
      invariant reports == AllReports(files[..i])
    {
      reports := ReportQueryFile(files[i], reports);
      assert files[..i + 1][..i] == files[..i];
    }
    assert files[..|files|] == files;
  }

  // Identifiers

  datatype Identifier = Identifier(query: string, statement: nat, path: string, name: string)

  function IdentifierOf(q: QueryReport, o: Operator): Identifier {
    Identifier(q.query, q.statement, o.path, o.name)
  }

  /** There is an operator at a position of a report. */
  ghost predicate Has(reports: seq<QueryReport>, r: int, i: int) {
    0 <= r < |reports| && 0 <= i < |reports[r].operators|
  }

  /** No two operators share an identifier. */
  ghost predicate Identified(reports: seq<QueryReport>) {
    forall r, i, s, j :: Has(reports, r, i) && Has(reports, s, j)
      && IdentifierOf(reports[r], reports[r].operators[i]) == IdentifierOf(reports[s], reports[s].operators[j])
      ==> r == s && i == j
  }

  /** The operators that come before report `r`, position `i`. */
  predicate Before(s: int, j: int, r: int, i: int) {
    s < r || (s == r && j < i)
  }

  /** `operator_reports`: the operators by identifier, the last one where they collide. With
      unique identifiers every operator is found under its own. */
  method OperatorReports(reports: seq<QueryReport>) returns (m: map<Identifier, Operator>)
    ensures Identified(reports) ==> forall r, i :: Has(reports, r, i) ==> IsFound(reports, m, r, i)
    ensures forall id <- m :: Stems(reports, m, id)
  {
    m := map[];
    for r := 0 to |reports|
      invariant Found(reports, m, r, 0)
    {
      var q := reports[r];
      for i := 0 to |q.operators|
        invariant Found(reports, m, r, i)
      {
        FoundOneMore(reports, m, r, i);
        m := m[IdentifierOf(q, q.operators[i]) := q.operators[i]];
      }
      FoundNextReport(reports, m, r);
    }
  }

  /** An operator is found under its identifier. */
  ghost predicate IsFound(reports: seq<QueryReport>, m: map<Identifier, Operator>, s: int, j: int)
    requires Has(reports, s, j)
  {
    var id := IdentifierOf(reports[s], reports[s].operators[j]);
    id in m && m[id] == reports[s].operators[j]
  }

  /** An entry is an operator under its identifier. */
  ghost predicate Stems(reports: seq<QueryReport>, m: map<Identifier, Operator>, id: Identifier)
    requires id in m
  {
    exists r, i :: Has(reports, r, i) && id == IdentifierOf(reports[r], reports[r].operators[i])
                   && m[id] == reports[r].operators[i]
  }

  /** The map has every operator before a position, and nothing but those. */
  ghost predicate Found(reports: seq<QueryReport>, m: map<Identifier, Operator>, r: nat, i: nat) {
    && (Identified(reports) ==> forall s, j :: Has(reports, s, j) && Before(s, j, r, i) ==> IsFound(reports, m, s, j))
    && forall id <- m :: Stems(reports, m, id)
  }

  lemma FoundOneMore(reports: seq<QueryReport>, m: map<Identifier, Operator>, r: nat, i: nat)
    requires Found(reports, m, r, i) && Has(reports, r, i)
    ensures Found(reports, m[IdentifierOf(reports[r], reports[r].operators[i]) := reports[r].operators[i]], r, i + 1)
  {
    var id := IdentifierOf(reports[r], reports[r].operators[i]);
    var m' := m[id := reports[r].operators[i]];
    if Identified(reports) {
      forall s, j | Has(reports, s, j) && Before(s, j, r, i + 1) ensures IsFound(reports, m', s, j) {
        if s != r || j != i { assert IsFound(reports, m, s, j); }
      }
    }
    forall k <- m' ensures Stems(reports, m', k) {
      if k == id { assert Has(reports, r, i); } else { assert Stems(reports, m, k); }
    }
  }

  lemma {:induction false} FoundNextReport(reports: seq<QueryReport>, m: map<Identifier, Operator>, r: nat)
    requires r < |reports| && Found(reports, m, r, |reports[r].operators|)
    ensures Found(reports, m, r + 1, 0)
  {
    if Identified(reports) {
      forall s, j | Has(reports, s, j) && Before(s, j, r + 1, 0) ensures IsFound(reports, m, s, j) {
        assert Before(s, j, r, |reports[r].operators|);
      }
    }
  }

  // A run's identifiers

  /** The operators of every statement are a plan's. */
  ghost predicate FromPlans(file: QueryFile) {
    file.statements.Some? ==> forall operators <- file.statements.value :: operators.Some? ==> FromPlan(operators.value)
  }

  ghost predicate FromPlan(operators: seq<Operator>) {
    operators == [] || exists plan :: IsReport(operators, plan)
  }

  ghost predicate KeyedApart(reports: seq<QueryReport>) {
    forall r, s :: 0 <= r < s < |reports| ==>
      (reports[r].query, reports[r].statement) != (reports[s].query, reports[s].statement)
  }

  lemma {:induction false} ReportsComeFromFiles(files: seq<QueryFile>, r: nat)
    requires r < |AllReports(files)| && forall file <- files :: FromPlans(file)
    ensures exists file <- files :: file.stem == AllReports(files)[r].query
    ensures FromPlan(AllReports(files)[r].operators)
  {
    hide FromPlan;
    var before, file := AllReports(files[..|files| - 1]), files[|files| - 1];
    if r < |before| {
      ReportsComeFromFiles(files[..|files| - 1], r);
      assert forall f <- files[..|files| - 1] :: f in files;
    } else {
      assert file in files;
      NoOperators();
      assert AllReports(files)[r] == ReportsOf(file)[r - |before|];
    }
  }

  lemma NoOperators()
    ensures FromPlan([])
  {
  }

  /** With different stems, no two reports are of the same statement. */
  lemma {:induction false} RunsAreKeyedApart(files: seq<QueryFile>)
    requires forall i, j :: 0 <= i < j < |files| ==> files[i].stem != files[j].stem
    requires forall file <- files :: FromPlans(file)
    ensures KeyedApart(AllReports(files))
  {
    hide FromPlans;
    if files == [] {
    } else {
      var before, last := files[..|files| - 1], files[|files| - 1];
      RunsAreKeyedApart(before);
      forall r | 0 <= r < |AllReports(before)| ensures AllReports(before)[r].query != last.stem {
        ReportsComeFromFiles(before, r);
      }
    }
  }

  /** In a run over files with different stems, no two operators share an identifier. */
  lemma {:induction false} RunIsIdentified(files: seq<QueryFile>)
    requires forall i, j :: 0 <= i < j < |files| ==> files[i].stem != files[j].stem
    requires forall file <- files :: FromPlans(file)
    ensures Identified(AllReports(files))
  {
    hide FromPlans, AllReports;
    var reports := AllReports(files);
    RunsAreKeyedApart(files);
    forall r, i, s, j | Has(reports, r, i) && Has(reports, s, j)
      && IdentifierOf(reports[r], reports[r].operators[i]) == IdentifierOf(reports[s], reports[s].operators[j])
      ensures r == s && i == j
    {
      ReportsComeFromFiles(files, r);
      PathsDiffer(reports[r].operators, i, j);
    }
  }

  lemma PathsDiffer(operators: seq<Operator>, i: int, j: int)
    requires FromPlan(operators) && 0 <= i < |operators|
    ensures 0 <= j < |operators| && operators[i].path == operators[j].path ==> i == j
  {
    hide IsReport;
    var plan :| IsReport(operators, plan);
    ReportIsAddressed(operators, plan);
  }
}
