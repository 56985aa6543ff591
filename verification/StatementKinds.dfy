/** Which statements of a run give its result, by their text (benchmarks/src/sql_benchmark.rs). */
module StatementKinds {
  import opened Text
  import opened BenchmarkRuns
  import T = Template

  /** "select", in any mix of small and capital letters. */
  predicate SpellsSelect(k: string) {
    && |k| == 6
    && (k[0] == 's' || k[0] == 'S') && (k[1] == 'e' || k[1] == 'E') && (k[2] == 'l' || k[2] == 'L')
    && (k[3] == 'e' || k[3] == 'E') && (k[4] == 'c' || k[4] == 'C') && (k[5] == 't' || k[5] == 'T')
  }

  predicate SpellsWith(k: string) {
    && |k| == 4
    && (k[0] == 'w' || k[0] == 'W') && (k[1] == 'i' || k[1] == 'I')
    && (k[2] == 't' || k[2] == 'T') && (k[3] == 'h' || k[3] == 'H')
  }

  /** Behind blanks the text begins with one of the two words. */
  ghost predicate GivesRows(query: string) {
    exists pad, k, rest :: Begins(query, pad, k, rest)
  }

  predicate Begins(query: string, pad: string, k: string, rest: string) {
    query == pad + k + rest && Blank(pad) && (SpellsSelect(k) || SpellsWith(k))
  }

  lemma SelectInAnyCase(k: string)
    ensures T.EqIgnoreAsciiCase(k, "select") <==> SpellsSelect(k)
  {
    if |k| == 6 {
      var x, y := T.AsciiLowerAll(k), T.AsciiLowerAll("select");
      assert y == "select";
      assert x == y <==> x[0] == 's' && x[1] == 'e' && x[2] == 'l' && x[3] == 'e' && x[4] == 'c' && x[5] == 't';
    }
  }

  lemma WithInAnyCase(k: string)
    ensures T.EqIgnoreAsciiCase(k, "with") <==> SpellsWith(k)
  {
    if |k| == 4 {
      var x, y := T.AsciiLowerAll(k), T.AsciiLowerAll("with");
      assert y == "with";
      assert x == y <==> x[0] == 'w' && x[1] == 'i' && x[2] == 't' && x[3] == 'h';
    }
  }

  /** A word of letters is not blank. */
  lemma WordStarts(k: string)
    requires SpellsSelect(k) || SpellsWith(k)
    ensures k != "" && k[0] !in SPACE
  {
  }

  lemma ResultBegins(query: string) returns (pad: string, k: string, rest: string)
    requires IsResultStatement(query)
    ensures Begins(query, pad, k, rest)
  {
    hide SpellsSelect, SpellsWith, T.EqIgnoreAsciiCase, TrimStart;
    var q := TrimStart(query, SPACE);
    pad := TrimStartSplits(query, SPACE);
    var n := if StartsWithIgnoreCase(q, "select") then 6 else 4;
    k, rest := q[..n], q[n..];
    SelectInAnyCase(k);
    WithInAnyCase(k);
    assert q == k + rest;
    Regroup(pad, k, rest);
  }

  lemma BeginsResult(query: string, pad: string, k: string, rest: string)
    requires Begins(query, pad, k, rest)
    ensures IsResultStatement(query)
  {
    hide SpellsSelect, SpellsWith, T.EqIgnoreAsciiCase;
    WordStarts(k);
    TrimStartPadded(pad, k + rest, SPACE);
    Regroup(pad, k, rest);
    assert TrimStart(k + rest, SPACE) == k + rest;
    assert (k + rest)[..|k|] == k;
    SelectInAnyCase(k);
    WithInAnyCase(k);
    WordLengths(k);
  }

  /** Which statements give the result. */
  lemma ResultStatements(query: string)
    ensures IsResultStatement(query) <==> GivesRows(query)
  {
    hide IsResultStatement, Begins;
    if IsResultStatement(query) { var pad, k, rest := ResultBegins(query); }
    if pad, k, rest :| Begins(query, pad, k, rest) { BeginsResult(query, pad, k, rest); }
  }

  lemma WordLengths(k: string)
    ensures SpellsSelect(k) ==> |k| == 6
    ensures SpellsWith(k) ==> |k| == 4
  {
  }

  /** A run whose last statement is a SELECT or WITH returns the rows of that answer, and saves them. */
  lemma LastRowsCount(s: Script, validated: bool, save: bool, answers: nat -> Answer, pad: string, k: string,
                      rest: string)
    requires s.queries.Some? && s.queries.value != [] && Begins(s.queries.value[|s.queries.value| - 1], pad, k, rest)
    requires Execute(s, validated, save, answers).Ok?
    ensures var n := |s.queries.value| - 1;
            && answers(n).Planned? && answers(n).result.Some?
            && Execute(s, validated, save, answers).value.count == |Rows(answers(n).result.value)|
            && (save ==> Rows(Execute(s, validated, save, answers).value.saved) == Rows(answers(n).result.value))
            && (save ==> Execute(s, validated, save, answers).value.saved != [])
  {
    hide Execute, IsResultStatement, RowCount, Rows, Begins;
    var queries := s.queries.value;
    var n := |queries| - 1;
    ResultStatements(queries[n]);
    ExecuteIs(s, validated, save, answers);
    assert Passes(s.plans, validated, answers(n));
    RowsAreCounted(answers(n).result.value);
    SavedHasRows(answers(n).result.value);
  }

  lemma {:induction false} RowsAreCounted(batches: seq<Batch>)
    ensures RowCount(batches) == |Rows(batches)|
  {
    if batches == [] {
    } else {
      RowsAreCounted(batches[1..]);
    }
  }

  lemma SavedHasRows(batches: seq<Batch>)
    ensures Rows(Saved(batches)) == Rows(batches) && Saved(batches) != []
  {
    if batches == [] {
      var one: seq<Batch> := [[]];
      assert one[1..] == [];
    }
  }

  /** A last statement that starts otherwise leaves count and rows to the statements before it. */
  lemma OtherStatementsDoNotCount(s: Script, validated: bool, save: bool, answers: nat -> Answer)
    requires s.queries.Some? && s.queries.value != [] && !GivesRows(s.queries.value[|s.queries.value| - 1])
    requires Execute(s, validated, save, answers).Ok?
    ensures var before := s.(queries := Some(s.queries.value[..|s.queries.value| - 1]));
            Execute(before, validated, save, answers) == Execute(s, validated, save, answers)
  {
    hide Execute, IsResultStatement, RowCount, GivesRows;
    var queries := s.queries.value;
    var before := s.(queries := Some(queries[..|queries| - 1]));
    ResultStatements(queries[|queries| - 1]);
    ExecuteIs(s, validated, save, answers);
    ExecuteIs(before, validated, save, answers);
  }

  /** A run in which no statement starts with one of the two words saves and counts nothing. */
  lemma NothingCounts(s: Script, validated: bool, save: bool, answers: nat -> Answer)
    requires s.queries.Some? && Execute(s, validated, save, answers).Ok? && forall q <- s.queries.value :: !GivesRows(q)
    ensures Execute(s, validated, save, answers) == Ok(Outcome(0, []))
  {
    hide Execute, IsResultStatement, RowCount, GivesRows;
    var queries := s.queries.value;
    ExecuteIs(s, validated, save, answers);
    var i := LastResult(queries);
    if i >= 0 { ResultStatements(queries[i]); }
  }
}
