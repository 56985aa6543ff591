/** Comparing a query's rows with the expected ones (benchmarks/src/sql_benchmark.rs). */
module ResultComparison {
  import opened Text

  type Table = seq<seq<string>>

  datatype Mismatch = RowCount | ColumnCount(row: nat) | Cell(row: nat, column: nat)

  /** An expected cell admits an actual one. */
  predicate Admits(expected: string, actual: string) {
    || (expected == "NULL" && actual == "")
    || expected == actual
    || (expected == "(empty)" && (actual == "" || actual == "NULL"))
  }

  /** `NULL` stands for an empty cell, too, `(empty)` for an empty cell and for `NULL`, and every other
      cell for itself alone. */
  lemma CellsAdmitted(expected: string, actual: string)
    ensures Admits("NULL", actual) <==> actual in ["NULL", ""]
    ensures Admits("(empty)", actual) <==> actual in ["(empty)", "", "NULL"]
    ensures expected !in ["NULL", "(empty)"] ==> (Admits(expected, actual) <==> actual == expected)
  {
  }

  /** The same shape, and every expected cell admits the actual one. */
  ghost predicate SameTable(actual: Table, expected: Table) {
    && |actual| == |expected|
    && forall i :: 0 <= i < |expected| ==> SameRow(actual[i], expected[i], |expected[i]|)
  }

  /** The same width, and the first `width` expected cells admit the actual ones. */
  ghost predicate SameRow(actual: seq<string>, expected: seq<string>, width: nat) {
    && |actual| == |expected|
    && forall j :: 0 <= j < |expected| && j < width ==> Admits(expected[j], actual[j])
  }

  /** If no expected cell is `NULL` or `(empty)`, then only the expected table is the same table. */
  lemma OrdinaryTables(actual: Table, expected: Table)
    requires forall row <- expected :: "NULL" !in row && "(empty)" !in row
    ensures SameTable(actual, expected) <==> actual == expected
  {
    hide Admits;
    if SameTable(actual, expected) {
      forall i | 0 <= i < |expected| ensures actual[i] == expected[i] {
        assert expected[i] in expected && SameRow(actual[i], expected[i], |expected[i]|);
        forall j | 0 <= j < |expected[i]| ensures actual[i][j] == expected[i][j] {
          CellsAdmitted(expected[i][j], actual[i][j]);
        }
      }
    } else {
      forall cell ensures Admits(cell, cell) { CellsAdmitted(cell, cell); }
    }
  }

  /** What `compare_results` accepts: it looks at `columnCount` columns. */
  ghost predicate Accepted(columnCount: nat, actual: Table, expected: Table) {
    && |actual| == |expected|
    && forall i :: 0 <= i < |expected| ==> SameRow(actual[i], expected[i], columnCount)
  }

  /** The error names the first row, and in it the first column, that differs. */
  ghost predicate IsFirst(columnCount: nat, actual: Table, expected: Table, m: Mismatch) {
    match m
    case RowCount => |actual| != |expected|
    case ColumnCount(i) =>
      && |actual| == |expected| && i < |expected| && |actual[i]| != |expected[i]|
      && forall k :: 0 <= k < i ==> SameRow(actual[k], expected[k], columnCount)
    case Cell(i, j) =>
      && |actual| == |expected| && i < |expected| && j < columnCount && SameRow(actual[i], expected[i], j)
      && j < |expected[i]| && !Admits(expected[i][j], actual[i][j])
      && forall k :: 0 <= k < i ==> SameRow(actual[k], expected[k], columnCount)
  }

  method CompareResults(columnCount: nat, actual: Table, expected: Table) returns (r: Result<(), Mismatch>)
    ensures r.Ok? <==> Accepted(columnCount, actual, expected)
    ensures r.Err? ==> IsFirst(columnCount, actual, expected, r.error)
  {
    if |actual| == 0 && |expected| == 0 { return Ok(()); }
    if |actual| != |expected| { return Err(RowCount); }
    for i := 0 to |expected|
      invariant forall k :: 0 <= k < i ==> SameRow(actual[k], expected[k], columnCount)
    {
      if |actual[i]| != |expected[i]| { return Err(ColumnCount(i)); }
      var j := 0;
      while j < |expected[i]| && j < columnCount
        invariant 0 <= j <= |expected[i]|
        invariant SameRow(actual[i], expected[i], j)
      {
        if !Admits(expected[i][j], actual[i][j]) { return Err(Cell(i, j)); }
        j := j + 1;
      }
    }
    return Ok(());
  }

  /** No cell escapes the comparison, whatever the actual rows, exactly when no expected row is
      wider than the column count. */
  lemma EveryCellIsCompared(columnCount: nat, expected: Table)
    ensures (forall actual :: Accepted(columnCount, actual, expected) <==> SameTable(actual, expected))
            <==> (forall row <- expected :: |row| <= columnCount)
  {
    if forall row <- expected :: |row| <= columnCount {
      forall actual ensures Accepted(columnCount, actual, expected) <==> SameTable(actual, expected) {
        if Accepted(columnCount, actual, expected) {
          forall i | 0 <= i < |expected| ensures SameRow(actual[i], expected[i], |expected[i]|) {
            assert expected[i] in expected;
          }
        }
      }
    } else {
      var i :| 0 <= i < |expected| && |expected[i]| > columnCount;
      Escapes(columnCount, expected, i);
    }
  }

  /** The cell at the column count of a wider row can be anything. */
  lemma Escapes(columnCount: nat, expected: Table, i: nat)
    requires i < |expected| && |expected[i]| > columnCount
    ensures exists actual :: Accepted(columnCount, actual, expected) && !SameTable(actual, expected)
  {
    var cell := expected[i][columnCount];
    var actual := expected[i := expected[i][columnCount := cell + "x"]];
    assert !Admits(cell, cell + "x");
    forall k | 0 <= k < |expected| ensures SameRow(actual[k], expected[k], columnCount) {}
    assert !Admits(expected[i][columnCount], actual[i][columnCount]);
    assert Accepted(columnCount, actual, expected) && !SameTable(actual, expected);
  }
}
