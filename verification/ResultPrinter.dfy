/** How the command line collects a query's result under a row limit and prints it as a table
    (datafusion-cli/src/exec.rs, print_format.rs and print_options.rs).
    A batch is its sequence of rows. */
module ResultPrinter {
  import opened Numbers
  import opened Text

  const USIZE_MAX: nat := 0xFFFF_FFFF_FFFF_FFFF

  type Batch<R> = seq<R>

  datatype MaxRows = Unlimited | Limited(n: nat)

  function SaturatingAdd(a: nat, b: nat): nat {
    if a + b > USIZE_MAX then USIZE_MAX else a + b
  }

  function Flatten<R>(bs: seq<Batch<R>>): seq<R> {
    if bs == [] then [] else bs[0] + Flatten(bs[1..])
  }

  function Total<R>(bs: seq<Batch<R>>): nat {
    if bs == [] then 0 else |bs[0]| + Total(bs[1..])
  }

  lemma {:induction false} FlattenLength<R>(bs: seq<Batch<R>>)
    ensures |Flatten(bs)| == Total(bs)
  {
    if bs == [] {
    } else {
      FlattenLength(bs[1..]);
    }
  }

  // Collection

  function Cap(maxrows: MaxRows): nat {
    if maxrows.Unlimited? then USIZE_MAX else maxrows.n
  }

  /** The test by which a batch is collected: `before` rows were seen ahead of its `rows` rows. */
  predicate Kept(before: nat, rows: nat, cap: nat) {
    before < SaturatingAdd(cap, rows)
  }

  /** The sum saturates: no batch is kept once as many rows were seen as can be counted. */
  lemma KeptIs(before: nat, rows: nat, cap: nat)
    ensures Kept(before, rows, cap) <==> before < cap + rows && before < 18446744073709551615
  {
  }

  /** The collected batches of a stream that `before` rows precede. */
  function Collected<R>(stream: seq<Batch<R>>, before: nat, cap: nat): seq<Batch<R>> {
    if stream == [] then []
    else (if Kept(before, |stream[0]|, cap) then [stream[0]] else [])
         + Collected(stream[1..], before + |stream[0]|, cap)
  }

  datatype StreamItem<R> = Item(batch: Batch<R>) | Failed

  /** The batches of a stream up to its first error. */
  function Delivered<R>(stream: seq<StreamItem<R>>): seq<Batch<R>> {
    if stream == [] || stream[0].Failed? then [] else [stream[0].batch] + Delivered(stream[1..])
  }

  predicate Complete<R>(stream: seq<StreamItem<R>>) {
    forall i :: 0 <= i < |stream| ==> stream[i].Item?
  }

  lemma CollectedCons<R>(b: Batch<R>, rest: seq<Batch<R>>, before: nat, cap: nat)
    ensures Collected([b] + rest, before, cap)
         == if Kept(before, |b|, cap) then [b] + Collected(rest, before + |b|, cap)
            else Collected(rest, before + |b|, cap)
  {
    assert ([b] + rest)[1..] == rest;
    assert [] + Collected(rest, before + |b|, cap) == Collected(rest, before + |b|, cap);
  }

  lemma CollectedNone<R>(stream: seq<Batch<R>>, before: nat, cap: nat)
    requires stream == []
    ensures Collected(stream, before, cap) == []
  {}

  lemma CollectNext<R>(results: seq<Batch<R>>, b: Batch<R>, rest: seq<Batch<R>>, before: nat, cap: nat)
    ensures results + Collected([b] + rest, before, cap)
         == (if before < SaturatingAdd(cap, |b|) then results + [b] else results)
            + Collected(rest, before + |b|, cap)
    ensures Total([b] + rest) == |b| + Total(rest)
  {
    hide Collected, Flatten, Total, NonEmpty;
    CollectedCons(b, rest, before, cap);
    Cons(b, rest);
    Regroup(results, [b], Collected(rest, before + |b|, cap));
  }

  lemma DeliveredNext<R>(stream: seq<StreamItem<R>>, i: nat)
    requires i <= |stream|
    ensures i == |stream| ==> Delivered(stream[i..]) == []
    ensures i < |stream| && stream[i].Item? ==>
              Delivered(stream[i..]) == [stream[i].batch] + Delivered(stream[i + 1..])
  {
    if i < |stream| { assert stream[i..][1..] == stream[i + 1..]; }
  }

  /** The collection loop of `StatementExecutor::execute`, for a bounded stream whose row count
      fits the counter. Every row is counted, but only batches that pass the test are kept. */
  method Collect<R>(stream: seq<StreamItem<R>>, maxrows: MaxRows)
    returns (r: Result<(seq<Batch<R>>, nat), ()>)
    requires Total(Delivered(stream)) <= USIZE_MAX
    ensures r.Ok? <==> Complete(stream)
    ensures r.Ok? ==>
      r.value == (Collected(Delivered(stream), 0, Cap(maxrows)), Total(Delivered(stream)))
  {
    hide Collected, Delivered, Total;
    var results: seq<Batch<R>> := [];
    var rowCount: nat := 0;
    var cap := Cap(maxrows);
    ghost var all := Delivered(stream);
    assert stream[0..] == stream && [] + Collected(all, 0, cap) == Collected(all, 0, cap);
    for i := 0 to |stream|
      invariant forall j :: 0 <= j < i ==> stream[j].Item?
      invariant Collected(all, 0, cap) == results + Collected(Delivered(stream[i..]), rowCount, cap)
      invariant Total(all) == rowCount + Total(Delivered(stream[i..]))
    {
      DeliveredNext(stream, i);
      match stream[i]
      case Failed => return Err(());
      case Item(batch) =>
        ghost var rest := Delivered(stream[i + 1..]);
        CollectNext(results, batch, rest, rowCount, cap);
        if rowCount < SaturatingAdd(cap, |batch|) {
          results := results + [batch];
        }
        rowCount := rowCount + |batch|;
    }
    DeliveredNext(stream, |stream|);
    CollectedNone(Delivered(stream[|stream|..]), rowCount, cap);
    TotalNone(Delivered(stream[|stream|..]));
    assert results + [] == results;
    return Ok((results, rowCount));
  }

  lemma TotalNone<R>(bs: seq<Batch<R>>)
    requires bs == []
    ensures Total(bs) == 0
  {}

  // Formatting

  /** The batches shown under a limit, and whether it cut anything off, when `before` rows are
      already shown. */
  function Filtered<R>(bs: seq<Batch<R>>, before: nat, n: nat): (seq<Batch<R>>, bool)
    requires before <= n
  {
    if bs == [] then ([], false)
    else if before + |bs[0]| > n then ([bs[0][..n - before]], true)
    else
      var (rest, over) := Filtered(bs[1..], before + |bs[0]|, n);
      ([bs[0]] + rest, over)
  }

  /** The filtering loop of `format_batches_with_maxrows`. */
  method FilterBatches<R>(batches: seq<Batch<R>>, maxrows: nat)
    returns (filtered: seq<Batch<R>>, overLimit: bool)
    ensures (filtered, overLimit) == Filtered(batches, 0, maxrows)
  {
    filtered, overLimit := [], false;
    var rowCount: nat := 0;
    assert batches[0..] == batches && [] + Filtered(batches, 0, maxrows).0 == Filtered(batches, 0, maxrows).0;
    for i := 0 to |batches|
      invariant rowCount <= maxrows && !overLimit
      invariant var (rest, over) := Filtered(batches[i..], rowCount, maxrows);
                Filtered(batches, 0, maxrows) == (filtered + rest, over)
    {
      assert batches[i..][0] == batches[i] && batches[i..][1..] == batches[i + 1..];
      if rowCount + |batches[i]| > maxrows {
        filtered := filtered + [batches[i][..maxrows - rowCount]];
        overLimit := true;
        return;
      } else {
        ghost var rest := Filtered(batches[i + 1..], rowCount + |batches[i]|, maxrows).0;
        assert filtered + ([batches[i]] + rest) == filtered + [batches[i]] + rest;
        filtered := filtered + [batches[i]];
        rowCount := rowCount + |batches[i]|;
      }
    }
    assert batches[|batches|..] == [] && filtered + [] == filtered;
  }

  /** The rows shown are the first `n` rows, or all of them, and the limit is reported as
      exceeded exactly when there are more. */
  lemma {:induction false} FilteredShowsPrefix<R>(bs: seq<Batch<R>>, before: nat, n: nat)
    requires before <= n
    ensures var (shown, over) := Filtered(bs, before, n);
            && Flatten(shown) == Flatten(bs)[..Min(n - before, |Flatten(bs)|)]
            && (over <==> before + Total(bs) > n)
            && (!over ==> shown == bs)
  {
    FlattenLength(bs);
    if bs == [] {
    } else {
      if before + |bs[0]| > n {
        var cut := bs[0][..n - before];
        assert [cut][1..] == [];
        assert Flatten([cut]) == cut + Flatten([cut][1..]) == cut;
        assert Flatten(bs)[..n - before] == cut;
      } else {
        FilteredShowsPrefix(bs[1..], before + |bs[0]|, n);
        var (rest, over) := Filtered(bs[1..], before + |bs[0]|, n);
        FlattenLength(bs[1..]);
        assert ([bs[0]] + rest)[1..] == rest;
        assert bs == [bs[0]] + bs[1..];
      }
    }
  }

  function DottedLine(last: string): string {
    "| ." + Spaces(if |last| >= 4 then |last| - 4 else 0) + "|"
  }

  /** A dotted line is as wide as the table: a bar, a dot in its first column, and a bar. */
  lemma DottedLineIs(last: string)
    ensures var s := DottedLine(last);
            && |s| == (if |last| < 4 then 4 else |last|) && s[0] == '|' && s[1] == ' ' && s[2] == '.'
            && Only(s[3..|s| - 1], {' '}) && s[|s| - 1] == '|'
  {
  }

  /** `keep_only_maxrows`; the requires is the assertion it makes. The header and `maxrows` lines
      of a table, three dotted lines, and the bottom border are left. */
  method KeepOnlyMaxrows(lines: seq<string>, maxrows: nat) returns (r: seq<string>)
    requires |lines| >= maxrows + 4
    ensures |r| == maxrows + 7
    ensures r[..maxrows + 3] == lines[..maxrows + 3]
    ensures r[|r| - 1] == lines[|lines| - 1]
    ensures forall i :: maxrows + 3 <= i < maxrows + 6 ==> r[i] == DottedLine(lines[|lines| - 1])
  {
    var lastLine := lines[|lines| - 1];
    var dottedLine := DottedLine(lastLine);
    r := lines[0..maxrows + 3];
    r := r + [dottedLine, dottedLine, dottedLine];
    r := r + [lastLine];
  }

  /** The table printer: one line for each row at least, and four lines of border and header. */
  ghost predicate TablePrinter<R(!new)>(pretty: seq<Batch<R>> -> seq<string>) {
    forall bs :: |pretty(bs)| >= Total(bs) + 4
  }

  /** `format_batches_with_maxrows`: the assertion of `keep_only_maxrows` never fails. */
  method FormatBatches<R(!new)>(batches: seq<Batch<R>>, maxrows: MaxRows, pretty: seq<Batch<R>> -> seq<string>)
    returns (lines: seq<string>)
    requires TablePrinter(pretty)
    ensures maxrows.Unlimited? ==> lines == pretty(batches)
    ensures maxrows.Limited? ==>
              var (shown, over) := Filtered(batches, 0, maxrows.n);
              if over then
                && |lines| == maxrows.n + 7 && |pretty(shown)| >= maxrows.n + 4
                && lines[..maxrows.n + 3] == pretty(shown)[..maxrows.n + 3]
                && lines[|lines| - 1] == pretty(shown)[|pretty(shown)| - 1]
                && forall i :: maxrows.n + 3 <= i < maxrows.n + 6 ==> lines[i] == DottedLine(lines[|lines| - 1])
              else lines == pretty(batches)
  {
    match maxrows
    case Unlimited =>
      lines := pretty(batches);
    case Limited(n) =>
      var filtered, overLimit := FilterBatches(batches, n);
      FilteredShowsPrefix(batches, 0, n);
      FlattenLength(filtered);
      FlattenLength(batches);
      lines := pretty(filtered);
      if overLimit {
        lines := KeepOnlyMaxrows(lines, n);
      }
  }

  // Printing

  function NonEmpty<R>(bs: seq<Batch<R>>): seq<Batch<R>> {
    if bs == [] then []
    else (if |bs[0]| > 0 then [bs[0]] else []) + NonEmpty(bs[1..])
  }

  /** What is printed of a result as a table. */
  datatype Printed<R> =
    | Header
    | Nothing
    | Whole(batches: seq<Batch<R>>)
    | Cut(batches: seq<Batch<R>>)

  /** `PrintFormat::print_batches` for tables. */
  function PrintBatches<R>(batches: seq<Batch<R>>, maxrows: MaxRows, hasColumns: bool): Printed<R> {
    var bs := NonEmpty(batches);
    if bs == [] then (if hasColumns then Header else Nothing)
    else match maxrows
      case Unlimited => Whole(bs)
      case Limited(n) =>
        if n == 0 then Nothing
        else
          var (shown, over) := Filtered(bs, 0, n);
          if over then Cut(shown) else Whole(shown)
  }

  /** `get_execution_details_formatted`: whether the "First n displayed" note is printed. */
  predicate NoteShown(rowCount: nat, maxrows: MaxRows) {
    maxrows.Limited? && maxrows.n < rowCount
  }

  lemma Cons<R>(b: Batch<R>, rest: seq<Batch<R>>)
    ensures Flatten([b] + rest) == b + Flatten(rest)
    ensures Total([b] + rest) == |b| + Total(rest)
    ensures NonEmpty([b] + rest) == if |b| > 0 then [b] + NonEmpty(rest) else NonEmpty(rest)
  {
    assert ([b] + rest)[1..] == rest;
    assert [] + NonEmpty(rest) == NonEmpty(rest);
  }

  lemma FilteredCons<R>(b: Batch<R>, rest: seq<Batch<R>>, before: nat, n: nat)
    requires before <= n
    ensures Filtered([b] + rest, before, n)
         == if before + |b| > n then ([b[..n - before]], true)
            else ([b] + Filtered(rest, before + |b|, n).0, Filtered(rest, before + |b|, n).1)
  {
    assert ([b] + rest)[1..] == rest;
  }

  lemma {:induction false} NonEmptyKeepsRows<R>(bs: seq<Batch<R>>)
    ensures Flatten(NonEmpty(bs)) == Flatten(bs) && Total(NonEmpty(bs)) == Total(bs)
    ensures NonEmpty(bs) == [] <==> Total(bs) == 0
  {
    if bs == [] {
    } else {
      hide Flatten, Total, NonEmpty;
      var b, rest := bs[0], bs[1..];
      NonEmptyKeepsRows(rest);
      assert bs == [b] + rest;
      Cons(b, rest);
      Cons(b, NonEmpty(rest));
      if |b| == 0 { assert b + Flatten(rest) == Flatten(rest); }
    }
  }

  /** Until the limit is passed every batch with rows is collected, so what is shown of the
      collected batches is what is shown of all of them. */
  lemma {:induction false} FilteredOfCollected<R>(stream: seq<Batch<R>>, before: nat, n: nat)
    requires before <= n && before + Total(stream) <= USIZE_MAX
    ensures Filtered(NonEmpty(Collected(stream, before, n)), before, n) == Filtered(NonEmpty(stream), before, n)
    ensures NonEmpty(Collected(stream, before, n)) == [] <==> NonEmpty(stream) == []
  {
    hide Collected, NonEmpty, Filtered;
    if stream == [] {
      assert Collected(stream, before, n) == stream by { CollectedNone(stream, before, n); }
    } else {
      var b, rest := stream[0], stream[1..];
      var kept := Collected(rest, before + |b|, n);
      assert stream == [b] + rest;
      CollectedCons(b, rest, before, n);
      Cons(b, rest);
      Cons(b, kept);
      FilteredCons(b, NonEmpty(rest), before, n);
      FilteredCons(b, NonEmpty(kept), before, n);
      if before + |b| <= n {
        FilteredOfCollected(rest, before + |b|, n);
      }
    }
  }

  lemma {:induction false} UnlimitedCollectsAll<R>(stream: seq<Batch<R>>, before: nat)
    requires before + Total(stream) <= USIZE_MAX
    ensures NonEmpty(Collected(stream, before, USIZE_MAX)) == NonEmpty(stream)
  {
    hide Collected, NonEmpty;
    if stream == [] {
      CollectedNone(stream, before, USIZE_MAX);
    } else {
      var b, rest := stream[0], stream[1..];
      assert stream == [b] + rest;
      CollectedCons(b, rest, before, USIZE_MAX);
      Cons(b, rest);
      Cons(b, Collected(rest, before + |b|, USIZE_MAX));
      UnlimitedCollectsAll(rest, before + |b|);
    }
  }

  /** Collecting under a limit and printing under the same limit prints what printing the
      whole result would. */
  lemma BoundedCollectionPrintsTheSame<R>(stream: seq<Batch<R>>, maxrows: MaxRows, hasColumns: bool)
    requires Total(stream) <= USIZE_MAX
    ensures PrintBatches(Collected(stream, 0, Cap(maxrows)), maxrows, hasColumns)
         == PrintBatches(stream, maxrows, hasColumns)
  {
    match maxrows
    case Unlimited => UnlimitedCollectsAll(stream, 0);
    case Limited(n) => FilteredOfCollected(stream, 0, n);
  }

  /** What the user sees: the first rows up to the limit, and for a limit above zero the note
      about missing rows exactly when rows are missing. */
  lemma PrintedRowsAndNote<R>(stream: seq<Batch<R>>, maxrows: MaxRows, hasColumns: bool)
    requires Total(stream) <= USIZE_MAX && maxrows != Limited(0)
    ensures var printed := PrintBatches(Collected(stream, 0, Cap(maxrows)), maxrows, hasColumns);
            && (printed.Cut? <==> NoteShown(Total(stream), maxrows))
            && (printed.Whole? ==> Flatten(printed.batches) == Flatten(stream))
            && (printed.Cut? ==> maxrows.Limited? && maxrows.n < |Flatten(stream)|
                                 && Flatten(printed.batches) == Flatten(stream)[..maxrows.n])
            && (printed.Header? || printed.Nothing? ==> Flatten(stream) == [])
            && (Flatten(stream) == [] ==> printed == if hasColumns then Header else Nothing)
  {
    hide Flatten, Total, NonEmpty, Filtered, Collected;
    BoundedCollectionPrintsTheSame(stream, maxrows, hasColumns);
    NonEmptyKeepsRows(stream);
    FlattenLength(stream);
    FlattenLength(NonEmpty(stream));
    if maxrows.Limited? {
      FilteredShowsPrefix(NonEmpty(stream), 0, maxrows.n);
    }
  }

  /** With a limit of zero no row is printed, and of a result without rows the header. */
  lemma PrintedWithLimitZero<R>(stream: seq<Batch<R>>, hasColumns: bool)
    requires Total(stream) <= USIZE_MAX
    ensures PrintBatches(Collected(stream, 0, 0), Limited(0), hasColumns)
         == if Flatten(stream) == [] && hasColumns then Header else Nothing
  {
    hide Flatten, Total, NonEmpty, Filtered, Collected;
    BoundedCollectionPrintsTheSame(stream, Limited(0), hasColumns);
    NonEmptyKeepsRows(stream);
    FlattenLength(stream);
  }

  // Adjusted limits

  datatype Statement = ShowVariable | OtherStatement
  datatype Plan = Explain | DescribeTable | Analyze | OtherPlan

  /** `with_statement` and `with_plan` lift the limit for some statements and plans. The
      printer uses the adjusted limit, but the collector the one the user set. */
  function Adjusted(maxrows: MaxRows, statement: Statement, plan: Plan): MaxRows {
    if statement.ShowVariable? || !plan.OtherPlan? then Unlimited else maxrows
  }

  /** The limit is lifted for SHOW, EXPLAIN, DESCRIBE and EXPLAIN ANALYZE, and for nothing else. */
  lemma AdjustedIs(maxrows: MaxRows, plan: Plan)
    ensures Adjusted(maxrows, ShowVariable, plan) == Unlimited
    ensures Adjusted(maxrows, OtherStatement, plan) == if plan == OtherPlan then maxrows else Unlimited
  {
  }

  function Before<R>(stream: seq<Batch<R>>, i: nat): nat
    requires i <= |stream|
  {
    if i == 0 then 0 else |stream[0]| + Before(stream[1..], i - 1)
  }

  /** Batch `i` and its rows are collected although `before` rows precede the stream. */
  predicate Survives<R>(stream: seq<Batch<R>>, before: nat, n: nat, i: nat)
    requires i < |stream|
  {
    |stream[i]| > 0 ==> Kept(before + Before(stream, i), |stream[i]|, n)
  }

  lemma SurvivesBehind<R>(stream: seq<Batch<R>>, before: nat, n: nat, i: nat)
    requires 0 < i < |stream|
    ensures Survives(stream, before, n, i) <==> Survives(stream[1..], before + |stream[0]|, n, i - 1)
  {}

  predicate AllSurvive<R>(stream: seq<Batch<R>>, before: nat, n: nat) {
    forall i :: 0 <= i < |stream| ==> Survives(stream, before, n, i)
  }

  lemma AllSurviveCons<R>(stream: seq<Batch<R>>, before: nat, n: nat)
    requires stream != []
    ensures AllSurvive(stream, before, n)
       <==> (|stream[0]| > 0 ==> Kept(before, |stream[0]|, n)) && AllSurvive(stream[1..], before + |stream[0]|, n)
  {
    hide Kept;
    var rest, later := stream[1..], before + |stream[0]|;
    assert Survives(stream, before, n, 0) <==> (|stream[0]| > 0 ==> Kept(before, |stream[0]|, n));
    hide Survives;
    forall i | 0 < i < |stream|
      ensures Survives(stream, before, n, i) <==> Survives(rest, later, n, i - 1)
    {
      SurvivesBehind(stream, before, n, i);
    }
    if AllSurvive(stream, before, n) {
      forall i | 0 <= i < |rest| ensures Survives(rest, later, n, i) {
        assert Survives(stream, before, n, i + 1);
      }
    }
  }

  lemma {:induction false} CollectedAllIff<R>(stream: seq<Batch<R>>, before: nat, n: nat)
    ensures Total(Collected(stream, before, n)) <= Total(stream)
    ensures Flatten(Collected(stream, before, n)) == Flatten(stream) <==> AllSurvive(stream, before, n)
  {
    hide AllSurvive, Kept, Collected, Total, Flatten;
    if stream == [] {
      NoneToSurvive(stream, before, n);
      CollectedNone(stream, before, n);
    } else {
      var b, rest := stream[0], stream[1..];
      var kept := Collected(rest, before + |b|, n);
      CollectedAllIff(rest, before + |b|, n);
      AllSurviveCons(stream, before, n);
      assert stream == [b] + rest;
      CollectedCons(b, rest, before, n);
      Cons(b, rest);
      Cons(b, kept);
      FlattenLength(rest);
      FlattenLength(kept);
      SameHead(b, Flatten(kept), Flatten(rest));
    }
  }

  lemma NoneToSurvive<R>(stream: seq<Batch<R>>, before: nat, n: nat)
    requires stream == []
    ensures AllSurvive(stream, before, n)
  {}

  lemma SameHead<R>(b: seq<R>, x: seq<R>, y: seq<R>)
    ensures b + x == b + y <==> x == y
  {
    if b + x == b + y {
      assert x == (b + x)[|b|..] && y == (b + y)[|b|..];
    }
  }

  /** A statement whose limit is lifted prints all of its rows exactly when no batch with rows
      starts so far behind the user's limit that the collector drops it. */
  lemma LiftedLimitIsComplete<R>(stream: seq<Batch<R>>, n: nat, statement: Statement, plan: Plan)
    requires Adjusted(Limited(n), statement, plan) == Unlimited
    ensures var printed := PrintBatches(Collected(stream, 0, n), Adjusted(Limited(n), statement, plan), true);
            var rows := if printed.Whole? then Flatten(printed.batches) else [];
            rows == Flatten(stream) <==> AllSurvive(stream, 0, n)
  {
    CollectedAllIff(stream, 0, n);
    NonEmptyKeepsRows(Collected(stream, 0, n));
    FlattenLength(Collected(stream, 0, n));
  }

  /** Explaining a query with a limit of zero loses the second of two one-row batches. */
  lemma LiftedLimitDropsRows<R>(a: R, b: R)
    ensures PrintBatches(Collected([[a], [b]], 0, 0), Adjusted(Limited(0), OtherStatement, Explain), true)
         == Whole([[a]])
  {
    var stream := [[a], [b]];
    assert stream[1..] == [[b]] && [[b]][1..] == [];
    assert Collected([[b]], 1, 0) == [];
    assert Collected(stream, 0, 0) == [[a]] + [];
    assert [[a]][1..] == [] && NonEmpty([[a]]) == [[a]];
  }

  // How much is collected

  lemma {:induction false} CollectedBelow<R>(stream: seq<Batch<R>>, before: nat, n: nat, b: nat)
    requires b > 0 && forall i :: 0 <= i < |stream| ==> |stream[i]| <= b
    ensures var kept := Total(Collected(stream, before, n)); kept > 0 ==> before + kept <= n + 2 * b - 1
  {
    if stream == [] {
    } else {
      var rest, later := stream[1..], before + |stream[0]|;
      CollectedBelow(rest, later, n, b);
      assert stream == [stream[0]] + rest;
      CollectedCons(stream[0], rest, before, n);
      Cons(stream[0], Collected(rest, later, n));
    }
  }

  /** If no batch has more than `b` rows, at most `n + 2b - 1` rows are held in memory. */
  lemma RetentionBound<R>(stream: seq<Batch<R>>, n: nat, b: nat)
    requires b > 0 && forall i :: 0 <= i < |stream| ==> |stream[i]| <= b
    ensures Total(Collected(stream, 0, n)) <= n + 2 * b - 1
  {
    CollectedBelow(stream, 0, n, b);
  }

  /** The number of batches collected after the limit was reached. */
  function KeptPast<R>(stream: seq<Batch<R>>, before: nat, n: nat): nat {
    if stream == [] then 0
    else (if before >= n && Kept(before, |stream[0]|, n) then 1 else 0)
         + KeptPast(stream[1..], before + |stream[0]|, n)
  }

  lemma MulMonotone(p: nat, x: nat, y: nat)
    requires x <= y
    ensures p * x <= p * y
  {}

  lemma {:induction false} OvershootDoubles<R>(stream: seq<Batch<R>>, before: nat, n: nat)
    requires before >= n
    ensures Pow2(KeptPast(stream, before, n)) * (before - n + 1) <= before + Total(stream) - n + 1
  {
    if stream == [] {
    } else {
      var b := |stream[0]|;
      OvershootDoubles(stream[1..], before + b, n);
      Doubling(KeptPast(stream[1..], before + b, n), before - n + 1, b, Kept(before, b, n));
    }
  }

  lemma Doubling(k: nat, d: nat, b: nat, kept: bool)
    requires kept ==> d <= b
    ensures Pow2((if kept then 1 else 0) + k) * d <= Pow2(k) * (d + b)
  {
    var p := Pow2(k);
    if kept {
      MulMonotone(p, 2 * d, d + b);
      assert Pow2(1 + k) * d == p * (2 * d);
    } else {
      MulMonotone(p, d, d + b);
    }
  }

  /** Every batch collected past the limit at least doubles the distance to it, so their number
      is logarithmic in the rows seen: with `k` of them, `2^k` is at most one more than the rows
      beyond the limit. */
  lemma {:induction false} KeptPastIsLogarithmic<R>(stream: seq<Batch<R>>, before: nat, n: nat)
    requires before <= n
    ensures var k, seen := KeptPast(stream, before, n), before + Total(stream);
            if seen < n then k == 0 else Pow2(k) <= seen - n + 1
  {
    if stream == [] {
    } else {
      if before == n {
        OvershootDoubles(stream, before, n);
        assert Pow2(KeptPast(stream, before, n)) * 1 == Pow2(KeptPast(stream, before, n));
      } else if before + |stream[0]| <= n {
        KeptPastIsLogarithmic(stream[1..], before + |stream[0]|, n);
      } else {
        var x := before + |stream[0]|;
        OvershootDoubles(stream[1..], x, n);
        var p := Pow2(KeptPast(stream[1..], x, n));
        MulMonotone(p, 1, x - n + 1);
      }
    }
  }
}
