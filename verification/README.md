# DataFusion tools: a verified model

DataFusion ships programs around its query engine: the runner of `.benchmark` files, the command
line, the statistics report, the scripts that check the CI workflow and keep the committer table.
This project models the parts of them that parse, transform and decide, and proves what they
promise; of the engine it models the merge of sorted streams. Everything else of the engine, the
file system, the environment and random numbers are parameters.

| files | what they model |
|---|---|
| `Template`, `TemplateStability`, `TemplateValues`, `SqlStatements`, `BenchmarkSyntax`, `BenchmarkSpec`, `BenchmarkParser`, `BenchmarkText`, `BenchmarkRoundTrip`, `BenchmarkTemplates`, `BenchmarkComments`, `BenchmarkSpelling` | the `.benchmark` language: placeholders, statements, directives, comments, includes |
| `ResultComparison`, `BenchmarkRuns`, `StatementKinds` | running a benchmark repeatedly and verifying its results |
| `CommandSplitter`, `CommandQuotes`, `ResultPrinter` | the command line: splitting input into commands, collecting and printing results |
| `Expression`, `Workflow`, `WorkflowRuns`, `WorkflowErrors` | the checker of the conditions on CI jobs, and what jobs a run skips |
| `Committers`, `Roster`, `RosterOrder`, `RosterGroups`, `GovernanceFile` | the script that rewrites the committer table |
| `PlanStatistics`, `StatisticsReport`, `QErrorSummary` | the report that compares estimates with runtime metrics |
| `QueryFilenames`, `QuerySelection` | from a query identifier to a file, and to benchmarks |
| `DictionaryData`, `AccessLog` | generated data |
| `LoserTree`, `TieBreaker`, `SortPreservingMerge`, `TieBreakerRuns`, `TieBreakerRounds` | the engine's merge of sorted streams with a tournament tree, and its tie breaker |
| `Text`, `TextSearch`, `Letters`, `StringOrder`, `Decimal`, `Division`, `Numbers` | strings and numbers |

Code that updates variables or objects is modelled by methods and classes, each proved against a
function or a predicate that says what it computes; the laws are lemmas about those.

`dafny verify dfyconfig.toml` checks everything.

## What turned out not to hold

- Splitting commands again is the identity exactly for input that ends outside quotes
  (`SplitIsIdempotent`). The validator sees what the read loop runs exactly for such lines that do not
  start with a backslash (`ValidatorSeesWhatRuns`); an accepted line is sure to run parsed commands
  only, exactly when it is such a line or starts with a backslash and so runs none
  (`AcceptedCommandsParse`).
- The collector keeps rows by the limit the user gave, the printer prints by a limit that some
  statements lift. Such a statement prints all its rows exactly when every batch with rows passes
  the collector's test (`LiftedLimitIsComplete`, with a witness in `LiftedLimitDropsRows`).
- A second update of the committer table with the roster in the same order changes nothing exactly
  when the line of the start marker ends at or before the end marker; otherwise the file grows each
  time (`CrossedUpdateGrows`). But the roster is drawn from sets, whose order varies. Whatever the
  order, a second update changes nothing exactly when moreover no two rows share a sort key, or the
  first update left no markers to find (`SecondUpdateLeavesText`); in the orders that the script can
  draw, with the PMC first, exactly when no two rows of the PMC and no two other rows do
  (`SecondUpdateOfRoster`). Reading the table fails exactly on a row-like line with four bars
  (`ReadingFails`).
- Expanding placeholders is not idempotent: a value can be a placeholder, or make one with the text
  behind it, as in `${x:-$}{k}` (`ValueOpensPlaceholder`), and so can a placeholder within another
  (`NestedPlaceholder`). If every value that is evaluated is literal text, the result is stable in
  every scope (`PlainValuesAreStable`); if it is, no value holds a placeholder
  (`StableValuesHoldNone`). Any text is stable in every scope exactly when it holds no placeholder
  (`StableInEveryScope`).
- Joining statements and splitting them again is the identity exactly when no statement behind the
  first starts with a newline (`SplitUndoesJoin`).
- Nothing stops a file from including itself (`CycleUsesUpFiles`); files without a cycle are always
  processed (`AcyclicFilesAreProcessed`).
- Comparing results skips cells exactly when an expected row is wider than the column count
  (`EveryCellIsCompared`); the parser makes no such row (`NewBenchmark`).
- A run can succeed with a plan that lacks an expected string, exactly when an earlier run has
  succeeded, there is a query, and a string that is not empty is expected (`CheckedUntilSuccess`, with
  a run that does in `SecondRunIsUnchecked`). A run that streams saves an empty list of results
  (`LastSuccessIsSaved`).
- The tie breaker of the merge is described as choosing, among the streams with the same value, the
  one that was polled least. It only chooses between the leaders of the two halves of the tree, by
  counts only when the last winner leads its half: four streams of one key come out 0, 2, 0, 2, ...
  while 1 and 3 are never polled (`TwoOfFourAreNeverPolled`). `LeastPolledIsChosen` says exactly when
  the choice is a stream polled least, whatever the counts; while the last winner goes on with the
  same key it is exactly when neither half holds two streams with the least key
  (`LeastPolledInARound`). With the counts that a run can have, at every tie, it is one polled least
  exactly when it was not polled at all in the round, or the last winner still leads and neither half
  holds two such streams (`TieInARun`). With two streams they take turns (`TwoTakeTurns`).
- Generated hosts increase exactly as long as their number fits 64 bits (`HostsIncrease`).

## Model

| member | source | states |
|---|---|---|
| Template.MatchIsDenotation | benchmarks/src/sql_benchmark.rs:1449-1456 | each of the two regular expressions matches at most one prefix of any string, with one choice of groups, and the scanner finds exactly that one |
| Template.ReplaceAllLoop | benchmarks/src/sql_benchmark.rs:1427-1447 | the loop that copies slices between matches replaces every match and keeps all other text, or returns the first key without a value |
| Template.ProcessReplacements | benchmarks/src/sql_benchmark.rs:1467-1509 | the two passes over the output buffer compute the expansion |
| Template.ExpansionIsDenotation | benchmarks/src/sql_benchmark.rs:1427-1522 | expanding any rendered template gives its denotation: conditionals choose a branch, keys come from mapping, environment, default; values are inserted verbatim; the same missing key on failure |
| Template.ExpansionSucceeds | benchmarks/src/sql_benchmark.rs:1467-1509 | expansion succeeds exactly when every key that is evaluated has a value; keys of the branch that is not chosen do not matter |
| Template.NestedPlaceholder | benchmarks/src/sql_benchmark.rs:1467-1509 | a placeholder in the key of another is expanded from the inside and leaves a new placeholder |
| TemplateValues.VariableStandsFor | benchmarks/src/sql_benchmark.rs:1427-1522 | `${key}` is the mapping's value for the key in lower case, otherwise the environment's for the key in upper case, otherwise the error names the key |
| TemplateValues.VariableWithDefault | benchmarks/src/sql_benchmark.rs:1427-1522 | the same with `:-d`, which is the value when neither has the key |
| TemplateValues.ConditionalStandsFor | benchmarks/src/sql_benchmark.rs:1467-1509 | a conditional placeholder is its first branch exactly when that value spells `true` in any case |
| TemplateValues.ConditionalWithDefault | benchmarks/src/sql_benchmark.rs:1467-1509 | the same with a default for the key |
| TemplateValues.SameLetters | benchmarks/src/sql_benchmark.rs:1427-1522 | comparing without regard to ASCII case is comparing letter by letter of the alphabet |
| TemplateStability.PlainValuesAreStable | benchmarks/src/sql_benchmark.rs:1427-1522 | if every value that a template evaluates is literal text, its expansion is left alone by any further expansion, in whatever scope |
| TemplateStability.StableValuesHoldNone | benchmarks/src/sql_benchmark.rs:1427-1522 | conversely, an expansion that no further expansion changes, in any scope, was made from values none of which holds a placeholder |
| TemplateStability.StableInEveryScope | benchmarks/src/sql_benchmark.rs:1427-1522 | a text is left alone in every scope exactly when neither expression matches anywhere in it |
| TemplateStability.LonePlaceholder | benchmarks/src/sql_benchmark.rs:1427-1522 | one placeholder between literal texts is left alone in a scope exactly when its value is the placeholder itself |
| TemplateStability.ValueOpensPlaceholder | benchmarks/src/sql_benchmark.rs:1427-1522 | a value that is a placeholder, or a dollar before a braced key, leaves a placeholder that a second expansion would replace |
| TemplateStability.ReplacementsCancel | benchmarks/src/sql_benchmark.rs:1427-1447 | two placeholders can be replaced, neither by itself, by what together is the same text again |
| SqlStatements.StatementsAreClean | benchmarks/src/sql_benchmark.rs:1396-1404 | no statement is blank or holds a semicolon and newline or a blank line |
| SqlStatements.StatementsLoseNothing | benchmarks/src/sql_benchmark.rs:1396-1404 | apart from white space the statements concatenated are the input |
| SqlStatements.JoinThenSplit | benchmarks/src/sql_benchmark.rs:1396-1404 | complete statements joined by newlines split into themselves, except for a newline at the start of one |
| SqlStatements.SplitUndoesJoin | benchmarks/src/sql_benchmark.rs:1396-1404 | splitting undoes joining exactly when no statement behind the first starts with a newline |
| BenchmarkSyntax.WordsOfLine | benchmarks/src/sql_benchmark.rs:563-576 | a line that is not blank has a first word, so the directive's index is in range |
| BenchmarkSyntax.RowsHaveWidth | benchmarks/src/sql_benchmark.rs:1524-1574 | every expected row that is read has as many cells as the header has columns |
| BenchmarkSpec.RunIsLegal | benchmarks/src/sql_benchmark.rs:530-576 | through all includes and templates: at most one result, at most one directive that gives `run` statements, no ragged expectation |
| BenchmarkSpec.EffectIsLegal | benchmarks/src/sql_benchmark.rs:822-879 | each single directive keeps that invariant |
| BenchmarkSpec.StatementsFromOneDirective | benchmarks/src/sql_benchmark.rs:881-895 | if one directive only gave statements, the statements kept are those of that directive |
| BenchmarkSpec.DepthDoesNotMatter | benchmarks/src/sql_benchmark.rs:1165-1243 | a limit on open files that is not reached makes no difference to what a file says |
| BenchmarkSpec.AcyclicFilesAreProcessed | benchmarks/src/sql_benchmark.rs:530-576 | if includes and templates descend in rank, processing ends with no more files open than the rank of the first, whatever lines the directives consume |
| BenchmarkSpec.CycleUsesUpFiles | benchmarks/src/sql_benchmark.rs:1228-1243 | a file that begins by including itself exhausts any number of files |
| BenchmarkParser.Reader.NextLine | benchmarks/src/sql_benchmark.rs:1287-1307 | the next line is read without its terminator and with its placeholders expanded; the reader moves by one line |
| BenchmarkParser.Reader.ReadBody | benchmarks/src/sql_benchmark.rs:897-922 | the body of a query directive is all lines up to a blank one, without comments, and the reader stands behind it |
| BenchmarkParser.Reader.ReadUntilBreak | benchmarks/src/sql_benchmark.rs:1029-1062 | the query of `assert` and `result_query` is all lines up to four dashes; without them it is an error |
| BenchmarkParser.Reader.ReadRows | benchmarks/src/sql_benchmark.rs:1524-1566 | the expected rows, or an error at the first row with another width |
| BenchmarkParser.SqlBenchmark.ProcessFile | benchmarks/src/sql_benchmark.rs:530-561 | the fields of the benchmark after a file are those its directives give, in order, through every include and template; the first error ends it |
| BenchmarkParser.NewBenchmark | benchmarks/src/sql_benchmark.rs:96-132 | a benchmark that is read completely has at most one result, entries for exactly the directives that gave statements, `run` statements of one directive, and rows as wide as their header |
| BenchmarkRoundTrip.RoundTrip | benchmarks/src/sql_benchmark.rs:530-1260 | reading a tree of files whose lines, in the mapping each is read with, spell fields, expected plan strings, echoes, statements, query files, assertions, results, includes and templates with parameters, gives exactly those, in the order of reading, whatever comment lines (blanks, `#` or `--`, any text) and blank lines stand between them and whatever comments among their lines, rows and parameters; it fails exactly when two items of the tree give `run` statements, two are results, or too few files can be open |
| BenchmarkRoundTrip.PlainRoundTrip | benchmarks/src/sql_benchmark.rs:530-1260 | the same for files that are written line by line without placeholders |
| BenchmarkComments.CommentsChangeNothing | benchmarks/src/sql_benchmark.rs:530-576 | files that spell a tree with comments and blank lines between directives, in bodies, among rows and among parameters are read like files that spell it without any |
| BenchmarkComments.BareSays | benchmarks/src/sql_benchmark.rs:1406-1417 | what a tree says, its runs, its results and its height do not depend on them |
| BenchmarkText.NoteIsComment | benchmarks/src/sql_benchmark.rs:1410-1413 | blanks, then `#` or `--`, then any text is a comment and not blank |
| BenchmarkText.CommentIsNote | benchmarks/src/sql_benchmark.rs:1410-1413 | every comment line is of that form |
| BenchmarkText.NotesAreDropped | benchmarks/src/sql_benchmark.rs:578-607 | a statement is kept without the comments before, inside and behind it |
| BenchmarkText.ScriptIsSplit | benchmarks/src/sql_benchmark.rs:924-949 | a query file, with either kind of line end, splits into its statements, comments and all |
| BenchmarkSpelling.WordsOfSpaced | benchmarks/src/sql_benchmark.rs:563-576 | however many blanks of whatever kind stand around them, the words of a line are its words |
| BenchmarkSpelling.Directives | benchmarks/src/sql_benchmark.rs:782-820 | a word selects the directive whose name it spells in any case, and none if it spells none |
| BenchmarkSpelling.AnySpelling | benchmarks/src/sql_benchmark.rs:563-576 | a directive has the same effect in other letter case and with other blanks |
| BenchmarkSpelling.AnyFieldSpelling | benchmarks/src/sql_benchmark.rs:962-988 | so do `name`, `group` and `subgroup`, whose value is the rest of the line without the blanks around it |
| BenchmarkSpelling.ValueFollows | benchmarks/src/sql_benchmark.rs:1324-1341 | the value of a directive is what follows its name, without the blanks around it, and there is none if nothing does |
| BenchmarkSpelling.ValueIsFound | benchmarks/src/sql_benchmark.rs:1324-1341 | and a value is found only behind the name, with blanks around it |
| BenchmarkSpelling.FileAndBody | benchmarks/src/sql_benchmark.rs:924-934 | a query directive with a file and a line of text in its body is an error, whatever comments stand there |
| BenchmarkSpelling.ReservedIsRead | benchmarks/src/sql_benchmark.rs:980-985 | behind the line that sets them, the placeholders of name, group and subgroup are read as their values; that of the path as the path of the file |
| BenchmarkSpelling.BreakLines | benchmarks/src/sql_benchmark.rs:1120-1140 | four dashes between blanks, and no other line, end a query with rows |
| BenchmarkSpelling.LineEnds | benchmarks/src/sql_benchmark.rs:578-593 | a statement's lines end at newlines, without the carriage return before them |
| BenchmarkSpelling.NoParameter | benchmarks/src/sql_benchmark.rs:1200-1207 | a parameter line is refused exactly when it has no equals sign |
| BenchmarkSpelling.EndIsNotRead | benchmarks/src/sql_benchmark.rs:1287-1307 | a line is read without the characters that end it |
| BenchmarkSpelling.PlaceholderIsRead | benchmarks/src/sql_benchmark.rs:1287-1307 | a placeholder is read as the benchmark's value for it, or else as the environment's, or else is missing |
| BenchmarkSpelling.Utf8LengthIs | benchmarks/src/sql_benchmark.rs:1524-1560 | the number of columns is the number of bytes of the word in UTF-8 |
| BenchmarkText.TemplateIsRead | benchmarks/src/sql_benchmark.rs:1287-1307 | a line with placeholders is read as what it means in the reader's mapping |
| BenchmarkTemplates.ParameterInScope | benchmarks/src/sql_benchmark.rs:1165-1226 | in the file that a template opens, a parameter's placeholder has the value it was last given |
| BenchmarkTemplates.TemplateWithValues | benchmarks/src/sql_benchmark.rs:1165-1226 | one file, used as a template with any number of values, gives its query with each of them in turn |
| BenchmarkRoundTrip.NamesAreSelected | benchmarks/src/sql_benchmark.rs:782-820 | each directive's name selects that directive, although others are tried before it |
| BenchmarkText.CellsOf | benchmarks/src/sql_benchmark.rs:1524-1560 | a row written with bars and tabs splits into its cells |
| BenchmarkText.JoinedIsKept | benchmarks/src/sql_benchmark.rs:578-607 | a statement of several lines without comments is kept as it is |
| ResultComparison.CompareResults | benchmarks/src/sql_benchmark.rs:460-528 | succeeds exactly when row counts, widths and the compared cells agree; an error names the first row and column that differ |
| ResultComparison.EveryCellIsCompared | benchmarks/src/sql_benchmark.rs:499-522 | for all actual rows the comparison is of whole tables, exactly when no expected row is wider than the column count |
| ResultComparison.CellsAdmitted | benchmarks/src/sql_benchmark.rs:499-522 | `NULL` stands for itself and the empty cell, `(empty)` for itself, the empty cell and `NULL`, any other cell for itself alone |
| ResultComparison.OrdinaryTables | benchmarks/src/sql_benchmark.rs:460-528 | without those two cells the expected table is matched by itself only |
| BenchmarkRuns.ExecuteQueries | benchmarks/src/sql_benchmark.rs:238-326 | the loop over the queries, in both modes, computes the outcome of a run |
| BenchmarkRuns.ExecuteIs | benchmarks/src/sql_benchmark.rs:238-326 | a run succeeds exactly when every query passes; it returns the count of the last SELECT or WITH statement and saves that result only |
| StatementKinds.ResultStatements | benchmarks/src/sql_benchmark.rs:1384-1394 | the statements that give results are those that begin, behind blanks, with `select` or `with` in any mix of cases |
| StatementKinds.LastRowsCount | benchmarks/src/sql_benchmark.rs:238-326 | a successful run whose last statement is one of them returns the number of rows of its answer and saves that |
| StatementKinds.OtherStatementsDoNotCount | benchmarks/src/sql_benchmark.rs:238-326 | a last statement that begins otherwise leaves count and result of those before it |
| StatementKinds.NothingCounts | benchmarks/src/sql_benchmark.rs:238-326 | without such a statement the count is zero and nothing is saved |
| BenchmarkRuns.ModesAgree | benchmarks/src/sql_benchmark.rs:251-307 | saving and streaming succeed alike and return the same count; streaming saves nothing |
| BenchmarkRuns.ChecksEveryPlan | benchmarks/src/sql_benchmark.rs:614-635 | a run that checks plans succeeds exactly when it would without the check and every plan has every expected string |
| BenchmarkRuns.ValidatedBySuccess | benchmarks/src/sql_benchmark.rs:310-325 | in every sequence of runs the flag is set exactly when some run succeeded |
| BenchmarkRuns.FirstSuccessChecksPlans | benchmarks/src/sql_benchmark.rs:267-269 | by the first success every query's plan was found to have every expected string |
| BenchmarkRuns.CheckedUntilSuccess | benchmarks/src/sql_benchmark.rs:267-269 | after given runs, success is sure to mean that every plan had every expected string exactly when none of them succeeded, there is no query, or only the empty string is expected |
| BenchmarkRuns.SecondRunIsUnchecked | benchmarks/src/sql_benchmark.rs:267-269 | of two runs the second succeeds with a plan that alone would be refused |
| BenchmarkRuns.LastSuccessIsSaved | benchmarks/src/sql_benchmark.rs:310-325 | the saved results are those of the last success; failed runs change neither flag nor results |
| BenchmarkRuns.CheckPlan | benchmarks/src/sql_benchmark.rs:614-635 | accepts exactly the plans with every expected string |
| BenchmarkRuns.CountRows | benchmarks/src/sql_benchmark.rs:667-692 | the rows of all batches of a stream |
| BenchmarkRuns.Benchmark.RunQueries | benchmarks/src/sql_benchmark.rs:238-326 | flag and saved results follow the sequence of all runs so far |
| BenchmarkRuns.Benchmark.LoadExpected | benchmarks/src/sql_benchmark.rs:443-458 | queries without text get the columns and rows of their file; every row is as wide as the column count afterwards |
| BenchmarkRuns.Benchmark.Verify | benchmarks/src/sql_benchmark.rs:396-426 | succeeds exactly when there is nothing to verify, or there are results, all expectations load, and the rows of the first query's answer, or of the last run if it has no text, are those expected, cell by cell |
| CommandSplitter.SplitFromSemicolon | datafusion-cli/src/helper.rs:181-209 | the per-character loop with two quote flags computes the commands between the semicolons outside quotes |
| CommandSplitter.SplitAppend | datafusion-cli/src/helper.rs:181-209 | behind text that ends outside quotes and a semicolon, any text is split on its own |
| CommandSplitter.SplitIsIdempotent | datafusion-cli/src/helper.rs:181-209 | splitting the concatenated commands gives them back exactly when the input ends outside quotes |
| CommandQuotes.QuotesHideSemicolons | datafusion-cli/src/helper.rs:181-209 | input made of commands with semicolons behind them, each of bare and quoted text, is split at those semicolons and nowhere else: none between two quotes of a kind, and none behind a quote that nothing closes |
| CommandSplitter.ValidateInput | datafusion-cli/src/helper.rs:76-107 | the verdict on the first command that does not parse, or on an unfinished line |
| CommandSplitter.VerdictValid | datafusion-cli/src/helper.rs:88-101 | a line is valid exactly when all of its commands parse into statements |
| CommandSplitter.ValidatorSeesWhatRuns | datafusion-cli/src/helper.rs:170-173 | the validator splits into the commands that are run, exactly when the line does not start with a backslash and the text before the last semicolon ends outside quotes |
| CommandSplitter.AcceptedCommandsParse | datafusion-cli/src/exec.rs:137-175 | whatever the parser accepts, every command that runs from an accepted line has been parsed into statements, exactly when the line starts with a backslash or the text before the last semicolon ends outside quotes |
| ResultPrinter.Collect | datafusion-cli/src/exec.rs:283-303 | the stream loop keeps the batches that pass the test and counts all rows |
| ResultPrinter.KeptIs | datafusion-cli/src/exec.rs:293-299 | a batch is kept exactly when fewer rows were seen than the limit and its own rows together, and fewer than can be counted |
| ResultPrinter.FilterBatches | datafusion-cli/src/print_format.rs:117-135 | the loop with break computes the batches to show and the over-limit flag |
| ResultPrinter.FilteredShowsPrefix | datafusion-cli/src/print_format.rs:117-135 | exactly the first rows up to the limit are shown, and the flag is set exactly when some are not |
| ResultPrinter.KeepOnlyMaxrows | datafusion-cli/src/print_format.rs:92-107 | header and row lines are kept, then three dotted lines and the last line |
| ResultPrinter.DottedLineIs | datafusion-cli/src/print_format.rs:96-102 | a dotted line is as wide as the table: a bar, a space, a dot, spaces, a bar |
| ResultPrinter.FormatBatches | datafusion-cli/src/print_format.rs:109-154 | the assertion on the number of lines never fails |
| ResultPrinter.BoundedCollectionPrintsTheSame | datafusion-cli/src/print_format.rs:167-187 | with equal limits, printing what was collected is printing the whole stream |
| ResultPrinter.PrintedRowsAndNote | datafusion-cli/src/print_options.rs:93-98 | the user sees the first rows up to the limit, and the note exactly when rows were cut off |
| ResultPrinter.PrintedWithLimitZero | datafusion-cli/src/print_format.rs:167-187 | with a limit of zero no row is printed, and the header exactly of a result without rows |
| ResultPrinter.LiftedLimitIsComplete | datafusion-cli/src/exec.rs:349-393 | with a lifted limit all rows are printed exactly when every batch with rows passes the collector's test |
| ResultPrinter.LiftedLimitDropsRows | datafusion-cli/src/exec.rs:349-393 | explaining with a limit of zero loses the second of two one-row batches |
| ResultPrinter.RetentionBound | datafusion-cli/src/exec.rs:288-303 | with at most b rows in a batch at most n + 2b - 1 rows are kept |
| ResultPrinter.KeptPastIsLogarithmic | datafusion-cli/src/exec.rs:288-303 | batches kept past the limit double the overshoot, so their number is logarithmic in the rows seen |
| Expression.ConditionMeaning | ci/scripts/check_rust_workflow_skips.py:117-122 | the text of a condition, read as a workflow expression, means what the clauses say |
| Expression.MeaningIsCondition | ci/scripts/check_rust_workflow_skips.py:117-122 | no other text is read as a condition |
| Workflow.CheckSection | ci/scripts/check_rust_workflow_skips.py:157-210 | each loop appends the errors of its jobs in order |
| Workflow.CheckSkipConditions | ci/scripts/check_rust_workflow_skips.py:157-260 | the nested loops report exactly the errors of all sections, in order |
| Workflow.ReportIsOrdered | ci/scripts/check_rust_workflow_skips.py:167-251 | each section reports its errors in the order of the jobs' names, and lists the jobs that block one in that order |
| Workflow.NoErrorsExactlyWhenChecked | ci/scripts/check_rust_workflow_skips.py:157-260 | no error is reported exactly when every checked condition holds |
| WorkflowErrors.ReportMeans | ci/scripts/check_rust_workflow_skips.py:157-260 | an error is reported exactly when what it says is so, in terms of the workflow's own fields: a missing job, an `if:` too many or not the one spelled out, a job outside a set and exactly the jobs of the set that it needs, a check that is not required, the artifact's steps |
| WorkflowErrors.DownloadsFollowUploads | ci/scripts/check_rust_workflow_skips.py:212-259 | in an accepted workflow every job that runs and downloads the artifact needs a job that runs and has a step that uploads it |
| WorkflowErrors.ClauseTexts | ci/scripts/check_rust_workflow_skips.py:43-84 | the texts of the two real clauses |
| WorkflowRuns.ExpectedConditionHolds | ci/scripts/check_rust_workflow_skips.py:117-122 | the condition a job must carry holds exactly when no policy skips it |
| WorkflowRuns.SkipsExactly | ci/scripts/check_rust_workflow_skips.py:157-198 | in an accepted workflow without cycles every run skips, through all needs, exactly the jobs of the policies whose clause holds |
| WorkflowRuns.NeedsCheckIsExact | ci/scripts/check_rust_workflow_skips.py:189-198 | given the right conditions, the check on needs is not only enough for that but necessary |
| WorkflowRuns.SkippedJobs | ci/scripts/check_rust_workflow_skips.py:157-260 | the skipped jobs are the union of the sets whose clause holds |
| WorkflowRuns.ConsumersRunAfterProducer | ci/scripts/check_rust_workflow_skips.py:212-259 | a job that downloads the artifact runs only when the producing job and its archive step do |
| WorkflowRuns.SkippedOnEvent | ci/scripts/check_rust_workflow_skips.py:44-84 | with the real clauses: a push to upstream main skips the post-merge jobs, a pull request from a fork the fork jobs, any other event none |
| Committers.ParseTable | docs/scripts/update_committer_list.py:96-129 | the loop over the lines computes the committers, or fails with an index error |
| Committers.ReadingFails | docs/scripts/update_committer_list.py:112-124 | reading fails exactly when a line that looks like a row has four bars |
| Committers.RowReads | docs/scripts/update_committer_list.py:132-135 | reading a printed row gives the committer back |
| Committers.TableReads | docs/scripts/update_committer_list.py:96-135 | reading a printed table gives its rows back |
| Committers.ReadIsClean | docs/scripts/update_committer_list.py:96-129 | whatever is read can be printed and read again, and its fields are parts of the text |
| Roster.MergeRoster | docs/scripts/update_committer_list.py:163-192 | the merge loop gives one row for each member, with the details of the known row |
| Roster.MergeIsIdempotent | docs/scripts/update_committer_list.py:163-192 | merging again with the rows of a merge, in any order, changes no row |
| Roster.MembersAreTheRoster | docs/scripts/update_committer_list.py:163-170 | every id of the two rosters occurs once, and PMC ids are marked |
| Roster.SortIsStable | docs/scripts/update_committer_list.py:138-142 | a permutation in key order that keeps the order of equal keys |
| Roster.SortedByRole | docs/scripts/update_committer_list.py:138-142 | the sorted rows have the chair first, then the PMC, the committers and all others, and within a role the ids in lower case in order |
| GovernanceFile.UpdateGovernanceFile | docs/scripts/update_committer_list.py:145-227 | the script computes the new text, or fails for missing markers or an unreadable table |
| RosterOrder.OrderDoesNotMatter | docs/scripts/update_committer_list.py:138-142 | the sorted rows are the same for every order of the roster exactly when no two of them share a sort key |
| GovernanceFile.SecondUpdateLeavesText | docs/scripts/update_committer_list.py:145-227 | a second update with the same roster leaves the text unchanged exactly when the start marker's line ends at or before the end marker; with the same roster in any order exactly when moreover no two rows share a sort key or no markers are left |
| RosterGroups.DictionaryOrderDoesNotMatter | docs/scripts/update_committer_list.py:56-85 | however the two dictionaries are ordered, the sorted rows are the same exactly when no two rows of the PMC and no two other rows share a sort key |
| GovernanceFile.SecondUpdateOfRoster | docs/scripts/update_committer_list.py:145-227 | with the two dictionaries in any order a second update leaves the text unchanged exactly when the start marker's line ends at or before the end marker and no two rows of one group share a sort key or no markers are left |
| GovernanceFile.StraightUpdate | docs/scripts/update_committer_list.py:194-227 | with the markers in their places the new text reads back as the rows that were written |
| GovernanceFile.CrossedUpdateGrows | docs/scripts/update_committer_list.py:194-227 | with crossed markers every update makes the text longer |
| GovernanceFile.UpdatedFileHasTheRoster | docs/scripts/update_committer_list.py:145-227 | the ids in the written table are those of the roster, each once, with the right roles; an id that had a row keeps the name, account and affiliation of its last one, and `PMC Chair` exactly if it was that; an id that had none has the roster's name and two empty fields |
| PlanStatistics.QErrorIsFactor | benchmarks/src/statistics.rs:316-331 | the symmetric factor between estimate and count, at least one; infinite for exactly one zero |
| PlanStatistics.CaptureInner | benchmarks/src/statistics.rs:263-286 | the first walk appends the estimates of all operators in preorder, and fails exactly when one cannot be computed |
| PlanStatistics.AppendRuntime | benchmarks/src/statistics.rs:288-314 | the second walk never indexes out of range and pairs by position |
| PlanStatistics.ReportPlan | benchmarks/src/statistics.rs:167-197 | one entry for every operator, with that operator's own path, estimates and metrics |
| PlanStatistics.ReportIsAddressed | benchmarks/src/statistics.rs:254-314 | paths are pairwise different, each leads to the operator it describes, its dots are the depth, and the q-error is that of the operator's rows, missing exactly when their estimate or their count is |
| PlanStatistics.PlacesAreComplete | benchmarks/src/statistics.rs:263-286 | every operator of the plan is visited |
| PlanStatistics.PathIsInjective | benchmarks/src/statistics.rs:277-284 | different child indices give different dotted paths |
| PlanStatistics.DotsAreDepth | benchmarks/src/statistics.rs:413 | the number of dots of a path is the depth of its operator |
| StatisticsReport.ReportQueryFile | benchmarks/src/statistics.rs:104-155 | one report for every statement of a file, or one for a file that cannot be parsed |
| StatisticsReport.ReportFiles | benchmarks/src/statistics.rs:89-93 | the loop over the files gives the reports of all files, in order |
| StatisticsReport.OperatorReports | benchmarks/src/statistics.rs:582-593 | with unique identifiers every operator is found under its own, and nothing else is in the map |
| StatisticsReport.RunIsIdentified | benchmarks/src/statistics.rs:595-613 | over a whole run of files with different stems no two operators share an identifier |
| QErrorSummary.QErrorCounts | benchmarks/src/statistics.rs:526-546 | evaluated = finite + exact zero + infinite, and the finite ones are as many as the percentiles are of |
| QErrorSummary.SortedIs | benchmarks/src/statistics.rs:548-559 | ascending and a permutation, with the same counts below any value |
| QErrorSummary.PercentileIsNearestRank | benchmarks/src/statistics.rs:561-572 | for 1 to 100 the index is in range, at least that share of the ratios is at most the value, less than that share is below it |
| QErrorSummary.NearestRankIsMonotone | benchmarks/src/statistics.rs:561-572 | the nearest-rank percentile is unique and grows with the percentage |
| QueryFilenames.SubstitutedOnce | benchmarks/src/sql_benchmark_suite.rs:313-316 | the two chained replacements put the identifier in place of the one placeholder and change nothing else |
| QueryFilenames.SameFilename | benchmarks/src/sql_benchmark_suite.rs:294-317 | two identifiers name the same file exactly when their digits have the same value and they go on alike (padded), or are equal without their q |
| QueryFilenames.FileOfQuery | benchmarks/src/sql_benchmark_suite.rs:294-317 | the file of query n: the number with two digits at least in a padded pattern and as it was written in another, what follows it kept, a `q` before it dropped |
| QueryFilenames.NoFileOfQuery | benchmarks/src/sql_benchmark_suite.rs:294-304 | a query has no file exactly when, behind its q, it does not start with a digit or holds something that is neither a digit nor a letter |
| QueryFilenames.CanonicalDigits | benchmarks/src/sql_benchmark_suite.rs:305-308 | without leading zeros the digits are the number as it is written |
| QuerySelection.NormalizeIsIdempotent | benchmarks/src/sql_benchmark_runner.rs:521-529 | normalizing a normalized query changes nothing |
| QuerySelection.NormalizeIs | benchmarks/src/sql_benchmark_runner.rs:521-529 | the letters Q before the number become one, and the number has two digits at least |
| QuerySelection.RankedWhenContained | benchmarks/src/sql_benchmark_runner.rs:500-518 | a name has a rank exactly when it contains the query, in capitals |
| QuerySelection.RankIs | benchmarks/src/sql_benchmark_runner.rs:500-518 | rank 0 for the query itself in any case, 1 for a name that starts with it, 2 for one of whose words does, 3 for one that has it elsewhere, none for the others |
| QuerySelection.RetainQueryMatches | benchmarks/src/sql_benchmark_runner.rs:462-496 | all exact matches in order if there are any, otherwise the first of those minimal in rank, name and subgroup, otherwise nothing |
| QuerySelection.KeepsWhenContained | benchmarks/src/sql_benchmark_runner.rs:462-496 | something is kept exactly when some name contains the normalized query |
| QuerySelection.SelectionIsUnique | benchmarks/src/sql_benchmark_runner.rs:462-496 | the selection is determined by names, subgroups and order |
| QuerySelection.SelectionIsIdempotent | benchmarks/src/sql_benchmark_runner.rs:462-496 | selecting again changes nothing |
| DictionaryData.GenerateDict | benchmarks/src/dict.rs:325-387 | every key is valid, and decoding gives the rows from the offset on |
| DictionaryData.MakeBatches | benchmarks/src/dict.rs:546-596 | with a dictionary for each batch or slices of one, the decoded batches are the same rows; full batches and the rest; the errors of the configuration |
| DictionaryData.ConfigIsAccepted | benchmarks/src/dict.rs:546-577 | which configurations are accepted, and what each error says of one that is not |
| DictionaryData.DistinctIsGiven | benchmarks/src/dict.rs:334-336 | an accepted configuration has the number of values that it asks for |
| DictionaryData.DistinctIsPercentage | benchmarks/src/dict.rs:141-148 | the default number of values is the percentage of the rows that the cardinality names, rounded down, and at least one |
| DictionaryData.PaddedIs | benchmarks/src/dict.rs:389-397 | a value is filled up with `x` to the length, and a longer one is left as it is |
| DictionaryData.NullsAreOneInSeven | benchmarks/src/dict.rs:372-380 | of n rows n / 7 are null, rounded up |
| DictionaryData.ValuesDiffer | benchmarks/src/dict.rs:338-354 | the dictionary's values are pairwise different, padded or not |
| DictionaryData.GroupSize | benchmarks/src/dict.rs:372-380 | without nulls each value occurs in rows divided by values many rows, plus one for the first ones |
| AccessLog.BatchBuilder.Append | test-utils/src/data_gen.rs:106-130 | the nested loops with early return append what the choices ask for, cut off at the limit |
| AccessLog.FillBatch | test-utils/src/data_gen.rs:353-375 | a batch is the beginning, up to the limit, of all rows of all services |
| AccessLog.AccessLogGenerator.Next | test-utils/src/data_gen.rs:344-381 | over any number of batches the rows never exceed the limit, no batch exceeds its size, and the subtraction never underflows |
| AccessLog.HexOrder | test-utils/src/data_gen.rs:361-364 | at a fixed width hexadecimal strings are in the order of the numbers |
| AccessLog.HostsIncrease | test-utils/src/data_gen.rs:361-365 | host names increase from batch to batch exactly while the number stays within 64 bits |
| LoserTree.InitLoserTree | datafusion/physical-plan/src/sorts/merge.rs:535-552 | inserting the streams one by one plays every match of the tournament once, for any number of streams; node 0 holds the winner and every other node the loser of its two sides |
| LoserTree.Climb | datafusion/physical-plan/src/sorts/merge.rs:610-624 | after the winner has moved on, replaying the matches on its way to the root settles everything below the root, with a number of matches logarithmic in the number of streams |
| LoserTree.WinnerIsLeast | datafusion/physical-plan/src/sorts/merge.rs:54-84 | after all matches below a node no stream there is smaller than the winner |
| LoserTree.WinnerOnPath | datafusion/physical-plan/src/sorts/merge.rs:610-624 | the winner of a settled tree has won every match between its leaf and the root, so the challengers on the way are the winners of the other sides |
| LoserTree.MatchPlayed | datafusion/physical-plan/src/sorts/merge.rs:490-493 | entering the loser of two sides at their parent makes everything below the parent settled |
| SortPreservingMerge.MergeStream.UpdatePollCount | datafusion/physical-plan/src/sorts/merge.rs:385-409 | the count grows if the row has the key of the row before it and is zero otherwise; other streams keep theirs |
| SortPreservingMerge.MergeStream.HandleTie | datafusion/physical-plan/src/sorts/merge.rs:579-602 | a tie at the root starts a round in which all counts are zero, although only an epoch changes; the old winner's count is updated, and it gives way when it was polled more often, or as often and is the later stream; a new winner keeps the root against later streams only |
| SortPreservingMerge.MergeStream.RootMatch | datafusion/physical-plan/src/sorts/merge.rs:626-660 | the loser at the root never has a smaller key; without a tie breaker equal keys go by stream, with one the winner and the counts are those of the rule for ties; a round lasts exactly as long as there is a tie |
| SortPreservingMerge.MergeStream.UpdateLoserTree | datafusion/physical-plan/src/sorts/merge.rs:610-663 | a settled tree whose winner has moved on is settled again; with a tie breaker the next winner is chosen between the leaders of the two halves |
| SortPreservingMerge.MergeStream.Merge | datafusion/physical-plan/src/sorts/merge.rs:226-300 | the output ascends, has each stream's rows in their order, leaves out none smaller than one it has, and is all rows or as many as were asked for; without a tie breaker each row is from the first of the least streams; with one each row is from the stream whose turn it is after the row before it |
| SortPreservingMerge.TopLeadsItsHalf | datafusion/physical-plan/src/sorts/merge.rs:610-663 | every winner is the first of the least streams of its half of the tree |
| TieBreaker.LeastPolledIsChosen | datafusion/physical-plan/src/sorts/merge.rs:411-434 | the choice is a stream polled least, for all counts, exactly when, if the leaders tie, the last winner leads its half and its key changed or neither half holds two least streams, and otherwise neither half does |
| TieBreaker.LeastPolledInARound | datafusion/physical-plan/src/sorts/merge.rs:411-434 | while the last winner goes on with the same key, that is exactly when neither half holds two streams with the least key |
| TieBreakerRounds.TieInARun | datafusion/physical-plan/src/sorts/merge.rs:579-602 | at every tie of a run tied streams that do not lead their half, and a leader that is not the last winner, have not been polled in the round; the choice is one polled least exactly when it was not polled, or the last winner leads and neither half holds two least streams; if it does not lead, exactly when the new leader is the earlier stream or the other was not polled |
| TieBreakerRuns.FourTakeTwoTurns | datafusion/physical-plan/src/sorts/merge.rs:579-663 | four streams of one key come out 0, 2, 0, 2, ... for as long as these have rows, with these poll counts |
| TieBreakerRuns.TwoOfFourAreNeverPolled | datafusion/physical-plan/src/sorts/merge.rs:411-434 | from the third row on the choice is not one polled least: streams 1 and 3 tie with it and were not polled |
| TieBreakerRuns.TwoTakeTurns | datafusion/physical-plan/src/sorts/merge.rs:411-434 | with two streams the rows taken while both have the same key differ in number by at most one |
| SortPreservingMerge.TopIsLeast | datafusion/physical-plan/src/sorts/merge.rs:306-313 | the stream at node 0 is a least one, so all are exhausted when it is |
| SortPreservingMerge.AllMerged | datafusion/physical-plan/src/sorts/merge.rs:306-313 | when the winner is exhausted all streams are |
| SortPreservingMerge.StableIsSorted | datafusion/physical-plan/src/sorts/merge.rs:467-473 | without a tie breaker the output is in the order of key, stream, position: a stable sort of the streams in a row |
| SortPreservingMerge.StableIsPrefix | datafusion/physical-plan/src/sorts/merge.rs:436-440 | with a limit the output is the beginning of the output without it |

## Left out

- The rest of the query engine, Arrow kernels and formatting, CSV reading, SQL parsing and regular expression engines are parameters.
- Error messages are tags; console output, logging, timing and diagnostics of plans are not modelled.
- BenchmarkSpec.AcyclicFilesAreProcessed: goes one way only; a cycle of includes that placeholders never take does no harm, and which ones they take depends on the whole run.
- Initializing, asserting, persisting and cleaning up a benchmark only forward statements to the engine in order.
- TemplateStability.PlainValuesAreStable: the condition and its converse in StableValuesHoldNone are apart by values that open a placeholder without closing it, or end in a dollar; whether those make one depends on the text that follows.
- TemplateStability.StableInEveryScope: is about all scopes; whether a text that does hold placeholders is stable in one scope is no matter of each placeholder alone, because replacements can cancel across matches (ReplacementsCancel).
- The group that is derived from a path, and relative paths, are parameters of the parser; a file's bytes that are not UTF-8 are not modelled.
- ResultPrinter: only tables; for other formats the collector drops rows as well and nothing is promised about them.
- PlanStatistics: ratios are reals, not floating-point numbers; the product in the percentile index does not overflow.
- StatisticsReport: file stems are taken to be different, as files of one directory with one extension are.
- QueryFilenames: what a pattern must satisfy as a path is left out.
- QuerySelection: the pipeline over groups and subgroups around the selection is left out.
- DictionaryData: one column; a second one is made in the same way. Casts to other encodings are left out.
- SortPreservingMerge: keys are integers, the batches of a stream are its rows (empty ones are skipped before they get there), and output rows are not cut into batches; polling that waits, errors of streams and memory accounting are left out.
- AccessLog.HostsIncrease: the host number wraps as in a build without overflow checks; one with them stops there.
- AccessLog: random columns are left out, and random counts are parameters; that iteration ends depends on them.
- Drivers of other benchmarks, object storage, catalogs, functions, completion and highlighting of the command line, release scripts.
