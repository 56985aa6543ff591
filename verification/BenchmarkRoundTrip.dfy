/** Writing a benchmark as files and reading it back (benchmarks/src/sql_benchmark.rs). */
module BenchmarkRoundTrip {
  import opened Text
  import opened TextSearch
  import opened BenchmarkSyntax
  import opened BenchmarkSpec
  import opened BenchmarkText
  import S = SqlStatements
  import T = Template

  /** What a file can say: a field, a string that plans must have, an echo, a statement of several
      lines, the `run` statements, the statements of a query file, an assertion or a result with its
      rows, a result in a file, or everything another file says, which is included or, if it has
      parameters, a template. Between them, and wherever lines are `Noted`, it can have comments. */
  datatype Item =
    | FieldItem(field: Field, value: string)
    | PlanItem(words: seq<string>)
    | EchoItem(words: seq<string>)
    | StatementItem(kind: QueryDirective, lines: seq<Noted<string>>)
    | RunItem(lines: seq<Noted<string>>)
    | ScriptItem(kind: QueryDirective, path: string, statements: seq<seq<Noted<string>>>, windows: bool)
    | RowsItem(isResult: bool, columns: string, sql: seq<string>, rows: seq<Noted<seq<Cell>>>)
    | ResultItem(path: string)
    | FileItem(path: string, parameters: Option<seq<Noted<Setting>>>, items: seq<Item>)
    | NoteItem(note: Note)
    | BlankItem(blanks: string)

  // Writing items

  function KindName(kind: QueryDirective): string {
    match kind case Load => "load" case Run => "run" case Init => "init" case Cleanup => "cleanup"
  }

  function RowsName(isResult: bool): string {
    if isResult then "result_query" else "assert"
  }

  function FileName(parameters: Option<seq<Noted<Setting>>>): string {
    if parameters.None? then "include" else "template"
  }

  function FileTail(parameters: Option<seq<Noted<Setting>>>): seq<string> {
    if parameters.None? then [] else LinesWith(parameters.value, ParameterLine) + [""]
  }

  function FileEvents(path: string, parameters: Option<seq<Noted<Setting>>>): Log {
    if parameters.None? then [] else [Templated(path)] + ParameterEvents(Pairs(Spoken(parameters.value)))
  }

  function RowsTail(sql: seq<string>, rows: seq<Noted<seq<Cell>>>): seq<string> {
    sql + ["----"] + (LinesWith(rows, RowLine) + [""])
  }

  function RowsQuery(isResult: bool, columns: string, sql: seq<string>, rows: seq<Noted<seq<Cell>>>): BenchmarkQuery {
    BenchmarkQuery(None, SqlText(sql, !isResult), |columns|, TableTexts(Spoken(rows)))
  }

  /** One letter for each column. */
  predicate Columns(columns: string) {
    Word(columns) && forall c <- columns :: c < '\U{80}'
  }

  /** The item is not a directive. */
  predicate Skipped(item: Item) {
    item.NoteItem? || item.BlankItem?
  }

  /** The line of the directive. */
  function Header(item: Item): string {
    match item
    case FieldItem(f, v) => DirectiveName(f) + " " + v
    case PlanItem(ws) => Join(["expect_plan"] + ws, " ")
    case EchoItem(ws) => Join(["echo"] + ws, " ")
    case StatementItem(kind, _) => KindName(kind)
    case RunItem(_) => "run"
    case ScriptItem(kind, path, _, _) => Join([KindName(kind), path], " ")
    case RowsItem(isResult, columns, _, _) => Join([RowsName(isResult), columns], " ")
    case ResultItem(path) => Join(["result", path], " ")
    case FileItem(path, parameters, _) => Join([FileName(parameters), path], " ")
    case NoteItem(note) => NoteLine(note)
    case BlankItem(blanks) => blanks
  }

  /** The lines that follow it. */
  function Tail(item: Item): seq<string> {
    match item
    case FieldItem(_, _) => []
    case PlanItem(_) => []
    case EchoItem(_) => []
    case StatementItem(_, ls) => NotedLines(ls) + [""]
    case RunItem(ls) => NotedLines(ls) + [""]
    case ScriptItem(_, _, _, _) => [""]
    case RowsItem(_, _, sql, rows) => RowsTail(sql, rows)
    case ResultItem(_) => []
    case FileItem(_, parameters, _) => FileTail(parameters)
    case NoteItem(_) => []
    case BlankItem(_) => []
  }

  /** What the directive itself is read as. */
  function OwnEvents(item: Item): Log {
    match item
    case FieldItem(f, v) => [Named(f, v)]
    case PlanItem(ws) => [Plan(Join(ws, " "))]
    case EchoItem(ws) => [Echoed(Join(ws, " "))]
    case StatementItem(kind, ls) => [Statements(kind, [Join(Spoken(ls), "\n")])]
    case RunItem(ls) => [Statements(Run, Spoken(ls))]
    case ScriptItem(kind, _, xs, _) => [Statements(kind, SpokenTexts(xs))]
    case RowsItem(isResult, columns, sql, rows) =>
      var q := RowsQuery(isResult, columns, sql, rows);
      [if isResult then Expected(q) else Asserted(q)]
    case ResultItem(path) => [Expected(BenchmarkQuery(Some(path), "", 0, []))]
    case FileItem(path, parameters, _) => FileEvents(path, parameters)
    case NoteItem(_) => []
    case BlankItem(_) => []
  }

  /** The parts of an item can be written: words, statements and rows without what ends them, and
      statements and result paths, which are expanded once more, without placeholders. A comment
      is `#` or `--` behind blanks, and then any text. */
  ghost predicate Writable(item: Item) {
    match item
    case FieldItem(_, v) => v != "" && Trimmed(v, SPACE)
    case PlanItem(ws) => ws != [] && forall x <- ws :: Word(x)
    case EchoItem(ws) => ws != [] && forall x <- ws :: Word(x)
    case StatementItem(kind, ls) => kind != Run && Good(ls, BodyLine) && StatementText(Spoken(ls))
    case RunItem(ls) => Good(ls, RunText) && Spoken(ls) != []
    case ScriptItem(_, path, xss, _) => Word(path) && xss != [] && forall xs <- xss :: ScriptText(xs)
    case RowsItem(_, columns, sql, rows) =>
      Columns(columns) && (forall x <- sql :: SqlLine(x)) && Table(rows, |columns|)
    case ResultItem(path) => Word(path) && T.Literal(path)
    case FileItem(path, parameters, _) => Word(path) && (parameters.Some? ==> Good(parameters.value, ParameterText))
    case NoteItem(note) => Blank(note.pad)
    case BlankItem(blanks) => Blank(blanks)
  }

  predicate GivesRun(item: Item) {
    item.RunItem? || (item.ScriptItem? && item.kind == Run)
  }

  predicate GivesResult(item: Item) {
    item.ResultItem? || (item.RowsItem? && item.isResult)
  }

  /** No second source of `run` statements and no second result. */
  ghost predicate Allowed(log: Log, item: Item) {
    && (GivesRun(item) ==> StatementsOf(log, Run) == [])
    && (GivesResult(item) ==> ResultsOf(log) == [])
  }

  /** The item's query file holds its statements. */
  predicate Stored(w: World, item: Item) {
    item.ScriptItem? ==>
      && w.resolve(item.path) in w.queryFiles
      && w.queryFiles[w.resolve(item.path)] == ScriptFile(item.statements, item.windows)
  }

  function Block(item: Item): seq<string> {
    [Header(item)] + Tail(item)
  }

  // Reading an item

  lemma NamesDiffer(a: string, b: string)
    requires |a| != |b| || (a != "" && T.AsciiLower(a[0]) != T.AsciiLower(b[0]))
    ensures !T.EqIgnoreAsciiCase(a, b)
  {
    if |a| == |b| != 0 {
      assert T.AsciiLowerAll(a)[0] == T.AsciiLower(a[0]) && T.AsciiLowerAll(b)[0] == T.AsciiLower(b[0]);
    }
  }

  const NAMES: seq<string> :=
    ["load", "run", "init", "cleanup", "name", "group", "subgroup", "expect_plan", "assert", "result_query", "result",
     "template", "include", "echo"]

  lemma NamesAreSelected()
    ensures BenchmarkSyntax.Select("load") == Some(Query(Load)) && BenchmarkSyntax.Select("run") == Some(Query(Run))
    ensures BenchmarkSyntax.Select("init") == Some(Query(Init))
    ensures BenchmarkSyntax.Select("cleanup") == Some(Query(Cleanup))
    ensures BenchmarkSyntax.Select("name") == Some(Name) && BenchmarkSyntax.Select("group") == Some(Group)
    ensures BenchmarkSyntax.Select("subgroup") == Some(Subgroup)
    ensures BenchmarkSyntax.Select("expect_plan") == Some(ExpectPlan)
    ensures BenchmarkSyntax.Select("assert") == Some(Assert)
    ensures BenchmarkSyntax.Select("result_query") == Some(ResultQuery)
    ensures BenchmarkSyntax.Select("result") == Some(Results)
    ensures BenchmarkSyntax.Select("template") == Some(Template)
    ensures BenchmarkSyntax.Select("include") == Some(Include)
    ensures BenchmarkSyntax.Select("echo") == Some(Echo)
  {
    hide T.EqIgnoreAsciiCase;
    forall i | 0 <= i < |NAMES| ensures T.EqIgnoreAsciiCase(NAMES[i], NAMES[i]) {
      SameName(NAMES[i]);
    }
    forall i, j | 0 <= i < j < |NAMES| ensures !T.EqIgnoreAsciiCase(NAMES[j], NAMES[i]) {
      NamesDiffer(NAMES[j], NAMES[i]);
    }
    assert NAMES[0] == "load" && NAMES[1] == "run" && NAMES[2] == "init" && NAMES[3] == "cleanup" && NAMES[4] == "name";
    assert NAMES[5] == "group" && NAMES[6] == "subgroup" && NAMES[7] == "expect_plan" && NAMES[8] == "assert";
    assert NAMES[9] == "result_query" && NAMES[10] == "result" && NAMES[11] == "template" && NAMES[12] == "include";
    assert NAMES[13] == "echo";
  }

  lemma SameName(a: string)
    ensures T.EqIgnoreAsciiCase(a, a)
  {
  }

  function RepsAfter(w: World, reps: Mapping, item: Item): Mapping {
    if item.FieldItem? then reps[w.lower(KeyOf(item.field)) := item.value] else reps
  }

  function Problem(item: Item): Error {
    if GivesRun(item) then MultipleRuns else MultipleResults
  }

  /** The file that is read next. */
  function Opened(w: World, item: Item): Option<string> {
    if item.FileItem? then Some(w.resolve(item.path)) else None
  }

  /** The outcome of the item's directive. */
  ghost predicate ReadAs(w: World, base: Mapping, log: Log, p: string, next: nat, reps: Mapping, item: Item)
    requires p in w.files && next <= |w.files[p]| && Words(Header(item)) != []
  {
    Effect(w, base, log, p, next, reps, Header(item))
    == if Allowed(log, item)
       then Ok(Step(OwnEvents(item), next + |Tail(item)|, RepsAfter(w, reps, item), Opened(w, item)))
       else Err(Problem(item))
  }

  lemma NameIsWord(name: string)
    requires name in NAMES
    ensures Word(name)
  {
    hide Word;
    ShortNames();
    LongNames();
    LongerNames();
  }

  lemma ShortNames()
    ensures Word("load") && Word("run") && Word("init") && Word("name") && Word("group") && Word("echo")
  {
  }

  lemma LongNames()
    ensures Word("cleanup") && Word("include") && Word("assert") && Word("result")
  {
  }

  lemma LongerNames()
    ensures Word("subgroup") && Word("template") && Word("expect_plan") && Word("result_query")
  {
  }

  function FieldDirective(f: Field): Directive {
    match f case NameField => Name case GroupField => Group case SubgroupField => Subgroup
  }

  lemma FieldNames(f: Field)
    ensures DirectiveName(f) in NAMES && BenchmarkSyntax.Select(DirectiveName(f)) == Some(FieldDirective(f))
  {
    NamesAreSelected();
    assert NAMES[4] == "name" && NAMES[5] == "group" && NAMES[6] == "subgroup";
  }

  lemma FieldValue(name: string, v: string)
    requires name in NAMES && v != "" && Trimmed(v, SPACE)
    ensures DirectiveValue(name + " " + v, name) == Some(v)
  {
    var line := name + " " + v;
    NameIsWord(name);
    assert line[0] == name[0];
    assert line[..|name|] == name && line[|name|..] == " " + v;
    SameName(name);
    assert " " + v + "" == " " + v;
    TrimPadded(" ", v, "", SPACE);
    TrimTrimmed(v, SPACE);
  }

  /** A line has the effect of the directive that its first word selects. */
  lemma EffectIs(w: World, base: Mapping, log: Log, p: string, next: nat, reps: Mapping, line: string, d: Directive)
    requires p in w.files && next <= |w.files[p]| && Words(line) != []
    requires BenchmarkSyntax.Select(Words(line)[0]) == Some(d)
    ensures var words := Words(line);
            Effect(w, base, log, p, next, reps, line)
            == match d
               case Query(kind) => QueryEffect(w, base, log, p, next, reps, kind, words)
               case Name => FieldEffect(w, p, next, reps, NameField, line)
               case Group => FieldEffect(w, p, next, reps, GroupField, line)
               case Subgroup => FieldEffect(w, p, next, reps, SubgroupField, line)
               case ExpectPlan =>
                 if |words| <= 1 then Err(MissingArgument)
                 else Ok(Step([Plan(Join(words[1..], " "))], next, reps, None))
               case Assert => AssertEffect(w, p, next, reps, words)
               case ResultQuery => ResultQueryEffect(w, log, p, next, reps, words)
               case Results => ResultsEffect(w, base, log, next, reps, words)
               case Template => TemplateEffect(w, p, next, reps, words)
               case Include =>
                 if |words| != 2 then Err(MissingArgument)
                 else Ok(Step([], next, reps, Some(w.resolve(words[1]))))
               case Echo =>
                 if |words| < 2 then Err(MissingArgument)
                 else Ok(Step([Echoed(Join(words[1..], " "))], next, reps, None))
  {
    hide Words, BenchmarkSyntax.Select, Join, QueryEffect, FieldEffect, AssertEffect, ResultQueryEffect;
    hide ResultsEffect, TemplateEffect;
  }

  lemma FieldEffectIs(w: World, base: Mapping, log: Log, p: string, next: nat, reps: Mapping, line: string, f: Field,
                      v: string)
    requires p in w.files && next <= |w.files[p]| && Words(line) != []
    requires BenchmarkSyntax.Select(Words(line)[0]) == Some(FieldDirective(f))
    requires DirectiveValue(line, DirectiveName(f)) == Some(v)
    ensures Effect(w, base, log, p, next, reps, line)
         == Ok(Step([Named(f, v)], next, reps[w.lower(KeyOf(f)) := v], None))
  {
    hide Words, DirectiveValue, BenchmarkSyntax.Select, DirectiveName, KeyOf, Effect, Target;
    EffectIs(w, base, log, p, next, reps, line, FieldDirective(f));
  }

  lemma FieldIsRead(w: World, base: Mapping, log: Log, p: string, next: nat, reps: Mapping, item: Item)
    requires item.FieldItem? && Writable(item) && p in w.files && next <= |w.files[p]|
    ensures Words(Header(item)) != [] && ReadAs(w, base, log, p, next, reps, item)
  {
    hide Words, DirectiveValue, BenchmarkSyntax.Select, DirectiveName, KeyOf, Effect, Target;
    FieldNames(item.field);
    NameIsWord(DirectiveName(item.field));
    WordsFirst(DirectiveName(item.field), item.value);
    FieldValue(DirectiveName(item.field), item.value);
    FieldEffectIs(w, base, log, p, next, reps, Header(item), item.field, item.value);
  }

  lemma WordsOfHeader(name: string, ws: seq<string>)
    requires name in NAMES && forall x <- ws :: Word(x)
    ensures Words(Join([name] + ws, " ")) == [name] + ws
  {
    hide Word;
    NameIsWord(name);
    WordsOfJoined([name] + ws);
  }

  lemma WordsAreRead(w: World, base: Mapping, log: Log, p: string, next: nat, reps: Mapping, item: Item)
    requires (item.PlanItem? || item.EchoItem?) && Writable(item) && p in w.files && next <= |w.files[p]|
    ensures Words(Header(item)) != [] && ReadAs(w, base, log, p, next, reps, item)
  {
    hide Words, BenchmarkSyntax.Select, Join, Word, Effect, Target;
    assert NAMES[7] == "expect_plan" && NAMES[13] == "echo";
    NamesAreSelected();
    var name := if item.PlanItem? then "expect_plan" else "echo";
    WordsOfHeader(name, item.words);
    assert ([name] + item.words)[1..] == item.words;
    EffectIs(w, base, log, p, next, reps, Header(item), if item.PlanItem? then ExpectPlan else Echo);
  }

  lemma KindNames(kind: QueryDirective)
    ensures KindName(kind) in NAMES && Words(KindName(kind)) == [KindName(kind)]
    ensures BenchmarkSyntax.Select(KindName(kind)) == Some(Query(kind))
  {
    hide Words;
    assert NAMES[0] == "load" && NAMES[1] == "run" && NAMES[2] == "init" && NAMES[3] == "cleanup";
    NameIsWord(KindName(kind));
    OneWord(KindName(kind));
    NamesAreSelected();
  }

  lemma StatementIsRead(w: World, base: Mapping, log: Log, p: string, next: nat, reps: Mapping, kind: QueryDirective,
                        ls: seq<Noted<string>>)
    requires kind != Run && Good(ls, BodyLine) && StatementText(Spoken(ls))
    requires Reads(w, p, next, reps, NotedLines(ls) + [""])
    ensures p in w.files && next <= |w.files[p]| && Words(KindName(kind)) != []
    ensures Effect(w, base, log, p, next, reps, KindName(kind))
         == Ok(Step([Statements(kind, [Join(Spoken(ls), "\n")])], next + |NotedLines(ls) + [""]|, reps, None))
  {
    hide Words, BenchmarkSyntax.Select, KindName, Body, Statement, TextLine, Reads, Reps, Effect, Target, Join;
    hide Good, Spoken, StatementText, LinesText;
    var said := Spoken(ls);
    StatementTextIs(said);
    KindNames(kind);
    ReadsInside(w, p, next, reps, NotedLines(ls) + [""]);
    EffectIs(w, base, log, p, next, reps, KindName(kind), Query(kind));
    BodyOf(w, p, next, reps, ls);
    LinesTextIs(said);
    TrimNewline(Join(said, "\n"));
    JoinedIsKept(w, Reps(w, base, log), LinesText(said), said);
    OneKept(w, Reps(w, base, log), LinesText(said), Join(said, "\n"));
  }

  lemma OneKept(w: World, reps: Mapping, text: string, q: string)
    requires Statement(w, reps, text) == Ok(Some(q))
    ensures BenchmarkSyntax.Kept(w, reps, [text]) == ([q], None)
  {
    hide Statement;
    assert [text][1..] == [];
    assert BenchmarkSyntax.Kept(w, reps, []) == ([], None) && [q] + [] == [q];
  }

  lemma RunIsRead(w: World, base: Mapping, log: Log, p: string, next: nat, reps: Mapping, ls: seq<Noted<string>>)
    requires Good(ls, RunText) && Reads(w, p, next, reps, NotedLines(ls) + [""])
    ensures p in w.files && next <= |w.files[p]| && Words("run") != []
    ensures Effect(w, base, log, p, next, reps, "run")
         == if StatementsOf(log, Run) != [] then Err(MultipleRuns)
            else Ok(Step([Statements(Run, Spoken(ls))], next + |NotedLines(ls) + [""]|, reps, None))
  {
    hide Words, BenchmarkSyntax.Select, Body, Statement, BenchmarkSyntax.Kept, TextLine, Reads, Reps;
    hide S.Complete, S.Statements, Effect, Target, Good, Spoken;
    KindNames(Run);
    ReadsInside(w, p, next, reps, NotedLines(ls) + [""]);
    EffectIs(w, base, log, p, next, reps, "run", Query(Run));
    RunLinesAre(ls);
    BodyOf(w, p, next, reps, ls);
    RunStatementsSplit(Spoken(ls));
    RunStatementsKept(w, Reps(w, base, log), Spoken(ls));
  }

  lemma RunLinesAre(ls: seq<Noted<string>>)
    requires Good(ls, RunText)
    ensures Good(ls, BodyLine)
    ensures forall x <- Spoken(ls) :: RunText(x) && S.Complete(x) && !("\n" <= x)
  {
    hide RunText, S.Complete, BodyLine, Spoken;
    SpokenAreSaid(ls);
    forall x | RunText(x) ensures BodyLine(x) && S.Complete(x) && !("\n" <= x) { RunTextIs(x); }
    forall x <- Spoken(ls) ensures RunText(x) { assert Said(x) in ls; }
  }

  lemma RunTextIs(x: string)
    requires RunText(x)
    ensures BodyLine(x) && S.Complete(x) && !("\n" <= x)
  {
    hide S.Complete, BodyLine, Plain;
    TextLineIs(x);
  }

  lemma {:induction false} ColumnsLength(columns: string)
    requires forall c <- columns :: c < '\U{80}'
    ensures Utf8Length(columns) == |columns|
  {
    if columns == "" {
    } else {
      assert columns[0] in columns;
      forall c <- columns[1..] ensures c < '\U{80}' { assert c in columns; }
      ColumnsLength(columns[1..]);
    }
  }

  lemma TwoWords(name: string, word: string)
    requires name in NAMES && Word(word)
    ensures Words(Join([name, word], " ")) == [name, word]
  {
    hide Word, Words, Join;
    WordsOfHeader(name, [word]);
    assert [name] + [word] == [name, word];
  }

  lemma QueryWithRowsOf(w: World, p: string, next: nat, reps: Mapping, isResult: bool, columns: string,
                        sql: seq<string>, rows: seq<Noted<seq<Cell>>>)
    requires Columns(columns) && (forall x <- sql :: SqlLine(x)) && Table(rows, |columns|)
    requires Reads(w, p, next, reps, RowsTail(sql, rows))
    ensures p in w.files && next <= |w.files[p]|
    ensures QueryWithRows(w, p, next, reps, columns, !isResult)
            == Ok(Span(RowsQuery(isResult, columns, sql, rows), next + |RowsTail(sql, rows)|))
  {
    hide UntilBreak, ExpectedRows, Reads, Utf8Length, SqlLine, Table, Spoken, TableTexts;
    ColumnsLength(columns);
    var first, rest := sql + ["----"], LinesWith(rows, RowLine) + [""];
    ReadsRest(w, p, next, reps, first, rest);
    ReadsInside(w, p, next, reps, first + rest);
    UntilBreakOf(w, p, next, reps, sql, !isResult);
    RowsOf(w, p, next + |first|, reps, rows, |columns|);
  }

  lemma RowsAreRead(w: World, base: Mapping, log: Log, p: string, next: nat, reps: Mapping, isResult: bool,
                    columns: string, sql: seq<string>, rows: seq<Noted<seq<Cell>>>)
    requires Columns(columns) && (forall x <- sql :: SqlLine(x)) && Table(rows, |columns|)
    requires Reads(w, p, next, reps, RowsTail(sql, rows))
    ensures var line, q := Join([RowsName(isResult), columns], " "), RowsQuery(isResult, columns, sql, rows);
            var event, end := if isResult then Expected(q) else Asserted(q), next + |RowsTail(sql, rows)|;
            && p in w.files && next <= |w.files[p]| && Words(line) != []
            && Effect(w, base, log, p, next, reps, line)
               == if isResult && ResultsOf(log) != [] then Err(MultipleResults) else Ok(Step([event], end, reps, None))
  {
    hide Words, BenchmarkSyntax.Select, QueryWithRows, Reads, Join, Word, Table, SqlLine, RowsTail;
    hide RowsQuery, Effect, Target;
    assert NAMES[8] == "assert" && NAMES[9] == "result_query";
    NamesAreSelected();
    TwoWords(RowsName(isResult), columns);
    QueryWithRowsOf(w, p, next, reps, isResult, columns, sql, rows);
    var line := Join([RowsName(isResult), columns], " ");
    if isResult {
      EffectIs(w, base, log, p, next, reps, line, ResultQuery);
    } else {
      EffectIs(w, base, log, p, next, reps, line, Assert);
    }
  }

  lemma ScriptIsRead(w: World, base: Mapping, log: Log, p: string, next: nat, reps: Mapping, item: Item)
    requires item.ScriptItem? && Writable(item) && Stored(w, item) && Reads(w, p, next, reps, Tail(item))
    ensures Words(Header(item)) != [] && ReadAs(w, base, log, p, next, reps, item)
  {
    hide Words, BenchmarkSyntax.Select, Body, BenchmarkSyntax.Kept, Reads, Reps, Join, ScriptText, ScriptFile;
    hide S.Statements, UnixNewlines, Word, KindName, Effect, Target, TextsOf, SpokenTexts;
    var xss := item.statements;
    KindNames(item.kind);
    TwoWords(KindName(item.kind), item.path);
    ReadsInside(w, p, next, reps, Tail(item));
    EffectIs(w, base, log, p, next, reps, Header(item), Query(item.kind));
    assert NotedLines([]) + [""] == [""];
    BodyOf(w, p, next, reps, []);
    TrimTrimmed("", SPACE);
    ScriptIsSplit(xss, item.windows);
    ScriptIsKept(w, Reps(w, base, log), xss);
  }

  lemma ResultIsRead(w: World, base: Mapping, log: Log, p: string, next: nat, reps: Mapping, item: Item)
    requires item.ResultItem? && Writable(item) && p in w.files && next <= |w.files[p]|
    ensures Words(Header(item)) != [] && ReadAs(w, base, log, p, next, reps, item)
  {
    hide Words, BenchmarkSyntax.Select, Join, Word, T.Expand, Reps, Effect, Target;
    assert NAMES[10] == "result";
    NamesAreSelected();
    TwoWords("result", item.path);
    EffectIs(w, base, log, p, next, reps, Header(item), Results);
    PlainExpands(ScopeOf(w, Reps(w, base, log)), item.path);
  }

  lemma IncludeIsRead(w: World, base: Mapping, log: Log, p: string, next: nat, reps: Mapping, path: string)
    requires Word(path) && p in w.files && next <= |w.files[p]|
    ensures var line := Join(["include", path], " ");
            && Words(line) != []
            && Effect(w, base, log, p, next, reps, line) == Ok(Step([], next, reps, Some(w.resolve(path))))
  {
    hide Words, BenchmarkSyntax.Select, Join, Word, Effect, Target;
    assert NAMES[12] == "include";
    NamesAreSelected();
    TwoWords("include", path);
    EffectIs(w, base, log, p, next, reps, Join(["include", path], " "), Include);
  }

  lemma TemplateIsOpened(w: World, base: Mapping, log: Log, p: string, next: nat, reps: Mapping, path: string,
                         xs: seq<Noted<Setting>>)
    requires Word(path) && Good(xs, ParameterText) && Reads(w, p, next, reps, FileTail(Some(xs)))
    ensures var line := Join(["template", path], " ");
            && p in w.files && next <= |w.files[p]| && Words(line) != []
            && Effect(w, base, log, p, next, reps, line)
               == Ok(Step(FileEvents(path, Some(xs)), next + |FileTail(Some(xs))|, reps, Some(w.resolve(path))))
  {
    hide Words, BenchmarkSyntax.Select, Join, Word, Parameters, Reads, Effect, Target, Good, Spoken, Pairs;
    hide ParameterEvents, LinesWith;
    assert NAMES[11] == "template";
    NamesAreSelected();
    TwoWords("template", path);
    ReadsInside(w, p, next, reps, FileTail(Some(xs)));
    EffectIs(w, base, log, p, next, reps, Join(["template", path], " "), Template);
    ParametersOf(w, p, next, reps, xs);
  }

  lemma FileIsOpened(w: World, base: Mapping, log: Log, p: string, next: nat, reps: Mapping, path: string,
                     parameters: Option<seq<Noted<Setting>>>)
    requires Word(path) && Reads(w, p, next, reps, FileTail(parameters))
    requires parameters.Some? ==> Good(parameters.value, ParameterText)
    ensures var line := Join([FileName(parameters), path], " ");
            && p in w.files && next <= |w.files[p]| && Words(line) != []
            && Effect(w, base, log, p, next, reps, line)
               == Ok(Step(FileEvents(path, parameters), next + |FileTail(parameters)|, reps, Some(w.resolve(path))))
  {
    hide Words, Join, Word, Good, Reads, Effect, Target;
    ReadsInside(w, p, next, reps, FileTail(parameters));
    if parameters.None? {
      IncludeIsRead(w, base, log, p, next, reps, path);
    } else {
      TemplateIsOpened(w, base, log, p, next, reps, path, parameters.value);
    }
  }

  lemma BodyIsRead(w: World, base: Mapping, log: Log, p: string, next: nat, reps: Mapping, item: Item)
    requires (item.StatementItem? || item.RunItem?) && Writable(item) && Reads(w, p, next, reps, Tail(item))
    ensures p in w.files && next <= |w.files[p]| && Words(Header(item)) != []
    ensures ReadAs(w, base, log, p, next, reps, item)
  {
    hide Words, Effect, Target, KindName, StatementText, Good, Spoken, Reads, Join, StatementsOf;
    if item.RunItem? {
      RunIsRead(w, base, log, p, next, reps, item.lines);
    } else {
      StatementIsRead(w, base, log, p, next, reps, item.kind, item.lines);
    }
  }

  lemma TableIsRead(w: World, base: Mapping, log: Log, p: string, next: nat, reps: Mapping, item: Item)
    requires item.RowsItem? && Writable(item) && Reads(w, p, next, reps, Tail(item))
    ensures p in w.files && next <= |w.files[p]| && Words(Header(item)) != []
    ensures ReadAs(w, base, log, p, next, reps, item)
  {
    hide Words, Effect, Target, Table, SqlLine, Reads, Join, RowsTail, RowsQuery, Columns, ResultsOf;
    RowsAreRead(w, base, log, p, next, reps, item.isResult, item.columns, item.sql, item.rows);
  }

  lemma FileItemIsRead(w: World, base: Mapping, log: Log, p: string, next: nat, reps: Mapping, item: Item)
    requires item.FileItem? && Writable(item) && Reads(w, p, next, reps, Tail(item))
    ensures p in w.files && next <= |w.files[p]| && Words(Header(item)) != []
    ensures ReadAs(w, base, log, p, next, reps, item)
  {
    hide Words, Effect, Target, Word, Good, Reads, Join, FileEvents, FileTail;
    FileIsOpened(w, base, log, p, next, reps, item.path, item.parameters);
  }

  lemma ItemIsRead(w: World, base: Mapping, log: Log, p: string, next: nat, reps: Mapping, item: Item)
    requires !Skipped(item) && Writable(item) && Stored(w, item) && Reads(w, p, next, reps, Tail(item))
    ensures p in w.files && next <= |w.files[p]| && Words(Header(item)) != []
    ensures ReadAs(w, base, log, p, next, reps, item)
  {
    hide Words, Writable, Stored, Reads, ReadAs, Tail, Header;
    ReadsInside(w, p, next, reps, Tail(item));
    match item
    case FieldItem(_, _) => FieldIsRead(w, base, log, p, next, reps, item);
    case PlanItem(_) => WordsAreRead(w, base, log, p, next, reps, item);
    case EchoItem(_) => WordsAreRead(w, base, log, p, next, reps, item);
    case StatementItem(_, _) => BodyIsRead(w, base, log, p, next, reps, item);
    case RunItem(_) => BodyIsRead(w, base, log, p, next, reps, item);
    case ScriptItem(_, _, _, _) => ScriptIsRead(w, base, log, p, next, reps, item);
    case RowsItem(_, _, _, _) => TableIsRead(w, base, log, p, next, reps, item);
    case ResultItem(_) => ResultIsRead(w, base, log, p, next, reps, item);
    case FileItem(_, _, _) => FileItemIsRead(w, base, log, p, next, reps, item);
  }

  // Trees of files

  /** What the items say, file by file in the order of reading. */
  function EventsOf(items: seq<Item>): Log {
    if items == [] then []
    else OwnEvents(items[0]) + (if items[0].FileItem? then EventsOf(items[0].items) else []) + EventsOf(items[1..])
  }

  /** Every item of the tree can be written. */
  ghost predicate AllWritable(items: seq<Item>) {
    items != [] ==>
      && Writable(items[0])
      && (items[0].FileItem? ==> AllWritable(items[0].items))
      && AllWritable(items[1..])
  }

  /** The log behind one item, with the file it opens. */
  function Behind(log: Log, item: Item): Log {
    log + OwnEvents(item) + if item.FileItem? then EventsOf(item.items) else []
  }

  /** The mapping that a file is read with at first. */
  function FirstReps(w: World, base: Mapping, log: Log, p: string): Mapping {
    Reps(w, base, log)[w.lower("FILE_PATH") := p]
  }

  /** The rest of a file, from line `i` on, spells the items: in the mapping that each line is read with,
      it is read as the item's line. So do the files below, behind what was read before them. */
  ghost predicate Spelled(w: World, base: Mapping, log: Log, p: string, i: nat, reps: Mapping, items: seq<Item>)
    decreases items
  {
    if items == [] then p in w.files && i == |w.files[p]|
    else
      var item := items[0];
      && Reads(w, p, i, reps, Block(item)) && Stored(w, item)
      && (item.FileItem? ==>
           var q, before := w.resolve(item.path), log + OwnEvents(item);
           Spelled(w, base, before, q, 0, FirstReps(w, base, before, q), item.items))
      && Spelled(w, base, Behind(log, item), p, i + |Block(item)|, RepsAfter(w, reps, item), items[1..])
  }

  /** How many files are open at once below the one that holds the items. */
  function Height(items: seq<Item>): nat {
    if items == [] then 0
    else
      var h, rest := if items[0].FileItem? then 1 + Height(items[0].items) else 0, Height(items[1..]);
      if h > rest then h else rest
  }

  function Size(items: seq<Item>): nat {
    if items == [] then 0 else 1 + (if items[0].FileItem? then 1 + Size(items[0].items) else 0) + Size(items[1..])
  }

  /** How many items of the tree give `run` statements, and results. */
  function Runs(items: seq<Item>): nat {
    if items == [] then 0
    else
      (if GivesRun(items[0]) then 1 else 0)
      + (if items[0].FileItem? then Runs(items[0].items) else 0) + Runs(items[1..])
  }

  function ResultCount(items: seq<Item>): nat {
    if items == [] then 0
    else
      (if GivesResult(items[0]) then 1 else 0)
      + (if items[0].FileItem? then ResultCount(items[0].items) else 0) + ResultCount(items[1..])
  }

  /** Trees by their first item. */
  lemma TreeCons(item: Item, rest: seq<Item>)
    ensures EventsOf([item] + rest)
         == OwnEvents(item) + (if item.FileItem? then EventsOf(item.items) else []) + EventsOf(rest)
    ensures AllWritable([item] + rest) <==>
            Writable(item) && (item.FileItem? ==> AllWritable(item.items)) && AllWritable(rest)
    ensures !GivesRun(item) && !GivesResult(item) && !item.FileItem? ==>
              && Runs([item] + rest) == Runs(rest) && ResultCount([item] + rest) == ResultCount(rest)
              && Height([item] + rest) == Height(rest)
    ensures item.FileItem? ==>
              && Runs([item] + rest) == Runs(item.items) + Runs(rest)
              && ResultCount([item] + rest) == ResultCount(item.items) + ResultCount(rest)
              && Height([item] + rest)
                 == if 1 + Height(item.items) > Height(rest) then 1 + Height(item.items) else Height(rest)
  {
    hide OwnEvents, Writable;
    assert ([item] + rest)[1..] == rest;
  }

  lemma NoTree()
    ensures EventsOf([]) == [] && AllWritable([]) && Runs([]) == 0 && ResultCount([]) == 0 && Height([]) == 0
  {
  }

  /** Behind a log the items give no second source of `run` statements and no second result. */
  ghost predicate Fits(log: Log, items: seq<Item>) {
    && Runs(items) <= (if StatementsOf(log, Run) == [] then 1 else 0)
    && ResultCount(items) <= (if ResultsOf(log) == [] then 1 else 0)
  }

  lemma EventGivesNothing(log: Log, e: Event)
    requires !e.Statements? && !e.Expected?
    ensures StatementsOf(log + [e], Run) == StatementsOf(log, Run) && ResultsOf(log + [e]) == ResultsOf(log)
  {
    hide StatementsOf, ResultsOf;
    AppendEvent(log, e);
    StatementsAfter(log, e, Run);
    assert StatementsOf(log, Run) + [] == StatementsOf(log, Run);
    assert ResultsOf(log) + [] == ResultsOf(log);
  }

  lemma {:induction false} ParametersGiveNothing(log: Log, kvs: seq<(string, string)>)
    ensures StatementsOf(log + ParameterEvents(kvs), Run) == StatementsOf(log, Run)
    ensures ResultsOf(log + ParameterEvents(kvs)) == ResultsOf(log)
    decreases |kvs|
  {
    hide StatementsOf, ResultsOf;
    if kvs == [] {
      assert log + ParameterEvents(kvs) == log;
    } else {
      var e := Parameter(kvs[0].0, kvs[0].1);
      EventGivesNothing(log, e);
      ParametersGiveNothing(log + [e], kvs[1..]);
      assert log + ParameterEvents(kvs) == log + [e] + ParameterEvents(kvs[1..]);
    }
  }

  lemma FileGivesNothing(log: Log, path: string, parameters: Option<seq<Noted<Setting>>>)
    ensures StatementsOf(log + FileEvents(path, parameters), Run) == StatementsOf(log, Run)
    ensures ResultsOf(log + FileEvents(path, parameters)) == ResultsOf(log)
  {
    hide StatementsOf, ResultsOf, ParameterEvents;
    if parameters.None? {
      assert log + FileEvents(path, parameters) == log;
    } else {
      var e, kvs := Templated(path), Pairs(Spoken(parameters.value));
      EventGivesNothing(log, e);
      ParametersGiveNothing(log + [e], kvs);
      assert log + FileEvents(path, parameters) == log + [e] + ParameterEvents(kvs);
    }
  }

  lemma OneEvent(item: Item)
    requires Writable(item) && !item.FileItem? && !Skipped(item)
    ensures |OwnEvents(item)| == 1
    ensures OwnEvents(item)[0].Expected? <==> GivesResult(item)
    ensures StatementsIn(OwnEvents(item)[0], Run) != [] <==> GivesRun(item)
  {
    hide StatementText, Good, Spoken, Table, SqlLine, Word, T.Literal, SqlText, Join, ScriptText, TableTexts;
  }

  lemma OwnEventsCount(log: Log, item: Item)
    requires Writable(item)
    ensures StatementsOf(log + OwnEvents(item), Run) == [] <==> StatementsOf(log, Run) == [] && !GivesRun(item)
    ensures ResultsOf(log + OwnEvents(item)) == [] <==> ResultsOf(log) == [] && !GivesResult(item)
  {
    hide StatementsOf, ResultsOf, Writable, FileEvents, StatementsIn;
    if item.FileItem? {
      FileGivesNothing(log, item.path, item.parameters);
    } else if Skipped(item) {
      assert log + [] == log;
    } else {
      hide OwnEvents, GivesRun, GivesResult;
      OneEvent(item);
      var e := OwnEvents(item)[0];
      assert OwnEvents(item) == [e];
      AppendEvent(log, e);
      StatementsAfter(log, e, Run);
    }
  }

  lemma EventsFirst(log: Log, items: seq<Item>)
    requires items != []
    ensures log + EventsOf(items) == Behind(log, items[0]) + EventsOf(items[1..])
  {
    hide OwnEvents;
    var own, below := OwnEvents(items[0]), if items[0].FileItem? then EventsOf(items[0].items) else [];
    var rest := EventsOf(items[1..]);
    assert EventsOf(items) == own + below + rest && Behind(log, items[0]) == log + own + below;
    Regroup(log, own + below, rest);
    Regroup(log, own, below);
  }

  lemma {:induction false} EventsCount(log: Log, items: seq<Item>)
    requires AllWritable(items)
    ensures StatementsOf(log + EventsOf(items), Run) == [] <==> StatementsOf(log, Run) == [] && Runs(items) == 0
    ensures ResultsOf(log + EventsOf(items)) == [] <==> ResultsOf(log) == [] && ResultCount(items) == 0
    decreases Size(items)
  {
    hide StatementsOf, ResultsOf, Writable, OwnEvents, GivesRun, GivesResult;
    if items == [] {
      assert log + EventsOf(items) == log;
    } else {
      var item := items[0];
      OwnEventsCount(log, item);
      if item.FileItem? { EventsCount(log + OwnEvents(item), item.items); }
      EventsCount(Behind(log, item), items[1..]);
      EventsFirst(log, items);
      assert log + OwnEvents(item) + [] == log + OwnEvents(item);
    }
  }

  /** Items fit when the first is allowed and the rest fit behind it. */
  lemma FitsByItem(log: Log, items: seq<Item>)
    requires items != [] && AllWritable(items)
    ensures Fits(log, items) <==>
            && Allowed(log, items[0])
            && (items[0].FileItem? ==> Fits(log + OwnEvents(items[0]), items[0].items))
            && Fits(Behind(log, items[0]), items[1..])
  {
    hide StatementsOf, ResultsOf, Writable, OwnEvents;
    var item := items[0];
    OwnEventsCount(log, item);
    if item.FileItem? { EventsCount(log + OwnEvents(item), item.items); }
    assert log + OwnEvents(item) + [] == log + OwnEvents(item);
  }

  lemma HeaderStarts(item: Item)
    requires !Skipped(item)
    ensures Header(item) != "" && 'a' <= Header(item)[0] <= 'z'
  {
    hide Join;
    match item
    case FieldItem(_, _) =>
    case PlanItem(ws) => FirstOfJoined("expect_plan", ws);
    case EchoItem(ws) => FirstOfJoined("echo", ws);
    case StatementItem(_, _) =>
    case RunItem(_) =>
    case ScriptItem(kind, path, _, _) => FirstOfTwo(KindName(kind), path);
    case RowsItem(isResult, columns, _, _) => FirstOfTwo(RowsName(isResult), columns);
    case ResultItem(path) => FirstOfTwo("result", path);
    case FileItem(path, parameters, _) => FirstOfTwo(FileName(parameters), path);
  }

  lemma HeaderIsRead(item: Item)
    requires !Skipped(item)
    ensures !IsBlankLine(Header(item)) && !IsCommentLine(Header(item))
  {
    hide Header;
    var line := Header(item);
    HeaderStarts(item);
    assert line[0] !in SPACE;
    assert TrimStart(line, SPACE) == line;
  }

  lemma FirstOfJoined(name: string, ws: seq<string>)
    requires name != ""
    ensures Join([name] + ws, " ") != "" && Join([name] + ws, " ")[0] == name[0]
  {
  }

  lemma FirstOfTwo(name: string, word: string)
    requires name != ""
    ensures Join([name, word], " ") != "" && Join([name, word], " ")[0] == name[0]
  {
    FirstOfJoined(name, [word]);
    assert [name] + [word] == [name, word];
  }

  /** The step of reading one item: past its lines, behind the file it opens. */
  lemma ItemStep(w: World, depth: nat, base: Mapping, log: Log, p: string, i: nat, reps: Mapping, item: Item)
    requires Writable(item) && Stored(w, item) && Reads(w, p, i, reps, Block(item))
    ensures p in w.files && i + |Block(item)| <= |w.files[p]|
    ensures RunFrom(w, depth, base, log, p, i, reps)
         == if !Allowed(log, item) then Err(Problem(item))
            else match After(w, depth, base, log + OwnEvents(item), Opened(w, item))
              case Err(e) => Err(e)
              case Ok(log') => RunFrom(w, depth, base, log', p, i + |Block(item)|, RepsAfter(w, reps, item))
  {
    hide Writable, Stored, Reads, Header, Tail, OwnEvents, Words, ReadLine, Effect, IsBlankLine, IsCommentLine;
    hide Allowed, After, Opened, RepsAfter, Problem;
    ReadsInside(w, p, i, reps, Block(item));
    ReadsRest(w, p, i, reps, [Header(item)], Tail(item));
    ReadsFirst(w, p, i, reps, [Header(item)]);
    if Skipped(item) {
      SkippedLine(w, depth, base, log, item);
    } else {
      HeaderIsRead(item);
      ItemIsRead(w, base, log, p, i + 1, reps, item);
    }
  }

  /** A comment or a blank line between directives says nothing. */
  lemma SkippedLine(w: World, depth: nat, base: Mapping, log: Log, item: Item)
    requires Writable(item) && Skipped(item)
    ensures IsBlankLine(Header(item)) || IsCommentLine(Header(item))
    ensures Allowed(log, item) && Block(item) == [Header(item)]
    ensures After(w, depth, base, log + OwnEvents(item), Opened(w, item)) == Ok(log)
    ensures forall reps :: RepsAfter(w, reps, item) == reps
  {
    hide IsCommentLine, RunFile, NoteLine;
    if item.NoteItem? { NoteIsComment(item.note); }
    assert log + [] == log;
  }

  /** The file that an item opens is read when what it says fits and enough files can be open. */
  ghost predicate Opens(log: Log, depth: nat, item: Item) {
    item.FileItem? ==> Fits(log + OwnEvents(item), item.items) && Height(item.items) < depth
  }

  lemma {:induction false} OpenedFileIsRead(w: World, depth: nat, base: Mapping, log: Log, item: Item)
    requires item.FileItem? ==>
               && AllWritable(item.items)
               && var q, before := w.resolve(item.path), log + OwnEvents(item);
                  Spelled(w, base, before, q, 0, FirstReps(w, base, before, q), item.items)
    ensures After(w, depth, base, log + OwnEvents(item), Opened(w, item)).Ok? <==> Opens(log, depth, item)
    ensures Opens(log, depth, item) ==>
              After(w, depth, base, log + OwnEvents(item), Opened(w, item)) == Ok(Behind(log, item))
    decreases if item.FileItem? then 1 + Size(item.items) else 0
  {
    hide AllWritable, Spelled, FirstReps, OwnEvents, Fits, RunFile, EventsOf;
    if item.FileItem? {
      FilesAreRead(w, depth, base, log + OwnEvents(item), w.resolve(item.path), item.items);
    } else {
      assert log + OwnEvents(item) + [] == log + OwnEvents(item);
    }
  }

  /** Items can be read when they fit and enough files can be open. */
  ghost predicate Readable(log: Log, depth: nat, items: seq<Item>) {
    Fits(log, items) && Height(items) <= depth
  }

  lemma ReadableByItem(log: Log, depth: nat, items: seq<Item>)
    requires items != [] && AllWritable(items)
    ensures Readable(log, depth, items) <==>
            && Allowed(log, items[0])
            && Opens(log, depth, items[0])
            && Readable(Behind(log, items[0]), depth, items[1..])
  {
    hide Fits, Allowed, Behind, OwnEvents, AllWritable;
    FitsByItem(log, items);
  }

  /** Reading lines that spell items gives what they and the files below them say, exactly when they fit
      and enough files can be open. */
  lemma {:induction false} ItemsAreRead(w: World, depth: nat, base: Mapping, log: Log, p: string, i: nat, reps: Mapping,
                                        items: seq<Item>)
    requires AllWritable(items) && Spelled(w, base, log, p, i, reps, items)
    ensures p in w.files && i <= |w.files[p]|
    ensures RunFrom(w, depth, base, log, p, i, reps).Ok? <==> Readable(log, depth, items)
    ensures Readable(log, depth, items) ==> RunFrom(w, depth, base, log, p, i, reps) == Ok(log + EventsOf(items))
    decreases Size(items), 0
  {
    hide Writable, Stored, Reads, OwnEvents, Allowed, RunFrom, RepsAfter, After, Opened, Opens, Behind, Block;
    hide EventsOf, Readable, FirstReps;
    if items == [] {
      NothingIsReadable(log, depth);
      NothingLeft(w, depth, base, log, p, i, reps);
    } else {
      var item, rest := items[0], items[1..];
      ItemStep(w, depth, base, log, p, i, reps, item);
      ReadableByItem(log, depth, items);
      OpenedFileIsRead(w, depth, base, log, item);
      ItemsAreRead(w, depth, base, Behind(log, item), p, i + |Block(item)|, RepsAfter(w, reps, item), rest);
      EventsFirst(log, items);
    }
  }

  lemma NothingIsReadable(log: Log, depth: nat)
    ensures Readable(log, depth, []) && log + EventsOf([]) == log
  {
  }

  lemma NothingLeft(w: World, depth: nat, base: Mapping, log: Log, p: string, i: nat, reps: Mapping)
    requires p in w.files && i == |w.files[p]|
    ensures RunFrom(w, depth, base, log, p, i, reps) == Ok(log)
  {
  }

  lemma {:induction false} FilesAreRead(w: World, depth: nat, base: Mapping, log: Log, p: string, items: seq<Item>)
    requires AllWritable(items) && Spelled(w, base, log, p, 0, FirstReps(w, base, log, p), items)
    ensures RunFile(w, depth, base, log, p).Ok? <==> Fits(log, items) && Height(items) < depth
    ensures Fits(log, items) && Height(items) < depth ==> RunFile(w, depth, base, log, p) == Ok(log + EventsOf(items))
    decreases Size(items), 1
  {
    hide AllWritable, Spelled, RunFrom, Reps, Fits, EventsOf;
    ItemsAreRead(w, if depth == 0 then 0 else depth - 1, base, log, p, 0, FirstReps(w, base, log, p), items);
  }

  /** Reading files that spell a benchmark gives that benchmark, through all its files and in order,
      exactly when at most one item gives `run` statements, at most one a result, and enough files can
      be open at once. */
  lemma RoundTrip(w: World, depth: nat, base: Mapping, p: string, items: seq<Item>)
    requires AllWritable(items) && Spelled(w, base, [], p, 0, FirstReps(w, base, [], p), items)
    ensures RunFile(w, depth, base, [], p).Ok? <==> Runs(items) <= 1 && ResultCount(items) <= 1 && Height(items) < depth
    ensures Runs(items) <= 1 && ResultCount(items) <= 1 && Height(items) < depth ==>
              RunFile(w, depth, base, [], p) == Ok(EventsOf(items))
  {
    hide AllWritable, Spelled, FirstReps, RunFile, Runs, ResultCount, Height, Fits, EventsOf;
    FilesAreRead(w, depth, base, [], p, items);
    FitsAtFirst(items);
    assert [] + EventsOf(items) == EventsOf(items);
  }

  lemma FitsAtFirst(items: seq<Item>)
    ensures Fits([], items) <==> Runs(items) <= 1 && ResultCount(items) <= 1
  {
    hide Runs, ResultCount;
  }

  // Without placeholders

  function LinesOf(items: seq<Item>): seq<string> {
    if items == [] then [] else Block(items[0]) + LinesOf(items[1..])
  }

  /** Every line of the tree is plain, and every file holds the lines of its items. */
  ghost predicate Written(w: World, items: seq<Item>) {
    items != [] ==>
      && All(Block(items[0]), Plain) && Stored(w, items[0])
      && (items[0].FileItem? ==>
           && w.resolve(items[0].path) in w.files && w.files[w.resolve(items[0].path)] == LinesOf(items[0].items)
           && Written(w, items[0].items))
      && Written(w, items[1..])
  }

  /** Plain lines spell their items wherever they are read. */
  lemma {:induction false} WrittenIsSpelled(w: World, base: Mapping, log: Log, p: string, i: nat, reps: Mapping,
                                            items: seq<Item>)
    requires Written(w, items) && p in w.files && i <= |w.files[p]| && w.files[p][i..] == LinesOf(items)
    ensures Spelled(w, base, log, p, i, reps, items)
    decreases Size(items)
  {
    hide Reads, Stored, Block, OwnEvents, Behind, RepsAfter, FirstReps, Plain, All;
    if items == [] {
    } else {
      var item, rest, n := items[0], items[1..], |Block(items[0])|;
      SplitLinesOf(w.files[p], i, Block(item), LinesOf(rest));
      PlainLinesAreRead(w, p, i, reps, Block(item));
      if item.FileItem? {
        var q, before := w.resolve(item.path), log + OwnEvents(item);
        assert w.files[q][0..] == w.files[q];
        WrittenIsSpelled(w, base, before, q, 0, FirstReps(w, base, before, q), item.items);
      }
      WrittenIsSpelled(w, base, Behind(log, item), p, i + n, RepsAfter(w, reps, item), rest);
    }
  }

  lemma SplitLinesOf(lines: seq<string>, i: nat, a: seq<string>, b: seq<string>)
    requires i <= |lines| && lines[i..] == a + b
    ensures i + |a| <= |lines| && lines[i..i + |a|] == a && lines[i + |a|..] == b
  {
    assert lines[i..][..|a|] == a && lines[i..][|a|..] == b;
  }

  /** A benchmark written in plain lines is read back. */
  lemma PlainRoundTrip(w: World, depth: nat, base: Mapping, p: string, items: seq<Item>)
    requires p in w.files && w.files[p] == LinesOf(items) && AllWritable(items) && Written(w, items)
    ensures RunFile(w, depth, base, [], p).Ok? <==> Runs(items) <= 1 && ResultCount(items) <= 1 && Height(items) < depth
    ensures Runs(items) <= 1 && ResultCount(items) <= 1 && Height(items) < depth ==>
              RunFile(w, depth, base, [], p) == Ok(EventsOf(items))
  {
    hide AllWritable, Written, Spelled, FirstReps, RunFile, Runs, ResultCount, Height, LinesOf;
    assert w.files[p][0..] == w.files[p];
    WrittenIsSpelled(w, base, [], p, 0, FirstReps(w, base, [], p), items);
    RoundTrip(w, depth, base, p, items);
  }
}
