/** What a benchmark file says: the directives that take effect, in order, through all the files
    it includes (benchmarks/src/sql_benchmark.rs). */
module BenchmarkSpec {
  import opened Text
  import opened BenchmarkSyntax
  import T = Template
  import TextSearch

  /** A query with its expected result. */
  datatype BenchmarkQuery =
    BenchmarkQuery(path: Option<string>, query: string, columnCount: nat, expected: seq<seq<string>>)

  datatype Field = NameField | GroupField | SubgroupField

  /** A directive that has taken effect. */
  datatype Event =
    | Statements(kind: QueryDirective, texts: seq<string>)
    | Expected(result: BenchmarkQuery)
    | Asserted(assertion: BenchmarkQuery)
    | Plan(text: string)
    | Echoed(text: string)
    | Named(field: Field, value: string)
    | Templated(path: string)
    | Parameter(key: string, value: string)

  type Log = seq<Event>

  // What the benchmark is after a log

  function StatementsIn(e: Event, kind: QueryDirective): seq<string> {
    if e.Statements? && e.kind == kind then e.texts else []
  }

  function StatementsOf(log: Log, kind: QueryDirective): seq<string> {
    if log == [] then [] else StatementsOf(log[..|log| - 1], kind) + StatementsIn(log[|log| - 1], kind)
  }

  function ResultsOf(log: Log): seq<BenchmarkQuery> {
    if log == [] then []
    else ResultsOf(log[..|log| - 1]) + if log[|log| - 1].Expected? then [log[|log| - 1].result] else []
  }

  function AssertsOf(log: Log): seq<BenchmarkQuery> {
    if log == [] then []
    else AssertsOf(log[..|log| - 1]) + if log[|log| - 1].Asserted? then [log[|log| - 1].assertion] else []
  }

  function PlansOf(log: Log): seq<string> {
    if log == [] then []
    else PlansOf(log[..|log| - 1]) + if log[|log| - 1].Plan? then [log[|log| - 1].text] else []
  }

  function EchoesOf(log: Log): seq<string> {
    if log == [] then []
    else EchoesOf(log[..|log| - 1]) + if log[|log| - 1].Echoed? then [log[|log| - 1].text] else []
  }

  /** The statements by directive; a directive without statements has no entry. */
  function QueriesOf(log: Log): map<QueryDirective, seq<string>> {
    map kind | kind in {Load, Run, Init, Cleanup} && StatementsOf(log, kind) != [] :: StatementsOf(log, kind)
  }

  /** The last value given to a field. */
  function FieldOf(log: Log, f: Field, default: string): string {
    if log == [] then default
    else
      var last := log[|log| - 1];
      if last.Named? && last.field == f then last.value else FieldOf(log[..|log| - 1], f, default)
  }

  function PathOf(log: Log, default: string): string {
    if log == [] then default
    else if log[|log| - 1].Templated? then log[|log| - 1].path
    else PathOf(log[..|log| - 1], default)
  }

  function KeyOf(f: Field): string {
    match f case NameField => "BENCH_NAME" case GroupField => "BENCH_GROUP" case SubgroupField => "BENCH_SUBGROUP"
  }

  function DirectiveName(f: Field): string {
    match f case NameField => "name" case GroupField => "group" case SubgroupField => "subgroup"
  }

  function Updated(w: World, reps: Mapping, e: Event): Mapping {
    match e
    case Named(f, v) => reps[w.lower(KeyOf(f)) := v]
    case Parameter(k, v) => reps[w.lower(k) := v]
    case _ => reps
  }

  /** The replacement mapping, from the one the benchmark was created with. */
  function Reps(w: World, base: Mapping, log: Log): Mapping {
    if log == [] then base else Updated(w, Reps(w, base, log[..|log| - 1]), log[|log| - 1])
  }

  // The effect of one directive

  /** A directive's events, the lines it has used, the reader's mapping after it, and the file to
      process before the next line. */
  datatype Step = Step(events: seq<Event>, next: nat, reps: Mapping, jump: Option<string>)

  function ParameterEvents(kvs: seq<(string, string)>): seq<Event> {
    if kvs == [] then [] else [Parameter(kvs[0].0, kvs[0].1)] + ParameterEvents(kvs[1..])
  }

  function QueryEffect(w: World, base: Mapping, log: Log, p: string, next: nat, reps: Mapping,
                       kind: QueryDirective, words: seq<string>): (r: Result<Step, Error>)
    requires p in w.files && next <= |w.files[p]|
    ensures r.Ok? ==> next <= r.value.next <= |w.files[p]| && r.value.jump.None?
  {
    if kind == Run && StatementsOf(log, Run) != [] then Err(MultipleRuns)
    else match Body(w, p, next, reps)
      case Err(e) => Err(e)
      case Ok(body) =>
        match Pieces(w, kind, words, body.value)
        case Err(e) => Err(e)
        case Ok(pieces) =>
          match Kept(w, Reps(w, base, log), pieces)
          case (_, Some(e)) => Err(e)
          case (texts, None) => Ok(Step([Statements(kind, texts)], body.next, reps, None))
  }

  function FieldEffect(w: World, p: string, next: nat, reps: Mapping, f: Field, line: string): (r: Result<Step, Error>)
    requires p in w.files && next <= |w.files[p]|
    ensures r.Ok? ==> next <= r.value.next <= |w.files[p]| && r.value.jump.None?
  {
    match DirectiveValue(line, DirectiveName(f))
    case None => Err(MissingArgument)
    case Some(v) => Ok(Step([Named(f, v)], next, reps[w.lower(KeyOf(f)) := v], None))
  }

  /** The query and the expected rows of `assert` and `result_query`. */
  function QueryWithRows(w: World, p: string, next: nat, reps: Mapping, header: string, newlineFirst: bool)
    : (r: Result<Span<BenchmarkQuery>, Error>)
    requires p in w.files && next <= |w.files[p]|
    ensures r.Ok? ==> next <= r.value.next <= |w.files[p]|
  {
    match UntilBreak(w, p, next, reps, newlineFirst)
    case Err(e) => Err(e)
    case Ok(sql) =>
      match ExpectedRows(w, p, sql.next, reps, Utf8Length(header))
      case Err(e) => Err(e)
      case Ok(rows) => Ok(Span(BenchmarkQuery(None, sql.value, Utf8Length(header), rows.value), rows.next))
  }

  function AssertEffect(w: World, p: string, next: nat, reps: Mapping, words: seq<string>): (r: Result<Step, Error>)
    requires p in w.files && next <= |w.files[p]|
    ensures r.Ok? ==> next <= r.value.next <= |w.files[p]| && r.value.jump.None?
  {
    if |words| <= 1 then Err(MissingArgument)
    else match QueryWithRows(w, p, next, reps, words[1], true)
      case Err(e) => Err(e)
      case Ok(q) => Ok(Step([Asserted(q.value)], q.next, reps, None))
  }

  function ResultQueryEffect(w: World, log: Log, p: string, next: nat, reps: Mapping, words: seq<string>)
    : (r: Result<Step, Error>)
    requires p in w.files && next <= |w.files[p]|
    ensures r.Ok? ==> next <= r.value.next <= |w.files[p]| && r.value.jump.None?
  {
    if |words| <= 1 then Err(MissingArgument)
    else match QueryWithRows(w, p, next, reps, words[1], false)
      case Err(e) => Err(e)
      case Ok(q) =>
        if ResultsOf(log) != [] then Err(MultipleResults) else Ok(Step([Expected(q.value)], q.next, reps, None))
  }

  function ResultsEffect(w: World, base: Mapping, log: Log, next: nat, reps: Mapping, words: seq<string>)
    : (r: Result<Step, Error>)
    ensures r.Ok? ==> r.value.next == next && r.value.jump.None?
  {
    if |words| <= 1 then Err(MissingArgument)
    else if ResultsOf(log) != [] then Err(MultipleResults)
    else match T.Expand(ScopeOf(w, Reps(w, base, log)), words[1])
      case Err(key) => Err(UnresolvedKey(key))
      case Ok(path) => Ok(Step([Expected(BenchmarkQuery(Some(path), "", 0, []))], next, reps, None))
  }

  function TemplateEffect(w: World, p: string, next: nat, reps: Mapping, words: seq<string>): (r: Result<Step, Error>)
    requires p in w.files && next <= |w.files[p]|
    ensures r.Ok? ==> next <= r.value.next <= |w.files[p]| && |words| == 2 && r.value.jump == Some(w.resolve(words[1]))
  {
    if |words| != 2 then Err(MissingArgument)
    else match Parameters(w, p, next, reps)
      case Err(e) => Err(e)
      case Ok(kvs) =>
        Ok(Step([Templated(words[1])] + ParameterEvents(kvs.value), kvs.next, reps, Some(w.resolve(words[1]))))
  }

  /** The effect of a line that is neither blank nor a comment; `next` is the index behind it. */
  function Effect(w: World, base: Mapping, log: Log, p: string, next: nat, reps: Mapping, line: string)
    : (r: Result<Step, Error>)
    requires p in w.files && next <= |w.files[p]| && Words(line) != []
    ensures r.Ok? ==> next <= r.value.next <= |w.files[p]|
    ensures r.Ok? ==> r.value.jump == Target(w, line)
  {
    var words := Words(line);
    match Select(words[0])
    case None => Err(UnrecognizedCommand)
    case Some(Query(kind)) => QueryEffect(w, base, log, p, next, reps, kind, words)
    case Some(Name) => FieldEffect(w, p, next, reps, NameField, line)
    case Some(Group) => FieldEffect(w, p, next, reps, GroupField, line)
    case Some(Subgroup) => FieldEffect(w, p, next, reps, SubgroupField, line)
    case Some(ExpectPlan) =>
      if |words| <= 1 then Err(MissingArgument)
      else Ok(Step([Plan(TextSearch.Join(words[1..], " "))], next, reps, None))
    case Some(Assert) => AssertEffect(w, p, next, reps, words)
    case Some(ResultQuery) => ResultQueryEffect(w, log, p, next, reps, words)
    case Some(Results) => ResultsEffect(w, base, log, next, reps, words)
    case Some(Template) => TemplateEffect(w, p, next, reps, words)
    case Some(Include) =>
      if |words| != 2 then Err(MissingArgument) else Ok(Step([], next, reps, Some(w.resolve(words[1]))))
    case Some(Echo) =>
      if |words| < 2 then Err(MissingArgument)
      else Ok(Step([Echoed(TextSearch.Join(words[1..], " "))], next, reps, None))
  }

  // Whole files

  /** The log after processing a file, or the error that ends it. At most `depth` files can be
      open at once; the file of an `include` or a `template` is read with its own still open. */
  function RunFile(w: World, depth: nat, base: Mapping, log: Log, p: string): Result<Log, Error>
    decreases depth, 0
  {
    if p !in w.files then Err(NoSuchFile)
    else if depth == 0 then Err(TooManyFiles)
    else RunFrom(w, depth - 1, base, log, p, 0, Reps(w, base, log)[w.lower("FILE_PATH") := p])
  }

  /** The log after processing a file from line `i` on, with `depth` more files to open. */
  function RunFrom(w: World, depth: nat, base: Mapping, log: Log, p: string, i: nat, reps: Mapping): Result<Log, Error>
    requires p in w.files && i <= |w.files[p]|
    decreases depth, 1 + |w.files[p]| - i
  {
    if i == |w.files[p]| then Ok(log)
    else match ReadLine(w, p, i, reps)
      case Err(key) => Err(UnresolvedKey(key))
      case Ok(line) =>
        if IsBlankLine(line) || IsCommentLine(line) then RunFrom(w, depth, base, log, p, i + 1, reps)
        else
          WordsOfLine(line);
          match Effect(w, base, log, p, i + 1, reps, line)
          case Err(e) => Err(e)
          case Ok(step) =>
            match After(w, depth, base, log + step.events, step.jump)
            case Err(e) => Err(e)
            case Ok(log') => RunFrom(w, depth, base, log', p, step.next, step.reps)
  }

  /** The log after the file that a directive switches to, if it does. */
  function After(w: World, depth: nat, base: Mapping, log: Log, jump: Option<string>): Result<Log, Error>
    decreases depth, 1
  {
    if jump.None? then Ok(log) else RunFile(w, depth, base, log, jump.value)
  }

  // Invariants of every run

  /** A query that is complete: its expected rows are as wide as its header. */
  predicate Rectangular(q: BenchmarkQuery) {
    forall row <- q.expected :: |row| == q.columnCount
  }

  /** The directives of `kind` that gave statements. */
  function Sources(log: Log, kind: QueryDirective): nat {
    if log == [] then 0
    else Sources(log[..|log| - 1], kind) + if StatementsIn(log[|log| - 1], kind) != [] then 1 else 0
  }

  ghost predicate Legal(log: Log) {
    && |ResultsOf(log)| <= 1
    && Sources(log, Run) <= 1
    && (forall q <- ResultsOf(log) :: Rectangular(q))
    && (forall q <- AssertsOf(log) :: Rectangular(q))
  }

  lemma AppendEvent(log: Log, e: Event)
    ensures ResultsOf(log + [e]) == ResultsOf(log) + if e.Expected? then [e.result] else []
    ensures AssertsOf(log + [e]) == AssertsOf(log) + if e.Asserted? then [e.assertion] else []
    ensures Sources(log + [e], Run) == Sources(log, Run) + if StatementsIn(e, Run) != [] then 1 else 0
  {
    assert (log + [e])[..|log + [e]| - 1] == log;
  }

  lemma StatementsAfter(log: Log, e: Event, kind: QueryDirective)
    ensures StatementsOf(log + [e], kind) == StatementsOf(log, kind) + StatementsIn(e, kind)
  {
    assert (log + [e])[..|log + [e]| - 1] == log;
  }

  /** The directives of a kind gave statements exactly when there are some. */
  lemma {:induction false} SourcesGiveStatements(log: Log, kind: QueryDirective)
    ensures Sources(log, kind) == 0 <==> StatementsOf(log, kind) == []
  {
    if log == [] {
    } else {
      SourcesGiveStatements(log[..|log| - 1], kind);
    }
  }

  lemma QueryIsRectangular(w: World, p: string, next: nat, reps: Mapping, header: string, newlineFirst: bool)
    requires p in w.files && next <= |w.files[p]|
    ensures var r := QueryWithRows(w, p, next, reps, header, newlineFirst); r.Ok? ==> Rectangular(r.value.value)
  {
    hide UntilBreak, ExpectedRows;
    var sql := UntilBreak(w, p, next, reps, newlineFirst);
    if sql.Ok? && ExpectedRows(w, p, sql.value.next, reps, Utf8Length(header)).Ok? {
      RowsHaveWidth(w, p, sql.value.next, reps, Utf8Length(header));
    }
  }

  /** One more event is legal if it is no second result, no second source of `run` statements and
      no ragged query. */
  lemma EventIsLegal(log: Log, e: Event)
    requires Legal(log)
    requires e.Expected? ==> ResultsOf(log) == [] && Rectangular(e.result)
    requires e.Asserted? ==> Rectangular(e.assertion)
    requires StatementsIn(e, Run) != [] ==> StatementsOf(log, Run) == []
    ensures Legal(log + [e])
  {
    hide Rectangular;
    AppendEvent(log, e);
    SourcesGiveStatements(log, Run);
  }

  lemma {:induction false} ParametersAreLegal(log: Log, kvs: seq<(string, string)>)
    requires Legal(log)
    ensures Legal(log + ParameterEvents(kvs))
    decreases |kvs|
  {
    hide Legal;
    if kvs == [] {
      assert log + ParameterEvents(kvs) == log;
    } else {
      var first := Parameter(kvs[0].0, kvs[0].1);
      EventIsLegal(log, first);
      ParametersAreLegal(log + [first], kvs[1..]);
      assert log + ParameterEvents(kvs) == log + [first] + ParameterEvents(kvs[1..]);
    }
  }

  lemma TemplateIsLegal(log: Log, path: string, kvs: seq<(string, string)>)
    requires Legal(log)
    ensures Legal(log + ([Templated(path)] + ParameterEvents(kvs)))
  {
    hide Legal, ParameterEvents;
    EventIsLegal(log, Templated(path));
    ParametersAreLegal(log + [Templated(path)], kvs);
    assert log + ([Templated(path)] + ParameterEvents(kvs)) == log + [Templated(path)] + ParameterEvents(kvs);
  }

  lemma EffectIsLegal(w: World, base: Mapping, log: Log, p: string, next: nat, reps: Mapping, line: string)
    requires p in w.files && next <= |w.files[p]| && Words(line) != [] && Legal(log)
    requires Effect(w, base, log, p, next, reps, line).Ok?
    ensures Legal(log + Effect(w, base, log, p, next, reps, line).value.events)
  {
    hide Legal, Rectangular, Body, Pieces, Kept, Parameters, QueryWithRows, DirectiveValue;
    hide Words, Target, BenchmarkSyntax.Select, TextSearch.Join;
    var words := Words(line);
    var step := Effect(w, base, log, p, next, reps, line).value;
    match BenchmarkSyntax.Select(words[0]).value
    case Template =>
      TemplateIsLegal(log, words[1], Parameters(w, p, next, reps).value.value);
    case Include =>
      assert log + step.events == log;
    case Assert =>
      QueryIsRectangular(w, p, next, reps, words[1], true);
      EventIsLegal(log, step.events[0]);
    case ResultQuery =>
      QueryIsRectangular(w, p, next, reps, words[1], false);
      EventIsLegal(log, step.events[0]);
    case Results =>
      assert Rectangular(step.events[0].result) by { NoRows(step.events[0].result); }
      EventIsLegal(log, step.events[0]);
    case _ =>
      EventIsLegal(log, step.events[0]);
  }

  lemma NoRows(q: BenchmarkQuery)
    requires q.expected == []
    ensures Rectangular(q)
  {
  }

  /** Whatever files are included, in whatever order: at most one result, `run` statements from
      one directive only, and no ragged expectation. */
  lemma {:induction false} RunIsLegal(w: World, depth: nat, base: Mapping, log: Log, p: string)
    requires Legal(log) && RunFile(w, depth, base, log, p).Ok?
    ensures Legal(RunFile(w, depth, base, log, p).value)
    decreases depth, 0
  {
    hide Legal, RunFrom, Reps;
    RunFromIsLegal(w, depth - 1, base, log, p, 0, Reps(w, base, log)[w.lower("FILE_PATH") := p]);
  }

  lemma {:induction false} RunFromIsLegal(w: World, depth: nat, base: Mapping, log: Log, p: string, i: nat,
                                          reps: Mapping)
    requires p in w.files && i <= |w.files[p]|
    requires Legal(log) && RunFrom(w, depth, base, log, p, i, reps).Ok?
    ensures Legal(RunFrom(w, depth, base, log, p, i, reps).value)
    decreases depth, 1 + |w.files[p]| - i
  {
    hide Legal, Effect, ReadLine, IsBlankLine, IsCommentLine, Words, Target, RunFile;
    if i == |w.files[p]| {
    } else {
      var line := ReadLine(w, p, i, reps).value;
      if IsBlankLine(line) || IsCommentLine(line) {
        RunFromIsLegal(w, depth, base, log, p, i + 1, reps);
      } else {
        HasWords(line);
        EffectIsLegal(w, base, log, p, i + 1, reps, line);
        var step := Effect(w, base, log, p, i + 1, reps, line).value;
        var log1 := log + step.events;
        if step.jump.Some? { RunIsLegal(w, depth, base, log1, step.jump.value); }
        RunFromIsLegal(w, depth, base, After(w, depth, base, log1, step.jump).value, p, step.next, step.reps);
      }
    }
  }

  lemma HasWords(line: string)
    requires !IsBlankLine(line)
    ensures Words(line) != []
  {
    WordsOfLine(line);
  }

  /** When one directive only gave statements, they are all those of that directive. */
  lemma {:induction false} StatementsFromOneDirective(log: Log, kind: QueryDirective)
    requires Sources(log, kind) <= 1 && StatementsOf(log, kind) != []
    ensures Statements(kind, StatementsOf(log, kind)) in log
  {
    var last := log[|log| - 1];
    SourcesGiveStatements(log[..|log| - 1], kind);
    if StatementsIn(last, kind) == [] {
      StatementsFromOneDirective(log[..|log| - 1], kind);
      assert StatementsOf(log, kind) == StatementsOf(log[..|log| - 1], kind);
    } else {
      assert StatementsOf(log, kind) == last.texts;
    }
  }

  // Nesting

  /** A limit on open files that is not reached is no limit. */
  lemma {:induction false} DepthDoesNotMatter(w: World, depth: nat, more: nat, base: Mapping, log: Log, p: string)
    requires depth <= more && RunFile(w, depth, base, log, p) != Err(TooManyFiles)
    ensures RunFile(w, more, base, log, p) == RunFile(w, depth, base, log, p)
    decreases depth, 0
  {
    hide RunFrom, Reps;
    if p in w.files {
      DepthDoesNotMatterFrom(w, depth - 1, more - 1, base, log, p, 0, Reps(w, base, log)[w.lower("FILE_PATH") := p]);
    }
  }

  lemma {:induction false} DepthDoesNotMatterFrom(w: World, depth: nat, more: nat, base: Mapping, log: Log, p: string,
                                                  i: nat, reps: Mapping)
    requires depth <= more && p in w.files && i <= |w.files[p]|
    requires RunFrom(w, depth, base, log, p, i, reps) != Err(TooManyFiles)
    ensures RunFrom(w, more, base, log, p, i, reps) == RunFrom(w, depth, base, log, p, i, reps)
    decreases depth, 1 + |w.files[p]| - i
  {
    hide Effect, ReadLine, IsBlankLine, IsCommentLine, Words, Target, RunFile;
    if i < |w.files[p]| && ReadLine(w, p, i, reps).Ok? {
      var line := ReadLine(w, p, i, reps).value;
      if IsBlankLine(line) || IsCommentLine(line) {
        DepthDoesNotMatterFrom(w, depth, more, base, log, p, i + 1, reps);
      } else {
        HasWords(line);
        if Effect(w, base, log, p, i + 1, reps, line).Ok? {
          var step := Effect(w, base, log, p, i + 1, reps, line).value;
          var log1 := log + step.events;
          if step.jump.Some? { DepthDoesNotMatter(w, depth, more, base, log1, step.jump.value); }
          var after := After(w, depth, base, log1, step.jump);
          if after.Ok? { DepthDoesNotMatterFrom(w, depth, more, base, after.value, p, step.next, step.reps); }
        }
      }
    }
  }

  /** No file reaches itself through `include` and `template`: whatever the placeholders expand
      to, a line of a file leads only to files of a smaller rank. */
  ghost predicate Acyclic(w: World, rank: map<string, nat>) {
    && rank.Keys == w.files.Keys
    && forall p, i, reps ::
         p in w.files && 0 <= i < |w.files[p]| && ReadLine(w, p, i, reps).Ok? ==>
         Descends(w, rank, p, ReadLine(w, p, i, reps).value)
  }

  predicate Descends(w: World, rank: map<string, nat>, p: string, line: string)
    requires p in rank
  {
    var t := Target(w, line);
    t.Some? && t.value in rank ==> rank[t.value] < rank[p]
  }

  /** Files without a cycle are processed with no more open at once than the rank of the first,
      however their directives nest and whatever lines these consume. */
  lemma {:induction false} AcyclicFilesAreProcessed(w: World, rank: map<string, nat>, depth: nat, base: Mapping,
                                                    log: Log, p: string)
    requires Acyclic(w, rank) && (p in rank ==> rank[p] < depth)
    ensures RunFile(w, depth, base, log, p) != Err(TooManyFiles)
    decreases depth, 0
  {
    hide RunFrom, Reps, Acyclic;
    if p in w.files {
      SameFiles(w, rank);
      AcyclicFilesAreProcessedFrom(w, rank, depth - 1, base, log, p, 0, Reps(w, base, log)[w.lower("FILE_PATH") := p]);
    }
  }

  lemma SameFiles(w: World, rank: map<string, nat>)
    requires Acyclic(w, rank)
    ensures forall p :: p in rank <==> p in w.files
  {
    assert forall p :: p in rank.Keys <==> p in w.files.Keys;
  }

  lemma TargetDescends(w: World, rank: map<string, nat>, p: string, i: nat, reps: Mapping)
    requires Acyclic(w, rank) && p in w.files && i < |w.files[p]| && p in rank && ReadLine(w, p, i, reps).Ok?
    ensures Descends(w, rank, p, ReadLine(w, p, i, reps).value)
  {
    hide ReadLine, Descends;
  }

  lemma EffectErrors(w: World, base: Mapping, log: Log, p: string, next: nat, reps: Mapping, line: string)
    requires p in w.files && next <= |w.files[p]| && Words(line) != []
    ensures Effect(w, base, log, p, next, reps, line) != Err(TooManyFiles)
  {
    hide Words, DirectiveValue, TextSearch.Join, BenchmarkSyntax.Select;
    hide Body, Kept, UntilBreak, ExpectedRows, Parameters, Reps, T.Expand;
  }

  lemma {:induction false} AcyclicFilesAreProcessedFrom(w: World, rank: map<string, nat>, depth: nat, base: Mapping,
                                                        log: Log, p: string, i: nat, reps: Mapping)
    requires Acyclic(w, rank) && p in w.files && i <= |w.files[p]| && p in rank && rank[p] <= depth
    ensures RunFrom(w, depth, base, log, p, i, reps) != Err(TooManyFiles)
    decreases depth, 1 + |w.files[p]| - i
  {
    hide Acyclic, Effect, ReadLine, IsBlankLine, IsCommentLine, Words, Target, RunFile;
    if i < |w.files[p]| && ReadLine(w, p, i, reps).Ok? {
      var line := ReadLine(w, p, i, reps).value;
      if IsBlankLine(line) || IsCommentLine(line) {
        AcyclicFilesAreProcessedFrom(w, rank, depth, base, log, p, i + 1, reps);
      } else {
        HasWords(line);
        EffectErrors(w, base, log, p, i + 1, reps, line);
        if Effect(w, base, log, p, i + 1, reps, line).Ok? {
          var step := Effect(w, base, log, p, i + 1, reps, line).value;
          var log1 := log + step.events;
          TargetDescends(w, rank, p, i, reps);
          if step.jump.Some? { AcyclicFilesAreProcessed(w, rank, depth, base, log1, step.jump.value); }
          var after := After(w, depth, base, log1, step.jump);
          if after.Ok? { AcyclicFilesAreProcessedFrom(w, rank, depth, base, after.value, p, step.next, step.reps); }
        }
      }
    }
  }

  /** Nothing looks for cycles: a file that begins by including itself uses up any number of
      files. */
  lemma {:induction false} CycleUsesUpFiles(w: World, depth: nat, base: Mapping, log: Log, p: string, line: string)
    requires p in w.files && w.files[p] != [] && forall reps :: ReadLine(w, p, 0, reps) == Ok(line)
    requires !IsBlankLine(line) && !IsCommentLine(line)
    requires Words(line) != [] && BenchmarkSyntax.Select(Words(line)[0]) == Some(Include) && Target(w, line) == Some(p)
    ensures RunFile(w, depth, base, log, p) == Err(TooManyFiles)
  {
    hide ReadLine, IsBlankLine, IsCommentLine, Words, Reps, BenchmarkSyntax.Select;
    if depth == 0 {
    } else {
      CycleUsesUpFiles(w, depth - 1, base, log, p, line);
      var reps := Reps(w, base, log)[w.lower("FILE_PATH") := p];
      assert ReadLine(w, p, 0, reps) == Ok(line);
      assert log + [] == log;
      assert Effect(w, base, log, p, 1, reps, line) == Ok(Step([], 1, reps, Some(p)));
      assert After(w, depth - 1, base, log, Some(p)) == Err(TooManyFiles);
      assert RunFrom(w, depth - 1, base, log, p, 0, reps) == Err(TooManyFiles);
    }
  }
}
