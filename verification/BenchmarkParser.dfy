/** The parser of benchmark files (benchmarks/src/sql_benchmark.rs): a reader that moves over the
    lines of a file, and a benchmark that the directives it meets fill in. */
module BenchmarkParser {
  import opened Text
  import opened BenchmarkSyntax
  import opened BenchmarkSpec
  import T = Template
  import TextSearch

  // What is still to be read, behind what has been

  function Behind<E>(read: seq<E>, rest: Result<Span<seq<E>>, Error>): Result<Span<seq<E>>, Error> {
    match rest case Err(e) => Err(e) case Ok(s) => Ok(Span(read + s.value, s.next))
  }

  lemma BehindTwice<E>(a: seq<E>, b: seq<E>, rest: Result<Span<seq<E>>, Error>)
    ensures Behind(a, Behind(b, rest)) == Behind(a + b, rest)
  {
    if rest.Ok? { assert a + (b + rest.value.value) == a + b + rest.value.value; }
  }

  lemma BehindNothing<E>(rest: Result<Span<seq<E>>, Error>)
    ensures Behind([], rest) == rest
  {
    if rest.Ok? { assert [] + rest.value.value == rest.value.value; }
  }

  class Reader {
    const path: string
    var pos: nat
    var reps: Mapping

    constructor (path: string, reps: Mapping)
      ensures this.path == path && pos == 0 && this.reps == reps
    {
      this.path, this.pos, this.reps := path, 0, reps;
    }

    ghost predicate Valid(w: World)
      reads this
    {
      path in w.files && pos <= |w.files[path]|
    }

    method NextLine(w: World) returns (r: Option<Result<string, Error>>)
      requires Valid(w)
      modifies this`pos
      ensures Valid(w)
      ensures r.None? <==> old(pos) == |w.files[path]|
      ensures r.None? ==> pos == old(pos)
      ensures r.Some? ==> pos == old(pos) + 1
      ensures r.Some? ==> match ReadLine(w, path, old(pos), reps)
                          case Err(key) => r.value == Err(UnresolvedKey(key))
                          case Ok(line) => r.value == Ok(line)
    {
      hide ReadLine;
      if pos == |w.files[path]| { return None; }
      var line := ReadLine(w, path, pos, reps);
      pos := pos + 1;
      match line
      case Err(key) => return Some(Err(UnresolvedKey(key)));
      case Ok(l) => return Some(Ok(l));
    }

    /** The body of a query directive. */
    method ReadBody(w: World) returns (r: Result<string, Error>)
      requires Valid(w)
      modifies this`pos
      ensures match Body(w, path, old(pos), reps)
              case Err(e) => r == Err(e)
              case Ok(body) => r == Ok(body.value) && pos == body.next
      ensures Valid(w)
    {
      hide ReadLine, IsCommentLine, IsBlankLine;
      var query := "";
      BehindNothing(Body(w, path, pos, reps));
      while true
        invariant Valid(w)
        invariant Body(w, path, old(pos), reps) == Behind(query, Body(w, path, pos, reps))
        decreases |w.files[path]| - pos
      {
        var line := NextLine(w);
        match line
        case None => break;
        case Some(Err(e)) => return Err(e);
        case Some(Ok(l)) =>
          if IsCommentLine(l) {
          } else if IsBlankLine(l) {
            break;
          } else {
            BehindTwice(query, l + "\n", Body(w, path, pos, reps));
            query := query + (l + "\n");
          }
      }
      assert query + "" == query;
      return Ok(query);
    }

    /** The query of `assert` or `result_query`, up to the line of dashes. */
    method ReadUntilBreak(w: World, newlineFirst: bool) returns (r: Result<string, Error>)
      requires Valid(w)
      modifies this`pos
      ensures match UntilBreak(w, path, old(pos), reps, newlineFirst)
              case Err(e) => r == Err(e)
              case Ok(sql) => r == Ok(sql.value) && pos == sql.next
      ensures Valid(w)
    {
      hide ReadLine, IsBreakLine;
      var sql := "";
      BehindNothing(UntilBreak(w, path, pos, reps, newlineFirst));
      while true
        invariant Valid(w)
        invariant UntilBreak(w, path, old(pos), reps, newlineFirst)
               == Behind(sql, UntilBreak(w, path, pos, reps, newlineFirst))
        decreases |w.files[path]| - pos
      {
        var line := NextLine(w);
        match line
        case None => return Err(MissingBreak);
        case Some(Err(e)) => return Err(e);
        case Some(Ok(l)) =>
          if IsBreakLine(l) { break; }
          var piece := if newlineFirst then "\n" + l else l + "\n";
          BehindTwice(sql, piece, UntilBreak(w, path, pos, reps, newlineFirst));
          sql := sql + piece;
      }
      assert sql + "" == sql;
      return Ok(sql);
    }

    /** The expected rows behind a query. */
    method ReadRows(w: World, width: nat) returns (r: Result<seq<seq<string>>, Error>)
      requires Valid(w)
      modifies this`pos
      ensures match ExpectedRows(w, path, old(pos), reps, width)
              case Err(e) => r == Err(e)
              case Ok(rows) => r == Ok(rows.value) && pos == rows.next
      ensures Valid(w)
    {
      hide ReadLine, IsCommentLine, IsBlankLine, Cells;
      var rows := [];
      BehindNothing(ExpectedRows(w, path, pos, reps, width));
      while true
        invariant Valid(w)
        invariant ExpectedRows(w, path, old(pos), reps, width) == Behind(rows, ExpectedRows(w, path, pos, reps, width))
        decreases |w.files[path]| - pos
      {
        var line := NextLine(w);
        match line
        case None => break;
        case Some(Err(e)) => return Err(e);
        case Some(Ok(l)) =>
          if IsCommentLine(l) {
          } else if IsBlankLine(l) {
            break;
          } else {
            var cells := Cells(l);
            if |cells| != width { return Err(WrongColumnCount); }
            BehindTwice(rows, [cells], ExpectedRows(w, path, pos, reps, width));
            rows := rows + [cells];
          }
      }
      assert rows + [] == rows;
      return Ok(rows);
    }

    /** A query and the rows it is to give. */
    method ReadQueryWithRows(w: World, header: string, newlineFirst: bool) returns (r: Result<BenchmarkQuery, Error>)
      requires Valid(w)
      modifies this`pos
      ensures match QueryWithRows(w, path, old(pos), reps, header, newlineFirst)
              case Err(e) => r == Err(e)
              case Ok(q) => r == Ok(q.value) && pos == q.next
      ensures Valid(w)
    {
      hide UntilBreak, ExpectedRows;
      var sql := ReadUntilBreak(w, newlineFirst);
      if sql.Err? { return Err(sql.error); }
      var rows := ReadRows(w, Utf8Length(header));
      if rows.Err? { return Err(rows.error); }
      return Ok(BenchmarkQuery(None, sql.value, Utf8Length(header), rows.value));
    }
  }

  // The benchmark

  /** What a directive's effect says of the outcome, the log and the reader. */
  ghost predicate Took(effect: Result<Step, Error>, before: Log, r: Result<(), Error>, log: Log, pos: nat,
                       reps: Mapping)
  {
    match effect
    case Err(e) => r == Err(e)
    case Ok(step) => r.Ok? && log == before + step.events && pos == step.next && reps == step.reps
  }

  /** The same of a whole line, with the file that its directive may switch to. */
  ghost predicate TookLine(w: World, depth: nat, base: Mapping, effect: Result<Step, Error>, before: Log,
                           r: Result<(), Error>, log: Log, pos: nat, reps: Mapping)
  {
    match effect
    case Err(e) => r == Err(e)
    case Ok(step) =>
      match After(w, depth, base, before + step.events, step.jump)
      case Err(e) => r == Err(e)
      case Ok(log') => r.Ok? && log == log' && pos == step.next && reps == step.reps
  }

  /** What is left of a file, by its next line. */
  lemma RunFromLine(w: World, depth: nat, base: Mapping, log: Log, p: string, i: nat, reps: Mapping)
    requires p in w.files && i <= |w.files[p]|
    ensures i == |w.files[p]| ==> RunFrom(w, depth, base, log, p, i, reps) == Ok(log)
    ensures i < |w.files[p]| ==>
              match ReadLine(w, p, i, reps)
              case Err(key) => RunFrom(w, depth, base, log, p, i, reps) == Err(UnresolvedKey(key))
              case Ok(line) =>
                if IsBlankLine(line) || IsCommentLine(line) then
                  RunFrom(w, depth, base, log, p, i, reps) == RunFrom(w, depth, base, log, p, i + 1, reps)
                else
                  && Words(line) != []
                  && match Effect(w, base, log, p, i + 1, reps, line)
                     case Err(e) => RunFrom(w, depth, base, log, p, i, reps) == Err(e)
                     case Ok(step) =>
                       match After(w, depth, base, log + step.events, step.jump)
                       case Err(e) => RunFrom(w, depth, base, log, p, i, reps) == Err(e)
                       case Ok(log') =>
                         RunFrom(w, depth, base, log, p, i, reps)
                         == RunFrom(w, depth, base, log', p, step.next, step.reps)
  {
    hide ReadLine, IsCommentLine, IsBlankLine, Effect, Words, Target, After;
    if i < |w.files[p]| && ReadLine(w, p, i, reps).Ok? && !IsBlankLine(ReadLine(w, p, i, reps).value) {
      HasWords(ReadLine(w, p, i, reps).value);
    }
  }

  type Queries = map<QueryDirective, seq<string>>

  function Pushed(queries: Queries, kind: QueryDirective, texts: seq<string>): Queries {
    if texts == [] then queries
    else queries[kind := (if kind in queries then queries[kind] else []) + texts]
  }

  lemma PushedOne(queries: Queries, kind: QueryDirective, texts: seq<string>, text: string)
    ensures Pushed(Pushed(queries, kind, texts), kind, [text]) == Pushed(queries, kind, texts + [text])
  {
    var had := if kind in queries then queries[kind] else [];
    assert had + texts + [text] == had + (texts + [text]);
    if texts == [] { assert texts + [text] == [text]; }
  }

  lemma InQueries(log: Log, kind: QueryDirective)
    ensures kind in QueriesOf(log) <==> StatementsOf(log, kind) != []
    ensures kind in QueriesOf(log) ==> QueriesOf(log)[kind] == StatementsOf(log, kind)
  {
    assert kind in {Load, Run, Init, Cleanup};
  }

  lemma QueriesPushed(log: Log, kind: QueryDirective, texts: seq<string>)
    ensures QueriesOf(log + [Statements(kind, texts)]) == Pushed(QueriesOf(log), kind, texts)
  {
    hide QueriesOf, StatementsOf;
    var e := Statements(kind, texts);
    var now, pushed := QueriesOf(log + [e]), Pushed(QueriesOf(log), kind, texts);
    forall k ensures (k in now <==> k in pushed) && (k in now ==> now[k] == pushed[k]) {
      InQueries(log, k);
      InQueries(log + [e], k);
      StatementsAfter(log, e, k);
      assert StatementsOf(log, k) + [] == StatementsOf(log, k);
      assert [] + texts == texts;
    }
  }

  lemma QueriesKept(log: Log, e: Event)
    requires !e.Statements?
    ensures QueriesOf(log + [e]) == QueriesOf(log)
  {
    hide QueriesOf, StatementsOf;
    var now, before := QueriesOf(log + [e]), QueriesOf(log);
    forall k ensures (k in now <==> k in before) && (k in now ==> now[k] == before[k]) {
      InQueries(log, k);
      InQueries(log + [e], k);
      StatementsAfter(log, e, k);
      assert StatementsOf(log, k) + [] == StatementsOf(log, k);
    }
  }

  /** The fields after one more event. */
  lemma FieldsAfter(w: World, base: Mapping, log: Log, e: Event)
    ensures PlansOf(log + [e]) == if e.Plan? then PlansOf(log) + [e.text] else PlansOf(log)
    ensures EchoesOf(log + [e]) == if e.Echoed? then EchoesOf(log) + [e.text] else EchoesOf(log)
    ensures Reps(w, base, log + [e]) == Updated(w, Reps(w, base, log), e)
    ensures forall f, d :: FieldOf(log + [e], f, d) == if e.Named? && e.field == f then e.value else FieldOf(log, f, d)
    ensures forall d :: PathOf(log + [e], d) == if e.Templated? then e.path else PathOf(log, d)
    ensures ResultsOf(log + [e]) == if e.Expected? then ResultsOf(log) + [e.result] else ResultsOf(log)
    ensures AssertsOf(log + [e]) == if e.Asserted? then AssertsOf(log) + [e.assertion] else AssertsOf(log)
    ensures QueriesOf(log + [e]) == if e.Statements? then Pushed(QueriesOf(log), e.kind, e.texts) else QueriesOf(log)
  {
    hide QueriesOf, Pushed;
    assert (log + [e])[..|log + [e]| - 1] == log;
    if e.Statements? { QueriesPushed(log, e.kind, e.texts); } else { QueriesKept(log, e); }
  }

  class SqlBenchmark {
    var name: string
    var group: string
    var subgroup: string
    var path: string
    var replacements: Mapping
    var plans: seq<string>
    var queries: Queries
    var resultQueries: seq<BenchmarkQuery>
    var assertQueries: seq<BenchmarkQuery>
    var echo: seq<string>

    ghost const base: Mapping
    ghost const groupAtFirst: string
    ghost const pathAtFirst: string
    ghost var log: Log

    ghost predicate Valid(w: World)
      reads this
    {
      && name == FieldOf(log, NameField, "")
      && group == FieldOf(log, GroupField, groupAtFirst)
      && subgroup == FieldOf(log, SubgroupField, "")
      && path == PathOf(log, pathAtFirst)
      && replacements == Reps(w, base, log)
      && plans == PlansOf(log)
      && queries == QueriesOf(log)
      && resultQueries == ResultsOf(log)
      && assertQueries == AssertsOf(log)
      && echo == EchoesOf(log)
    }

    constructor (w: World, file: string, directory: string, groupOfPath: string, mapping: Mapping)
      ensures Valid(w) && log == [] && base == mapping[w.lower("BENCHMARK_DIR") := directory]
    {
      name, group, subgroup, path := "", groupOfPath, "", file;
      replacements := mapping[w.lower("BENCHMARK_DIR") := directory];
      plans, queries, resultQueries, assertQueries, echo := [], map[], [], [], [];
      base := mapping[w.lower("BENCHMARK_DIR") := directory];
      groupAtFirst, pathAtFirst, log := groupOfPath, file, [];
      new;
      NoQueries();
    }

    /** `process_query`: keeps a statement, if there is one in the text. */
    method ProcessQuery(w: World, kind: QueryDirective, text: string) returns (r: Result<(), Error>)
      modifies this`queries
      ensures match Statement(w, replacements, text)
              case Err(e) => r == Err(e)
              case Ok(None) => r.Ok? && queries == old(queries)
              case Ok(Some(q)) => r.Ok? && queries == Pushed(old(queries), kind, [q])
    {
      hide Trim, TextSearch.Join, WithoutComments, Lines, Blank, T.Expand, ScopeOf;
      var query := Trim(text, SPACE);
      if query == "" { return Ok(()); }
      query := TextSearch.Join(WithoutComments(Lines(query)), "\n");
      if Blank(query) { return Ok(()); }
      match T.Expand(ScopeOf(w, replacements), query) {
        case Err(key) => return Err(UnresolvedKey(key));
        case Ok(q) => query := q;
      }
      queries := queries[kind := (if kind in queries then queries[kind] else []) + [query]];
      return Ok(());
    }

    /** Keeps the statements of several pieces of text, up to the first that fails. */
    method ProcessQueries(w: World, kind: QueryDirective, texts: seq<string>) returns (r: Result<(), Error>)
      modifies this`queries
      ensures var (kept, e) := Kept(w, replacements, texts);
              if e.Some? then r == Err(e.value) else r.Ok? && queries == Pushed(old(queries), kind, kept)
    {
      hide Statement, Pushed;
      ghost var kept: seq<string> := [];
      PushedNone(queries, kind);
      var i := 0;
      assert texts[0..] == texts;
      assert [] + Kept(w, replacements, texts).0 == Kept(w, replacements, texts).0;
      while i < |texts|
        invariant 0 <= i <= |texts|
        invariant queries == Pushed(old(queries), kind, kept)
        invariant Kept(w, replacements, texts).0 == kept + Kept(w, replacements, texts[i..]).0
        invariant Kept(w, replacements, texts).1 == Kept(w, replacements, texts[i..]).1
      {
        ghost var before := queries;
        assert texts[i..][1..] == texts[i + 1..] && texts[i..][0] == texts[i];
        r := ProcessQuery(w, kind, texts[i]);
        if r.Err? { return; }
        ghost var q := Statement(w, replacements, texts[i]).value;
        if q.Some? {
          PushedOne(old(queries), kind, kept, q.value);
          ghost var rest := Kept(w, replacements, texts[i + 1..]).0;
          assert kept + ([q.value] + rest) == kept + [q.value] + rest;
          kept := kept + [q.value];
        }
        i := i + 1;
      }
      assert kept + [] == kept;
      return Ok(());
    }

    method HasRun(w: World) returns (again: bool)
      requires Valid(w)
      ensures again <==> StatementsOf(log, Run) != []
    {
      InQueries(log, Run);
      return Run in queries;
    }

    method KeepStatements(w: World, kind: QueryDirective, texts: seq<string>) returns (r: Result<(), Error>)
      requires Valid(w)
      modifies this`queries, this`log
      ensures var (kept, e) := Kept(w, Reps(w, base, old(log)), texts);
              if e.Some? then r == Err(e.value) else r.Ok? && Valid(w) && log == old(log) + [Statements(kind, kept)]
    {
      hide Kept, Statement, Pushed, QueriesOf, Reps, FieldOf, PathOf, PlansOf, EchoesOf, ResultsOf, AssertsOf;
      ghost var event := Statements(kind, Kept(w, replacements, texts).0);
      FieldsAfter(w, base, log, event);
      r := ProcessQueries(w, kind, texts);
      if r.Err? { return; }
      log := log + [event];
    }

    method ProcessQueryDirective(w: World, reader: Reader, kind: QueryDirective, words: seq<string>)
      returns (r: Result<(), Error>)
      requires Valid(w) && reader.Valid(w)
      modifies this, reader
      ensures Took(QueryEffect(w, base, old(log), reader.path, old(reader.pos), old(reader.reps), kind, words),
                   old(log), r, log, reader.pos, reader.reps)
      ensures r.Ok? ==> Valid(w) && reader.Valid(w)
    {
      hide Valid, Body, Pieces, Kept, Statement, QueriesOf, Reps;
      var again := HasRun(w);
      if kind == Run && again { return Err(MultipleRuns); }
      var body := reader.ReadBody(w);
      if body.Err? { return Err(body.error); }
      var pieces := Pieces(w, kind, words, body.value);
      if pieces.Err? { return Err(pieces.error); }
      r := KeepStatements(w, kind, pieces.value);
    }

    method SetField(w: World, f: Field, value: string)
      requires Valid(w)
      modifies this
      ensures Valid(w) && log == old(log) + [Named(f, value)]
    {
      hide KeyOf, Pushed, QueriesOf, Reps, FieldOf, PathOf, PlansOf, EchoesOf, ResultsOf, AssertsOf;
      ghost var event := Named(f, value);
      FieldsAfter(w, base, log, event);
      log := log + [event];
      replacements := replacements[w.lower(KeyOf(f)) := value];
      match f {
        case NameField => name := value;
        case GroupField => group := value;
        case SubgroupField => subgroup := value;
      }
    }

    method ProcessMetadata(w: World, reader: Reader, f: Field, line: string) returns (r: Result<(), Error>)
      requires Valid(w) && reader.Valid(w)
      modifies this, reader
      ensures Took(FieldEffect(w, reader.path, old(reader.pos), old(reader.reps), f, line),
                   old(log), r, log, reader.pos, reader.reps)
      ensures r.Ok? ==> Valid(w) && reader.Valid(w)
    {
      hide Valid, DirectiveValue, DirectiveName, KeyOf;
      var value := DirectiveValue(line, DirectiveName(f));
      if value.None? { return Err(MissingArgument); }
      SetField(w, f, value.value);
      reader.reps := reader.reps[w.lower(KeyOf(f)) := value.value];
      return Ok(());
    }

    method ProcessExpect(w: World, words: seq<string>) returns (r: Result<(), Error>)
      requires Valid(w)
      modifies this
      ensures if |words| <= 1 then r == Err(MissingArgument)
              else r.Ok? && Valid(w) && log == old(log) + [Plan(TextSearch.Join(words[1..], " "))]
    {
      hide TextSearch.Join, Pushed, QueriesOf, Reps, FieldOf, PathOf, PlansOf, EchoesOf, ResultsOf, AssertsOf;
      if |words| <= 1 { return Err(MissingArgument); }
      plans := plans + [TextSearch.Join(words[1..], " ")];
      ghost var event := Plan(TextSearch.Join(words[1..], " "));
      FieldsAfter(w, base, log, event);
      log := log + [event];
      return Ok(());
    }

    method ProcessEcho(w: World, words: seq<string>) returns (r: Result<(), Error>)
      requires Valid(w)
      modifies this
      ensures if |words| < 2 then r == Err(MissingArgument)
              else r.Ok? && Valid(w) && log == old(log) + [Echoed(TextSearch.Join(words[1..], " "))]
    {
      hide TextSearch.Join, Pushed, QueriesOf, Reps, FieldOf, PathOf, PlansOf, EchoesOf, ResultsOf, AssertsOf;
      if |words| < 2 { return Err(MissingArgument); }
      echo := echo + [TextSearch.Join(words[1..], " ")];
      ghost var event := Echoed(TextSearch.Join(words[1..], " "));
      FieldsAfter(w, base, log, event);
      log := log + [event];
      return Ok(());
    }

    method ProcessAssert(w: World, reader: Reader, words: seq<string>) returns (r: Result<(), Error>)
      requires Valid(w) && reader.Valid(w)
      modifies this, reader
      ensures Took(AssertEffect(w, reader.path, old(reader.pos), old(reader.reps), words),
                   old(log), r, log, reader.pos, reader.reps)
      ensures r.Ok? ==> Valid(w) && reader.Valid(w)
    {
      hide QueryWithRows, Pushed, QueriesOf, Reps, FieldOf, PathOf, PlansOf, EchoesOf, ResultsOf, AssertsOf;
      if |words| <= 1 { return Err(MissingArgument); }
      var q := reader.ReadQueryWithRows(w, words[1], true);
      if q.Err? { return Err(q.error); }
      assertQueries := assertQueries + [q.value];
      ghost var event := Asserted(q.value);
      FieldsAfter(w, base, log, event);
      log := log + [event];
      return Ok(());
    }

    method ProcessResultQuery(w: World, reader: Reader, words: seq<string>) returns (r: Result<(), Error>)
      requires Valid(w) && reader.Valid(w)
      modifies this, reader
      ensures Took(ResultQueryEffect(w, old(log), reader.path, old(reader.pos), old(reader.reps), words),
                   old(log), r, log, reader.pos, reader.reps)
      ensures r.Ok? ==> Valid(w) && reader.Valid(w)
    {
      hide QueryWithRows, Pushed, QueriesOf, Reps, FieldOf, PathOf, PlansOf, EchoesOf, ResultsOf, AssertsOf;
      if |words| <= 1 { return Err(MissingArgument); }
      var q := reader.ReadQueryWithRows(w, words[1], false);
      if q.Err? { return Err(q.error); }
      if resultQueries != [] { return Err(MultipleResults); }
      resultQueries := resultQueries + [q.value];
      ghost var event := Expected(q.value);
      FieldsAfter(w, base, log, event);
      log := log + [event];
      return Ok(());
    }

    method ProcessResults(w: World, reader: Reader, words: seq<string>) returns (r: Result<(), Error>)
      requires Valid(w) && reader.Valid(w)
      modifies this
      ensures Took(ResultsEffect(w, base, old(log), reader.pos, reader.reps, words),
                   old(log), r, log, reader.pos, reader.reps)
      ensures r.Ok? ==> Valid(w)
    {
      hide T.Expand, ScopeOf, Pushed, QueriesOf, Reps, FieldOf, PathOf, PlansOf, EchoesOf, ResultsOf, AssertsOf;
      if |words| <= 1 { return Err(MissingArgument); }
      if resultQueries != [] { return Err(MultipleResults); }
      var file := T.Expand(ScopeOf(w, replacements), words[1]);
      if file.Err? { return Err(UnresolvedKey(file.error)); }
      var q := BenchmarkQuery(Some(file.value), "", 0, []);
      resultQueries := resultQueries + [q];
      ghost var event := Expected(q);
      FieldsAfter(w, base, log, event);
      log := log + [event];
      return Ok(());
    }

    method SetPath(w: World, path: string)
      requires Valid(w)
      modifies this
      ensures Valid(w) && log == old(log) + [Templated(path)]
    {
      hide Pushed, QueriesOf, Reps, FieldOf, PathOf, PlansOf, EchoesOf, ResultsOf, AssertsOf;
      this.path := path;
      FieldsAfter(w, base, log, Templated(path));
      log := log + [Templated(path)];
    }

    method SetParameter(w: World, key: string, value: string)
      requires Valid(w)
      modifies this
      ensures Valid(w) && log == old(log) + [Parameter(key, value)]
    {
      hide Pushed, QueriesOf, Reps, FieldOf, PathOf, PlansOf, EchoesOf, ResultsOf, AssertsOf;
      replacements := replacements[w.lower(key) := value];
      FieldsAfter(w, base, log, Parameter(key, value));
      log := log + [Parameter(key, value)];
    }

    /** The path and the parameters of a template. */
    method ProcessParameters(w: World, reader: Reader, words: seq<string>) returns (r: Result<(), Error>)
      requires Valid(w) && reader.Valid(w)
      modifies this, reader
      ensures Took(TemplateEffect(w, reader.path, old(reader.pos), old(reader.reps), words),
                   old(log), r, log, reader.pos, reader.reps)
      ensures r.Ok? ==> Valid(w) && reader.Valid(w)
    {
      hide Valid, ReadLine, IsCommentLine, IsBlankLine, SplitOnce, Trim, TrimStart;
      if |words| != 2 { return Err(MissingArgument); }
      SetPath(w, words[1]);
      ghost var kvs: seq<(string, string)> := [];
      assert [Templated(words[1])] + ParameterEvents(kvs) == [Templated(words[1])];
      BehindNothing(Parameters(w, reader.path, reader.pos, reader.reps));
      while true
        invariant Valid(w) && reader.Valid(w) && reader.reps == old(reader.reps)
        invariant log == old(log) + ([Templated(words[1])] + ParameterEvents(kvs))
        invariant Parameters(w, reader.path, old(reader.pos), reader.reps)
                  == Behind(kvs, Parameters(w, reader.path, reader.pos, reader.reps))
        decreases |w.files[reader.path]| - reader.pos
      {
        var line := reader.NextLine(w);
        match line
        case None => break;
        case Some(Err(e)) => return Err(e);
        case Some(Ok(l)) =>
          if IsCommentLine(l) {
          } else if IsBlankLine(l) {
            break;
          } else {
            var kv := SplitOnce(TrimStart(l, SPACE));
            if kv.None? { return Err(BadParameter); }
            var key, value := Trim(kv.value.0, SPACE), Trim(kv.value.1, SPACE);
            BehindTwice(kvs, [(key, value)], Parameters(w, reader.path, reader.pos, reader.reps));
            ParameterAdded(old(log), words[1], kvs, (key, value));
            SetParameter(w, key, value);
            kvs := kvs + [(key, value)];
          }
      }
      assert kvs + [] == kvs;
      return Ok(());
    }

    method ProcessTemplate(w: World, depth: nat, reader: Reader, words: seq<string>) returns (r: Result<(), Error>)
      requires Valid(w) && reader.Valid(w)
      modifies this, reader
      ensures TookLine(w, depth, base, TemplateEffect(w, reader.path, old(reader.pos), old(reader.reps), words),
                       old(log), r, log, reader.pos, reader.reps)
      ensures r.Ok? ==> Valid(w) && reader.Valid(w)
      decreases depth, 1
    {
      hide Valid, RunFile, TemplateEffect;
      r := ProcessParameters(w, reader, words);
      if r.Err? { return; }
      r := ProcessFile(w, depth, w.resolve(words[1]));
    }

    method ProcessInclude(w: World, depth: nat, words: seq<string>) returns (r: Result<(), Error>)
      requires Valid(w)
      modifies this
      ensures |words| != 2 ==> r == Err(MissingArgument)
      ensures |words| == 2 ==> match RunFile(w, depth, base, old(log), w.resolve(words[1]))
                               case Err(e) => r == Err(e)
                               case Ok(log') => r.Ok? && log == log' && Valid(w)
      decreases depth, 1
    {
      hide Valid, RunFile;
      if |words| != 2 { return Err(MissingArgument); }
      r := ProcessFile(w, depth, w.resolve(words[1]));
    }

    method ProcessLine(w: World, depth: nat, reader: Reader, line: string) returns (r: Result<(), Error>)
      requires Valid(w) && reader.Valid(w) && Words(line) != []
      modifies this, reader
      ensures TookLine(w, depth, base, Effect(w, base, old(log), reader.path, old(reader.pos), old(reader.reps), line),
                       old(log), r, log, reader.pos, reader.reps)
      ensures r.Ok? ==> Valid(w) && reader.Valid(w)
      decreases depth, 2
    {
      hide Valid, RunFile, BenchmarkSyntax.Select, Words;
      hide TemplateEffect, QueryEffect, FieldEffect, AssertEffect, ResultQueryEffect, ResultsEffect, TextSearch.Join;
      var words := Words(line);
      var directive := BenchmarkSyntax.Select(words[0]);
      if directive.None? { return Err(UnrecognizedCommand); }
      match directive.value
      case Query(kind) =>
        r := ProcessQueryDirective(w, reader, kind, words);
      case Name =>
        r := ProcessMetadata(w, reader, NameField, line);
      case Group =>
        r := ProcessMetadata(w, reader, GroupField, line);
      case Subgroup =>
        r := ProcessMetadata(w, reader, SubgroupField, line);
      case ExpectPlan =>
        r := ProcessExpect(w, words);
      case Assert =>
        r := ProcessAssert(w, reader, words);
      case ResultQuery =>
        r := ProcessResultQuery(w, reader, words);
      case Results =>
        r := ProcessResults(w, reader, words);
      case Template =>
        r := ProcessTemplate(w, depth, reader, words);
      case Include =>
        assert log + [] == log;
        r := ProcessInclude(w, depth, words);
      case Echo =>
        r := ProcessEcho(w, words);
    }

    method ProcessFile(w: World, depth: nat, file: string) returns (r: Result<(), Error>)
      requires Valid(w)
      modifies this
      ensures match RunFile(w, depth, base, old(log), file)
              case Err(e) => r == Err(e)
              case Ok(log') => r.Ok? && log == log' && Valid(w)
      decreases depth, 0
    {
      hide ReadLine, IsCommentLine, IsBlankLine, Effect, Words, Target, RunFrom, After, QueriesOf, FieldOf, PathOf;
      hide PlansOf, EchoesOf, ResultsOf, AssertsOf;
      if file !in w.files { return Err(NoSuchFile); }
      if depth == 0 { return Err(TooManyFiles); }
      var reader := new Reader(file, replacements[w.lower("FILE_PATH") := file]);
      while true
        invariant Valid(w) && reader.Valid(w)
        invariant RunFile(w, depth, base, old(log), file)
                  == RunFrom(w, depth - 1, base, log, file, reader.pos, reader.reps)
        decreases |w.files[file]| - reader.pos
      {
        RunFromLine(w, depth - 1, base, log, file, reader.pos, reader.reps);
        var line := reader.NextLine(w);
        match line
        case None => break;
        case Some(Err(e)) => return Err(e);
        case Some(Ok(l)) =>
          if !IsBlankLine(l) && !IsCommentLine(l) {
            r := ProcessLine(w, depth - 1, reader, l);
            if r.Err? { return; }
          }
      }
      return Ok(());
    }
  }

  lemma ParameterAdded(log: Log, path: string, kvs: seq<(string, string)>, kv: (string, string))
    ensures log + ([Templated(path)] + ParameterEvents(kvs)) + [Parameter(kv.0, kv.1)]
            == log + ([Templated(path)] + ParameterEvents(kvs + [kv]))
  {
    ParameterEventsAppend(kvs, kv);
  }

  lemma {:induction false} ParameterEventsAppend(kvs: seq<(string, string)>, kv: (string, string))
    ensures ParameterEvents(kvs + [kv]) == ParameterEvents(kvs) + [Parameter(kv.0, kv.1)]
  {
    if kvs == [] {
      assert kvs + [kv] == [kv];
    } else {
      ParameterEventsAppend(kvs[1..], kv);
      assert (kvs + [kv])[1..] == kvs[1..] + [kv];
    }
  }

  lemma NoQueries()
    ensures QueriesOf([]) == map[]
  {
    forall kind: QueryDirective ensures kind !in QueriesOf([]) { InQueries([], kind); }
  }

  /** `new_with_replacements`: a benchmark that is read completely has at most one result and
      `run` statements of a single directive, an entry for exactly the directives that gave
      statements, and as many cells in each expected row as its header has columns. */
  method NewBenchmark(w: World, depth: nat, file: string, directory: string, groupOfPath: string, mapping: Mapping)
    returns (r: Result<SqlBenchmark, Error>)
    ensures match RunFile(w, depth, mapping[w.lower("BENCHMARK_DIR") := directory], [], file)
            case Err(e) => r == Err(e)
            case Ok(log) => r.Ok? && fresh(r.value) && r.value.Valid(w) && r.value.log == log
    ensures r.Ok? ==> |r.value.resultQueries| <= 1
    ensures r.Ok? ==> forall q <- r.value.resultQueries + r.value.assertQueries :: Rectangular(q)
    ensures r.Ok? ==> forall kind <- r.value.queries :: r.value.queries[kind] != []
    ensures r.Ok? && Run in r.value.queries ==> Statements(Run, r.value.queries[Run]) in r.value.log
  {
    hide RunFile, Rectangular;
    var bench := new SqlBenchmark(w, file, directory, groupOfPath, mapping);
    var done := bench.ProcessFile(w, depth, file);
    if done.Err? { return Err(done.error); }
    RunIsLegal(w, depth, bench.base, [], file);
    forall kind <- bench.queries ensures bench.queries[kind] != [] { InQueries(bench.log, kind); }
    if Run in bench.queries {
      InQueries(bench.log, Run);
      StatementsFromOneDirective(bench.log, Run);
    }
    return Ok(bench);
  }

  lemma PushedNone(queries: Queries, kind: QueryDirective)
    ensures Pushed(queries, kind, []) == queries
  {
  }
}
