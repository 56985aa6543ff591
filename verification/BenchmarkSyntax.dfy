/** The lines of a benchmark file and the multi-line bodies of its directives
    (benchmarks/src/sql_benchmark.rs). */
module BenchmarkSyntax {
  import opened Text
  import T = Template
  import TextSearch
  import S = SqlStatements

  /** What the parser reads from: benchmark files by line, query files by text, the resolution of
      relative paths, and what placeholders are expanded with besides the benchmark's mapping. */
  datatype World = World(
    files: map<string, seq<string>>,
    queryFiles: map<string, string>,
    resolve: string -> string,
    word: T.WordClass,
    env: map<string, string>,
    lower: string -> string,
    upper: string -> string)

  type Mapping = map<string, string>

  function ScopeOf(w: World, reps: Mapping): T.Scope {
    T.Scope(w.word, reps, w.env, w.lower, w.upper)
  }

  datatype Error =
    | UnresolvedKey(key: string)
    | NoSuchFile
    | TooManyFiles
    | UnrecognizedCommand
    | MultipleRuns
    | MultipleResults
    | FileAndInline
    | MissingArgument
    | MissingBreak
    | WrongColumnCount
    | BadParameter

  /** Line `i` of a file, without its terminator and with its placeholders expanded. */
  function ReadLine(w: World, path: string, i: nat, reps: Mapping): Result<string, string>
    requires path in w.files && i < |w.files[path]|
  {
    T.Expand(ScopeOf(w, reps), TrimEnd(w.files[path][i], {'\n', '\r'}))
  }

  // Kinds of lines

  predicate IsBlankLine(line: string) {
    Blank(line)
  }

  predicate IsCommentLine(line: string) {
    var t := TrimStart(line, SPACE);
    "#" <= t || "--" <= t
  }

  predicate IsBreakLine(line: string) {
    Trim(line, SPACE) == "----"
  }

  /** The length of the longest prefix without white space. */
  function WordLength(s: string): (n: nat)
    ensures n <= |s|
    ensures s != "" && s[0] !in SPACE ==> n > 0
  {
    if s == "" || s[0] in SPACE then 0 else 1 + WordLength(s[1..])
  }

  /** `split_whitespace` */
  function Words(s: string): (ws: seq<string>)
    ensures forall i :: 0 <= i < |ws| ==> ws[i] != ""
    decreases |s|
  {
    if s == "" then []
    else if s[0] in SPACE then Words(s[1..])
    else [s[..WordLength(s)]] + Words(s[WordLength(s)..])
  }

  /** A line that is not blank has a first word. */
  lemma {:induction false} WordsOfLine(s: string)
    requires !Blank(s)
    ensures Words(s) != []
  {
    if s[0] in SPACE { WordsOfLine(s[1..]); }
  }

  /** `split(['\t', '|'])` */
  function Cells(s: string): (cells: seq<string>)
    ensures cells != []
  {
    if s == "" then [""]
    else if s[0] == '\t' || s[0] == '|' then [""] + Cells(s[1..])
    else
      var rest := Cells(s[1..]);
      [[s[0]] + rest[0]] + rest[1..]
  }

  /** `split_once('=')` */
  function SplitOnce(s: string): Option<(string, string)> {
    if s == "" then None
    else if s[0] == '=' then Some(("", s[1..]))
    else match SplitOnce(s[1..])
      case None => None
      case Some(kv) => Some(([s[0]] + kv.0, kv.1))
  }

  /** `lines()`: at newlines, without a carriage return before them or an empty last line. */
  function Lines(s: string): seq<string> {
    if s == "" then [] else SplitLines(s)
  }

  function SplitLines(s: string): (r: seq<string>)
    ensures s != "" ==> r != []
  {
    if s == "" then []
    else if s[0] == '\n' then [""] + SplitLines(s[1..])
    else
      var rest := SplitLines(s[1..]);
      if rest == [] then [[s[0]]]
      else if s[0] == '\r' && |s| > 1 && s[1] == '\n' then rest
      else [[s[0]] + rest[0]] + rest[1..]
  }

  function WithoutComments(lines: seq<string>): seq<string> {
    if lines == [] then []
    else (if IsCommentLine(lines[0]) then [] else [lines[0]]) + WithoutComments(lines[1..])
  }

  /** `replace("\r\n", "\n")` */
  function UnixNewlines(s: string): string {
    if s == "" then ""
    else if "\r\n" <= s then "\n" + UnixNewlines(s[2..])
    else s[..1] + UnixNewlines(s[1..])
  }

  /** The length of a string in UTF-8, which is what `len` is. */
  function Utf8Length(s: string): nat {
    if s == "" then 0
    else
      (if s[0] < '\U{80}' then 1 else if s[0] < '\U{800}' then 2 else if s[0] < '\U{10000}' then 3 else 4)
      + Utf8Length(s[1..])
  }

  // Directives

  datatype QueryDirective = Load | Run | Init | Cleanup

  datatype Directive =
    | Query(kind: QueryDirective)
    | Name | Group | Subgroup
    | ExpectPlan | Assert | ResultQuery | Results | Template | Include | Echo

  function Select(word: string): Option<Directive> {
    if T.EqIgnoreAsciiCase(word, "load") then Some(Query(Load))
    else if T.EqIgnoreAsciiCase(word, "run") then Some(Query(Run))
    else if T.EqIgnoreAsciiCase(word, "init") then Some(Query(Init))
    else if T.EqIgnoreAsciiCase(word, "cleanup") then Some(Query(Cleanup))
    else if T.EqIgnoreAsciiCase(word, "name") then Some(Name)
    else if T.EqIgnoreAsciiCase(word, "group") then Some(Group)
    else if T.EqIgnoreAsciiCase(word, "subgroup") then Some(Subgroup)
    else if T.EqIgnoreAsciiCase(word, "expect_plan") then Some(ExpectPlan)
    else if T.EqIgnoreAsciiCase(word, "assert") then Some(Assert)
    else if T.EqIgnoreAsciiCase(word, "result_query") then Some(ResultQuery)
    else if T.EqIgnoreAsciiCase(word, "result") then Some(Results)
    else if T.EqIgnoreAsciiCase(word, "template") then Some(Template)
    else if T.EqIgnoreAsciiCase(word, "include") then Some(Include)
    else if T.EqIgnoreAsciiCase(word, "echo") then Some(Echo)
    else None
  }

  /** The file a line switches to, if it is an `include` or `template` line. */
  function Target(w: World, line: string): Option<string> {
    var words := Words(line);
    if |words| == 2 && (Select(words[0]) == Some(Include) || Select(words[0]) == Some(Template))
    then Some(w.resolve(words[1])) else None
  }

  // Bodies that span lines

  datatype Span<T> = Span(value: T, next: nat)

  /** The body of a query directive: up to a blank line or the end, without comments. */
  function Body(w: World, p: string, i: nat, reps: Mapping): (r: Result<Span<string>, Error>)
    requires p in w.files && i <= |w.files[p]|
    ensures if r.Ok? then i <= r.value.next <= |w.files[p]| else r.error != TooManyFiles
    decreases |w.files[p]| - i
  {
    if i == |w.files[p]| then Ok(Span("", i))
    else match ReadLine(w, p, i, reps)
      case Err(key) => Err(UnresolvedKey(key))
      case Ok(line) =>
        if IsCommentLine(line) then Body(w, p, i + 1, reps)
        else if IsBlankLine(line) then Ok(Span("", i + 1))
        else match Body(w, p, i + 1, reps)
          case Err(e) => Err(e)
          case Ok(rest) => Ok(Span(line + "\n" + rest.value, rest.next))
  }

  /** The query of `assert` and `result_query`: up to a line of four dashes. */
  function UntilBreak(w: World, p: string, i: nat, reps: Mapping, newlineFirst: bool): (r: Result<Span<string>, Error>)
    requires p in w.files && i <= |w.files[p]|
    ensures if r.Ok? then i <= r.value.next <= |w.files[p]| else r.error != TooManyFiles
    decreases |w.files[p]| - i
  {
    if i == |w.files[p]| then Err(MissingBreak)
    else match ReadLine(w, p, i, reps)
      case Err(key) => Err(UnresolvedKey(key))
      case Ok(line) =>
        if IsBreakLine(line) then Ok(Span("", i + 1))
        else match UntilBreak(w, p, i + 1, reps, newlineFirst)
          case Err(e) => Err(e)
          case Ok(rest) =>
            Ok(Span((if newlineFirst then "\n" + line else line + "\n") + rest.value, rest.next))
  }

  /** The expected rows: up to a blank line or the end, each with `width` cells. */
  function ExpectedRows(w: World, p: string, i: nat, reps: Mapping, width: nat)
    : (r: Result<Span<seq<seq<string>>>, Error>)
    requires p in w.files && i <= |w.files[p]|
    ensures if r.Ok? then i <= r.value.next <= |w.files[p]| else r.error != TooManyFiles
    decreases |w.files[p]| - i
  {
    if i == |w.files[p]| then Ok(Span([], i))
    else match ReadLine(w, p, i, reps)
      case Err(key) => Err(UnresolvedKey(key))
      case Ok(line) =>
        if IsCommentLine(line) then ExpectedRows(w, p, i + 1, reps, width)
        else if IsBlankLine(line) then Ok(Span([], i + 1))
        else if |Cells(line)| != width then Err(WrongColumnCount)
        else match ExpectedRows(w, p, i + 1, reps, width)
          case Err(e) => Err(e)
          case Ok(rest) => Ok(Span([Cells(line)] + rest.value, rest.next))
  }

  /** Every row that is read has the width of the header. */
  lemma {:induction false} RowsHaveWidth(w: World, p: string, i: nat, reps: Mapping, width: nat)
    requires p in w.files && i <= |w.files[p]| && ExpectedRows(w, p, i, reps, width).Ok?
    ensures forall j :: 0 <= j < |ExpectedRows(w, p, i, reps, width).value.value| ==>
              |ExpectedRows(w, p, i, reps, width).value.value[j]| == width
    decreases |w.files[p]| - i
  {
    hide ReadLine, IsCommentLine, Cells;
    if i < |w.files[p]| && ReadLine(w, p, i, reps).Ok? {
      var line := ReadLine(w, p, i, reps).value;
      if IsCommentLine(line) || !IsBlankLine(line) { RowsHaveWidth(w, p, i + 1, reps, width); }
    }
  }

  /** The parameters of `template`: `X=Y` lines up to a blank line or the end. */
  function Parameters(w: World, p: string, i: nat, reps: Mapping): (r: Result<Span<seq<(string, string)>>, Error>)
    requires p in w.files && i <= |w.files[p]|
    ensures if r.Ok? then i <= r.value.next <= |w.files[p]| else r.error != TooManyFiles
    decreases |w.files[p]| - i
  {
    if i == |w.files[p]| then Ok(Span([], i))
    else match ReadLine(w, p, i, reps)
      case Err(key) => Err(UnresolvedKey(key))
      case Ok(line) =>
        if IsCommentLine(line) then Parameters(w, p, i + 1, reps)
        else if IsBlankLine(line) then Ok(Span([], i + 1))
        else match SplitOnce(TrimStart(line, SPACE))
          case None => Err(BadParameter)
          case Some(kv) =>
            match Parameters(w, p, i + 1, reps)
            case Err(e) => Err(e)
            case Ok(rest) => Ok(Span([(Trim(kv.0, SPACE), Trim(kv.1, SPACE))] + rest.value, rest.next))
  }

  // Queries

  /** `process_query`: the statement that is kept of a piece of text, if any. */
  function Statement(w: World, reps: Mapping, text: string): Result<Option<string>, Error> {
    var t := Trim(text, SPACE);
    if t == "" then Ok(None)
    else
      var q := TextSearch.Join(WithoutComments(Lines(t)), "\n");
      if Blank(q) then Ok(None)
      else match T.Expand(ScopeOf(w, reps), q)
        case Err(key) => Err(UnresolvedKey(key))
        case Ok(v) => Ok(Some(v))
  }

  /** The statements kept of several pieces, up to the first that cannot be expanded. */
  function Kept(w: World, reps: Mapping, texts: seq<string>): (r: (seq<string>, Option<Error>))
    ensures r.1 != Some(TooManyFiles)
  {
    if texts == [] then ([], None)
    else match Statement(w, reps, texts[0])
      case Err(e) => ([], Some(e))
      case Ok(None) => Kept(w, reps, texts[1..])
      case Ok(Some(q)) =>
        var (rest, e) := Kept(w, reps, texts[1..]);
        ([q] + rest, e)
  }

  /** The pieces of text a query directive is made of: those of its file, or its body, which is
      split for `run` only. */
  function Pieces(w: World, kind: QueryDirective, words: seq<string>, body: string): Result<seq<string>, Error> {
    if |words| > 1 then
      if Trim(body, SPACE) != "" then Err(FileAndInline)
      else if w.resolve(words[1]) !in w.queryFiles then Err(NoSuchFile)
      else Ok(S.Statements(UnixNewlines(w.queryFiles[w.resolve(words[1])])))
    else if kind == Run then Ok(S.Statements(body))
    else Ok([body])
  }

  /** `directive_value`: what follows the directive's name. */
  function DirectiveValue(line: string, name: string): Option<string> {
    var t := TrimStart(line, SPACE);
    if |t| >= |name| && T.EqIgnoreAsciiCase(t[..|name|], name) && Trim(t[|name|..], SPACE) != ""
    then Some(Trim(t[|name|..], SPACE)) else None
  }
}
