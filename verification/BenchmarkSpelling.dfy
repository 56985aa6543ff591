/** The spellings that a benchmark file may choose between: blanks, letter case and line ends
    (benchmarks/src/sql_benchmark.rs). */
module BenchmarkSpelling {
  import opened Letters
  import opened Text
  import opened TextSearch
  import opened BenchmarkSyntax
  import opened BenchmarkSpec
  import opened BenchmarkText
  import opened BenchmarkRoundTrip
  import T = Template
  import V = TemplateValues

  // Words

  /** Words, each followed by blanks. */
  type Spacing = seq<(string, string)>

  function Spaced(lead: string, ws: Spacing): string
    decreases |ws|
  {
    lead + if ws == [] then "" else ws[0].0 + Spaced(ws[0].1, ws[1..])
  }

  function WordsIn(ws: Spacing): seq<string> {
    if ws == [] then [] else [ws[0].0] + WordsIn(ws[1..])
  }

  /** Words without blanks in them and with blanks between them. */
  predicate Separate(ws: Spacing) {
    && (forall i :: 0 <= i < |ws| ==> Word(ws[i].0) && Blank(ws[i].1))
    && (forall i :: 0 <= i < |ws| - 1 ==> ws[i].1 != "")
  }

  lemma {:induction false} WordsPadded(lead: string, s: string)
    requires Blank(lead)
    ensures Words(lead + s) == Words(s)
  {
    if lead == "" {
      assert lead + s == s;
    } else {
      assert (lead + s)[1..] == lead[1..] + s;
      WordsPadded(lead[1..], s);
    }
  }

  lemma WordThen(k: string, rest: string)
    requires Word(k) && (rest == "" || rest[0] in SPACE)
    ensures Words(k + rest) == [k] + Words(rest)
  {
    WordLengthOf(k, rest);
    assert (k + rest)[..|k|] == k && (k + rest)[|k|..] == rest;
  }

  lemma SeparateFirst(ws: Spacing)
    requires ws != [] && Separate(ws)
    ensures Word(ws[0].0) && Blank(ws[0].1) && Separate(ws[1..]) && (|ws| > 1 ==> ws[0].1 != "")
  {
    var rest := ws[1..];
    forall i | 0 <= i < |rest| ensures Word(rest[i].0) && Blank(rest[i].1) { assert rest[i] == ws[i + 1]; }
    forall i | 0 <= i < |rest| - 1 ensures rest[i].1 != "" { assert rest[i] == ws[i + 1]; }
  }

  /** However many blanks of whatever kind stand around them, the words of a line are its words. */
  lemma {:induction false} WordsOfSpaced(lead: string, ws: Spacing)
    requires Blank(lead) && Separate(ws)
    ensures Words(Spaced(lead, ws)) == WordsIn(ws)
    decreases |ws|
  {
    hide Words, Separate, Word;
    if ws == [] {
      WordsPadded(lead, "");
      NoWords();
    } else {
      var k, gap, rest := ws[0].0, ws[0].1, ws[1..];
      SeparateFirst(ws);
      WordsOfSpaced(gap, rest);
      SpacedStarts(gap, rest);
      WordThen(k, Spaced(gap, rest));
      WordsPadded(lead, k + Spaced(gap, rest));
    }
  }

  lemma SpacedStarts(lead: string, ws: Spacing)
    requires Blank(lead) && (lead == "" ==> ws == [])
    ensures Spaced(lead, ws) == "" || Spaced(lead, ws)[0] in SPACE
  {
  }

  // Names of directives

  const MEANINGS: seq<Directive> :=
    [Query(Load), Query(Run), Query(Init), Query(Cleanup), Name, Group, Subgroup, ExpectPlan, Assert, ResultQuery,
     Results, Template, Include, Echo]

  lemma SelectIs(word: string)
    ensures BenchmarkSyntax.Select(word).None? <==>
            forall k :: 0 <= k < |NAMES| ==> !T.EqIgnoreAsciiCase(word, NAMES[k])
  {
    hide T.EqIgnoreAsciiCase;
    assert NAMES[0] == "load" && NAMES[1] == "run" && NAMES[2] == "init" && NAMES[3] == "cleanup" && NAMES[4] == "name";
    assert NAMES[5] == "group" && NAMES[6] == "subgroup" && NAMES[7] == "expect_plan" && NAMES[8] == "assert";
    assert NAMES[9] == "result_query" && NAMES[10] == "result" && NAMES[11] == "template" && NAMES[12] == "include";
    assert NAMES[13] == "echo";
  }

  lemma SameSelection(a: string, b: string)
    requires T.EqIgnoreAsciiCase(a, b)
    ensures BenchmarkSyntax.Select(a) == BenchmarkSyntax.Select(b)
  {
    hide T.AsciiLowerAll;
  }

  /** A word selects the directive whose name it spells, and nothing if it spells none. */
  lemma Directives(word: string)
    ensures forall k :: 0 <= k < |NAMES| && SameText(word, NAMES[k]) ==>
              BenchmarkSyntax.Select(word) == Some(MEANINGS[k])
    ensures (forall k :: 0 <= k < |NAMES| ==> !SameText(word, NAMES[k])) ==> BenchmarkSyntax.Select(word) == None
  {
    hide BenchmarkSyntax.Select, T.EqIgnoreAsciiCase, SameLetter;
    NamesAreSelected();
    SelectIs(word);
    forall k | 0 <= k < |NAMES|
      ensures SameText(word, NAMES[k]) <==> T.EqIgnoreAsciiCase(word, NAMES[k])
      ensures BenchmarkSyntax.Select(NAMES[k]) == Some(MEANINGS[k])
    {
      V.SameLetters(word, NAMES[k]);
    }
    forall k | 0 <= k < |NAMES| && SameText(word, NAMES[k])
      ensures BenchmarkSyntax.Select(word) == Some(MEANINGS[k])
    {
      SameSelection(word, NAMES[k]);
    }
  }

  lemma SpelledNames(word: string, k: nat)
    requires k < |NAMES| && SameText(word, NAMES[k])
    ensures BenchmarkSyntax.Select(word) == BenchmarkSyntax.Select(NAMES[k]) == Some(MEANINGS[k])
  {
    hide BenchmarkSyntax.Select, T.EqIgnoreAsciiCase, SameLetter;
    Directives(word);
    V.SameLetters(word, NAMES[k]);
    SameSelection(word, NAMES[k]);
  }

  lemma QueryByWords(w: World, base: Mapping, log: Log, p: string, next: nat, reps: Mapping, kind: QueryDirective,
                     a: seq<string>, b: seq<string>)
    requires p in w.files && next <= |w.files[p]| && |a| == |b| && (|a| > 1 ==> a[1] == b[1])
    ensures QueryEffect(w, base, log, p, next, reps, kind, a) == QueryEffect(w, base, log, p, next, reps, kind, b)
  {
    hide Body, BenchmarkSyntax.Kept, Reps, StatementsOf, Trim, UnixNewlines;
  }

  lemma RowsByWords(w: World, log: Log, p: string, next: nat, reps: Mapping, a: seq<string>, b: seq<string>)
    requires p in w.files && next <= |w.files[p]| && |a| == |b| && (|a| > 1 ==> a[1] == b[1])
    ensures AssertEffect(w, p, next, reps, a) == AssertEffect(w, p, next, reps, b)
    ensures ResultQueryEffect(w, log, p, next, reps, a) == ResultQueryEffect(w, log, p, next, reps, b)
  {
    hide QueryWithRows, ResultsOf;
  }

  lemma PathByWords(w: World, base: Mapping, log: Log, p: string, next: nat, reps: Mapping, a: seq<string>,
                    b: seq<string>)
    requires p in w.files && next <= |w.files[p]| && |a| == |b| && (|a| > 1 ==> a[1] == b[1])
    ensures ResultsEffect(w, base, log, next, reps, a) == ResultsEffect(w, base, log, next, reps, b)
    ensures TemplateEffect(w, p, next, reps, a) == TemplateEffect(w, p, next, reps, b)
  {
    hide Parameters, T.Expand, Reps, ResultsOf;
  }

  /** Which words follow a directive's name decides its effect, unless it sets a field. */
  lemma EffectByWords(w: World, base: Mapping, log: Log, p: string, next: nat, reps: Mapping, line: string,
                      other: string, d: Directive)
    requires p in w.files && next <= |w.files[p]| && Words(line) != [] && Words(other) != []
    requires BenchmarkSyntax.Select(Words(line)[0]) == BenchmarkSyntax.Select(Words(other)[0]) == Some(d)
    requires !d.Name? && !d.Group? && !d.Subgroup? && Words(line)[1..] == Words(other)[1..]
    ensures Effect(w, base, log, p, next, reps, line) == Effect(w, base, log, p, next, reps, other)
  {
    hide Words, Effect, BenchmarkSyntax.Select, Join, QueryEffect, AssertEffect, ResultQueryEffect, ResultsEffect;
    hide TemplateEffect;
    var a, b := Words(line), Words(other);
    assert |a[1..]| == |b[1..]| && (|a| > 1 ==> a[1..][0] == b[1..][0]);
    EffectIs(w, base, log, p, next, reps, line, d);
    EffectIs(w, base, log, p, next, reps, other, d);
    match d
    case Query(kind) => QueryByWords(w, base, log, p, next, reps, kind, a, b);
    case Assert => RowsByWords(w, log, p, next, reps, a, b);
    case ResultQuery => RowsByWords(w, log, p, next, reps, a, b);
    case Results => PathByWords(w, base, log, p, next, reps, a, b);
    case Template => PathByWords(w, base, log, p, next, reps, a, b);
    case _ =>
  }

  /** A directive has the same effect in capital letters and with other blanks around its words; `name`,
      `group` and `subgroup`, whose value may hold blanks, are below. */
  lemma AnySpelling(w: World, base: Mapping, log: Log, p: string, next: nat, reps: Mapping, k: nat, lead: string,
                    word: string, gap: string, ws: Spacing)
    requires p in w.files && next <= |w.files[p]| && Blank(lead) && Separate([(word, gap)] + ws)
    requires k < |NAMES| && k !in {4, 5, 6} && SameText(word, NAMES[k])
    ensures var line, plain := Spaced(lead, [(word, gap)] + ws), Join([NAMES[k]] + WordsIn(ws), " ");
            && Words(line) == [word] + WordsIn(ws) && Words(plain) == [NAMES[k]] + WordsIn(ws)
            && Effect(w, base, log, p, next, reps, line) == Effect(w, base, log, p, next, reps, plain)
  {
    hide Words, Effect, BenchmarkSyntax.Select, Separate, SameText, Word, Join, Spaced, WordsIn;
    var line, plain := Spaced(lead, [(word, gap)] + ws), Join([NAMES[k]] + WordsIn(ws), " ");
    WordsOfSpaced(lead, [(word, gap)] + ws);
    WordsCons(word, gap, ws);
    SeparateWords(word, gap, ws);
    WordsOfHeader(NAMES[k], WordsIn(ws));
    SpelledNames(word, k);
    assert Words(line)[1..] == WordsIn(ws) == Words(plain)[1..];
    EffectByWords(w, base, log, p, next, reps, line, plain, MEANINGS[k]);
  }

  lemma WordsCons(word: string, gap: string, ws: Spacing)
    ensures WordsIn([(word, gap)] + ws) == [word] + WordsIn(ws)
  {
    assert ([(word, gap)] + ws)[1..] == ws;
  }

  lemma {:induction false} SeparateWords(word: string, gap: string, ws: Spacing)
    requires Separate([(word, gap)] + ws)
    ensures forall x <- WordsIn(ws) :: Word(x)
    decreases |ws|
  {
    hide Word;
    SeparateFirst([(word, gap)] + ws);
    assert ([(word, gap)] + ws)[1..] == ws;
    if ws == [] {
    } else {
      assert ws == [ws[0]] + ws[1..] && ws[0] == (ws[0].0, ws[0].1);
      SeparateFirst(ws);
      SeparateWords(ws[0].0, ws[0].1, ws[1..]);
    }
  }

  // A file and a body

  lemma {:induction false} SpokenIsNotBlank(ls: seq<Noted<string>>)
    requires Good(ls, BodyLine) && Spoken(ls) != []
    ensures !Blank(LinesText(Spoken(ls)))
    decreases |ls|
  {
    hide IsCommentLine;
    GoodFirst(ls, BodyLine);
    SpokenFirst(ls);
    if ls[0].Aside? {
      SpokenIsNotBlank(ls[1..]);
    } else {
      var x, text := ls[0].value, LinesText(Spoken(ls));
      var i :| 0 <= i < |x| && x[i] !in SPACE;
      assert text[i] == x[i];
    }
  }

  /** A query directive cannot have both a file and a body. */
  lemma FileAndBody(w: World, base: Mapping, log: Log, p: string, next: nat, reps: Mapping, kind: QueryDirective,
                    path: string, ls: seq<Noted<string>>)
    requires Word(path) && Good(ls, BodyLine) && Spoken(ls) != [] && Reads(w, p, next, reps, NotedLines(ls) + [""])
    ensures var line := Join([KindName(kind), path], " ");
            && p in w.files && next <= |w.files[p]| && Words(line) != []
            && Effect(w, base, log, p, next, reps, line)
               == Err(if kind == Run && StatementsOf(log, Run) != [] then MultipleRuns else FileAndInline)
  {
    hide Words, BenchmarkSyntax.Select, Body, Reads, Reps, Join, Spoken, Good, Word, KindName, Effect, Target;
    hide StatementsOf, LinesText, Trim;
    var line := Join([KindName(kind), path], " ");
    KindNames(kind);
    TwoWords(KindName(kind), path);
    ReadsInside(w, p, next, reps, NotedLines(ls) + [""]);
    EffectIs(w, base, log, p, next, reps, line, Query(kind));
    BodyOf(w, p, next, reps, ls);
    SpokenIsNotBlank(ls);
    TrimBlank(LinesText(Spoken(ls)), SPACE);
  }

  // Values

  /** A value is what follows the name, without the blanks around it. */
  lemma ValueFollows(lead: string, word: string, name: string, gap: string, value: string, tail: string)
    requires Blank(lead) && Blank(gap) && Blank(tail) && Word(word) && SameText(word, name) && Trimmed(value, SPACE)
    ensures DirectiveValue(lead + (word + (gap + value + tail)), name) == if value == "" then None else Some(value)
  {
    hide SameLetter;
    var rest := gap + value + tail;
    TrimStartPadded(lead, word + rest, SPACE);
    assert (word + rest)[0] == word[0];
    assert TrimStart(word + rest, SPACE) == word + rest;
    assert (word + rest)[..|name|] == word && (word + rest)[|name|..] == rest;
    V.SameLetters(word, name);
    TrimPadded(gap, value, tail, SPACE);
    TrimTrimmed(value, SPACE);
  }

  /** And a value is only found behind the name. */
  lemma ValueIsFound(line: string, name: string) returns (lead: string, word: string, gap: string, tail: string)
    requires DirectiveValue(line, name).Some?
    ensures var value := DirectiveValue(line, name).value;
            && line == lead + (word + (gap + value + tail)) && value != "" && Trimmed(value, SPACE)
            && Blank(lead) && Blank(gap) && Blank(tail) && SameText(word, name)
  {
    hide SameLetter;
    lead := TrimStartSplits(line, SPACE);
    var t := TrimStart(line, SPACE);
    word := t[..|name|];
    gap, tail := TrimSplits(t[|name|..], SPACE);
    V.SameLetters(word, name);
    assert t == word + t[|name|..];
  }

  /** So `name`, `group` and `subgroup` can be spelled freely, too. */
  lemma AnyFieldSpelling(w: World, base: Mapping, log: Log, p: string, next: nat, reps: Mapping, f: Field, lead: string,
                         word: string, gap: string, value: string, tail: string)
    requires p in w.files && next <= |w.files[p]| && Blank(lead) && Blank(gap) && Blank(tail)
    requires Word(word) && SameText(word, DirectiveName(f)) && gap != "" && value != "" && Trimmed(value, SPACE)
    ensures var line := lead + (word + (gap + value + tail));
            && Words(line) != []
            && Effect(w, base, log, p, next, reps, line)
               == Ok(Step([Named(f, value)], next, reps[w.lower(KeyOf(f)) := value], None))
  {
    hide Words, Effect, BenchmarkSyntax.Select, SameText, Word, DirectiveValue, KeyOf, DirectiveName, Target;
    var line := lead + (word + (gap + value + tail));
    FieldIsSpelled(word, f);
    WordsPadded(lead, word + (gap + value + tail));
    assert (gap + value + tail)[0] == gap[0];
    WordThen(word, gap + value + tail);
    ValueFollows(lead, word, DirectiveName(f), gap, value, tail);
    FieldEffectIs(w, base, log, p, next, reps, line, f, value);
  }

  lemma FieldIsSpelled(word: string, f: Field)
    requires SameText(word, DirectiveName(f))
    ensures BenchmarkSyntax.Select(word) == Some(FieldDirective(f))
  {
    hide BenchmarkSyntax.Select, SameText;
    assert NAMES[4] == "name" && NAMES[5] == "group" && NAMES[6] == "subgroup";
    SpelledNames(word, match f case NameField => 4 case GroupField => 5 case SubgroupField => 6);
  }

  /** The line between a query and its rows is four dashes between blanks, and nothing else. */
  lemma BreakLines(line: string, lead: string, tail: string)
    requires Blank(lead) && Blank(tail)
    ensures line == lead + "----" + tail ==> IsBreakLine(line)
    ensures line != "" && line[0] !in SPACE && line[|line| - 1] !in SPACE && line != "----" ==>
              !IsBreakLine(lead + line + tail)
  {
    hide Trim;
    assert '-' !in SPACE;
    TrimPadded(lead, "----", tail, SPACE);
    TrimTrimmed("----", SPACE);
    TrimPadded(lead, line, tail, SPACE);
    if Trimmed(line, SPACE) { TrimTrimmed(line, SPACE); }
  }

  lemma {:induction false} NoParameter(s: string)
    ensures SplitOnce(s) == None <==> Free(s, {'='})
  {
    if s == "" {
    } else {
      NoParameter(s[1..]);
      assert s == [s[0]] + s[1..];
      FreeAppend([s[0]], s[1..], {'='});
    }
  }

  // Ends of lines

  lemma {:induction false} LastLine(x: string)
    requires x != "" && Free(x, {'\n'})
    ensures SplitLines(x) == [x]
  {
    assert x[0] !in {'\n'} && x == [x[0]] + x[1..];
    if |x| == 1 {
      assert x[1..] == "" && x == [x[0]];
    } else {
      assert x[1] !in {'\n'};
      LastLine(x[1..]);
    }
  }

  lemma SplitLinesCons(c: char, s: string)
    requires c != '\n' && s != "" && (c == '\r' ==> s[0] != '\n')
    ensures SplitLines([c] + s) == [[c] + SplitLines(s)[0]] + SplitLines(s)[1..]
  {
    assert ([c] + s)[1..] == s;
  }

  /** A line ends at a newline, without the carriage return before it; carriage returns inside it stay. */
  lemma {:induction false} LineEnds(x: string, windows: bool, rest: string)
    requires Free(x, {'\n'}) && (x != "" ==> x[|x| - 1] != '\r')
    ensures SplitLines(x + (if windows then "\r\n" else "\n") + rest) == [x] + SplitLines(rest)
  {
    var end := if windows then "\r\n" else "\n";
    var s := x + end + rest;
    if x == "" {
      EndOfLine(windows, rest);
      assert s == end + rest;
    } else {
      hide SplitLines;
      var less := x[1..] + end + rest;
      LineEnds(x[1..], windows, rest);
      assert x[0] !in {'\n'} && x == [x[0]] + x[1..];
      assert s == [x[0]] + less;
      assert |x| > 1 ==> less[0] == x[1] && x[1] !in {'\n'};
      SplitLinesCons(x[0], less);
    }
  }

  lemma EndOfLine(windows: bool, rest: string)
    ensures SplitLines((if windows then "\r\n" else "\n") + rest) == [""] + SplitLines(rest)
  {
    assert ("\n" + rest)[1..] == rest && ("\r\n" + rest)[1..] == "\n" + rest;
    assert SplitLines("\n" + rest) == [""] + SplitLines(rest);
  }

  lemma EndIsCut(x: string, end: string)
    requires Only(end, {'\n', '\r'}) && Trimmed(x, {'\n', '\r'})
    ensures TrimEnd(x + end, {'\n', '\r'}) == x
  {
    TrimEndPadded(x, end, {'\n', '\r'});
  }

  /** A line is read without the newline and the carriage return that end it. */
  lemma EndIsNotRead(w: World, p: string, i: nat, reps: Mapping, x: string, end: string)
    requires p in w.files && i < |w.files[p]| && w.files[p][i] == x + end
    requires Plain(x) && Only(end, {'\n', '\r'})
    ensures ReadLine(w, p, i, reps) == Ok(x)
  {
    hide T.Expand, T.Literal;
    EndIsCut(x, end);
    PlainExpands(ScopeOf(w, reps), x);
  }

  /** A placeholder is read as the value the benchmark has for it, or else as the environment's. */
  lemma PlaceholderIsRead(w: World, p: string, i: nat, reps: Mapping, key: string, end: string)
    requires p in w.files && i < |w.files[p]| && w.files[p][i] == "${" + key + "}" + end
    requires key != "" && (forall j :: 0 <= j < |key| ==> key[j] in w.word) && Only(end, {'\n', '\r'})
    ensures ReadLine(w, p, i, reps)
         == if w.lower(key) in reps then Ok(reps[w.lower(key)])
            else if w.upper(key) in w.env then Ok(w.env[w.upper(key)])
            else Err(key)
  {
    hide T.Expand;
    EndIsCut("${" + key + "}", end);
    V.VariableStandsFor(ScopeOf(w, reps), key);
  }

  /** The placeholders of the benchmark's name, its group, its subgroup and the path of its file. */
  function Reserved(f: Option<Field>): string {
    match f
    case Some(NameField) => "BENCH_NAME"
    case Some(GroupField) => "BENCH_GROUP"
    case Some(SubgroupField) => "BENCH_SUBGROUP"
    case None => "FILE_PATH"
  }

  /** Behind the line that sets a field, the field's placeholder is read as its value; in the first lines of
      a file the path's placeholder is read as the path. */
  lemma ReservedIsRead(w: World, base: Mapping, log: Log, p: string, i: nat, reps: Mapping, f: Option<Field>, v: string)
    requires p in w.files && i < |w.files[p]| && w.files[p][i] == "${" + Reserved(f) + "}"
    requires forall j :: 0 <= j < |Reserved(f)| ==> Reserved(f)[j] in w.word
    ensures f.Some? ==> ReadLine(w, p, i, RepsAfter(w, reps, FieldItem(f.value, v))) == Ok(v)
    ensures f.None? ==> ReadLine(w, p, i, FirstReps(w, base, log, p)) == Ok(p)
  {
    hide ReadLine, Reps;
    assert "${" + Reserved(f) + "}" + "" == "${" + Reserved(f) + "}";
    var after := if f.Some? then RepsAfter(w, reps, FieldItem(f.value, v)) else FirstReps(w, base, log, p);
    PlaceholderIsRead(w, p, i, after, Reserved(f), "");
  }

  // The width of a table

  /** The bytes of a character in UTF-8. */
  function Utf8(c: char): seq<nat> {
    var n := c as nat;
    if n < 128 then [n]
    else if n < 2048 then [192 + n / 64, 128 + n % 64]
    else if n < 65536 then [224 + n / 4096, 128 + n / 64 % 64, 128 + n % 64]
    else [240 + n / 262144, 128 + n / 4096 % 64, 128 + n / 64 % 64, 128 + n % 64]
  }

  function Utf8Of(s: string): seq<nat> {
    if s == "" then [] else Utf8(s[0]) + Utf8Of(s[1..])
  }

  /** As many columns as the word has bytes. */
  lemma {:induction false} Utf8LengthIs(s: string)
    ensures Utf8Length(s) == |Utf8Of(s)|
  {
    if s == "" {
    } else {
      Utf8LengthIs(s[1..]);
    }
  }
}
