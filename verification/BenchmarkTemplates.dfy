/** Templates: files whose lines hold placeholders for the parameters they are used with
    (benchmarks/src/sql_benchmark.rs). */
module BenchmarkTemplates {
  import opened Text
  import opened TextSearch
  import opened BenchmarkSyntax
  import opened BenchmarkSpec
  import opened BenchmarkText
  import opened BenchmarkRoundTrip
  import opened TemplateStability
  import T = Template

  /** A mapping after parameters are set one by one. */
  function WithParameters(w: World, reps: Mapping, kvs: seq<(string, string)>): Mapping
    decreases |kvs|
  {
    if kvs == [] then reps else WithParameters(w, reps[w.lower(kvs[0].0) := kvs[0].1], kvs[1..])
  }

  lemma RepsAfterEvent(w: World, base: Mapping, log: Log, e: Event)
    ensures Reps(w, base, log + [e]) == Updated(w, Reps(w, base, log), e)
  {
    assert (log + [e])[..|log + [e]| - 1] == log;
  }

  lemma {:induction false} RepsAfterParameters(w: World, base: Mapping, log: Log, kvs: seq<(string, string)>)
    ensures Reps(w, base, log + ParameterEvents(kvs)) == WithParameters(w, Reps(w, base, log), kvs)
    decreases |kvs|
  {
    hide Reps;
    if kvs == [] {
      assert log + ParameterEvents(kvs) == log;
    } else {
      var e := Parameter(kvs[0].0, kvs[0].1);
      RepsAfterEvent(w, base, log, e);
      RepsAfterParameters(w, base, log + [e], kvs[1..]);
      assert log + ParameterEvents(kvs) == log + [e] + ParameterEvents(kvs[1..]);
    }
  }

  /** A parameter keeps its value unless it is set again. */
  lemma {:induction false} ParameterKept(w: World, reps: Mapping, kvs: seq<(string, string)>, key: string)
    requires forall kv <- kvs :: w.lower(kv.0) != key
    ensures (key in WithParameters(w, reps, kvs) <==> key in reps)
    ensures key in reps ==> WithParameters(w, reps, kvs)[key] == reps[key]
    decreases |kvs|
  {
    if kvs == [] {
    } else {
      assert kvs[0] in kvs;
      ParameterKept(w, reps[w.lower(kvs[0].0) := kvs[0].1], kvs[1..], key);
    }
  }

  lemma {:induction false} LastParameter(w: World, reps: Mapping, kvs: seq<(string, string)>, j: nat)
    requires j < |kvs| && forall i :: j < i < |kvs| ==> w.lower(kvs[i].0) != w.lower(kvs[j].0)
    ensures w.lower(kvs[j].0) in WithParameters(w, reps, kvs)
    ensures WithParameters(w, reps, kvs)[w.lower(kvs[j].0)] == kvs[j].1
    decreases |kvs|
  {
    var next := reps[w.lower(kvs[0].0) := kvs[0].1];
    if j == 0 {
      ParameterKept(w, next, kvs[1..], w.lower(kvs[0].0));
    } else {
      LastParameter(w, next, kvs[1..], j - 1);
    }
  }

  /** In the file that a template opens, a parameter's placeholder has the value it was last given,
      unless it names the path of the file. */
  lemma ParameterInScope(w: World, base: Mapping, log: Log, path: string, q: string, xs: seq<Noted<Setting>>, j: nat,
                         key: string)
    requires var kvs := Pairs(Spoken(xs));
             && j < |kvs| && (forall i :: j < i < |kvs| ==> w.lower(kvs[i].0) != w.lower(kvs[j].0))
             && w.lower(key) == w.lower(kvs[j].0) != w.lower("FILE_PATH")
    ensures var scope := ScopeOf(w, FirstReps(w, base, log + FileEvents(path, Some(xs)), q));
            T.Lookup(scope, key) == Some(Pairs(Spoken(xs))[j].1)
  {
    hide Reps, Pairs, Spoken;
    var before, kvs := log + [Templated(path)], Pairs(Spoken(xs));
    assert log + FileEvents(path, Some(xs)) == before + ParameterEvents(kvs);
    RepsAfterParameters(w, base, before, kvs);
    LastParameter(w, Reps(w, base, before), kvs, j);
  }

  // A template that is used again and again, each time with another value

  /** What the template's second line is written as. */
  function QueryLine(key: string): string {
    "SELECT ${" + key + "};"
  }

  function QueryOf(value: string): string {
    "SELECT " + value + ";"
  }

  function QueryPieces(key: string): seq<T.Piece> {
    Plains(QueryAtoms(key))
  }

  function QueryAtoms(key: string): seq<T.Atom> {
    [T.Lit("SELECT ")] + ([T.Var(key, None)] + ([T.Lit(";")] + []))
  }

  lemma QueryAtomsValid(word: T.WordClass, key: string)
    requires T.Key(word, key)
    ensures T.AtomsValid(word, QueryAtoms(key))
  {
    hide T.Key;
    LiteralIs("SELECT ");
    LiteralIs(";");
  }

  lemma QueryLineIs(word: T.WordClass, key: string)
    requires T.Key(word, key)
    ensures T.Valid(word, QueryPieces(key)) && T.Render(QueryPieces(key)) == QueryLine(key)
    ensures Trimmed(QueryLine(key), {'\n', '\r'})
  {
    hide T.Key, T.RenderAtoms, T.Values, T.Valid, T.Render;
    var scope := T.Scope(word, map[], map[], s => s, s => s);
    QueryAtomsValid(word, key);
    PlainsAre(scope, QueryAtoms(key));
    AtomsCons(scope, T.Lit(";"), []);
    AtomsCons(scope, T.Var(key, None), [T.Lit(";")] + []);
    AtomsCons(scope, T.Lit("SELECT "), [T.Var(key, None)] + ([T.Lit(";")] + []));
    assert ";" + "" == ";";
    PlaceholderOfKey(key);
    assert "SELECT " + (("${" + key + "}") + ";") == QueryLine(key);
  }

  lemma QueryMeans(scope: T.Scope, key: string, value: string)
    requires T.Key(scope.word, key) && T.Lookup(scope, key) == Some(value)
    ensures T.Denotation(scope, QueryPieces(key)) == Ok(QueryOf(value))
  {
    hide T.Key, T.RenderAtoms, T.Values, T.Valid, T.Render, T.Lookup, T.Select;
    QueryAtomsValid(scope.word, key);
    PlainsAre(scope, QueryAtoms(key));
    AtomsCons(scope, T.Lit(";"), []);
    AtomsCons(scope, T.Var(key, None), [T.Lit(";")] + []);
    AtomsCons(scope, T.Lit("SELECT "), [T.Var(key, None)] + ([T.Lit(";")] + []));
    assert "SELECT " + (value + (";" + "")) == QueryOf(value);
  }

  function Set(key: string, value: string): Setting {
    Setting("", key, "", "", value, "")
  }

  lemma SetLine(key: string, value: string)
    ensures ParameterLine(Set(key, value)) == key + "=" + value
  {
    assert "" + value + "" == value && "" + key + "" + "=" == key + "=";
  }

  /** A value that can be put into a query. */
  predicate ValueText(key: string, value: string) {
    Plain(value) && Plain(ParameterLine(Set(key, value))) && ParameterText(Set(key, value))
  }

  lemma QueryIsText(value: string)
    requires Plain(value)
    ensures StatementText([QueryOf(value)])
  {
    hide T.Literal;
    var q := QueryOf(value);
    LiteralIs("SELECT ");
    LiteralIs(";");
    LiteralAppend("SELECT ", value);
    LiteralAppend("SELECT " + value, ";");
    FreeAppend("SELECT ", value, {'\n', '\r'});
    FreeAppend("SELECT " + value, ";", {'\n', '\r'});
    assert q[0] == 'S' && 'S' !in SPACE && q[|q| - 1] == ';' && ';' !in SPACE;
    assert TrimStart(q, SPACE) == q;
    assert Join([q], "\n") == q;
  }

  lemma QueryIsBody(value: string)
    requires StatementText([QueryOf(value)])
    ensures BodyLine(QueryOf(value))
  {
    assert QueryOf(value) in [QueryOf(value)];
  }

  /** One use of the template, and what it says. */
  function UseItem(path: string, key: string, value: string): Item {
    FileItem(path, Some([Said(Set(key, value))]), [StatementItem(Load, [Said(QueryOf(value))])])
  }

  function UseItems(path: string, key: string, values: seq<string>): seq<Item> {
    if values == [] then [] else [UseItem(path, key, values[0])] + UseItems(path, key, values[1..])
  }

  function UseLines(path: string, key: string, values: seq<string>): seq<string> {
    if values == [] then []
    else ["template " + path, key + "=" + values[0], ""] + UseLines(path, key, values[1..])
  }

  function UseEvents(path: string, key: string, values: seq<string>): Log {
    if values == [] then []
    else
      [Templated(path), Parameter(key, values[0]), Statements(Load, [QueryOf(values[0])])]
      + UseEvents(path, key, values[1..])
  }

  lemma UseBlock(path: string, key: string, value: string)
    ensures Block(UseItem(path, key, value)) == ["template " + path, key + "=" + value, ""]
    ensures OwnEvents(UseItem(path, key, value)) == [Templated(path), Parameter(key, value)]
  {
    var x := Set(key, value);
    OneSaid(x, ParameterLine);
    SetLine(key, value);
    assert [x][1..] == [] && Pairs([x]) == [(key, value)];
    assert ParameterEvents([(key, value)]) == [Parameter(key, value)];
    JoinCons("template", [path], " ");
    assert ["template"] + [path] == ["template", path] && "template" + " " == "template ";
  }

  lemma QueryBlock(value: string)
    ensures Block(StatementItem(Load, [Said(QueryOf(value))])) == ["load", QueryOf(value), ""]
    ensures OwnEvents(StatementItem(Load, [Said(QueryOf(value))])) == [Statements(Load, [QueryOf(value)])]
  {
    hide QueryOf;
    OneSaid(QueryOf(value), Itself);
    JoinCons(QueryOf(value), [], "\n");
    assert [QueryOf(value)] + [] == [QueryOf(value)];
  }

  lemma OneSaid<T>(x: T, line: T -> string)
    ensures Spoken([Said(x)]) == [x] && LinesWith([Said(x)], line) == [line(x)]
  {
    assert [Said(x)][1..] == [];
  }

  /** The tree below one use. */
  lemma QueryTree(value: string)
    requires Plain(value)
    ensures var items := [StatementItem(Load, [Said(QueryOf(value))])];
            && EventsOf(items) == [Statements(Load, [QueryOf(value)])] && AllWritable(items)
            && Runs(items) == 0 && ResultCount(items) == 0 && Height(items) == 0
  {
    hide EventsOf, AllWritable, Runs, ResultCount, Height, StatementText, QueryOf, OwnEvents, BodyLine;
    var item := StatementItem(Load, [Said(QueryOf(value))]);
    OneSaid(QueryOf(value), Itself);
    QueryIsText(value);
    QueryIsBody(value);
    QueryBlock(value);
    TreeCons(item, []);
    NoTree();
    assert [item] + [] == [item];
  }

  lemma SpelledCons(w: World, base: Mapping, log: Log, p: string, i: nat, reps: Mapping, item: Item, rest: seq<Item>)
    requires Reads(w, p, i, reps, Block(item)) && Stored(w, item)
    requires item.FileItem? ==>
               var q, before := w.resolve(item.path), log + OwnEvents(item);
               Spelled(w, base, before, q, 0, FirstReps(w, base, before, q), item.items)
    requires Spelled(w, base, Behind(log, item), p, i + |Block(item)|, RepsAfter(w, reps, item), rest)
    ensures Spelled(w, base, log, p, i, reps, [item] + rest)
  {
    hide Reads, Stored, Block, Behind, RepsAfter, FirstReps, OwnEvents;
    assert ([item] + rest)[1..] == rest;
  }

  lemma {:induction false} UsesAreWritable(path: string, key: string, values: seq<string>)
    requires Word(path) && forall v <- values :: ValueText(key, v)
    ensures AllWritable(UseItems(path, key, values))
    decreases |values|
  {
    hide ValueText, Word, Plain, ParameterText, AllWritable, QueryOf;
    if values == [] {
      NoTree();
    } else {
      var v := values[0];
      ValueIs(key, v);
      QueryTree(v);
      UsesAreWritable(path, key, values[1..]);
      TreeCons(UseItem(path, key, v), UseItems(path, key, values[1..]));
    }
  }

  lemma ValueIs(key: string, value: string)
    requires ValueText(key, value)
    ensures Plain(value) && Plain(key + "=" + value) && ParameterText(Set(key, value))
  {
    SetLine(key, value);
  }

  /** The template's file spells the query with the value that its parameter has. */
  lemma TemplateIsSpelled(w: World, base: Mapping, log: Log, path: string, key: string, value: string)
    requires T.Key(w.word, key) && w.lower(key) != w.lower("FILE_PATH")
    requires w.resolve(path) in w.files && w.files[w.resolve(path)] == ["load", QueryLine(key), ""]
    ensures var q, before := w.resolve(path), log + OwnEvents(UseItem(path, key, value));
            Spelled(w, base, before, q, 0, FirstReps(w, base, before, q), UseItem(path, key, value).items)
  {
    hide T.Key, T.Valid, T.Render, T.Denotation, QueryPieces, ReadLine, Plain, FirstReps, Reps;
    var q, item := w.resolve(path), UseItem(path, key, value);
    var before := log + OwnEvents(item);
    var reps := FirstReps(w, base, before, q);
    QueryBlock(value);
    OneSaid(Set(key, value), ParameterLine);
    ParameterInScope(w, base, log, path, q, [Said(Set(key, value))], 0, key);
    QueryLineIs(w.word, key);
    QueryMeans(ScopeOf(w, reps), key, value);
    TemplateIsRead(w, q, 1, reps, QueryPieces(key));
    LoadIsPlain();
    PlainIsRead(w, q, 0, reps);
    PlainIsRead(w, q, 2, reps);
    assert Reads(w, q, 0, reps, ["load", QueryOf(value), ""]);
    assert item.items[1..] == [];
  }

  lemma ThreePlain(a: string, b: string, c: string)
    requires Plain(a) && Plain(b) && Plain(c)
    ensures All([a, b, c], Plain)
  {
    hide Plain;
  }

  lemma LoadIsPlain()
    ensures Plain("load") && Plain("")
  {
  }

  lemma UseIsRead(w: World, p: string, i: nat, reps: Mapping, path: string, key: string, value: string,
                  rest: seq<string>)
    requires ValueText(key, value) && Plain("template " + path) && p in w.files && i <= |w.files[p]|
    requires w.files[p][i..] == ["template " + path, key + "=" + value, ""] + rest
    ensures var block := Block(UseItem(path, key, value));
            && Reads(w, p, i, reps, block) && i + |block| <= |w.files[p]| && w.files[p][i + |block|..] == rest
  {
    hide Reads, ValueText, Plain, Block;
    UseBlock(path, key, value);
    SplitLinesOf(w.files[p], i, Block(UseItem(path, key, value)), rest);
    ValueIs(key, value);
    LoadIsPlain();
    ThreePlain("template " + path, key + "=" + value, "");
    PlainLinesAreRead(w, p, i, reps, Block(UseItem(path, key, value)));
  }

  lemma {:induction false} UsesAreSpelled(w: World, base: Mapping, log: Log, p: string, i: nat, reps: Mapping,
                                          path: string, key: string, values: seq<string>)
    requires T.Key(w.word, key) && w.lower(key) != w.lower("FILE_PATH") && Plain("template " + path)
    requires w.resolve(path) in w.files && w.files[w.resolve(path)] == ["load", QueryLine(key), ""]
    requires p in w.files && i <= |w.files[p]| && w.files[p][i..] == UseLines(path, key, values)
    requires forall v <- values :: ValueText(key, v)
    ensures Spelled(w, base, log, p, i, reps, UseItems(path, key, values))
    decreases |values|
  {
    hide T.Key, Reads, ValueText, Plain, FirstReps, RepsAfter, Behind, OwnEvents, Block, QueryLine, QueryOf;
    if values == [] {
    } else {
      hide Spelled;
      var v, rest := values[0], values[1..];
      var item := UseItem(path, key, v);
      UseIsRead(w, p, i, reps, path, key, v, UseLines(path, key, rest));
      TemplateIsSpelled(w, base, log, path, key, v);
      UsesAreSpelled(w, base, Behind(log, item), p, i + |Block(item)|, RepsAfter(w, reps, item), path, key, rest);
      SpelledCons(w, base, log, p, i, reps, item, UseItems(path, key, rest));
    }
  }

  lemma {:induction false} UsesSay(path: string, key: string, values: seq<string>)
    requires forall v <- values :: ValueText(key, v)
    ensures var items := UseItems(path, key, values);
            && EventsOf(items) == UseEvents(path, key, values) && Runs(items) == 0 && ResultCount(items) == 0
            && Height(items) == if values == [] then 0 else 1
    decreases |values|
  {
    hide OwnEvents, EventsOf, Runs, ResultCount, Height, ValueText, Plain, QueryOf;
    if values == [] {
      NoTree();
    } else {
      var v, rest := values[0], values[1..];
      ValueIs(key, v);
      UseBlock(path, key, v);
      QueryTree(v);
      UsesSay(path, key, rest);
      TreeCons(UseItem(path, key, v), UseItems(path, key, rest));
    }
  }

  /** One file, used as a template with one value after another, gives the query with each of them. */
  lemma TemplateWithValues(w: World, depth: nat, base: Mapping, p: string, path: string, key: string,
                           values: seq<string>)
    requires T.Key(w.word, key) && w.lower(key) != w.lower("FILE_PATH") && Word(path) && Plain("template " + path)
    requires w.resolve(path) in w.files && w.files[w.resolve(path)] == ["load", QueryLine(key), ""]
    requires p in w.files && w.files[p] == UseLines(path, key, values) && forall v <- values :: ValueText(key, v)
    requires depth >= 2
    ensures RunFile(w, depth, base, [], p) == Ok(UseEvents(path, key, values))
  {
    hide T.Key, Spelled, FirstReps, RunFile, ValueText, Word, Plain, Runs, ResultCount, Height, EventsOf, AllWritable;
    assert w.files[p][0..] == w.files[p];
    UsesAreWritable(path, key, values);
    UsesAreSpelled(w, base, [], p, 0, FirstReps(w, base, [], p), path, key, values);
    UsesSay(path, key, values);
    RoundTrip(w, depth, base, p, UseItems(path, key, values));
  }
}
