/** Comments and blank lines say nothing: a benchmark without them is the same benchmark
    (benchmarks/src/sql_benchmark.rs). */
module BenchmarkComments {
  import opened Text
  import opened BenchmarkSyntax
  import opened BenchmarkSpec
  import opened BenchmarkText
  import opened BenchmarkRoundTrip

  /** Lines without the comments among them. */
  function BareLines<T>(xs: seq<Noted<T>>): seq<Noted<T>> {
    if xs == [] then [] else (if xs[0].Said? then [xs[0]] else []) + BareLines(xs[1..])
  }

  lemma {:induction false} BareSpoken<T>(xs: seq<Noted<T>>)
    ensures Spoken(BareLines(xs)) == Spoken(xs)
    ensures forall x <- BareLines(xs) :: x in xs
    decreases |xs|
  {
    if xs == [] {
    } else {
      hide Spoken;
      var x, rest := xs[0], BareLines(xs[1..]);
      BareSpoken(xs[1..]);
      SpokenFirst(xs);
      if x.Said? {
        assert ([x] + rest)[1..] == rest;
        SpokenFirst([x] + rest);
      } else {
        assert [] + rest == rest;
      }
    }
  }

  /** A directive without the comments among its lines. */
  function BareItem(item: Item): Item {
    match item
    case StatementItem(kind, ls) => StatementItem(kind, BareLines(ls))
    case RunItem(ls) => RunItem(BareLines(ls))
    case RowsItem(isResult, columns, sql, rows) => RowsItem(isResult, columns, sql, BareLines(rows))
    case FileItem(path, Some(xs), items) => FileItem(path, Some(BareLines(xs)), items)
    case _ => item
  }

  /** The tree without comments and blank lines, except for the comments in query files. */
  function Bare(items: seq<Item>): seq<Item> {
    if items == [] then []
    else
      var item, rest := BareItem(items[0]), Bare(items[1..]);
      if Skipped(items[0]) then rest
      else [if items[0].FileItem? then item.(items := Bare(items[0].items)) else item] + rest
  }

  lemma BareItemSays(item: Item)
    requires Writable(item)
    ensures Writable(BareItem(item)) && OwnEvents(BareItem(item)) == OwnEvents(item)
    ensures GivesRun(BareItem(item)) == GivesRun(item) && GivesResult(BareItem(item)) == GivesResult(item)
    ensures BareItem(item).FileItem? == item.FileItem? && Skipped(BareItem(item)) == Skipped(item)
  {
    hide StatementText, ScriptText, BodyLine, RunText, RowText, ParameterText, Spoken, BareLines;
    match item
    case StatementItem(_, ls) => BareSpoken(ls);
    case RunItem(ls) => BareSpoken(ls);
    case RowsItem(_, _, _, rows) => BareSpoken(rows);
    case FileItem(_, Some(xs), _) => BareSpoken(xs);
    case _ =>
  }

  lemma OwnOfFile(item: Item, items: seq<Item>)
    requires item.FileItem?
    ensures OwnEvents(item.(items := items)) == OwnEvents(item) && Writable(item.(items := items)) == Writable(item)
  {
  }

  lemma SkippedSays(item: Item)
    requires Skipped(item)
    ensures OwnEvents(item) == [] && !GivesRun(item) && !GivesResult(item)
  {
  }

  /** The bare items can be written and say what the items say. */
  ghost predicate Alike(bare: seq<Item>, items: seq<Item>) {
    && AllWritable(bare) && EventsOf(bare) == EventsOf(items)
    && Runs(bare) == Runs(items) && ResultCount(bare) == ResultCount(items) && Height(bare) == Height(items)
  }

  lemma AlikeSkipped(bare: seq<Item>, item: Item, rest: seq<Item>)
    requires Skipped(item) && Alike(bare, rest)
    ensures Alike(bare, [item] + rest)
  {
    hide AllWritable, EventsOf, Runs, ResultCount, Height, Writable, OwnEvents, GivesRun, GivesResult;
    TreeCons(item, rest);
    SkippedSays(item);
    assert [] + [] + EventsOf(rest) == EventsOf(rest);
  }

  lemma AlikeCons(b: Item, bare: seq<Item>, item: Item, rest: seq<Item>)
    requires Writable(b) && OwnEvents(b) == OwnEvents(item) && GivesRun(b) == GivesRun(item)
    requires GivesResult(b) == GivesResult(item) && !b.FileItem? && !item.FileItem? && Alike(bare, rest)
    ensures Alike([b] + bare, [item] + rest)
  {
    hide AllWritable, EventsOf, Writable, OwnEvents, GivesRun, GivesResult;
    TreeCons(b, bare);
    TreeCons(item, rest);
    assert ([b] + bare)[1..] == bare && ([item] + rest)[1..] == rest;
  }

  lemma AlikeFile(b: Item, bare: seq<Item>, item: Item, rest: seq<Item>)
    requires Writable(b) && OwnEvents(b) == OwnEvents(item) && b.FileItem? && item.FileItem?
    requires Alike(b.items, item.items) && Alike(bare, rest)
    ensures Alike([b] + bare, [item] + rest)
  {
    hide AllWritable, EventsOf, Runs, ResultCount, Height, Writable, OwnEvents, GivesRun, GivesResult;
    TreeCons(b, bare);
    TreeCons(item, rest);
  }

  /** What the tree says does not depend on them. */
  lemma {:induction false} BareSays(items: seq<Item>)
    requires AllWritable(items)
    ensures AllWritable(Bare(items)) && EventsOf(Bare(items)) == EventsOf(items)
    ensures Runs(Bare(items)) == Runs(items) && ResultCount(Bare(items)) == ResultCount(items)
    ensures Height(Bare(items)) == Height(items)
  {
    hide AllWritable, EventsOf, Runs, ResultCount, Height, Bare;
    BareIsAlike(items);
  }

  lemma {:induction false} BareIsAlike(items: seq<Item>)
    requires AllWritable(items)
    ensures Alike(Bare(items), items)
    decreases Size(items)
  {
    hide Alike, Writable, OwnEvents, GivesRun, GivesResult, BareItem;
    if items == [] {
      NothingAlike();
    } else {
      var item, rest := items[0], items[1..];
      var bare := BareItem(item);
      assert items == [item] + rest;
      BareIsAlike(rest);
      BareItemSays(item);
      if Skipped(item) {
        AlikeSkipped(Bare(rest), item, rest);
      } else if item.FileItem? {
        BareIsAlike(item.items);
        OwnOfFile(bare, Bare(item.items));
        AlikeFile(bare.(items := Bare(item.items)), Bare(rest), item, rest);
      } else {
        AlikeCons(bare, Bare(rest), item, rest);
      }
    }
  }

  lemma NothingAlike()
    ensures Alike([], [])
  {
  }

  /** Comments and blank lines between directives, and comments in a body, among expected rows and among
      parameters change nothing: files that spell a tree with them and files that spell it without them
      are read alike. */
  lemma CommentsChangeNothing(w: World, w': World, depth: nat, base: Mapping, p: string, p': string, items: seq<Item>)
    requires AllWritable(items) && Spelled(w, base, [], p, 0, FirstReps(w, base, [], p), items)
    requires Spelled(w', base, [], p', 0, FirstReps(w', base, [], p'), Bare(items))
    ensures RunFile(w, depth, base, [], p).Ok? <==> RunFile(w', depth, base, [], p').Ok?
    ensures RunFile(w, depth, base, [], p).Ok? ==> RunFile(w, depth, base, [], p) == RunFile(w', depth, base, [], p')
  {
    hide AllWritable, Spelled, FirstReps, RunFile, Runs, ResultCount, Height, EventsOf, Bare;
    BareSays(items);
    RoundTrip(w, depth, base, p, items);
    RoundTrip(w', depth, base, p', Bare(items));
  }
}
