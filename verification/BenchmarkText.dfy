/** The text of a benchmark file that is read as it was written: words, lines, bodies, rows and
    statements (benchmarks/src/sql_benchmark.rs). */
module BenchmarkText {
  import opened Text
  import opened TextSearch
  import opened BenchmarkSyntax
  import opened TemplateStability
  import S = SqlStatements
  import T = Template

  // Lines

  /** A line that is read as it is. */
  predicate Plain(line: string) {
    T.Literal(line) && Free(line, {'\n', '\r'})
  }

  /** A line of a body. */
  predicate BodyLine(line: string) {
    !IsBlankLine(line) && !IsCommentLine(line)
  }

  /** A line of a statement, which is expanded once more. */
  predicate TextLine(line: string) {
    Plain(line) && BodyLine(line)
  }

  lemma PlainExpands(scope: T.Scope, line: string)
    requires T.Literal(line)
    ensures T.Expand(scope, line) == Ok(line)
  {
    hide T.Replace, T.Literal;
    assert line + "" == line;
    T.LiteralCopied(T.Conditional, scope, line, "");
    T.ReplaceNothing(T.Conditional, scope);
    T.LiteralCopied(T.Variable, scope, line, "");
    T.ReplaceNothing(T.Variable, scope);
  }

  lemma PlainIsRead(w: World, p: string, i: nat, reps: Mapping)
    requires p in w.files && i < |w.files[p]| && Plain(w.files[p][i])
    ensures ReadLine(w, p, i, reps) == Ok(w.files[p][i])
  {
    hide T.Expand, T.Literal;
    PlainExpands(ScopeOf(w, reps), w.files[p][i]);
  }

  // Comments

  /** A comment: blanks, `#` or `--`, and any text. */
  datatype Note = Note(pad: string, dashes: bool, text: string)

  function NoteLine(n: Note): string {
    n.pad + (if n.dashes then "--" else "#") + n.text
  }

  lemma NoteStarts(n: Note)
    requires Blank(n.pad)
    ensures TrimStart(NoteLine(n), SPACE) == (if n.dashes then "--" else "#") + n.text
    ensures !Blank(NoteLine(n))
  {
    var mark := if n.dashes then "--" else "#";
    assert '#' !in SPACE && '-' !in SPACE;
    assert NoteLine(n) == n.pad + (mark + n.text) && (mark + n.text)[0] == mark[0];
    TrimStartPadded(n.pad, mark + n.text, SPACE);
    assert NoteLine(n)[|n.pad|] == mark[0];
  }

  lemma NoteIsComment(n: Note)
    requires Blank(n.pad)
    ensures IsCommentLine(NoteLine(n)) && !IsBlankLine(NoteLine(n))
  {
    hide TrimStart, NoteLine;
    NoteStarts(n);
  }

  /** There are no other comments. */
  lemma CommentIsNote(line: string) returns (n: Note)
    requires IsCommentLine(line)
    ensures Blank(n.pad) && NoteLine(n) == line
  {
    var pad := TrimStartSplits(line, SPACE);
    var t := TrimStart(line, SPACE);
    n := if "#" <= t then Note(pad, false, t[1..]) else Note(pad, true, t[2..]);
  }

  /** What lines are written for, among comments. */
  datatype Noted<T> = Said(value: T) | Aside(note: Note)

  function Spoken<T>(xs: seq<Noted<T>>): seq<T> {
    if xs == [] then [] else (if xs[0].Said? then [xs[0].value] else []) + Spoken(xs[1..])
  }

  function LinesWith<T>(xs: seq<Noted<T>>, line: T -> string): (ls: seq<string>)
    ensures |ls| == |xs|
  {
    if xs == [] then []
    else [if xs[0].Said? then line(xs[0].value) else NoteLine(xs[0].note)] + LinesWith(xs[1..], line)
  }

  function Itself(line: string): string {
    line
  }

  function NotedLines(xs: seq<Noted<string>>): seq<string> {
    LinesWith(xs, Itself)
  }

  /** What is said is as it should be; a comment begins with blanks only. */
  ghost predicate Good<T>(xs: seq<Noted<T>>, good: T -> bool) {
    forall x <- xs :: if x.Said? then good(x.value) else Blank(x.note.pad)
  }

  lemma GoodFirst<T>(xs: seq<Noted<T>>, good: T -> bool)
    requires xs != [] && Good(xs, good)
    ensures xs[0].Said? ==> good(xs[0].value)
    ensures xs[0].Aside? ==> Blank(xs[0].note.pad)
    ensures Good(xs[1..], good)
  {
    assert xs[0] in xs;
  }

  lemma SpokenFirst<T>(xs: seq<Noted<T>>)
    requires xs != []
    ensures Spoken(xs) == if xs[0].Said? then [xs[0].value] + Spoken(xs[1..]) else Spoken(xs[1..])
  {
  }

  lemma {:induction false} SpokenAreSaid<T>(xs: seq<Noted<T>>)
    ensures forall v <- Spoken(xs) :: Said(v) in xs
    decreases |xs|
  {
    if xs == [] {
    } else {
      SpokenAreSaid(xs[1..]);
      SpokenFirst(xs);
    }
  }

  // Words

  predicate Word(s: string) {
    s != "" && Free(s, SPACE)
  }

  lemma {:induction false} WordLengthOf(k: string, rest: string)
    requires Free(k, SPACE) && (rest == "" || rest[0] in SPACE)
    ensures WordLength(k + rest) == |k|
  {
    if k == "" {
      assert k + rest == rest;
    } else {
      WordLengthOf(k[1..], rest);
      assert (k + rest)[1..] == k[1..] + rest;
    }
  }

  lemma WordsFirst(k: string, rest: string)
    requires Word(k)
    ensures Words(k + " " + rest) == [k] + Words(rest)
  {
    var s := k + " " + rest;
    assert s == k + (" " + rest) && ' ' in SPACE;
    WordLengthOf(k, " " + rest);
    assert s[..|k|] == k && s[|k|..] == " " + rest;
    assert (" " + rest)[1..] == rest;
    assert Words(s) == [k] + Words(" " + rest);
  }

  lemma OneWord(k: string)
    requires Word(k)
    ensures Words(k) == [k]
  {
    assert k + "" == k;
    WordLengthOf(k, "");
    assert k[..|k|] == k && k[|k|..] == "";
  }

  lemma {:induction false} WordsOfJoined(ws: seq<string>)
    requires forall x <- ws :: Word(x)
    ensures Words(Join(ws, " ")) == ws
  {
    hide Word, Words;
    if ws == [] {
      NoWords();
    } else if |ws| == 1 {
      OneWord(ws[0]);
    } else {
      WordsOfJoined(ws[1..]);
      WordsFirst(ws[0], Join(ws[1..], " "));
    }
  }

  lemma NoWords()
    ensures Words("") == []
  {
  }

  // Bodies

  /** The file has lines at `i` that are read as `ls`. */
  ghost predicate Reads(w: World, p: string, i: nat, reps: Mapping, ls: seq<string>) {
    && p in w.files && i + |ls| <= |w.files[p]|
    && forall j :: 0 <= j < |ls| ==> ReadLine(w, p, i + j, reps) == Ok(ls[j])
  }

  lemma ReadsInside(w: World, p: string, i: nat, reps: Mapping, ls: seq<string>)
    requires Reads(w, p, i, reps, ls)
    ensures p in w.files && i + |ls| <= |w.files[p]|
  {
  }

  lemma ReadsRest(w: World, p: string, i: nat, reps: Mapping, a: seq<string>, b: seq<string>)
    requires Reads(w, p, i, reps, a + b)
    ensures Reads(w, p, i, reps, a) && Reads(w, p, i + |a|, reps, b)
  {
    hide ReadLine;
    forall j | 0 <= j < |a| ensures ReadLine(w, p, i + j, reps) == Ok(a[j]) { assert (a + b)[j] == a[j]; }
    forall j | 0 <= j < |b| ensures ReadLine(w, p, i + |a| + j, reps) == Ok(b[j]) {
      assert (a + b)[|a| + j] == b[j];
      assert ReadLine(w, p, i + (|a| + j), reps) == Ok((a + b)[|a| + j]);
    }
  }

  lemma ReadsFirst(w: World, p: string, i: nat, reps: Mapping, ls: seq<string>)
    requires Reads(w, p, i, reps, ls) && ls != []
    ensures i < |w.files[p]| && ReadLine(w, p, i, reps) == Ok(ls[0]) && Reads(w, p, i + 1, reps, ls[1..])
  {
    hide ReadLine;
    assert ls == [ls[0]] + ls[1..];
    ReadsRest(w, p, i, reps, [ls[0]], ls[1..]);
    assert ReadLine(w, p, i + 0, reps) == Ok(ls[0]);
  }

  /** Plain lines are read as they are, whatever the mapping. */
  lemma PlainLinesAreRead(w: World, p: string, i: nat, reps: Mapping, ls: seq<string>)
    requires p in w.files && i + |ls| <= |w.files[p]| && w.files[p][i..i + |ls|] == ls && All(ls, Plain)
    ensures Reads(w, p, i, reps, ls)
  {
    hide ReadLine, Plain;
    forall j | 0 <= j < |ls| ensures ReadLine(w, p, i + j, reps) == Ok(ls[j]) {
      assert w.files[p][i + j] == w.files[p][i..i + |ls|][j] == ls[j];
      assert Plain(ls[j]);
      PlainIsRead(w, p, i + j, reps);
    }
  }

  /** A line with placeholders is read as what it means in the reader's mapping. */
  lemma TemplateIsRead(w: World, p: string, i: nat, reps: Mapping, pieces: seq<T.Piece>)
    requires p in w.files && i < |w.files[p]| && w.files[p][i] == T.Render(pieces)
    requires T.Valid(w.word, pieces) && Trimmed(T.Render(pieces), {'\n', '\r'})
    ensures ReadLine(w, p, i, reps) == T.Denotation(ScopeOf(w, reps), pieces)
  {
    hide T.Expand, T.Denotation;
    T.ExpansionIsDenotation(ScopeOf(w, reps), pieces);
  }

  ghost predicate All(ls: seq<string>, good: string -> bool) {
    forall x <- ls :: good(x)
  }

  function LinesText(ls: seq<string>): string {
    if ls == [] then "" else ls[0] + "\n" + LinesText(ls[1..])
  }

  lemma PlainNothing()
    ensures Plain("") && IsBlankLine("") && !IsCommentLine("")
  {
  }

  lemma LinesWithFirst<T>(xs: seq<Noted<T>>, line: T -> string)
    requires xs != []
    ensures var all := LinesWith(xs, line) + [""];
            && all[0] == (if xs[0].Said? then line(xs[0].value) else NoteLine(xs[0].note))
            && all[1..] == LinesWith(xs[1..], line) + [""]
  {
    hide NoteLine;
  }

  lemma BodyStep(w: World, p: string, i: nat, reps: Mapping, line: string)
    requires p in w.files && i < |w.files[p]| && ReadLine(w, p, i, reps) == Ok(line)
    ensures IsCommentLine(line) ==> Body(w, p, i, reps) == Body(w, p, i + 1, reps)
    ensures !IsCommentLine(line) && IsBlankLine(line) ==> Body(w, p, i, reps) == Ok(Span("", i + 1))
    ensures BodyLine(line) && Body(w, p, i + 1, reps).Ok? ==>
              var rest := Body(w, p, i + 1, reps).value;
              Body(w, p, i, reps) == Ok(Span(line + "\n" + rest.value, rest.next))
  {
    hide ReadLine, IsCommentLine, IsBlankLine;
  }

  /** The body of a directive is what is said before the next blank line. */
  lemma {:induction false} BodyOf(w: World, p: string, i: nat, reps: Mapping, ls: seq<Noted<string>>)
    requires Reads(w, p, i, reps, NotedLines(ls) + [""]) && Good(ls, BodyLine)
    ensures Body(w, p, i, reps) == Ok(Span(LinesText(Spoken(ls)), i + |ls| + 1))
    decreases |ls|
  {
    hide ReadLine, IsCommentLine, IsBlankLine, Reads, NoteLine, Good, BodyLine, Body;
    var all := NotedLines(ls) + [""];
    ReadsFirst(w, p, i, reps, all);
    ReadsInside(w, p, i, reps, all);
    BodyStep(w, p, i, reps, all[0]);
    PlainNothing();
    if ls == [] {
    } else {
      GoodFirst(ls, BodyLine);
      LinesWithFirst(ls, Itself);
      BodyOf(w, p, i + 1, reps, ls[1..]);
      SpokenFirst(ls);
      if ls[0].Aside? { NoteIsComment(ls[0].note); }
    }
  }

  function SqlText(sql: seq<string>, newlineFirst: bool): string {
    if sql == [] then ""
    else (if newlineFirst then "\n" + sql[0] else sql[0] + "\n") + SqlText(sql[1..], newlineFirst)
  }

  /** A line of a query with rows. */
  predicate SqlLine(line: string) {
    !IsBreakLine(line)
  }

  lemma BreakIsPlain()
    ensures Plain("----") && IsBreakLine("----")
  {
    assert Trimmed("----", SPACE);
    TrimTrimmed("----", SPACE);
  }

  lemma {:induction false} UntilBreakOf(w: World, p: string, i: nat, reps: Mapping, sql: seq<string>,
                                        newlineFirst: bool)
    requires Reads(w, p, i, reps, sql + ["----"]) && All(sql, SqlLine)
    ensures UntilBreak(w, p, i, reps, newlineFirst) == Ok(Span(SqlText(sql, newlineFirst), i + |sql| + 1))
    decreases |sql|
  {
    hide ReadLine, IsBreakLine, Reads;
    var all := sql + ["----"];
    ReadsFirst(w, p, i, reps, all);
    BreakIsPlain();
    assert sql != [] ==> SqlLine(sql[0]);
    if sql == [] {
    } else {
      assert all[1..] == sql[1..] + ["----"];
      UntilBreakOf(w, p, i + 1, reps, sql[1..], newlineFirst);
    }
  }

  // Rows

  /** A cell, and whether a tab or a bar stands between it and the next. */
  datatype Cell = Cell(text: string, tab: bool)

  function RowLine(cells: seq<Cell>): string {
    if cells == [] then ""
    else if |cells| == 1 then cells[0].text
    else cells[0].text + (if cells[0].tab then "\t" else "|") + RowLine(cells[1..])
  }

  function RowTexts(cells: seq<Cell>): seq<string> {
    if cells == [] then [] else [cells[0].text] + RowTexts(cells[1..])
  }

  function TableTexts(rows: seq<seq<Cell>>): seq<seq<string>> {
    if rows == [] then [] else [RowTexts(rows[0])] + TableTexts(rows[1..])
  }

  predicate CellText(cell: Cell) {
    Free(cell.text, {'\t', '|'})
  }

  lemma CellsCons(c: char, s: string)
    ensures c == '\t' || c == '|' ==> Cells([c] + s) == [""] + Cells(s)
    ensures c != '\t' && c != '|' ==> Cells([c] + s) == [[c] + Cells(s)[0]] + Cells(s)[1..]
  {
    assert ([c] + s)[1..] == s;
  }

  lemma NoCells()
    ensures Cells("") == [""]
  {
  }

  lemma {:induction false} CellsFirst(cell: string, mark: char, rest: string)
    requires Free(cell, {'\t', '|'}) && (mark == '\t' || mark == '|')
    ensures Cells(cell) == [cell] && Cells(cell + [mark] + rest) == [cell] + Cells(rest)
  {
    hide Cells;
    if cell == "" {
      NoCells();
      CellsCons(mark, rest);
      assert cell + [mark] + rest == [mark] + rest;
    } else {
      var c, less := cell[0], cell[1..];
      assert c !in {'\t', '|'} && cell == [c] + less;
      CellsFirst(less, mark, rest);
      CellsCons(c, less);
      CellsCons(c, less + [mark] + rest);
      assert cell + [mark] + rest == [c] + (less + [mark] + rest);
    }
  }

  lemma {:induction false} CellsOf(cells: seq<Cell>)
    requires cells != [] && forall c <- cells :: CellText(c)
    ensures Cells(RowLine(cells)) == RowTexts(cells)
    decreases |cells|
  {
    hide Cells;
    assert CellText(cells[0]);
    CellsFirst(cells[0].text, if cells[0].tab then '\t' else '|', RowLine(cells[1..]));
    if |cells| == 1 {
      assert cells[1..] == [];
    } else {
      CellsOf(cells[1..]);
    }
  }

  predicate RowText(cells: seq<Cell>) {
    cells != [] && (forall c <- cells :: CellText(c)) && BodyLine(RowLine(cells))
  }

  /** A table: rows of one width. */
  ghost predicate Table(rows: seq<Noted<seq<Cell>>>, width: nat) {
    Good(rows, RowText) && forall r <- rows :: r.Said? ==> |r.value| == width
  }

  lemma TableFirst(rows: seq<Noted<seq<Cell>>>, width: nat)
    requires rows != [] && Table(rows, width)
    ensures rows[0].Said? ==> RowText(rows[0].value) && |rows[0].value| == width
    ensures rows[0].Aside? ==> Blank(rows[0].note.pad)
    ensures Table(rows[1..], width)
  {
    GoodFirst(rows, RowText);
    assert rows[0] in rows;
  }

  lemma {:induction false} RowTextsLength(cells: seq<Cell>)
    ensures |RowTexts(cells)| == |cells|
  {
    if cells == [] {
    } else {
      RowTextsLength(cells[1..]);
    }
  }

  lemma RowsStep(w: World, p: string, i: nat, reps: Mapping, width: nat, line: string)
    requires p in w.files && i < |w.files[p]| && ReadLine(w, p, i, reps) == Ok(line)
    ensures IsCommentLine(line) ==> ExpectedRows(w, p, i, reps, width) == ExpectedRows(w, p, i + 1, reps, width)
    ensures !IsCommentLine(line) && IsBlankLine(line) ==> ExpectedRows(w, p, i, reps, width) == Ok(Span([], i + 1))
    ensures BodyLine(line) && |Cells(line)| == width && ExpectedRows(w, p, i + 1, reps, width).Ok? ==>
              var rest := ExpectedRows(w, p, i + 1, reps, width).value;
              ExpectedRows(w, p, i, reps, width) == Ok(Span([Cells(line)] + rest.value, rest.next))
  {
    hide ReadLine, IsCommentLine, IsBlankLine, Cells;
  }

  lemma {:induction false} RowsOf(w: World, p: string, i: nat, reps: Mapping, rows: seq<Noted<seq<Cell>>>, width: nat)
    requires Reads(w, p, i, reps, LinesWith(rows, RowLine) + [""]) && Table(rows, width)
    ensures ExpectedRows(w, p, i, reps, width) == Ok(Span(TableTexts(Spoken(rows)), i + |rows| + 1))
    decreases |rows|
  {
    hide ReadLine, IsCommentLine, IsBlankLine, Reads, Cells, RowLine, NoteLine, Table, RowTexts, BodyLine, ExpectedRows;
    var all := LinesWith(rows, RowLine) + [""];
    ReadsFirst(w, p, i, reps, all);
    ReadsInside(w, p, i, reps, all);
    RowsStep(w, p, i, reps, width, all[0]);
    PlainNothing();
    if rows == [] {
    } else {
      TableFirst(rows, width);
      LinesWithFirst(rows, RowLine);
      RowsOf(w, p, i + 1, reps, rows[1..], width);
      SpokenFirst(rows);
      if rows[0].Aside? {
        NoteIsComment(rows[0].note);
      } else {
        CellsOf(rows[0].value);
        RowTextsLength(rows[0].value);
      }
    }
  }

  // Statements

  lemma {:induction false} LinesTextIs(ls: seq<string>)
    requires ls != []
    ensures LinesText(ls) == Join(ls, "\n") + "\n"
  {
    if |ls| == 1 {
      assert ls[1..] == [];
      assert ls[0] + "\n" + "" == ls[0] + "\n";
    } else {
      LinesTextIs(ls[1..]);
      assert ls[0] + "\n" + (Join(ls[1..], "\n") + "\n") == ls[0] + "\n" + Join(ls[1..], "\n") + "\n";
    }
  }

  lemma {:induction false} LinesFirst(x: string, rest: string)
    requires Free(x, {'\n', '\r'}) && x != ""
    ensures SplitLines(x) == [x] && SplitLines(x + "\n" + rest) == [x] + SplitLines(rest)
  {
    var s := x + "\n" + rest;
    if |x| == 1 {
      assert s[1..] == "\n" + rest && ("\n" + rest)[1..] == rest;
      assert SplitLines("\n" + rest) == [""] + SplitLines(rest);
      assert x == [x[0]] && [s[0]] + "" == x && x[1..] == "";
      assert [x] + SplitLines(rest) == [[s[0]] + ""] + ([""] + SplitLines(rest))[1..];
    } else {
      LinesFirst(x[1..], rest);
      assert s[1..] == x[1..] + "\n" + rest;
      assert x == [x[0]] + x[1..];
      assert [x] + SplitLines(rest) == [[x[0]] + x[1..]] + ([x[1..]] + SplitLines(rest))[1..];
    }
  }

  lemma TextLineIs(x: string)
    requires TextLine(x)
    ensures x != "" && Free(x, {'\n', '\r'}) && T.Literal(x) && !Blank(x) && !IsCommentLine(x)
  {
  }

  /** A line that is not lost when a text is split. */
  predicate OneLine(x: string) {
    x != "" && Free(x, {'\n', '\r'})
  }

  lemma {:induction false} LinesOfJoined(ls: seq<string>)
    requires ls != [] && All(ls, OneLine)
    ensures Lines(Join(ls, "\n")) == ls && Join(ls, "\n") != ""
  {
    hide SplitLines;
    assert OneLine(ls[0]);
    LinesFirst(ls[0], Join(ls[1..], "\n"));
    if |ls| == 1 {
    } else {
      LinesOfJoined(ls[1..]);
      assert ls == [ls[0]] + ls[1..];
    }
  }

  lemma {:induction false} NoComments(ls: seq<string>)
    requires All(ls, TextLine)
    ensures WithoutComments(ls) == ls && All(ls, OneLine)
  {
    hide TextLine, IsCommentLine;
    if ls == [] {
    } else {
      assert TextLine(ls[0]);
      TextLineIs(ls[0]);
      NoComments(ls[1..]);
      assert ls == [ls[0]] + ls[1..];
    }
  }

  lemma {:induction false} LiteralJoined(ls: seq<string>)
    requires ls != [] && All(ls, TextLine)
    ensures T.Literal(Join(ls, "\n"))
  {
    hide TextLine, T.Literal;
    assert TextLine(ls[0]);
    TextLineIs(ls[0]);
    if |ls| == 1 {
    } else {
      LiteralJoined(ls[1..]);
      LiteralIs("\n");
      LiteralAppend(ls[0], "\n");
      LiteralAppend(ls[0] + "\n", Join(ls[1..], "\n"));
    }
  }

  /** A statement survives on its own: text lines, without blanks at its ends. */
  predicate StatementText(ls: seq<string>) {
    ls != [] && (forall x <- ls :: TextLine(x)) && Trimmed(Join(ls, "\n"), SPACE)
  }

  lemma StatementTextIs(ls: seq<string>)
    requires StatementText(ls)
    ensures ls != [] && Trimmed(Join(ls, "\n"), SPACE)
  {
  }

  lemma LinesAreKept(w: World, reps: Mapping, text: string, all: seq<string>, ls: seq<string>)
    requires StatementText(ls) && all != [] && All(all, OneLine) && WithoutComments(all) == ls
    requires Trim(text, SPACE) == Join(all, "\n")
    ensures Statement(w, reps, text) == Ok(Some(Join(ls, "\n")))
  {
    hide Trim, Lines, WithoutComments, T.Expand, T.Literal, TextLine, OneLine;
    LinesOfJoined(all);
    LiteralJoined(ls);
    PlainExpands(ScopeOf(w, reps), Join(ls, "\n"));
    TextStarts(ls);
  }

  lemma TextStarts(ls: seq<string>)
    requires StatementText(ls)
    ensures Join(ls, "\n") != "" && Join(ls, "\n")[0] == ls[0][0] && ls[0] != "" && ls[0][0] !in SPACE
  {
    hide TextLine;
    assert TextLine(ls[0]);
    TextLineIs(ls[0]);
  }

  lemma JoinedIsKept(w: World, reps: Mapping, text: string, ls: seq<string>)
    requires StatementText(ls) && Trim(text, SPACE) == Join(ls, "\n")
    ensures Statement(w, reps, text) == Ok(Some(Join(ls, "\n")))
  {
    hide Trim, WithoutComments, Statement, TextLine, OneLine;
    NoComments(ls);
    LinesAreKept(w, reps, text, ls, ls);
  }

  // Comments inside a statement

  function TextOf(xs: seq<Noted<string>>): string {
    Join(NotedLines(xs), "\n")
  }

  /** A statement with comments before, inside and behind it. */
  ghost predicate NotedStatement(xs: seq<Noted<string>>) {
    && StatementText(Spoken(xs))
    && forall x <- xs :: x.Aside? ==> Blank(x.note.pad) && Free(NoteLine(x.note), {'\n', '\r'})
  }

  lemma {:induction false} CommentsGo(xs: seq<Noted<string>>)
    requires All(Spoken(xs), TextLine)
    requires forall x <- xs :: x.Aside? ==> Blank(x.note.pad) && Free(NoteLine(x.note), {'\n', '\r'})
    ensures WithoutComments(NotedLines(xs)) == Spoken(xs) && All(NotedLines(xs), OneLine)
    decreases |xs|
  {
    hide TextLine, IsCommentLine, NoteLine;
    if xs == [] {
    } else {
      var x, rest := xs[0], xs[1..];
      assert NotedLines(xs) == [if x.Said? then x.value else NoteLine(x.note)] + NotedLines(rest);
      forall y <- Spoken(rest) ensures TextLine(y) { assert y in Spoken(xs); }
      CommentsGo(rest);
      if x.Aside? {
        NoteIsComment(x.note);
      } else {
        assert Spoken(xs)[0] == x.value;
        TextLineIs(x.value);
      }
    }
  }

  lemma {:induction false} SpokenLast<T>(xs: seq<Noted<T>>, x: Noted<T>)
    ensures Spoken(xs + [x]) == Spoken(xs) + if x.Said? then [x.value] else []
    decreases |xs|
  {
    if xs == [] {
      assert xs + [x] == [x] && [x][1..] == [];
    } else {
      hide Spoken;
      SpokenLast(xs[1..], x);
      assert (xs + [x])[1..] == xs[1..] + [x] && (xs + [x])[0] == xs[0];
      SpokenFirst(xs + [x]);
      SpokenFirst(xs);
    }
  }

  /** The line that something is written as. */
  function NotedLine(x: Noted<string>): string {
    if x.Said? then x.value else NoteLine(x.note)
  }

  lemma {:induction false} NotedLast(xs: seq<Noted<string>>, x: Noted<string>)
    ensures NotedLines(xs + [x]) == NotedLines(xs) + [NotedLine(x)]
    decreases |xs|
  {
    hide NoteLine;
    if xs == [] {
      assert xs + [x] == [x] && [x][1..] == [];
    } else {
      NotedLast(xs[1..], x);
      assert (xs + [x])[1..] == xs[1..] + [x];
    }
  }

  lemma {:induction false} JoinLast(ls: seq<string>, x: string, sep: string)
    ensures Join(ls + [x], sep) == (if ls == [] then "" else Join(ls, sep) + sep) + x
    decreases |ls|
  {
    if ls == [] {
      assert ls + [x] == [x];
    } else {
      JoinLast(ls[1..], x, sep);
      assert ls + [x] == [ls[0]] + (ls[1..] + [x]);
      JoinCons(ls[0], ls[1..] + [x], sep);
      if |ls| == 1 {
        assert ls[1..] == [];
      } else {
        JoinCons(ls[0], ls[1..], sep);
        assert [ls[0]] + ls[1..] == ls;
        Regroup(ls[0] + sep, Join(ls[1..], sep) + sep, x);
        Regroup(ls[0] + sep, Join(ls[1..], sep), sep);
      }
    }
  }

  /** Without the blanks that a comment at the start begins with. */
  function StripStart(xs: seq<Noted<string>>): seq<Noted<string>> {
    if xs != [] && xs[0].Aside? then [Aside(xs[0].note.(pad := ""))] + xs[1..] else xs
  }

  function StripEnd(xs: seq<Noted<string>>): seq<Noted<string>> {
    if xs != [] && xs[|xs| - 1].Aside? then
      var n := xs[|xs| - 1].note;
      xs[..|xs| - 1] + [Aside(n.(text := TrimEnd(n.text, SPACE)))]
    else xs
  }

  lemma TextCons(line: string, rest: seq<string>)
    ensures Join([line] + rest, "\n") == line + if rest == [] then "" else "\n" + Join(rest, "\n")
  {
    JoinCons(line, rest, "\n");
    assert ([line] + rest)[1..] == rest;
    if rest == [] {
      assert line + "" == line;
    } else {
      Regroup(line, "\n", Join(rest, "\n"));
    }
  }

  lemma TextFirst(x: Noted<string>, rest: seq<Noted<string>>)
    ensures TextOf([x] + rest) == NotedLine(x) + if rest == [] then "" else "\n" + TextOf(rest)
  {
    hide NoteLine, Join;
    assert ([x] + rest)[1..] == rest;
    TextCons(NotedLine(x), NotedLines(rest));
  }

  lemma OtherNote(xs: seq<Noted<string>>, ys: seq<Noted<string>>, y: Noted<string>)
    requires NotedStatement(xs) && Spoken(ys) == Spoken(xs) && y.Aside? && (forall x <- ys :: x == y || x in xs)
    requires Blank(y.note.pad) && Free(NoteLine(y.note), {'\n', '\r'})
    ensures NotedStatement(ys)
  {
    hide StatementText, NoteLine;
  }

  lemma StripStartIs(xs: seq<Noted<string>>)
    requires NotedStatement(xs)
    ensures TrimStart(TextOf(xs), SPACE) == TextOf(StripStart(xs))
    ensures NotedStatement(StripStart(xs)) && Spoken(StripStart(xs)) == Spoken(xs)
  {
    hide NotedStatement, StatementText, TrimStart, TextOf, NoteLine, Spoken;
    NotedIs(xs);
    var x, rest := xs[0], xs[1..];
    assert xs == [x] + rest;
    TextFirst(x, rest);
    SpokenFirst(xs);
    if x.Aside? {
      var y: Noted<string> := Aside(x.note.(pad := ""));
      SpokenFirst([y] + rest);
      TextFirst(y, rest);
      NoteTail(x.note, if rest == [] then "" else "\n" + TextOf(rest));
      FreeNote(x.note, {'\n', '\r'});
      OtherNote(xs, StripStart(xs), y);
    } else {
      TextStarts(Spoken(xs));
      StartsAlready(TextOf(xs));
    }
  }

  lemma StartsAlready(s: string)
    requires s != "" && s[0] !in SPACE
    ensures TrimStart(s, SPACE) == s
  {
  }

  lemma NoteTail(n: Note, tail: string)
    requires Blank(n.pad)
    ensures TrimStart(NoteLine(n) + tail, SPACE) == NoteLine(n.(pad := "")) + tail
  {
    var mark := if n.dashes then "--" else "#";
    assert '#' !in SPACE && '-' !in SPACE;
    assert NoteLine(n) + tail == n.pad + (mark + n.text + tail);
    TrimStartPadded(n.pad, mark + n.text + tail, SPACE);
    assert "" + mark + n.text == mark + n.text;
    assert (mark + n.text + tail)[0] == mark[0];
  }

  lemma FreeNote(n: Note, cs: set<char>)
    requires Free(NoteLine(n), cs)
    ensures Free(NoteLine(n.(pad := "")), cs)
  {
    var bare := NoteLine(n.(pad := ""));
    assert NoteLine(n) == n.pad + bare;
    FreeAppend(n.pad, bare, cs);
  }

  /** What precedes the last line. */
  function TextBefore(xs: seq<Noted<string>>): string {
    if xs == [] then "" else TextOf(xs) + "\n"
  }

  lemma TextLast(xs: seq<Noted<string>>, x: Noted<string>)
    ensures TextOf(xs + [x]) == TextBefore(xs) + NotedLine(x)
  {
    hide NoteLine, Join;
    NotedLast(xs, x);
    JoinLast(NotedLines(xs), NotedLine(x), "\n");
  }

  lemma StripEndIs(xs: seq<Noted<string>>)
    requires NotedStatement(xs)
    ensures TrimEnd(TextOf(xs), SPACE) == TextOf(StripEnd(xs))
    ensures NotedStatement(StripEnd(xs)) && Spoken(StripEnd(xs)) == Spoken(xs)
  {
    hide NotedStatement, StatementText, TrimEnd, TextOf, TextBefore, NoteLine, Spoken;
    NotedIs(xs);
    var n := |xs| - 1;
    var most, z := xs[..n], xs[n];
    assert xs == most + [z];
    SpokenLast(most, z);
    TextLast(most, z);
    if z.Aside? {
      var y: Noted<string> := Aside(z.note.(text := TrimEnd(z.note.text, SPACE)));
      SpokenLast(most, y);
      TextLast(most, y);
      NoteEnds(TextBefore(most), z.note);
      FreeEnd(z.note, {'\n', '\r'});
      OtherNote(xs, StripEnd(xs), y);
    } else {
      TextEnds(Spoken(xs));
      EndsAlready(TextBefore(most) + z.value);
    }
  }

  lemma TextEnds(ls: seq<string>)
    requires StatementText(ls)
    ensures var x := ls[|ls| - 1]; x != "" && x[|x| - 1] !in SPACE
  {
    hide TextLine, Join;
    var n := |ls| - 1;
    assert TextLine(ls[n]);
    TextLineIs(ls[n]);
    assert ls == ls[..n] + [ls[n]];
    JoinLast(ls[..n], ls[n], "\n");
  }

  lemma EndsAlready(s: string)
    requires s != "" && s[|s| - 1] !in SPACE
    ensures TrimEnd(s, SPACE) == s
  {
  }

  lemma NoteEnds(pre: string, n: Note)
    ensures TrimEnd(pre + NoteLine(n), SPACE) == pre + NoteLine(n.(text := TrimEnd(n.text, SPACE)))
  {
    hide TrimEnd;
    var mark, t := if n.dashes then "--" else "#", TrimEnd(n.text, SPACE);
    var tail := TrimEndSplits(n.text, SPACE);
    var s := pre + (n.pad + mark + t);
    assert pre + NoteLine(n) == s + tail;
    TrimEndPadded(s, tail, SPACE);
    assert '#' !in SPACE && '-' !in SPACE;
    assert s[|s| - 1] == if t == "" then mark[|mark| - 1] else t[|t| - 1];
    EndsAlready(s);
  }

  lemma FreeEnd(n: Note, cs: set<char>)
    requires Free(NoteLine(n), cs)
    ensures Free(NoteLine(n.(text := TrimEnd(n.text, SPACE))), cs)
  {
    var tail := TrimEndSplits(n.text, SPACE);
    var less := NoteLine(n.(text := TrimEnd(n.text, SPACE)));
    assert NoteLine(n) == less + tail;
    FreeAppend(less, tail, cs);
  }

  /** A statement is kept without the comments before, inside and behind it. */
  lemma NotesAreDropped(w: World, reps: Mapping, xs: seq<Noted<string>>)
    requires NotedStatement(xs)
    ensures Statement(w, reps, TextOf(xs)) == Ok(Some(Join(Spoken(xs), "\n")))
  {
    hide NotedStatement, TrimStart, TrimEnd, StripStart, StripEnd, Statement, StatementText;
    var ys := StripStart(xs);
    var zs := StripEnd(ys);
    StripStartIs(xs);
    StripEndIs(ys);
    NotedIs(zs);
    CommentsGo(zs);
    LinesAreKept(w, reps, TextOf(xs), NotedLines(zs), Spoken(zs));
  }

  lemma NotedIs(xs: seq<Noted<string>>)
    requires NotedStatement(xs)
    ensures xs != [] && StatementText(Spoken(xs)) && All(Spoken(xs), TextLine)
    ensures forall x <- xs :: x.Aside? ==> Blank(x.note.pad) && Free(NoteLine(x.note), {'\n', '\r'})
  {
  }

  lemma TrimNewline(x: string)
    requires Trimmed(x, SPACE)
    ensures Trim(x + "\n", SPACE) == x
  {
    assert "" + x + "\n" == x + "\n";
    TrimPadded("", x, "\n", SPACE);
    TrimTrimmed(x, SPACE);
  }

  lemma {:induction false} RunStatementsSplit(xs: seq<string>)
    requires forall x <- xs :: S.Complete(x) && !("\n" <= x)
    ensures S.Statements(LinesText(xs)) == xs
  {
    hide S.Complete, S.Statements;
    if xs == [] {
      NoStatements();
    } else {
      var x, rest := xs[0], xs[1..];
      assert S.Complete(x);
      forall y <- rest ensures S.Complete(y) && !("\n" <= y) { assert y in xs; }
      RunStatementsSplit(rest);
      if rest == [] {
        LastStatement(x);
        assert x + "\n" + "" == x + "\n";
      } else {
        assert S.Complete(rest[0]);
        S.CompleteIsSome(rest[0]);
        S.CompleteThenLine(x, LinesText(rest));
      }
      assert xs == [x] + rest;
    }
  }

  lemma NoStatements()
    ensures S.Statements("") == []
  {
  }

  lemma LastStatement(x: string)
    requires S.Complete(x)
    ensures S.Statements(x + "\n") == [x]
  {
    S.CompleteIsSome(x);
    hide S.Lacks, Blank, S.Kept, S.Parts, S.KeptOfAll, S.Paragraphs;
    S.LineLacksBreak(x);
    S.ParagraphsExtend(x + "\n", "");
    OneParagraph();
    assert x + "\n" + "" == x + "\n";
    S.PartsAfter(x, "");
    S.CompleteKept(x, "\n", S.Parts(""));
    NoParts();
    S.KeptOfAllCons(x + "\n", []);
    NoParagraphs();
    assert [x] + [] == [x];
  }

  lemma OneParagraph()
    ensures S.Paragraphs("") == [""]
  {
  }

  lemma NoParts()
    ensures S.Parts("") == [] && S.Kept([]) == []
  {
  }

  lemma NoParagraphs()
    ensures S.KeptOfAll([]) == []
  {
  }

  /** A `run` statement: one text line that ends in a semicolon. */
  predicate RunText(x: string) {
    S.Complete(x) && TextLine(x) && Trimmed(x, SPACE)
  }

  lemma {:induction false} RunStatementsKept(w: World, reps: Mapping, xs: seq<string>)
    requires forall x <- xs :: RunText(x)
    ensures BenchmarkSyntax.Kept(w, reps, xs) == (xs, None)
  {
    hide Statement, TextLine, S.Complete;
    if xs == [] {
    } else {
      var x := xs[0];
      assert RunText(x);
      TrimTrimmed(x, SPACE);
      assert Join([x], "\n") == x;
      JoinedIsKept(w, reps, x, [x]);
      RunStatementsKept(w, reps, xs[1..]);
      assert xs == [x] + xs[1..];
    }
  }

  // Parameters

  /** A parameter and the blanks around its key and its value. */
  datatype Setting = Setting(lead: string, key: string, left: string, right: string, value: string, tail: string)

  function ParameterLine(s: Setting): string {
    s.lead + s.key + s.left + "=" + (s.right + s.value + s.tail)
  }

  function Pairs(settings: seq<Setting>): seq<(string, string)> {
    if settings == [] then [] else [(settings[0].key, settings[0].value)] + Pairs(settings[1..])
  }

  predicate ParameterText(s: Setting) {
    && Blank(s.lead) && Blank(s.left) && Blank(s.right) && Blank(s.tail)
    && Free(s.key, {'='}) && Trimmed(s.key, SPACE) && Trimmed(s.value, SPACE) && BodyLine(ParameterLine(s))
  }

  lemma {:induction false} SplitOnceOf(k: string, v: string)
    requires Free(k, {'='})
    ensures SplitOnce(k + "=" + v) == Some((k, v))
  {
    var s := k + "=" + v;
    if k == "" {
      assert s[1..] == v;
    } else {
      assert s[1..] == k[1..] + "=" + v;
      SplitOnceOf(k[1..], v);
      assert [k[0]] + k[1..] == k;
    }
  }

  lemma BlankIsFree(s: string)
    requires Blank(s)
    ensures Free(s, {'='})
  {
    assert '=' !in SPACE;
  }

  lemma ParameterIsSplit(s: Setting)
    requires ParameterText(s)
    ensures BodyLine(ParameterLine(s))
    ensures var kv := SplitOnce(TrimStart(ParameterLine(s), SPACE));
            kv.Some? && Trim(kv.value.0, SPACE) == s.key && Trim(kv.value.1, SPACE) == s.value
  {
    hide SplitOnce, BodyLine, Trim;
    var rest := s.right + s.value + s.tail;
    assert ParameterLine(s) == s.lead + (s.key + s.left + "=" + rest);
    TrimStartPadded(s.lead, s.key + s.left + "=" + rest, SPACE);
    KeyIsSplit(s.key, s.left, rest);
    TrimPadded(s.right, s.value, s.tail, SPACE);
    TrimTrimmed(s.value, SPACE);
  }

  lemma KeyIsSplit(key: string, left: string, rest: string)
    requires Blank(left) && Free(key, {'='}) && Trimmed(key, SPACE)
    ensures var kv := SplitOnce(TrimStart(key + left + "=" + rest, SPACE));
            kv.Some? && Trim(kv.value.0, SPACE) == key && kv.value.1 == rest
  {
    hide SplitOnce, Trim;
    var line := key + left + "=" + rest;
    assert '=' !in SPACE;
    BlankIsFree(left);
    if key == "" {
      assert line == left + ("=" + rest);
      TrimStartPadded(left, "=" + rest, SPACE);
      assert "" + "=" + rest == "=" + rest;
      SplitOnceOf("", rest);
      TrimTrimmed("", SPACE);
    } else {
      assert line[0] == key[0];
      FreeAppend(key, left, {'='});
      SplitOnceOf(key + left, rest);
      assert "" + key + left == key + left;
      TrimPadded("", key, left, SPACE);
      TrimTrimmed(key, SPACE);
    }
  }

  lemma ParametersStep(w: World, p: string, i: nat, reps: Mapping, line: string)
    requires p in w.files && i < |w.files[p]| && ReadLine(w, p, i, reps) == Ok(line)
    ensures IsCommentLine(line) ==> Parameters(w, p, i, reps) == Parameters(w, p, i + 1, reps)
    ensures !IsCommentLine(line) && IsBlankLine(line) ==> Parameters(w, p, i, reps) == Ok(Span([], i + 1))
    ensures BodyLine(line) && Parameters(w, p, i + 1, reps).Ok? && SplitOnce(TrimStart(line, SPACE)).Some? ==>
              var kv, rest := SplitOnce(TrimStart(line, SPACE)).value, Parameters(w, p, i + 1, reps).value;
              Parameters(w, p, i, reps)
              == Ok(Span([(Trim(kv.0, SPACE), Trim(kv.1, SPACE))] + rest.value, rest.next))
  {
    hide ReadLine, IsCommentLine, IsBlankLine, SplitOnce, Trim, TrimStart;
  }

  lemma {:induction false} ParametersOf(w: World, p: string, i: nat, reps: Mapping, xs: seq<Noted<Setting>>)
    requires Reads(w, p, i, reps, LinesWith(xs, ParameterLine) + [""]) && Good(xs, ParameterText)
    ensures Parameters(w, p, i, reps) == Ok(Span(Pairs(Spoken(xs)), i + |xs| + 1))
    decreases |xs|
  {
    hide ReadLine, IsCommentLine, IsBlankLine, Reads, SplitOnce, Trim, TrimStart, ParameterLine, NoteLine, Good;
    hide BodyLine, Parameters, ParameterText;
    var all := LinesWith(xs, ParameterLine) + [""];
    ReadsFirst(w, p, i, reps, all);
    ReadsInside(w, p, i, reps, all);
    ParametersStep(w, p, i, reps, all[0]);
    PlainNothing();
    if xs == [] {
    } else {
      GoodFirst(xs, ParameterText);
      LinesWithFirst(xs, ParameterLine);
      ParametersOf(w, p, i + 1, reps, xs[1..]);
      SpokenFirst(xs);
      if xs[0].Aside? {
        NoteIsComment(xs[0].note);
      } else {
        ParameterIsSplit(xs[0].value);
      }
    }
  }

  // Query files

  /** A statement of a query file, with its comments: it ends where a semicolon ends a line. */
  ghost predicate ScriptText(xs: seq<Noted<string>>) {
    NotedStatement(xs) && S.Complete(TextOf(xs))
  }

  function TextsOf(statements: seq<seq<Noted<string>>>): seq<string> {
    if statements == [] then [] else [TextOf(statements[0])] + TextsOf(statements[1..])
  }

  function SpokenTexts(statements: seq<seq<Noted<string>>>): seq<string> {
    if statements == [] then [] else [Join(Spoken(statements[0]), "\n")] + SpokenTexts(statements[1..])
  }

  /** The line ends of Windows. */
  function Windows(s: string): string {
    if s == "" then "" else (if s[0] == '\n' then "\r\n" else [s[0]]) + Windows(s[1..])
  }

  /** The text of a query file. */
  function ScriptFile(statements: seq<seq<Noted<string>>>, windows: bool): string {
    var text := LinesText(TextsOf(statements));
    if windows then Windows(text) else text
  }

  lemma {:induction false} UnixAlready(s: string)
    requires Free(s, {'\r'})
    ensures UnixNewlines(s) == s && UnixNewlines(Windows(s)) == s
  {
    if s == "" {
    } else {
      UnixAlready(s[1..]);
      assert s[0] !in {'\r'};
      assert s == s[..1] + s[1..];
      var end := if s[0] == '\n' then "\r\n" else [s[0]];
      assert Windows(s)[|end|..] == Windows(s[1..]);
    }
  }

  lemma {:induction false} JoinedIsFree(ls: seq<string>, cs: set<char>)
    requires (forall x <- ls :: Free(x, cs)) && '\n' !in cs
    ensures Free(Join(ls, "\n"), cs)
  {
    if ls == [] {
    } else {
      JoinedIsFree(ls[1..], cs);
      assert ls[0] in ls;
      FreeAppend(ls[0], "\n", cs);
      FreeAppend(ls[0] + "\n", Join(ls[1..], "\n"), cs);
    }
  }

  lemma ScriptTextIs(xs: seq<Noted<string>>)
    requires ScriptText(xs)
    ensures S.Complete(TextOf(xs)) && !("\n" <= TextOf(xs)) && Free(TextOf(xs), {'\r'})
  {
    hide S.Complete, NotedStatement;
    NotedIs(xs);
    CommentsGo(xs);
    var ls := NotedLines(xs);
    assert OneLine(ls[0]);
    TextCons(ls[0], ls[1..]);
    assert ls == [ls[0]] + ls[1..];
    forall x <- ls ensures Free(x, {'\r'}) {
      assert OneLine(x);
      forall i | 0 <= i < |x| ensures x[i] !in {'\r'} { assert x[i] !in {'\n', '\r'}; }
    }
    JoinedIsFree(ls, {'\r'});
    assert TextOf(xs)[0] == ls[0][0] && ls[0][0] !in {'\n', '\r'};
  }

  lemma {:induction false} ScriptIsSplit(statements: seq<seq<Noted<string>>>, windows: bool)
    requires forall xs <- statements :: ScriptText(xs)
    ensures S.Statements(UnixNewlines(ScriptFile(statements, windows))) == TextsOf(statements)
  {
    hide S.Complete, ScriptText, TextOf, UnixNewlines, S.Statements;
    ScriptIsFree(statements);
    UnixAlready(LinesText(TextsOf(statements)));
    RunStatementsSplit(TextsOf(statements));
  }

  lemma {:induction false} ScriptIsFree(statements: seq<seq<Noted<string>>>)
    requires forall xs <- statements :: ScriptText(xs)
    ensures Free(LinesText(TextsOf(statements)), {'\r'})
    ensures forall x <- TextsOf(statements) :: S.Complete(x) && !("\n" <= x)
    decreases |statements|
  {
    hide S.Complete, ScriptText, TextOf;
    if statements == [] {
    } else {
      var x, rest := TextOf(statements[0]), statements[1..];
      assert statements[0] in statements;
      ScriptTextIs(statements[0]);
      ScriptIsFree(rest);
      FreeAppend(x, "\n", {'\r'});
      FreeAppend(x + "\n", LinesText(TextsOf(rest)), {'\r'});
      assert TextsOf(statements)[1..] == TextsOf(rest);
    }
  }

  lemma {:induction false} ScriptIsKept(w: World, reps: Mapping, statements: seq<seq<Noted<string>>>)
    requires forall xs <- statements :: ScriptText(xs)
    ensures BenchmarkSyntax.Kept(w, reps, TextsOf(statements)) == (SpokenTexts(statements), None)
    decreases |statements|
  {
    hide S.Complete, NotedStatement, TextOf, Statement;
    if statements == [] {
    } else {
      assert ScriptText(statements[0]);
      NotesAreDropped(w, reps, statements[0]);
      ScriptIsKept(w, reps, statements[1..]);
      assert TextsOf(statements)[1..] == TextsOf(statements[1..]);
    }
  }
}
