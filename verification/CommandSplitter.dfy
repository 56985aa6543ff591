/** How the command line splits and validates its input
    (datafusion-cli/src/helper.rs, and the read loop of datafusion-cli/src/exec.rs). */
module CommandSplitter {
  import opened Text

  datatype Quote = Outside | Single | Double

  /** The quoting state after one more character. */
  function Step(q: Quote, c: char): Quote {
    if c == '\'' && !q.Double? then (if q.Single? then Outside else Single)
    else if c == '"' && !q.Single? then (if q.Double? then Outside else Double)
    else q
  }

  function End(s: string, q: Quote): Quote {
    if s == "" then q else End(s[1..], Step(q, s[0]))
  }

  /** The input ends outside quotes. */
  predicate Balanced(s: string) {
    End(s, Outside) == Outside
  }

  /** The text between the semicolons that are outside quotes. */
  function Pieces(s: string, q: Quote): (ps: seq<string>)
    ensures ps != []
  {
    if s == "" then [""]
    else
      var q' := Step(q, s[0]);
      if s[0] == ';' && q' == Outside then [""] + Pieces(s[1..], q')
      else Attach(s[..1], Pieces(s[1..], q'))
  }

  /** Blank pieces are dropped, the others trimmed and terminated. */
  function Commands(ps: seq<string>): seq<string> {
    if ps == [] then []
    else if Blank(ps[0]) then Commands(ps[1..])
    else [Trim(ps[0], SPACE) + ";"] + Commands(ps[1..])
  }

  function Split(sql: string): seq<string> {
    Commands(Pieces(sql, Outside))
  }

  // The loop

  lemma {:induction false} CommandsAppend(a: seq<string>, b: seq<string>)
    ensures Commands(a + b) == Commands(a) + Commands(b)
  {
    if a == [] {
      assert a + b == b;
    } else {
      assert (a + b)[1..] == a[1..] + b;
      CommandsAppend(a[1..], b);
    }
  }

  /** Leading blanks of a piece make no difference to the commands. */
  lemma BlankAttached(blank: string, ps: seq<string>)
    requires Blank(blank) && ps != []
    ensures Commands(Attach(blank, ps)) == Commands(ps)
  {
    TrimPadded(blank, ps[0], "", SPACE);
    assert blank + ps[0] + "" == blank + ps[0];
    TrimBlank(ps[0], SPACE);
    TrimBlank(blank + ps[0], SPACE);
  }

  lemma {:induction false} EndAppend(a: string, b: string, q: Quote)
    ensures End(a + b, q) == End(b, End(a, q))
  {
    if a == "" {
      assert a + b == b;
    } else {
      assert (a + b)[1..] == a[1..] + b;
      EndAppend(a[1..], b, Step(q, a[0]));
    }
  }

  lemma EndNext(s: string, i: nat, q: Quote)
    requires i < |s|
    ensures End(s[..i + 1], q) == Step(End(s[..i], q), s[i])
  {
    assert s[..i + 1] == s[..i] + [s[i]];
    EndAppend(s[..i], [s[i]], q);
    assert End([s[i]], End(s[..i], q)) == Step(End(s[..i], q), s[i]);
  }

  /** `split_from_semicolon`. A blank command is not cleared but grows into the next one. */
  method SplitFromSemicolon(sql: string) returns (commands: seq<string>)
    ensures commands == Split(sql)
  {
    hide Split, Commands, Attach;
    commands := [];
    var current := "";
    var inSingle, inDouble := false, false;
    ghost var q := Outside;
    assert sql[0..] == sql;
    AttachNothing(Pieces(sql, Outside));
    assert Split(sql) == [] + Commands(Pieces(sql, Outside)) by { SplitIs(sql); }
    for i := 0 to |sql|
      invariant q == End(sql[..i], Outside)
      invariant inSingle == q.Single? && inDouble == q.Double?
      invariant Split(sql) == commands + Commands(Attach(current, Pieces(sql[i..], q)))
    {
      var c := sql[i];
      assert sql[i..][1..] == sql[i + 1..] && sql[i..][..1] == [c];
      EndNext(sql, i, Outside);
      if c == '\'' && !inDouble {
        inSingle := !inSingle;
      } else if c == '"' && !inSingle {
        inDouble := !inDouble;
      }
      q := Step(q, c);
      if c == ';' && !inSingle && !inDouble {
        var rest := Pieces(sql[i + 1..], q);
        SemicolonSplits(current, rest);
        if Trim(current, SPACE) != "" {
          commands := commands + [Trim(current, SPACE) + ";"];
          current := "";
          AttachNothing(rest);
        } else {
          BlankAttached(current, rest);
        }
      } else {
        AttachAttach(current, [c], Pieces(sql[i + 1..], q));
        current := current + [c];
      }
    }
    LastPiece(current);
    assert sql[|sql|..] == "";
    if Trim(current, SPACE) != "" {
      commands := commands + [Trim(current, SPACE) + ";"];
    }
  }

  lemma SplitIs(sql: string)
    ensures Split(sql) == Commands(Pieces(sql, Outside))
  {}

  lemma SemicolonSplits(current: string, rest: seq<string>)
    requires rest != []
    ensures Trim(current, SPACE) == "" <==> Blank(current)
    ensures Commands(Attach(current, [""] + rest))
         == (if Trim(current, SPACE) == "" then [] else [Trim(current, SPACE) + ";"]) + Commands(rest)
  {
    TrimBlank(current, SPACE);
    var a := Attach(current, [""] + rest);
    assert current + "" == current;
    assert a[0] == current && a[1..] == rest;
  }

  lemma LastPiece(current: string)
    ensures Commands(Attach(current, [""]))
         == if Trim(current, SPACE) == "" then [] else [Trim(current, SPACE) + ";"]
  {
    TrimBlank(current, SPACE);
    var a := Attach(current, [""]);
    assert current + "" == current;
    assert a[0] == current && a[1..] == [];
  }

  // Splitting distributes over `;`

  lemma AttachAppend(head: string, a: seq<string>, b: seq<string>)
    requires a != []
    ensures Attach(head, a + b) == Attach(head, a) + b
    ensures ([""] + a) + b == [""] + (a + b)
  {
    hide Attach;
    AttachIs(head, a + b);
    AttachIs(head, a);
    assert (a + b)[0] == a[0] && (a + b)[1..] == a[1..] + b;
    Regroup([head + a[0]], a[1..], b);
    Regroup([""], a, b);
  }

  lemma AttachIs(head: string, parts: seq<string>)
    requires parts != []
    ensures Attach(head, parts) == [head + parts[0]] + parts[1..]
  {
  }

  lemma {:induction false} PiecesAppend(s: string, t: string, q: Quote)
    requires End(s, q) == Outside
    ensures Pieces(s + ";" + t, q) == Pieces(s, q) + Pieces(t, Outside)
  {
    hide Attach;
    var u := s + ";" + t;
    if s == "" {
      assert u[1..] == t && u[0] == ';';
    } else {
      assert u[1..] == s[1..] + ";" + t && u[..1] == s[..1];
      PiecesAppend(s[1..], t, Step(q, s[0]));
      AttachAppend(s[..1], Pieces(s[1..], Step(q, s[0])), Pieces(t, Outside));
    }
  }

  /** If `s` ends outside quotes, then what follows a semicolon is split on its own. */
  lemma SplitAppend(s: string, t: string)
    requires Balanced(s)
    ensures Split(s + ";" + t) == Split(s) + Split(t)
  {
    PiecesAppend(s, t, Outside);
    CommandsAppend(Pieces(s, Outside), Pieces(t, Outside));
  }

  // What a piece is

  /** `p` holds no semicolon outside quotes. */
  predicate Unsplit(p: string, q: Quote) {
    p != "" ==>
      && !(p[0] == ';' && Step(q, p[0]) == Outside)
      && Unsplit(p[1..], Step(q, p[0]))
  }

  lemma {:induction false} UnsplitAppend(a: string, b: string, q: Quote)
    ensures Unsplit(a + b, q) <==> Unsplit(a, q) && Unsplit(b, End(a, q))
  {
    if a == "" {
      assert a + b == b;
    } else {
      assert (a + b)[1..] == a[1..] + b;
      UnsplitAppend(a[1..], b, Step(q, a[0]));
    }
  }

  lemma {:induction false} BlankKeeps(s: string, q: Quote)
    requires Blank(s)
    ensures End(s, q) == q && Unsplit(s, q)
  {
    if s == "" {
    } else {
      assert s[0] in SPACE;
      assert Step(q, s[0]) == q && s[0] != ';';
      BlankKeeps(s[1..], q);
    }
  }

  lemma {:induction false} UnsplitIsOnePiece(p: string, q: Quote)
    requires Unsplit(p, q)
    ensures Pieces(p, q) == [p]
  {
    if p == "" {
    } else {
      UnsplitIsOnePiece(p[1..], Step(q, p[0]));
      assert p[..1] + p[1..] == p;
    }
  }

  lemma TrimKeeps(p: string, q: Quote)
    ensures End(Trim(p, SPACE), q) == End(p, q)
    ensures Unsplit(Trim(p, SPACE), q) <==> Unsplit(p, q)
  {
    var lead, tail := TrimSplits(p, SPACE);
    var t := Trim(p, SPACE);
    BlankKeeps(lead, q);
    EndAppend(lead + t, tail, q);
    EndAppend(lead, t, q);
    UnsplitAppend(lead + t, tail, q);
    UnsplitAppend(lead, t, q);
    BlankKeeps(tail, End(t, q));
  }

  predicate Whole(p: string) {
    Unsplit(p, Outside) && Balanced(p)
  }

  predicate AllWhole(ps: seq<string>) {
    forall i :: 0 <= i < |ps| ==> Whole(ps[i])
  }

  lemma WholeIs(p: string)
    ensures Whole(p) <==> Unsplit(p, Outside) && Balanced(p)
  {}

  /** Every piece is unsplit; all but the last end outside quotes, and the last ends at `end`. */
  predicate PiecesEndAt(ps: seq<string>, q: Quote, end: Quote) {
    && ps != [] && Unsplit(ps[0], q)
    && (|ps| == 1 ==> End(ps[0], q) == end)
    && (|ps| > 1 ==>
         && End(ps[0], q) == Outside
         && AllWhole(ps[1..|ps| - 1])
         && Unsplit(ps[|ps| - 1], Outside)
         && End(ps[|ps| - 1], Outside) == end)
  }

  lemma InnerPieces(rest: seq<string>)
    requires |rest| > 1
    ensures ([""] + rest)[1..|rest|] == [rest[0]] + rest[1..|rest| - 1]
  {
  }

  lemma PiecesBehindSemicolon(rest: seq<string>, end: Quote)
    requires PiecesEndAt(rest, Outside, end)
    ensures PiecesEndAt([""] + rest, Outside, end)
  {
    hide Whole;
    var ps := [""] + rest;
    assert ps[|ps| - 1] == rest[|rest| - 1];
    if |rest| > 1 {
      WholeIs(rest[0]);
      InnerPieces(rest);
    } else {
      assert ps[1..|ps| - 1] == [];
    }
  }

  lemma PiecesBehindCharacter(c: char, rest: seq<string>, q: Quote, end: Quote)
    requires PiecesEndAt(rest, Step(q, c), end) && !(c == ';' && Step(q, c) == Outside)
    ensures PiecesEndAt(Attach([c], rest), q, end)
  {
    hide Whole, Step;
    hide Attach;
    AttachIs([c], rest);
    var first := [c] + rest[0];
    assert first[0] == c && first[1..] == rest[0];
    if |rest| > 1 { SameInside(first, rest); }
  }

  lemma SameInside(first: string, rest: seq<string>)
    requires |rest| > 1
    ensures var ps := [first] + rest[1..];
            ps[1..|ps| - 1] == rest[1..|rest| - 1] && ps[|ps| - 1] == rest[|rest| - 1]
  {
  }

  lemma {:induction false} PiecesWhole(s: string, q: Quote)
    ensures PiecesEndAt(Pieces(s, q), q, End(s, q))
  {
    hide Attach;
    if s == "" {
    } else {
      hide PiecesEndAt;
      var q' := Step(q, s[0]);
      PiecesWhole(s[1..], q');
      if s[0] == ';' && q' == Outside {
        PiecesBehindSemicolon(Pieces(s[1..], q'), End(s, q));
      } else {
        PiecesBehindCharacter(s[0], Pieces(s[1..], q'), q, End(s, q));
        assert s[..1] == [s[0]];
      }
    }
  }

  lemma PiecesFromOutside(s: string)
    ensures var ps := Pieces(s, Outside);
            && AllWhole(ps[..|ps| - 1])
            && Unsplit(ps[|ps| - 1], Outside)
            && End(ps[|ps| - 1], Outside) == End(s, Outside)
  {
    PiecesWhole(s, Outside);
    var ps := Pieces(s, Outside);
    if |ps| > 1 {
      assert ps[..|ps| - 1] == [ps[0]] + ps[1..|ps| - 1];
    }
  }

  // Splitting again

  lemma OneCommand(p: string)
    ensures Commands([p]) == if Blank(p) then [] else [Trim(p, SPACE) + ";"]
  {
    assert [p][1..] == [];
  }

  lemma UnsplitSplit(p: string)
    requires Unsplit(p, Outside)
    ensures Split(p) == if Blank(p) then [] else [Trim(p, SPACE) + ";"]
  {
    UnsplitIsOnePiece(p, Outside);
    OneCommand(p);
  }

  lemma WholeSplit(p: string)
    requires Whole(p)
    ensures Split(Trim(p, SPACE)) == if Blank(p) then [] else [Trim(p, SPACE) + ";"]
    ensures Balanced(Trim(p, SPACE))
  {
    hide Split, Unsplit, End;
    var t := Trim(p, SPACE);
    TrimKeeps(p, Outside);
    UnsplitSplit(t);
    TrimBlank(p, SPACE);
    var lead, tail := TrimSplits(p, SPACE);
    TrimTrimmed(t, SPACE);
    TrimBlank(t, SPACE);
  }

  /** Commands of whole pieces, concatenated, split into themselves, whatever follows them. */
  lemma {:induction false} Resplit(ps: seq<string>, t: string)
    requires AllWhole(ps)
    ensures Split(Concat(Commands(ps)) + t) == Commands(ps) + Split(t)
  {
    hide Split, Whole, Trim, Blank;
    if ps == [] {
      assert Concat(Commands(ps)) + t == t;
    } else {
      var p, rest := ps[0], ps[1..];
      Resplit(rest, t);
      if !Blank(p) {
        var x := Trim(p, SPACE);
        WholeSplit(p);
        var tail := Concat(Commands(rest)) + t;
        assert ([x + ";"] + Commands(rest))[1..] == Commands(rest);
        assert Concat(Commands(ps)) + t == x + ";" + tail;
        SplitAppend(x, tail);
      }
    }
  }

  lemma OpenTail(q: Quote, blank: string)
    requires q != Outside && Blank(blank)
    ensures Unsplit(";" + blank, q)
  {
    BlankKeeps(blank, q);
    assert (";" + blank)[1..] == blank;
  }

  lemma TrimBeforeSemicolon(p: string, blank: string)
    requires !Blank(p) && Blank(blank)
    ensures Trim(p + ";" + blank, SPACE) == Trim(p + ";", SPACE)
    ensures |Trim(p + ";", SPACE)| > |Trim(p, SPACE)|
  {
    hide Trim;
    TrimPadded("", p + ";", blank, SPACE);
    assert "" + (p + ";") + blank == p + ";" + blank;
    var lead, tail := TrimSplits(p, SPACE);
    var core := Trim(p, SPACE) + tail + ";";
    assert p + ";" == lead + core + "";
    TrimPadded(lead, core, "", SPACE);
    TrimBlank(p, SPACE);
    assert core[0] == Trim(p, SPACE)[0];
    TrimTrimmed(core, SPACE);
  }

  /** A piece that ends inside a quote swallows the semicolon that is put behind it. */
  lemma OpenSplit(p: string, blank: string)
    requires Unsplit(p, Outside) && !Balanced(p) && Blank(blank)
    ensures !Blank(p) && Unsplit(p + ";" + blank, Outside)
    ensures Split(p + ";" + blank) == [Trim(p + ";", SPACE) + ";"]
    ensures |Trim(p + ";", SPACE)| > |Trim(p, SPACE)|
  {
    hide Split, Unsplit, End, Trim;
    var u := p + ";" + blank;
    assert u == p + (";" + blank);
    assert !Blank(p) by { if Blank(p) { BlankKeeps(p, Outside); } }
    UnsplitAppend(p, ";" + blank, Outside);
    OpenTail(End(p, Outside), blank);
    UnsplitSplit(u);
    TrimBeforeSemicolon(p, blank);
    assert u[|p|] == ';' && ';' !in SPACE;
  }

  lemma SplitOfPieces(s: string)
    ensures var ps := Pieces(s, Outside);
            Split(s) == Commands(ps[..|ps| - 1]) + Commands([ps[|ps| - 1]])
  {
    var ps := Pieces(s, Outside);
    assert ps == ps[..|ps| - 1] + [ps[|ps| - 1]];
    CommandsAppend(ps[..|ps| - 1], [ps[|ps| - 1]]);
  }

  lemma ConcatOne(x: string)
    ensures Concat([x]) == x
  {
    assert [x][1..] == [] && x + "" == x;
  }

  lemma ResplitOpen(s: string)
    requires !Balanced(s)
    ensures Split(Concat(Split(s))) != Split(s)
  {
    hide Split, Pieces, Commands, Concat, Trim, Unsplit, End, AllWhole;
    var ps := Pieces(s, Outside);
    var init, p := ps[..|ps| - 1], ps[|ps| - 1];
    PiecesFromOutside(s);
    SplitOfPieces(s);
    OneCommand(p);
    var x := Trim(p, SPACE);
    TrimKeeps(p, Outside);
    OpenSplit(p, "");
    OpenSplit(x, "");
    assert x + ";" + "" == x + ";";
    assert Split(s) == Commands(init) + [x + ";"];
    ConcatAppend(Commands(init), [x + ";"]);
    ConcatOne(x + ";");
    Resplit(init, x + ";");
    var lead, tail := TrimSplits(p, SPACE);
    TrimTrimmed(x, SPACE);
    var again := Split(Concat(Split(s)));
    assert again == Commands(init) + [Trim(x + ";", SPACE) + ";"];
    assert again[|again| - 1] != Split(s)[|Split(s)| - 1];
  }

  /** Splitting the concatenated commands gives the same commands back exactly when the
      input ends outside quotes. */
  lemma SplitIsIdempotent(s: string)
    ensures Split(Concat(Split(s))) == Split(s) <==> Balanced(s)
  {
    if Balanced(s) {
      var ps := Pieces(s, Outside);
      PiecesFromOutside(s);
      assert ps == ps[..|ps| - 1] + [ps[|ps| - 1]];
      Resplit(ps, "");
      assert Concat(Commands(ps)) + "" == Concat(Commands(ps));
      assert Blank("") && Split("") == [];
    } else {
      ResplitOpen(s);
    }
  }

  // The validator and the read loop

  datatype ParseOutcome = NoStatement | Statements | SyntaxError

  datatype Validation =
    | Valid
    | UnknownDialect
    | EmptyStatement
    | InvalidStatement
    | Incomplete

  predicate Terminated(input: string) {
    input != "" && input[|input| - 1] == ';'
  }

  /** The verdict on the first command that does not parse into statements. */
  function Verdict(commands: seq<string>, parse: string -> ParseOutcome): Validation {
    if commands == [] then Valid
    else match parse(commands[0])
      case NoStatement => EmptyStatement
      case SyntaxError => InvalidStatement
      case Statements => Verdict(commands[1..], parse)
  }

  lemma {:induction false} VerdictValid(commands: seq<string>, parse: string -> ParseOutcome)
    ensures Verdict(commands, parse) == Valid
       <==> forall i :: 0 <= i < |commands| ==> parse(commands[i]) == Statements
  {
    if commands == [] {
    } else {
      VerdictValid(commands[1..], parse);
      assert commands == [commands[0]] + commands[1..];
    }
  }

  /** `validate_input`, on the input the validator has trimmed. */
  method ValidateInput(input: string, dialectKnown: bool, parse: string -> ParseOutcome) returns (r: Validation)
    ensures Terminated(input) && !dialectKnown ==> r == UnknownDialect
    ensures Terminated(input) && dialectKnown ==> r == Verdict(Split(input[..|input| - 1]), parse)
    ensures !Terminated(input) ==> r == if "\\" <= input then Valid else Incomplete
  {
    if input != "" && input[|input| - 1] == ';' {
      if !dialectKnown {
        return UnknownDialect;
      }
      var lines := SplitFromSemicolon(input[..|input| - 1]);
      for i := 0 to |lines|
        invariant Verdict(lines, parse) == Verdict(lines[i..], parse)
      {
        assert lines[i..][0] == lines[i] && lines[i..][1..] == lines[i + 1..];
        match parse(lines[i])
        case NoStatement => return EmptyStatement;
        case SyntaxError => return InvalidStatement;
        case Statements =>
      }
      return Valid;
    } else if "\\" <= input {
      return Valid;
    } else {
      return Incomplete;
    }
  }

  /** What the read loop runs as SQL: nothing of a line that starts with a backslash. */
  function Runs(line: string): seq<string> {
    if "\\" <= line then [] else Split(line)
  }

  lemma BackslashRunsNothing(rest: string, line: string)
    ensures Runs("\\" + rest) == []
    ensures line == "" || line[0] != '\\' ==> Runs(line) == Split(line)
  {
  }

  /** The line without its last semicolon and the blanks behind it splits as the whole line does,
      exactly when it ends outside quotes. */
  lemma SplitsAlike(line: string, sql: string)
    requires TrimEnd(line, SPACE) == sql + ";"
    ensures Split(sql) == Split(line) <==> Balanced(sql)
  {
    hide Split;
    var blank := TrimEndSplits(line, SPACE);
    assert line == sql + ";" + blank;
    if Balanced(sql) {
      SplitAppend(sql, blank);
      BlankKeeps(blank, Outside);
      UnsplitIsOnePiece(blank, Outside);
      SplitIs(blank);
      OneCommand(blank);
    } else {
      var c := OpenLineRunsUnseen(sql, blank);
    }
  }

  /** The validator splits the line without its last semicolon, also if it starts with a backslash; the
      read loop splits the whole line, unless it does. They see the same commands exactly when it does
      not and the text before that semicolon ends outside quotes. */
  lemma ValidatorSeesWhatRuns(line: string, sql: string)
    requires TrimEnd(line, SPACE) == sql + ";"
    ensures Split(sql) == Runs(line) <==> !("\\" <= line) && Balanced(sql)
  {
    hide Split;
    if "\\" <= line {
      BackslashIsStart(line, sql);
      SplitsSomething(sql, 0);
    } else {
      SplitsAlike(line, sql);
    }
  }

  lemma BackslashIsStart(line: string, sql: string)
    requires TrimEnd(line, SPACE) == sql + ";" && "\\" <= line
    ensures sql != "" && sql[0] == '\\'
  {
    var blank := TrimEndSplits(line, SPACE);
    assert line[0] == (sql + ";")[0];
  }

  /** Text with a character that is no space, quote or semicolon holds a command. */
  lemma {:induction false} PiecesHold(s: string, q: Quote, i: nat)
    requires i < |s| && s[i] !in SPACE && s[i] != ';'
    ensures exists p <- Pieces(s, q) :: !Blank(p)
  {
    hide Attach;
    var q' := Step(q, s[0]);
    var rest := Pieces(s[1..], q');
    if i == 0 {
      AttachIs(s[..1], rest);
      var p := Pieces(s, q)[0];
      assert p in Pieces(s, q) && p[0] == s[0] && !Blank(p);
    } else {
      PiecesHold(s[1..], q', i - 1);
      var p :| p in rest && !Blank(p);
      if s[0] == ';' && q' == Outside {
        assert p in Pieces(s, q);
      } else {
        AttachIs(s[..1], rest);
        if p == rest[0] {
          NotBlankBehind(s[..1], p);
          assert s[..1] + p in Pieces(s, q);
        } else {
          assert p in rest[1..];
          assert p in Pieces(s, q);
        }
      }
    }
  }

  lemma NotBlankBehind(a: string, b: string)
    requires !Blank(b)
    ensures !Blank(a + b)
  {
    var i :| 0 <= i < |b| && b[i] !in SPACE;
    assert (a + b)[|a| + i] == b[i];
  }

  lemma {:induction false} CommandsOfSome(ps: seq<string>, p: string)
    requires p in ps && !Blank(p)
    ensures Commands(ps) != []
  {
    hide Blank, Trim;
    if Blank(ps[0]) { CommandsOfSome(ps[1..], p); }
  }

  lemma SplitsSomething(s: string, i: nat)
    requires i < |s| && s[i] !in SPACE && s[i] != ';'
    ensures Split(s) != []
  {
    hide Blank;
    PiecesHold(s, Outside, i);
    var p :| p in Pieces(s, Outside) && !Blank(p);
    CommandsOfSome(Pieces(s, Outside), p);
  }

  /** `t` is put behind the last piece. */
  function Extend(ps: seq<string>, t: string): (r: seq<string>)
    requires ps != []
    ensures r != []
  {
    ps[..|ps| - 1] + [ps[|ps| - 1] + t]
  }

  lemma ExtendBehind(head: string, ps: seq<string>, t: string)
    requires ps != []
    ensures Extend([head] + ps, t) == [head] + Extend(ps, t)
    ensures Extend(Attach(head, ps), t) == Attach(head, Extend(ps, t))
  {
    var a := [head] + ps;
    assert a[..|a| - 1] == [head] + ps[..|ps| - 1];
    var b := Attach(head, ps);
    if |ps| == 1 {
      assert head + (ps[0] + t) == head + ps[0] + t;
    } else {
      assert b[..|b| - 1] == [head + ps[0]] + ps[1..|ps| - 1];
      assert Extend(ps, t)[1..] == ps[1..|ps| - 1] + [ps[|ps| - 1] + t];
    }
  }

  /** Text that ends no statement extends the last piece. */
  lemma {:induction false} OpenPieces(s: string, t: string, q: Quote)
    requires Unsplit(t, End(s, q))
    ensures Pieces(s + t, q) == Extend(Pieces(s, q), t)
  {
    hide Attach, Extend, Unsplit;
    if s == "" {
      assert s + t == t;
      UnsplitIsOnePiece(t, q);
      ExtendOne(t);
    } else {
      var q' := Step(q, s[0]);
      assert (s + t)[1..] == s[1..] + t && (s + t)[..1] == s[..1];
      OpenPieces(s[1..], t, q');
      ExtendBehind(if s[0] == ';' && q' == Outside then "" else s[..1], Pieces(s[1..], q'), t);
    }
  }

  lemma ExtendOne(t: string)
    ensures Extend([""], t) == [t]
  {
    assert "" + t == t;
  }

  /** Inside quotes the last semicolon belongs to the last command. */
  lemma OpenLineSplit(sql: string, blank: string)
    requires !Balanced(sql) && Blank(blank)
    ensures var ps := Pieces(sql, Outside);
            Split(sql + ";" + blank) == Commands(ps[..|ps| - 1]) + [Trim(ps[|ps| - 1] + ";", SPACE) + ";"]
  {
    hide Split, Unsplit, Blank;
    var ps := Pieces(sql, Outside);
    var init, p := ps[..|ps| - 1], ps[|ps| - 1];
    PiecesFromOutside(sql);
    OpenSplit(p, blank);
    OpenTail(End(sql, Outside), blank);
    OpenPieces(sql, ";" + blank, Outside);
    var line, u := sql + ";" + blank, p + ";" + blank;
    assert line == sql + (";" + blank) && u == p + (";" + blank);
    SplitIs(line);
    CommandsAppend(init, [u]);
    UnsplitIsOnePiece(u, Outside);
    SplitIs(u);
  }

  /** A command of whole pieces ends outside quotes before its semicolon. */
  lemma {:induction false} CommandIsWhole(ps: seq<string>, c: string)
    requires AllWhole(ps) && c in Commands(ps)
    ensures c != "" && Balanced(c[..|c| - 1])
  {
    hide Trim, Blank, Balanced, Unsplit;
    if ps == [] {
    } else {
      var x := Trim(ps[0], SPACE);
      WholeSplit(ps[0]);
      if c == x + ";" && !Blank(ps[0]) {
        assert c[..|c| - 1] == x;
      } else {
        CommandIsWhole(ps[1..], c);
      }
    }
  }

  /** From a line that is split inside quotes the loop runs a command the validator has not seen. */
  lemma OpenLineRunsUnseen(sql: string, blank: string) returns (c: string)
    requires !Balanced(sql) && Blank(blank)
    ensures c in Split(sql + ";" + blank) && c !in Split(sql)
  {
    hide Split, Unsplit, Blank, Trim, AllWhole;
    var ps := Pieces(sql, Outside);
    var init, p := ps[..|ps| - 1], ps[|ps| - 1];
    PiecesFromOutside(sql);
    SplitOfPieces(sql);
    OneCommand(p);
    OpenSplit(p, blank);
    OpenLineSplit(sql, blank);
    var x := Trim(p + ";", SPACE);
    c := x + ";";
    EndAppend(p, ";", Outside);
    TrimKeeps(p + ";", Outside);
    assert c[..|c| - 1] == x && !Balanced(x);
    if c in Commands(init) { CommandIsWhole(init, c); }
  }

  /** The read loop is sure to run only parsed commands from an accepted line, whatever the parser
      accepts, exactly when the line starts with a backslash, so that it runs none, or the text before
      the last semicolon ends outside quotes. */
  lemma AcceptedCommandsParse(line: string, sql: string)
    requires TrimEnd(line, SPACE) == sql + ";"
    ensures (forall parse :: Verdict(Split(sql), parse) == Valid ==>
                               forall i :: 0 <= i < |Runs(line)| ==> parse(Runs(line)[i]) == Statements) <==>
            "\\" <= line || Balanced(sql)
  {
    hide Split, Verdict;
    if "\\" <= line {
    } else if Balanced(sql) {
      SplitsAlike(line, sql);
      forall parse | Verdict(Split(sql), parse) == Valid
        ensures forall i :: 0 <= i < |Runs(line)| ==> parse(Runs(line)[i]) == Statements
      {
        VerdictValid(Split(line), parse);
      }
    } else {
      var blank := TrimEndSplits(line, SPACE);
      assert line == sql + ";" + blank;
      var c := OpenLineRunsUnseen(sql, blank);
      var seen := (x: string) => if x in Split(sql) then Statements else SyntaxError;
      VerdictValid(Split(sql), seen);
      assert c in Runs(line) && seen(c) == SyntaxError;
    }
  }
}
