/** Splitting the text of a query file into statements: `split_query_statements` of
    benchmarks/src/sql_benchmark.rs. */
module SqlStatements {
  import opened Text
  import opened TextSearch

  const BREAK := "\n\n"
  const STOP := ";\n"

  /** `split("\n\n")` */
  function Paragraphs(s: string): (r: seq<string>)
    ensures r != []
  {
    if s == "" then [""]
    else if BREAK <= s then [""] + Paragraphs(s[2..])
    else Attach(s[..1], Paragraphs(s[1..]))
  }

  /** `split_inclusive(";\n")`, which has no empty part at the end. */
  function Parts(s: string): seq<string> {
    if s == "" then []
    else if STOP <= s then [STOP] + Parts(s[2..])
    else Attach(s[..1], Parts(s[1..]))
  }

  /** `trim_end_matches('\n')` of each part, without the blank ones. */
  function Kept(parts: seq<string>): seq<string> {
    if parts == [] then []
    else (if Blank(parts[0]) then [] else [TrimEnd(parts[0], {'\n'})]) + Kept(parts[1..])
  }

  function KeptOfAll(paragraphs: seq<string>): seq<string> {
    if paragraphs == [] then [] else Kept(Parts(paragraphs[0])) + KeptOfAll(paragraphs[1..])
  }

  function Statements(sql: string): seq<string> {
    KeptOfAll(Paragraphs(sql))
  }

  // No statement holds a separator

  predicate Lacks(s: string, p: string) {
    forall i :: 0 <= i < |s| ==> !(p <= s[i..])
  }

  lemma LacksCons(c: char, rest: string, p: string)
    requires Lacks(rest, p) && !(p <= [c] + rest)
    ensures Lacks([c] + rest, p)
  {
    var s := [c] + rest;
    forall i | 0 <= i < |s| ensures !(p <= s[i..]) {
      if i == 0 { assert s[0..] == s; } else { assert s[i..] == rest[i - 1..]; }
    }
  }

  lemma LacksPrefix(s: string, n: nat, p: string)
    requires n <= |s| && Lacks(s, p)
    ensures Lacks(s[..n], p)
  {
    forall i | 0 <= i < n ensures !(p <= s[..n][i..]) {
      assert s[i..] == s[..n][i..] + s[n..];
    }
  }

  lemma {:induction false} ParagraphsLackBreaks(s: string, i: nat)
    requires i < |Paragraphs(s)|
    ensures Lacks(Paragraphs(s)[i], BREAK)
    ensures i == 0 ==> Paragraphs(s)[0] <= s
  {
    if s == "" {
    } else {
      if BREAK <= s {
        if i > 0 { ParagraphsLackBreaks(s[2..], i - 1); }
      } else {
        var rest := Paragraphs(s[1..]);
        ParagraphsLackBreaks(s[1..], i);
        if i == 0 {
          var first := s[..1] + rest[0];
          assert s == s[..1] + s[1..];
          assert first <= s;
          assert BREAK <= first ==> BREAK <= s;
          LacksCons(s[0], rest[0], BREAK);
          assert [s[0]] + rest[0] == first;
        }
      }
    }
  }

  /** A part is text without `;\n`, possibly with `;\n` behind it. */
  predicate Part(x: string) {
    (Lacks(x, STOP) && x != "") || (|x| >= 2 && x[|x| - 2..] == STOP && Lacks(x[..|x| - 1], STOP))
  }

  lemma {:induction false} PartsStopOnce(s: string, i: nat)
    requires i < |Parts(s)|
    ensures Part(Parts(s)[i]) && (i == 0 ==> Parts(s)[0] <= s)
  {
    hide Part;
    SmallParts(s);
    if STOP <= s {
      if i > 0 {
        PartsStopOnce(s[2..], i - 1);
      }
    } else {
      var rest := Parts(s[1..]);
      if i < |rest| { PartsStopOnce(s[1..], i); }
      if i == 0 && rest != [] { PartGrows(s, rest[0]); }
    }
  }

  lemma SmallParts(s: string)
    ensures Part(STOP) && (s != "" ==> Part(s[..1]))
  {
    assert STOP[..1] == ";" && !(STOP <= ";"[0..]);
    if s != "" { assert !(STOP <= s[..1][0..]); }
  }

  lemma PartGrows(s: string, x: string)
    requires s != "" && !(STOP <= s) && x <= s[1..] && Part(x)
    ensures Part(s[..1] + x) && s[..1] + x <= s
  {
    var y := s[..1] + x;
    assert s == s[..1] + s[1..] && y == [s[0]] + x;
    assert STOP <= y ==> STOP <= s;
    if Lacks(x, STOP) {
      LacksCons(s[0], x, STOP);
    } else {
      var z := x[..|x| - 1];
      assert y[|y| - 2..] == x[|x| - 2..] && y[..|y| - 1] == [s[0]] + z;
      assert STOP <= [s[0]] + z ==> STOP <= y;
      LacksCons(s[0], z, STOP);
    }
  }

  /** Trimming the newlines at the end of a part leaves no `;\n` in it. */
  lemma TrimmedPartLacksStop(x: string)
    requires Part(x)
    ensures Lacks(TrimEnd(x, {'\n'}), STOP)
  {
    var t := TrimEnd(x, {'\n'});
    var tail := TrimEndSplits(x, {'\n'});
    assert t == x[..|t|];
    if Lacks(x, STOP) {
      LacksPrefix(x, |t|, STOP);
    } else {
      assert x[|x| - 2..][1] == x[|x| - 1];
      assert x[|x| - 1] == '\n';
      assert |t| <= |x| - 1;
      assert t == x[..|x| - 1][..|t|];
      LacksPrefix(x[..|x| - 1], |t|, STOP);
    }
  }

  lemma LacksSuffix(s: string, n: nat, p: string)
    requires n <= |s| && Lacks(s, p)
    ensures Lacks(s[n..], p)
  {
    forall i | 0 <= i < |s| - n ensures !(p <= s[n..][i..]) {
      assert s[n..][i..] == s[n + i..];
    }
  }

  lemma {:induction false} PartsLackToo(s: string, i: nat, p: string)
    requires Lacks(s, p) && i < |Parts(s)|
    ensures Lacks(Parts(s)[i], p)
  {
    PartsStopOnce(s, i);
    if i == 0 {
      LacksPrefix(s, |Parts(s)[0]|, p);
      assert s[..|Parts(s)[0]|] == Parts(s)[0];
    } else if STOP <= s {
      LacksSuffix(s, 2, p);
      PartsLackToo(s[2..], i - 1, p);
    } else {
      LacksSuffix(s, 1, p);
      PartsLackToo(s[1..], i, p);
    }
  }

  /** A statement: not blank, and without a separator. */
  predicate Clean(x: string) {
    !Blank(x) && Lacks(x, STOP) && Lacks(x, BREAK)
  }

  lemma PartIsClean(paragraph: string, i: nat)
    requires Lacks(paragraph, BREAK) && i < |Parts(paragraph)| && !Blank(Parts(paragraph)[i])
    ensures Clean(TrimEnd(Parts(paragraph)[i], {'\n'}))
  {
    hide Blank, Lacks;
    var x := Parts(paragraph)[i];
    PartsStopOnce(paragraph, i);
    TrimmedPartLacksStop(x);
    PartsLackToo(paragraph, i, BREAK);
    TrimIsPrefix(x);
    LacksPrefix(x, |TrimEnd(x, {'\n'})|, BREAK);
  }

  lemma TrimIsPrefix(x: string)
    ensures var t := TrimEnd(x, {'\n'});
            |t| <= |x| && t == x[..|t|] && (Blank(t) <==> Blank(x)) && DropSpace(t) == DropSpace(x)
  {
    var t := TrimEnd(x, {'\n'});
    var tail := TrimEndSplits(x, {'\n'});
    assert Blank(tail);
    DropSpaceAppend(t, tail);
    DropSpaceBlank(tail);
    if Blank(x) { assert forall i :: 0 <= i < |t| ==> t[i] == x[i]; }
  }

  predicate AllClean(xs: seq<string>) {
    forall i :: 0 <= i < |xs| ==> Clean(xs[i])
  }

  lemma {:induction false} KeptAreClean(parts: seq<string>)
    requires forall i :: 0 <= i < |parts| ==> Blank(parts[i]) || Clean(TrimEnd(parts[i], {'\n'}))
    ensures AllClean(Kept(parts))
  {
    hide Clean, Blank;
    if parts == [] {
    } else {
      KeptAreClean(parts[1..]);
    }
  }

  lemma {:induction false} AllKeptAreClean(paragraphs: seq<string>)
    requires forall i :: 0 <= i < |paragraphs| ==> Lacks(paragraphs[i], BREAK)
    ensures AllClean(KeptOfAll(paragraphs))
  {
    hide Clean, Blank, Lacks, Parts, Kept;
    if paragraphs == [] {
    } else {
      var parts := Parts(paragraphs[0]);
      forall i | 0 <= i < |parts| ensures Blank(parts[i]) || Clean(TrimEnd(parts[i], {'\n'})) {
        if !Blank(parts[i]) { PartIsClean(paragraphs[0], i); }
      }
      KeptAreClean(parts);
      AllKeptAreClean(paragraphs[1..]);
    }
  }

  /** No statement is blank, or holds `;\n` or a blank line. */
  lemma StatementsAreClean(sql: string)
    ensures AllClean(Statements(sql))
  {
    hide Lacks, Clean;
    var ps := Paragraphs(sql);
    forall i | 0 <= i < |ps| ensures Lacks(ps[i], BREAK) {
      ParagraphsLackBreaks(sql, i);
    }
    AllKeptAreClean(ps);
  }

  // Nothing but white space is lost

  function DropSpace(s: string): string {
    if s == "" then "" else if s[0] in SPACE then DropSpace(s[1..]) else [s[0]] + DropSpace(s[1..])
  }

  lemma {:induction false} DropSpaceAppend(a: string, b: string)
    ensures DropSpace(a + b) == DropSpace(a) + DropSpace(b)
  {
    if a == "" {
      assert a + b == b;
    } else {
      assert (a + b)[1..] == a[1..] + b && (a + b)[0] == a[0];
      DropSpaceAppend(a[1..], b);
      var x, y := DropSpace(a[1..]), DropSpace(b);
      assert [a[0]] + (x + y) == [a[0]] + x + y;
    }
  }

  lemma {:induction false} DropSpaceBlank(s: string)
    requires Blank(s)
    ensures DropSpace(s) == ""
  {
    if s == "" {
    } else {
      DropSpaceBlank(s[1..]);
    }
  }

  lemma ConcatNothing()
    ensures Concat([]) == ""
  {}

  lemma AttachConcat(head: string, parts: seq<string>)
    ensures Concat(Attach(head, parts)) == head + Concat(parts)
  {
    if parts == [] {
      assert [head][1..] == [] && head + "" == head;
    } else {
      assert Attach(head, parts)[1..] == parts[1..];
    }
  }

  lemma ConcatCons(x: string, rest: seq<string>)
    ensures Concat([x] + rest) == x + Concat(rest)
  {
    assert ([x] + rest)[1..] == rest;
  }

  lemma {:induction false} PartsConcat(s: string)
    ensures Concat(Parts(s)) == s
  {
    hide Attach, Concat;
    if s == "" {
      ConcatNothing();
    } else {
      if STOP <= s {
        PartsConcat(s[2..]);
        ConcatCons(STOP, Parts(s[2..]));
        assert s == STOP + s[2..];
      } else {
        PartsConcat(s[1..]);
        AttachConcat(s[..1], Parts(s[1..]));
        assert s == s[..1] + s[1..];
      }
    }
  }

  lemma {:induction false} ParagraphsConcat(s: string)
    ensures DropSpace(Concat(Paragraphs(s))) == DropSpace(s)
  {
    if s == "" {
      assert Concat([""]) == "" by { assert [""][1..] == []; }
    } else if BREAK <= s {
      ParagraphsConcat(s[2..]);
      assert ([""] + Paragraphs(s[2..]))[1..] == Paragraphs(s[2..]);
      assert "" + Concat(Paragraphs(s[2..])) == Concat(Paragraphs(s[2..]));
      assert s == BREAK + s[2..];
      DropSpaceAppend(BREAK, s[2..]);
      DropSpaceBlank(BREAK);
    } else {
      ParagraphsConcat(s[1..]);
      AttachConcat(s[..1], Paragraphs(s[1..]));
      DropSpaceAppend(s[..1], Concat(Paragraphs(s[1..])));
      DropSpaceAppend(s[..1], s[1..]);
      assert s == s[..1] + s[1..];
    }
  }

  lemma {:induction false} KeptConcat(parts: seq<string>)
    ensures DropSpace(Concat(Kept(parts))) == DropSpace(Concat(parts))
  {
    if parts == [] {
    } else {
      hide Blank, TrimEnd;
      var x, rest := parts[0], parts[1..];
      KeptConcat(rest);
      DropSpaceAppend(x, Concat(rest));
      if Blank(x) {
        DropSpaceBlank(x);
        assert [] + Kept(rest) == Kept(rest);
      } else {
        TrimIsPrefix(x);
        assert Kept(parts)[1..] == Kept(rest);
        DropSpaceAppend(TrimEnd(x, {'\n'}), Concat(Kept(rest)));
      }
    }
  }

  lemma {:induction false} KeptOfAllConcat(paragraphs: seq<string>)
    ensures DropSpace(Concat(KeptOfAll(paragraphs))) == DropSpace(Concat(paragraphs))
  {
    if paragraphs == [] {
    } else {
      hide Kept, Parts, DropSpace;
      var x, rest := paragraphs[0], paragraphs[1..];
      KeptOfAllConcat(rest);
      KeptConcat(Parts(x));
      PartsConcat(x);
      ConcatAppend(Kept(Parts(x)), KeptOfAll(rest));
      DropSpaceAppend(Concat(Kept(Parts(x))), Concat(KeptOfAll(rest)));
      DropSpaceAppend(x, Concat(rest));
    }
  }

  /** Splitting loses only white space: without it, the statements concatenated are the input. */
  lemma StatementsLoseNothing(sql: string)
    ensures DropSpace(Concat(Statements(sql))) == DropSpace(sql)
  {
    KeptOfAllConcat(Paragraphs(sql));
    ParagraphsConcat(sql);
  }

  // Joining and splitting again

  /** A complete statement: it ends in a semicolon. */
  predicate Complete(x: string) {
    Clean(x) && x[|x| - 1] == ';'
  }

  /** A paragraph break or the end of the text follows. */
  lemma {:induction false} ParagraphsAfter(x: string, rest: string)
    requires Lacks(x, BREAK) && (x != "" ==> x[|x| - 1] != '\n')
    ensures Paragraphs(x + BREAK + rest) == [x] + Paragraphs(rest)
  {
    var s := x + BREAK + rest;
    if x == "" {
      assert s[2..] == rest;
    } else {
      assert s[1..] == x[1..] + BREAK + rest && s[..1] == x[..1];
      assert x[0..] == x;
      if |x| > 1 { assert BREAK <= s ==> BREAK <= x; } else { assert s[0] == x[0]; }
      LacksSuffix(x, 1, BREAK);
      ParagraphsAfter(x[1..], rest);
      assert x[..1] + x[1..] == x;
    }
  }

  lemma NoBreakAtStart(x: string, rest: string)
    requires Lacks(x, BREAK) && x != "" && (rest == "" || x[|x| - 1] != '\n' || rest[0] != '\n')
    ensures !(BREAK <= x + rest)
  {
    var s := x + rest;
    assert x[0..] == x;
    if |x| > 1 { assert BREAK <= s ==> BREAK <= x; } else { assert s[0] == x[0] && (rest != "" ==> s[1] == rest[0]); }
  }

  lemma ParagraphsFirst(s: string)
    requires s != "" && !(BREAK <= s)
    ensures Paragraphs(s) == Attach(s[..1], Paragraphs(s[1..]))
  {
  }

  lemma {:induction false} ParagraphsExtend(x: string, rest: string)
    requires Lacks(x, BREAK) && (x != "" ==> rest == "" || x[|x| - 1] != '\n' || rest[0] != '\n')
    ensures Paragraphs(x + rest) == Attach(x, Paragraphs(rest))
  {
    hide Lacks, Paragraphs, Attach;
    var s := x + rest;
    if x == "" {
      assert s == rest;
      AttachNothing(Paragraphs(rest));
    } else {
      assert s[1..] == x[1..] + rest && s[..1] == x[..1];
      NoBreakAtStart(x, rest);
      LacksSuffix(x, 1, BREAK);
      ParagraphsExtend(x[1..], rest);
      ParagraphsFirst(s);
      AttachAttach(x[..1], x[1..], Paragraphs(rest));
      assert x[..1] + x[1..] == x;
    }
  }

  lemma {:induction false} PartsAfter(x: string, rest: string)
    requires Lacks(x, STOP) && x != "" && x[|x| - 1] == ';'
    ensures Parts(x + "\n" + rest) == [x + "\n"] + Parts(rest)
  {
    var s := x + "\n" + rest;
    assert x[0..] == x;
    if |x| == 1 {
      assert s[..2] == STOP && s[2..] == rest && x + "\n" == STOP;
    } else {
      assert s[1..] == x[1..] + "\n" + rest && s[..1] == x[..1];
      assert STOP <= s ==> STOP <= x;
      LacksSuffix(x, 1, STOP);
      PartsAfter(x[1..], rest);
      assert x[..1] + (x[1..] + "\n") == x + "\n";
    }
  }

  lemma {:induction false} PartsWhole(x: string)
    requires Lacks(x, STOP) && x != ""
    ensures Parts(x) == [x]
  {
    assert x[0..] == x;
    if |x| == 1 {
      assert x[1..] == "" && x[..1] == x;
    } else {
      LacksSuffix(x, 1, STOP);
      PartsWhole(x[1..]);
      assert x[..1] + x[1..] == x;
    }
  }

  lemma BlankParts(a: string, b: string)
    ensures Blank(a + b) ==> Blank(a)
  {
    if Blank(a + b) { assert forall i :: 0 <= i < |a| ==> a[i] == (a + b)[i]; }
  }

  lemma CompleteIsSome(x: string)
    requires Complete(x)
    ensures x != ""
  {}

  lemma CompleteKept(x: string, tail: string, rest: seq<string>)
    requires Complete(x) && (tail == "" || tail == "\n")
    ensures Kept([x + tail] + rest) == [x] + Kept(rest)
  {
    hide Lacks;
    assert ([x + tail] + rest)[1..] == rest;
    TrimEndPadded(x, tail, {'\n'});
    assert TrimEnd(x, {'\n'}) == x;
    BlankParts(x, tail);
  }

  lemma OneStatement(x: string)
    requires Complete(x)
    ensures Kept(Parts(x)) == [x]
  {
    CompleteIsSome(x);
    hide Lacks, Blank, Kept, Parts;
    PartsWhole(x);
    CompleteKept(x, "", []);
    assert x + "" == x && [x] + [] == [x];
    KeptNone();
  }

  lemma CompleteLast(x: string)
    requires Complete(x)
    ensures Statements(x) == [x]
  {
    CompleteIsSome(x);
    hide Lacks, Blank, Kept, Parts;
    ParagraphsExtend(x, "");
    assert x + "" == x;
    OneStatement(x);
    KeptOfAllCons(x, []);
    assert [x] + [] == [x];
  }

  lemma KeptNone()
    ensures Kept([]) == []
  {}

  lemma CompleteThenBreak(x: string, rest: string)
    requires Complete(x)
    ensures Statements(x + BREAK + rest) == [x] + Statements(rest)
  {
    CompleteIsSome(x);
    hide Lacks, Blank, Kept, Parts;
    ParagraphsAfter(x, rest);
    OneStatement(x);
    KeptOfAllCons(x, Paragraphs(rest));
  }

  lemma KeptOfAllCons(p: string, rest: seq<string>)
    ensures KeptOfAll([p] + rest) == Kept(Parts(p)) + KeptOfAll(rest)
  {
    assert ([p] + rest)[1..] == rest;
  }

  lemma CompleteThenLine(x: string, rest: string)
    requires Complete(x) && rest != "" && rest[0] != '\n'
    ensures Statements(x + "\n" + rest) == [x] + Statements(rest)
  {
    CompleteIsSome(x);
    hide Lacks, Blank, Kept, Paragraphs, Parts, KeptOfAll;
    LineLacksBreak(x);
    ParagraphsExtend(x + "\n", rest);
    var p := Paragraphs(rest);
    var first := x + "\n" + p[0];
    PartsAfter(x, p[0]);
    CompleteKept(x, "\n", Parts(p[0]));
    assert Attach(x + "\n", p) == [first] + p[1..];
    KeptOfAllCons(first, p[1..]);
    KeptOfAllCons(p[0], p[1..]);
    assert p == [p[0]] + p[1..];
    assert [x] + Kept(Parts(p[0])) + KeptOfAll(p[1..]) == [x] + (Kept(Parts(p[0])) + KeptOfAll(p[1..]));
  }

  lemma LineLacksBreak(x: string)
    requires Complete(x)
    ensures Lacks(x + "\n", BREAK)
  {
    CompleteIsSome(x);
    var s := x + "\n";
    forall i | 0 <= i < |s| ensures !(BREAK <= s[i..]) {
      if i < |x| {
        assert s[i..] == x[i..] + "\n";
        BreakInside(x, i);
      }
    }
  }

  lemma BreakInside(x: string, i: nat)
    requires i < |x| && !(BREAK <= x[i..]) && x[|x| - 1] == ';'
    ensures !(BREAK <= x[i..] + "\n")
  {
    var y := x[i..];
    assert y[|y| - 1] == ';';
    if |y| == 1 {
      assert (y + "\n")[0] == ';';
    } else {
      assert (y + "\n")[..2] == y[..2];
    }
  }

  function DropNewline(x: string): string {
    if x != "" && x[0] == '\n' then x[1..] else x
  }

  function DropNewlines(xs: seq<string>): seq<string> {
    if xs == [] then [] else [DropNewline(xs[0])] + DropNewlines(xs[1..])
  }

  lemma DroppedIsComplete(x: string)
    requires Complete(x)
    ensures Complete(DropNewline(x)) && DropNewline(x) != "" && DropNewline(x)[0] != '\n'
  {
    CompleteIsSome(x);
    var y := DropNewline(x);
    assert x[0..] == x;
    if x[0] == '\n' {
      assert |x| > 1;
      LacksSuffix(x, 1, STOP);
      LacksSuffix(x, 1, BREAK);
      assert y[|y| - 1] == ';';
    }
  }

  /** Joining complete statements by newlines and splitting the result gives them back, except
      that a statement behind another loses a newline it starts with. */
  lemma {:induction false} JoinThenSplit(xs: seq<string>)
    requires xs != [] && forall i :: 0 <= i < |xs| ==> Complete(xs[i])
    ensures Statements(Join(xs, "\n")) == [xs[0]] + DropNewlines(xs[1..])
    decreases |xs|
  {
    hide Complete, Statements, Join;
    var x, rest := xs[0], xs[1..];
    assert xs == [x] + rest;
    JoinFirst(x, rest);
    if rest == [] {
      CompleteLast(x);
    } else {
      var y := DropNewline(rest[0]);
      DroppedIsComplete(rest[0]);
      var ys := [y] + rest[1..];
      JoinThenSplit(ys);
      assert ys[1..] == rest[1..];
      NextStatement(x, rest[0], rest[1..]);
      assert rest == [rest[0]] + rest[1..];
    }
  }

  lemma TwoNewlines(x: string, y: string, more: string)
    ensures x + ("\n" + ("\n" + y + more)) == x + BREAK + (y + more)
  {
    assert "\n" + ("\n" + y + more) == BREAK + (y + more);
    assert x + (BREAK + (y + more)) == x + BREAK + (y + more);
  }

  lemma NextStatement(x: string, z: string, rest: seq<string>)
    requires Complete(x) && Complete(z)
    ensures Statements(x + ("\n" + Join([z] + rest, "\n"))) == [x] + Statements(Join([DropNewline(z)] + rest, "\n"))
  {
    hide Complete, Statements, Join;
    var y := DropNewline(z);
    DroppedIsComplete(z);
    JoinFirst(z, rest);
    JoinFirst(y, rest);
    var tail := Join([y] + rest, "\n");
    var more := if rest == [] then "" else "\n" + Join(rest, "\n");
    assert y + "" == y && z + "" == z;
    assert tail == y + more;
    if z == y {
      CompleteThenLine(x, tail);
      assert x + ("\n" + tail) == x + "\n" + tail;
    } else {
      TwoNewlines(x, y, more);
      assert z == "\n" + y && Join([z] + rest, "\n") == z + more;
      CompleteThenBreak(x, tail);
    }
  }

  lemma JoinFirst(x: string, rest: seq<string>)
    ensures Join([x] + rest, "\n") == if rest == [] then x else x + ("\n" + Join(rest, "\n"))
  {
    assert ([x] + rest)[1..] == rest;
  }

  predicate NoneStartsLine(xs: seq<string>) {
    forall i :: 0 <= i < |xs| ==> !("\n" <= xs[i])
  }

  lemma {:induction false} DropNewlinesSame(xs: seq<string>)
    ensures DropNewlines(xs) == xs <==> NoneStartsLine(xs)
  {
    if xs == [] {
    } else {
      DropNewlinesSame(xs[1..]);
      assert xs == [xs[0]] + xs[1..];
      assert DropNewline(xs[0]) == xs[0] <==> !("\n" <= xs[0]);
    }
  }

  /** Complete statements joined by newlines split into themselves exactly when none behind the
      first starts with a newline. */
  lemma SplitUndoesJoin(xs: seq<string>)
    requires xs != [] && forall i :: 0 <= i < |xs| ==> Complete(xs[i])
    ensures Statements(Join(xs, "\n")) == xs <==> NoneStartsLine(xs[1..])
  {
    hide Complete, Statements, Join, DropNewlines, NoneStartsLine;
    JoinThenSplit(xs);
    DropNewlinesSame(xs[1..]);
    assert xs == [xs[0]] + xs[1..];
    SameTail(xs[0], DropNewlines(xs[1..]), xs[1..]);
  }

  lemma SameTail(x: string, a: seq<string>, b: seq<string>)
    ensures [x] + a == [x] + b <==> a == b
  {
    if [x] + a == [x] + b {
      assert a == ([x] + a)[1..] && b == ([x] + b)[1..];
    }
  }
}
