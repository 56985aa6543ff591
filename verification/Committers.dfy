/** The committer table of the governance document (docs/scripts/update_committer_list.py):
    its rows, how they are printed and read back, and how they are merged with the roster. */
module Committers {
  import opened Text
  import opened TextSearch

  /** What Python's `strip` removes. */
  const PY_SPACE: set<char> := set c: char | IsWhiteSpace(c) || '\U{1C}' <= c <= '\U{1F}'

  /** Python's white space has four separators more. */
  lemma PythonSpaces()
    ensures PY_SPACE == SPACE + {'\U{1C}', '\U{1D}', '\U{1E}', '\U{1F}'}
  {
  }

  datatype Committer =
    Committer(name: string, apache: string, github: string, affiliation: string, role: string)

  function Fields(c: Committer): seq<string> {
    [c.name, c.apache, c.github, c.affiliation, c.role]
  }

  // Printing

  /** `{s:<width}` */
  function Pad(s: string, width: nat): string {
    s + Spaces(if |s| < width then width - |s| else 0)
  }

  /** `generate_table_row` */
  function GenerateTableRow(c: Committer): string {
    "| " + (Pad(c.name, 23) + (" | " + (Pad(c.apache, 39) + (" |" + (Pad(c.github, 39)
    + (" | " + (Pad(c.affiliation, 11) + (" | " + (Pad(c.role, 9) + " |")))))))))
  }

  const HEADER_CELLS :=
    [" " + "Name" + Spaces(20), " Apache ID ", " github" + Spaces(21), " Affiliation ", " Role" + Spaces(6)]
  const SEPARATOR_CELLS := [Repeat('-', 25), Repeat('-', 11), Repeat('-', 28), Repeat('-', 13), Repeat('-', 11)]
  const HEADER := RowOf(HEADER_CELLS)
  const SEPARATOR := RowOf(SEPARATOR_CELLS)

  function Rows(cs: seq<Committer>): seq<string> {
    if cs == [] then [] else [GenerateTableRow(cs[0])] + Rows(cs[1..])
  }

  function Table(cs: seq<Committer>): string {
    Join([HEADER, SEPARATOR] + Rows(cs), "\n")
  }

  // Reading

  datatype Line = Skip | Entry(committer: Committer) | IndexError

  function StripAll(parts: seq<string>): (r: seq<string>)
    ensures |r| == |parts| && forall i :: 0 <= i < |r| ==> r[i] == Trim(parts[i], PY_SPACE)
  {
    if parts == [] then [] else [Trim(parts[0], PY_SPACE)] + StripAll(parts[1..])
  }

  /** One line of the table. A line with exactly four bars has no part for the role. */
  function ParseLine(raw: string): Line {
    var line := Trim(raw, PY_SPACE);
    if "|" <= line && !Has(line, "---") && Count(line, '|') >= 4 then
      var parts := StripAll(SplitOn(line, '|'));
      if |parts| < 6 then IndexError
      else if parts[1] != "" && parts[1] != "Name" && !Has(parts[1], "-----") then
        Entry(Committer(parts[1], parts[2], parts[3], parts[4], parts[5]))
      else Skip
    else Skip
  }

  function ParseLines(lines: seq<string>): Result<seq<Committer>, ()> {
    if lines == [] then Ok([])
    else match ParseLine(lines[0])
      case IndexError => Err(())
      case Skip => ParseLines(lines[1..])
      case Entry(c) =>
        var rest := ParseLines(lines[1..]);
        if rest.Err? then rest else Ok([c] + rest.value)
  }

  /** The loop of `parse_existing_table` over the text between the markers. */
  method ParseTable(content: string) returns (r: Result<seq<Committer>, ()>)
    ensures r == ParseLines(SplitOn(content, '\n'))
  {
    hide ParseLine;
    var lines := SplitOn(content, '\n');
    var committers: seq<Committer> := [];
    assert lines[0..] == lines;
    if ParseLines(lines).Ok? { assert [] + ParseLines(lines).value == ParseLines(lines).value; }
    for i := 0 to |lines|
      invariant ParseLines(lines)
             == match ParseLines(lines[i..]) case Err(e) => Err(e) case Ok(rest) => Ok(committers + rest)
    {
      assert lines[i..][0] == lines[i] && lines[i..][1..] == lines[i + 1..];
      match ParseLine(lines[i])
      case IndexError => return Err(());
      case Skip =>
      case Entry(c) =>
        if ParseLines(lines[i + 1..]).Ok? {
          assert committers + ([c] + ParseLines(lines[i + 1..]).value)
              == committers + [c] + ParseLines(lines[i + 1..]).value;
        }
        committers := committers + [c];
    }
    assert lines[|lines|..] == [] && committers + [] == committers;
    return Ok(committers);
  }

  /** Reading fails exactly when some line that looks like a row has only four bars. */
  predicate FourBars(raw: string) {
    var line := Trim(raw, PY_SPACE);
    "|" <= line && !Has(line, "---") && Count(line, '|') == 4
  }

  lemma {:induction false} ReadingFails(lines: seq<string>)
    ensures ParseLines(lines).Err? <==> exists i :: 0 <= i < |lines| && FourBars(lines[i])
  {
    if lines == [] {
    } else {
      hide FourBars;
      ReadingFails(lines[1..]);
      FourBarsFail(lines[0]);
      assert forall i :: 0 <= i < |lines| - 1 ==> lines[1..][i] == lines[i + 1];
      if i :| 1 <= i < |lines| && FourBars(lines[i]) { assert FourBars(lines[1..][i - 1]); }
    }
  }

  lemma FourBarsFail(raw: string)
    ensures ParseLine(raw).IndexError? <==> FourBars(raw)
  {}

  // A row is read back

  predicate CleanField(f: string) {
    Trimmed(f, PY_SPACE) && Free(f, {'|', '\n'}) && !Has(f, "---")
  }

  /** The fields survive printing and reading. */
  predicate Clean(c: Committer) {
    && CleanField(c.name) && CleanField(c.apache) && CleanField(c.github)
    && CleanField(c.affiliation) && CleanField(c.role)
    && c.name != "" && c.name != "Name"
  }

  function Cell(lead: string, f: string, width: nat): string {
    lead + (Pad(f, width) + " ")
  }

  function Cells(c: Committer): seq<string> {
    [Cell(" ", c.name, 23), Cell(" ", c.apache, 39), Cell("", c.github, 39),
     Cell(" ", c.affiliation, 11), Cell(" ", c.role, 9)]
  }

  function RowOf(cells: seq<string>): string
    requires |cells| == 5
  {
    "|" + (cells[0] + ("|" + (cells[1] + ("|" + (cells[2] + ("|" + (cells[3] + ("|" + (cells[4] + "|")))))))))
  }

  /** A bar, a space, a field and what follows it, cut at the next bar. */
  lemma CutBar(lead: string, f: string, width: nat, rest: string)
    ensures lead + (Pad(f, width) + (" |" + rest)) == Cell(lead, f, width) + ("|" + rest)
    ensures " | " + rest == " |" + (" " + rest) && "| " + rest == "|" + (" " + rest)
  {
    assert " |" + rest == " " + ("|" + rest);
    assert lead + (Pad(f, width) + (" " + ("|" + rest))) == lead + (Pad(f, width) + " ") + ("|" + rest);
  }

  lemma RowIsCells(c: Committer)
    ensures GenerateTableRow(c) == RowOf(Cells(c))
  {
    hide Pad, Cell;
    var t5 := " " + (Pad(c.role, 9) + (" |" + ""));
    var t4 := " " + (Pad(c.affiliation, 11) + (" |" + t5));
    var t3 := Pad(c.github, 39) + (" |" + t4);
    var t2 := " " + (Pad(c.apache, 39) + (" |" + t3));
    assert " |" + "" == " |" && "|" + "" == "|" && "" + t3 == t3;
    CutBar(" ", c.role, 9, "");
    CutBar(" ", c.affiliation, 11, t5);
    CutBar("", c.github, 39, t4);
    CutBar(" ", c.apache, 39, t3);
    CutBar(" ", c.name, 23, t2);
    CutBar(" ", c.role, 9, Pad(c.role, 9) + " |");
    CutBar(" ", c.role, 9, Pad(c.affiliation, 11) + (" |" + t5));
    CutBar(" ", c.role, 9, Pad(c.apache, 39) + (" |" + t3));
    CutBar(" ", c.role, 9, Pad(c.name, 23) + (" |" + t2));
  }

  predicate SpacesOnly(s: string) {
    Only(s, {' '})
  }

  lemma CellIs(lead: string, f: string, width: nat)
    ensures Cell(lead, f, width) == lead + f + (Spaces(if |f| < width then width - |f| else 0) + " ")
  {}

  lemma CellReads(lead: string, f: string, width: nat)
    requires SpacesOnly(lead)
    ensures Trimmed(f, PY_SPACE) ==> Trim(Cell(lead, f, width), PY_SPACE) == f
    ensures Free(f, {'|'}) ==> Free(Cell(lead, f, width), {'|'})
    ensures Free(f, {'\n'}) ==> Free(Cell(lead, f, width), {'\n'})
  {
    var tail := Spaces(if |f| < width then width - |f| else 0) + " ";
    CellIs(lead, f, width);
    assert Only(lead, PY_SPACE) && Only(tail, PY_SPACE);
    TrimPadded(lead, f, tail, PY_SPACE);
    if Trimmed(f, PY_SPACE) { TrimTrimmed(f, PY_SPACE); }
  }

  lemma CellHas(lead: string, f: string, width: nat, p: string)
    requires SpacesOnly(lead) && p != "" && Trimmed(p, {' '})
    ensures Has(Cell(lead, f, width), p) <==> Has(f, p)
  {
    CellIs(lead, f, width);
    HasInPadded(lead, f, Spaces(if |f| < width then width - |f| else 0) + " ", p, {' '});
  }

  lemma HasFirst(cell: string, rest: string, p: string)
    requires p != "" && Free(p, {'|'})
    ensures Has("|" + (cell + rest), p) <==> Has(cell + rest, p)
  {
    HasAcross("", '|', cell + rest, p);
    assert "" + ['|'] + (cell + rest) == "|" + (cell + rest);
  }

  lemma HasNext(cell: string, rest: string, p: string)
    requires p != "" && Free(p, {'|'})
    ensures Has(cell + ("|" + rest), p) <==> Has(cell, p) || Has(rest, p)
  {
    HasAcross(cell, '|', rest, p);
    assert cell + ['|'] + rest == cell + ("|" + rest);
  }

  /** A pattern without bars occurs in a row only inside a cell. */
  lemma HasInRow(cells: seq<string>, p: string)
    requires |cells| == 5 && p != "" && Free(p, {'|'})
    ensures Has(RowOf(cells), p) <==> exists i :: 0 <= i < 5 && Has(cells[i], p)
  {
    hide Has;
    var r4 := cells[4] + "|";
    var r3 := cells[3] + ("|" + r4);
    var r2 := cells[2] + ("|" + r3);
    var r1 := cells[1] + ("|" + r2);
    HasNext(cells[4], "", p);
    assert "|" + "" == "|";
    HasNext(cells[3], r4, p);
    HasNext(cells[2], r3, p);
    HasNext(cells[1], r2, p);
    HasNext(cells[0], r1, p);
    HasFirst(cells[0], "|" + r1, p);
    NothingHas(p);
    assert Has(RowOf(cells), p)
      <==> Has(cells[0], p) || Has(cells[1], p) || Has(cells[2], p) || Has(cells[3], p) || Has(cells[4], p);
  }

  lemma NothingHas(p: string)
    requires p != ""
    ensures !Has("", p)
  {}

  lemma SplitNext(cell: string, rest: string)
    requires Free(cell, {'|'})
    ensures SplitOn(cell + ("|" + rest), '|') == [cell] + SplitOn(rest, '|')
  {
    SplitFirst(cell, '|', rest);
    assert cell + ['|'] + rest == cell + ("|" + rest);
  }

  lemma SplitRow(cells: seq<string>)
    requires |cells| == 5 && AllFree(cells, {'|'})
    ensures SplitOn(RowOf(cells), '|') == [""] + cells + [""]
  {
    hide SplitOn;
    var r4 := cells[4] + "|";
    var r3 := cells[3] + ("|" + r4);
    var r2 := cells[2] + ("|" + r3);
    var r1 := cells[1] + ("|" + r2);
    var r0 := cells[0] + ("|" + r1);
    SplitFree("", '|');
    assert "|" + "" == "|" && "" + ("|" + r0) == "|" + r0;
    SplitNext(cells[4], "");
    SplitNext(cells[3], r4);
    SplitNext(cells[2], r3);
    SplitNext(cells[1], r2);
    SplitNext(cells[0], r1);
    SplitNext("", r0);
  }

  lemma RowEnds(cells: seq<string>)
    requires |cells| == 5
    ensures var r := RowOf(cells);
            "|" <= r && r[|r| - 1] == '|' && Trim(r, PY_SPACE) == r
  {
    var r := RowOf(cells);
    assert r[0] == '|';
    assert '|' !in PY_SPACE;
    TrimTrimmed(r, PY_SPACE);
  }

  predicate FieldsHave(c: Committer, p: string) {
    Has(c.name, p) || Has(c.apache, p) || Has(c.github, p) || Has(c.affiliation, p) || Has(c.role, p)
  }

  /** A pattern without bars, and without spaces at its ends, occurs in a row only inside a field. */
  lemma RowHas(c: Committer, p: string)
    requires p != "" && Free(p, {'|'}) && Trimmed(p, {' '})
    ensures Has(GenerateTableRow(c), p) <==> FieldsHave(c, p)
  {
    hide Has, GenerateTableRow, RowOf, Cell;
    var cells := Cells(c);
    RowIsCells(c);
    HasInRow(cells, p);
    CellHas(" ", c.name, 23, p);
    CellHas(" ", c.apache, 39, p);
    CellHas("", c.github, 39, p);
    CellHas(" ", c.affiliation, 11, p);
    CellHas(" ", c.role, 9, p);
    assert Has(cells[0], p) || Has(cells[1], p) || Has(cells[2], p) || Has(cells[3], p) || Has(cells[4], p)
      <==> exists i :: 0 <= i < 5 && Has(cells[i], p);
  }

  lemma CellsAreFree(c: Committer)
    requires Clean(c)
    ensures AllFree(Cells(c), {'|'})
  {
    hide Cell, CleanField, Has, Free;
    CleanFieldIs(c.name);
    CleanFieldIs(c.apache);
    CleanFieldIs(c.github);
    CleanFieldIs(c.affiliation);
    CleanFieldIs(c.role);
    CellReads(" ", c.name, 23);
    CellReads(" ", c.apache, 39);
    CellReads("", c.github, 39);
    CellReads(" ", c.affiliation, 11);
    CellReads(" ", c.role, 9);
  }

  /** Each cell without its padding is the field. */
  lemma CellIsField(c: Committer, i: nat)
    requires Clean(c) && i < 5
    ensures Trim(Cells(c)[i], PY_SPACE) == Fields(c)[i]
  {
    hide Cell, CleanField, Has, Free, Trim;
    CleanFieldIs(Fields(c)[i]);
    CellReads(if i == 2 then "" else " ", Fields(c)[i], [23, 39, 39, 11, 9][i]);
  }

  lemma CellsStrip(c: Committer)
    requires Clean(c)
    ensures StripAll([""] + Cells(c) + [""])[1..6] == Fields(c)
  {
    hide StripAll, Cells, Fields, Clean, Trim;
    CellsAreFive(c);
    var parts := [""] + Cells(c) + [""];
    var stripped := StripAll(parts);
    forall i | 0 <= i < 5 ensures stripped[1..6][i] == Fields(c)[i] {
      assert parts[i + 1] == Cells(c)[i];
      CellIsField(c, i);
    }
  }

  lemma CellsAreFive(c: Committer)
    ensures |Cells(c)| == |Fields(c)| == 5
  {
  }

  lemma CleanFieldIs(f: string)
    requires CleanField(f)
    ensures Trimmed(f, PY_SPACE) && Free(f, {'|'}) && Free(f, {'\n'}) && !Has(f, "---")
  {}

  lemma DashesAreAPattern()
    ensures Free("---", {'|'}) && Free("---", {'\n'}) && Trimmed("---", {' '})
    ensures forall s :: Has(s, "-----") ==> Has(s, "---")
  {
    forall s | Has(s, "-----") ensures Has(s, "---") {
      assert OccursAt("-----", "---", 0) by { assert "-----"[0..3] == "---"; }
      HasTransitive(s, "-----", "---");
    }
  }

  /** Reading a printed row gives the committer back. */
  lemma RowReads(c: Committer)
    requires Clean(c)
    ensures ParseLine(GenerateTableRow(c)) == Entry(c)
  {
    hide Has, GenerateTableRow, SplitOn, RowOf, Cell;
    var row := GenerateTableRow(c);
    RowIsCells(c);
    RowEnds(Cells(c));
    DashesAreAPattern();
    RowHas(c, "---");
    CellsAreFree(c);
    CellsStrip(c);
    SplitRow(Cells(c));
    assert StripAll(SplitOn(row, '|'))[1..6] == Fields(c);
    EntryOf(row, c);
  }

  lemma EntryOf(row: string, c: Committer)
    requires Trim(row, PY_SPACE) == row && "|" <= row && !Has(row, "---") && Count(row, '|') >= 4
    requires |SplitOn(row, '|')| >= 6 && StripAll(SplitOn(row, '|'))[1..6] == Fields(c)
    requires c.name != "" && c.name != "Name" && !Has(c.name, "-----")
    ensures ParseLine(row) == Entry(c)
  {
    hide Has, SplitOn, Trim, Count;
    var parts := StripAll(SplitOn(row, '|'));
    assert parts[1] == parts[1..6][0] && parts[2] == parts[1..6][1] && parts[3] == parts[1..6][2]
        && parts[4] == parts[1..6][3] && parts[5] == parts[1..6][4];
  }

  lemma RowFree(cells: seq<string>, n: set<char>)
    requires |cells| == 5 && AllFree(cells, n) && '|' !in n
    ensures Free(RowOf(cells), n)
  {
    var r4 := cells[4] + "|";
    var r3 := cells[3] + ("|" + r4);
    var r2 := cells[2] + ("|" + r3);
    var r1 := cells[1] + ("|" + r2);
    assert Free("|", n);
    hide Free;
    FreeAppend(cells[4], "|", n);
    FreeAppend("|", r4, n);
    FreeAppend(cells[3], "|" + r4, n);
    FreeAppend("|", r3, n);
    FreeAppend(cells[2], "|" + r3, n);
    FreeAppend("|", r2, n);
    FreeAppend(cells[1], "|" + r2, n);
    FreeAppend("|", r1, n);
    FreeAppend(cells[0], "|" + r1, n);
    FreeAppend("|", cells[0] + ("|" + r1), n);
  }

  lemma RowIsOneLine(c: Committer)
    requires Clean(c)
    ensures Free(GenerateTableRow(c), {'\n'})
  {
    hide Cell, CleanField, Has, GenerateTableRow, RowOf, Free;
    RowIsCells(c);
    CleanFieldIs(c.name);
    CleanFieldIs(c.apache);
    CleanFieldIs(c.github);
    CleanFieldIs(c.affiliation);
    CleanFieldIs(c.role);
    CellReads(" ", c.name, 23);
    CellReads(" ", c.apache, 39);
    CellReads("", c.github, 39);
    CellReads(" ", c.affiliation, 11);
    CellReads(" ", c.role, 9);
    RowFree(Cells(c), {'\n'});
  }

  predicate AllClean(cs: seq<Committer>) {
    forall i :: 0 <= i < |cs| ==> Clean(cs[i])
  }

  lemma {:induction false} RowsRead(cs: seq<Committer>)
    requires AllClean(cs)
    ensures AllFree(Rows(cs), {'\n'})
    ensures ParseLines(Rows(cs) + [""]) == Ok(cs)
  {
    hide ParseLine, GenerateTableRow, Clean;
    if cs == [] {
      BlankLineSkipped();
      assert Rows(cs) + [""] == [""] && [""][1..] == [];
    } else {
      RowReads(cs[0]);
      RowIsOneLine(cs[0]);
      RowsRead(cs[1..]);
      assert (Rows(cs) + [""])[1..] == Rows(cs[1..]) + [""];
      assert [cs[0]] + cs[1..] == cs;
    }
  }

  lemma BlankLineSkipped()
    ensures ParseLine("") == Skip
  {}

  lemma HeaderCellsFree()
    ensures AllFree(HEADER_CELLS, {'|', '\n', '<'})
  {
    PaddedFree(" " + "Name", 20);
    PaddedFree(" github", 21);
    PaddedFree(" Role", 6);
  }

  lemma PaddedFree(s: string, n: nat)
    requires Free(s, {'|', '\n', '<'})
    ensures Free(s + Spaces(n), {'|', '\n', '<'})
  {
  }

  lemma HeaderSkipped()
    ensures ParseLine(HEADER) == Skip && Free(HEADER, {'\n', '<'})
  {
    hide SplitOn, Has, RowOf;
    RowEnds(HEADER_CELLS);
    HeaderCellsFree();
    RowFree(HEADER_CELLS, {'\n', '<'});
    SplitRow(HEADER_CELLS);
    hide Trim;
    assert Only(Spaces(20), PY_SPACE);
    TrimPadded(" ", "Name", Spaces(20), PY_SPACE);
    TrimTrimmed("Name", PY_SPACE);
  }

  lemma SeparatorSkipped()
    ensures ParseLine(SEPARATOR) == Skip && Free(SEPARATOR, {'\n', '<'})
  {
    hide RowOf;
    RowEnds(SEPARATOR_CELLS);
    assert AllFree(SEPARATOR_CELLS, {'\n', '<'});
    RowFree(SEPARATOR_CELLS, {'\n', '<'});
    DashesAreAPattern();
    var d := SEPARATOR_CELLS[0];
    assert d[0..3] == "---";
    assert OccursAt(d, "---", 0);
    HasInRow(SEPARATOR_CELLS, "---");
  }

  /** Reading the lines of a printed table, after any line that is skipped, gives its rows back. */
  lemma TableReads(first: string, cs: seq<Committer>)
    requires AllClean(cs) && ParseLine(first) == Skip
    ensures ParseLines([first, HEADER, SEPARATOR] + Rows(cs) + [""]) == Ok(cs)
  {
    hide ParseLines, ParseLine, Rows, HEADER, SEPARATOR;
    HeaderSkipped();
    SeparatorSkipped();
    RowsRead(cs);
    var rows := Rows(cs) + [""];
    assert [first, HEADER, SEPARATOR] + Rows(cs) + [""] == [first] + ([HEADER] + ([SEPARATOR] + rows));
    LineSkipped(first, [HEADER] + ([SEPARATOR] + rows));
    LineSkipped(HEADER, [SEPARATOR] + rows);
    LineSkipped(SEPARATOR, rows);
  }

  lemma LineSkipped(line: string, rest: seq<string>)
    requires ParseLine(line) == Skip
    ensures ParseLines([line] + rest) == ParseLines(rest)
  {
    assert ([line] + rest)[1..] == rest;
  }

  // What is read is clean

  lemma HasFree(s: string, p: string, cs: set<char>)
    requires Has(s, p) && Free(s, cs)
    ensures Free(p, cs)
  {
    var i :| 0 <= i <= |s| && OccursAt(s, p, i);
    forall k | 0 <= k < |p| ensures p[k] !in cs {
      OccursChar(s, p, i, k);
    }
  }

  lemma HasTrim(s: string, cut: set<char>)
    ensures Has(s, Trim(s, cut)) && Trimmed(Trim(s, cut), cut)
  {
    var lead, tail := TrimSplits(s, cut);
    PartHas(lead, Trim(s, cut), tail);
  }

  lemma PartIsClean(line: string, i: nat)
    requires Free(line, {'\n'}) && !Has(Trim(line, PY_SPACE), "---")
    requires i < |SplitOn(Trim(line, PY_SPACE), '|')|
    ensures var f := Trim(SplitOn(Trim(line, PY_SPACE), '|')[i], PY_SPACE); CleanField(f) && Has(line, f)
  {
    hide Has, Trim, SplitOn;
    var t := Trim(line, PY_SPACE);
    var part := SplitOn(t, '|')[i];
    var f := Trim(part, PY_SPACE);
    HasTrim(line, PY_SPACE);
    SplitParts(t, '|', i);
    HasTrim(part, PY_SPACE);
    HasTransitive(line, t, part);
    HasTransitive(line, part, f);
    HasTransitive(t, part, f);
    HasFree(line, f, {'\n'});
    HasFree(part, f, {'|'});
    if Has(f, "---") { HasTransitive(t, f, "---"); }
  }

  predicate FieldsFrom(s: string, c: Committer) {
    Has(s, c.name) && Has(s, c.apache) && Has(s, c.github) && Has(s, c.affiliation) && Has(s, c.role)
  }

  lemma EntryIsClean(line: string)
    requires Free(line, {'\n'}) && ParseLine(line).Entry?
    ensures Clean(ParseLine(line).committer) && FieldsFrom(line, ParseLine(line).committer)
  {
    hide Has, Trim, SplitOn, CleanField;
    PartIsClean(line, 1);
    PartIsClean(line, 2);
    PartIsClean(line, 3);
    PartIsClean(line, 4);
    PartIsClean(line, 5);
  }

  lemma {:induction false} LinesAreClean(lines: seq<string>)
    requires AllFree(lines, {'\n'}) && ParseLines(lines).Ok?
    ensures forall c :: c in ParseLines(lines).value ==>
              Clean(c) && exists i :: 0 <= i < |lines| && FieldsFrom(lines[i], c)
  {
    hide Clean, FieldsFrom, ParseLine;
    if lines == [] {
    } else {
      LinesAreClean(lines[1..]);
      if ParseLine(lines[0]).Entry? { EntryIsClean(lines[0]); }
      forall c | c in ParseLines(lines).value
        ensures Clean(c) && exists i :: 0 <= i < |lines| && FieldsFrom(lines[i], c)
      {
        if c in ParseLines(lines[1..]).value {
          var i :| 0 <= i < |lines[1..]| && FieldsFrom(lines[1..][i], c);
          assert lines[i + 1] == lines[1..][i];
        } else {
          assert FieldsFrom(lines[0], c);
        }
      }
    }
  }

  /** Every committer read from a text is clean, and its fields are parts of the text. */
  lemma ReadIsClean(text: string, c: Committer)
    requires ParseLines(SplitOn(text, '\n')).Ok? && c in ParseLines(SplitOn(text, '\n')).value
    ensures Clean(c) && FieldsFrom(text, c)
  {
    hide Clean, Has, ParseLines, SplitOn;
    var lines := SplitOn(text, '\n');
    forall i | 0 <= i < |lines| ensures Free(lines[i], {'\n'}) && Has(text, lines[i]) {
      SplitParts(text, '\n', i);
    }
    LinesAreClean(lines);
    var i :| 0 <= i < |lines| && FieldsFrom(lines[i], c);
    HasTransitive(text, lines[i], c.name);
    HasTransitive(text, lines[i], c.apache);
    HasTransitive(text, lines[i], c.github);
    HasTransitive(text, lines[i], c.affiliation);
    HasTransitive(text, lines[i], c.role);
  }
}
