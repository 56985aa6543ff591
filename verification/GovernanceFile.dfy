/** Updating the committer table inside the governance document
    (docs/scripts/update_committer_list.py). */
module GovernanceFile {
  import opened Text
  import opened TextSearch
  import opened Committers
  import opened Roster
  import opened RosterOrder
  import opened RosterGroups

  const MARKER_TAIL := " Auto-Generated Committer List -->"
  const START := "<!-- Begin" + MARKER_TAIL
  const END := "<!-- End" + MARKER_TAIL

  /** What makes a marker unlike anything in a table. */
  predicate Marker(m: string) {
    m != "" && m[0] == '<' && Free(m, {'|', '\n'}) && Trimmed(m, {' '})
  }

  lemma MarkersAreMarkers()
    ensures Marker(START) && Marker(END)
  {
    assert Free(MARKER_TAIL, {'|', '\n'});
    FreeAppend("<!-- Begin", MARKER_TAIL, {'|', '\n'});
    FreeAppend("<!-- End", MARKER_TAIL, {'|', '\n'});
    assert MARKER_TAIL[|MARKER_TAIL| - 1] == '>';
    assert START[|START| - 1] == '>' && END[|END| - 1] == '>';
  }

  // The update

  function StartAt(content: string): int { Find(content, START, 0) }

  function EndAt(content: string): int { Find(content, END, 0) }

  predicate HasMarkers(content: string) {
    StartAt(content) != -1 && EndAt(content) != -1
  }

  /** The end of the line of the start marker, or 0 when no line ends behind it. */
  function StartLineEnd(content: string): (n: nat)
    requires HasMarkers(content)
    ensures n <= |content|
  {
    Find(content, "\n", StartAt(content)) + 1
  }

  /** The text between the markers; a Python slice is empty when its bounds are crossed. */
  function Region(content: string): string
    requires HasMarkers(content)
  {
    var a, e := StartAt(content), EndAt(content);
    if a <= e then content[a..e] else ""
  }

  /** `parse_existing_table`; the error is an index error. */
  function Existing(content: string): Result<seq<Committer>, ()> {
    if !HasMarkers(content) then Ok([]) else ParseLines(SplitOn(Region(content), '\n'))
  }

  function Splice(content: string, table: string): string
    requires HasMarkers(content)
  {
    content[..StartLineEnd(content)] + table + "\n" + content[EndAt(content)..]
  }

  /** The rows of the new table. */
  function UpdatedRows(existing: seq<Committer>, ms: seq<Member>, lower: string -> string): seq<Committer> {
    SortCommitters(NewRows(ByApache(existing), ms), lower)
  }

  datatype Outcome = Crash | NoMarkers | Written(text: string)

  /** `update_governance_file`, for a roster whose merged entries are `ms`. */
  function Update(content: string, ms: seq<Member>, lower: string -> string): Outcome {
    match Existing(content)
    case Err(_) => Crash
    case Ok(existing) =>
      if !HasMarkers(content) then NoMarkers
      else Written(Splice(content, Table(UpdatedRows(existing, ms, lower))))
  }

  method UpdateGovernanceFile(content: string, pmcs: seq<Person>, committers: seq<Person>, lower: string -> string)
    returns (r: Outcome)
    ensures r == Update(content, Members(pmcs, committers), lower)
  {
    hide Find, ParseLines, SplitOn, Table, SortCommitters, NewRows, Members, ByApache, START, END;
    var startIdx := Find(content, START, 0);
    var endIdx := Find(content, END, 0);
    var existing: seq<Committer> := [];
    if startIdx != -1 && endIdx != -1 {
      var parsed := ParseTable(if startIdx <= endIdx then content[startIdx..endIdx] else "");
      if parsed.Err? {
        return Crash;
      }
      existing := parsed.value;
    }
    var updated := MergeRoster(existing, pmcs, committers);
    var sorted := SortCommitters(updated, lower);
    if startIdx == -1 || endIdx == -1 {
      return NoMarkers;
    }
    var startLineEnd := Find(content, "\n", startIdx) + 1;
    return Written(content[..startLineEnd] + Table(sorted) + "\n" + content[endIdx..]);
  }

  /** The text of the file after an update. */
  function After(content: string, ms: seq<Member>, lower: string -> string): string {
    match Update(content, ms, lower)
    case Written(text) => text
    case _ => content
  }

  // The table of a clean roster

  predicate CleanMember(m: Member) {
    && CleanField(m.id) && CleanField(m.name) && m.name != "" && m.name != "Name"
    && !Has(m.id, START) && !Has(m.id, END) && !Has(m.name, START) && !Has(m.name, END)
  }

  predicate CleanRoster(ms: seq<Member>) {
    DistinctIds(ms) && forall i :: 0 <= i < |ms| ==> CleanMember(ms[i])
  }

  lemma ShortFieldIsClean(f: string, m: string)
    requires f == "" || f == "PMC" || f == "Committer" || f == "PMC Chair"
    requires m != "" && (m[0] == '<' || m[0] == '-')
    ensures CleanField(f) && !Has(f, m)
  {
    LacksFirst(f, m);
    LacksFirst(f, "---");
  }

  /** A pattern does not occur where its first character does not. */
  lemma LacksFirst(s: string, m: string)
    requires m != "" && Free(s, {m[0]})
    ensures !Has(s, m)
  {
    if Has(s, m) {
      HasFree(s, m, {m[0]});
      assert false;
    }
  }

  lemma NewRowIsClean(existing: map<string, Committer>, m: Member, p: string)
    requires CleanMember(m) && (p == START || p == END)
    requires m.id in existing ==> Clean(existing[m.id]) && !FieldsHave(existing[m.id], p)
    ensures Clean(NewRow(existing, m)) && !FieldsHave(NewRow(existing, m), p)
  {
    hide Has, CleanField, START, END;
    MarkersAreMarkers();
    ShortFieldIsClean("", p);
    ShortFieldIsClean("PMC", p);
    ShortFieldIsClean("Committer", p);
    ShortFieldIsClean("PMC Chair", p);
  }

  predicate RowsClean(cs: seq<Committer>, p: string) {
    forall c :: c in cs ==> Clean(c) && !FieldsHave(c, p)
  }

  lemma {:induction false} ByApacheFrom(cs: seq<Committer>, id: string)
    requires id in ByApache(cs)
    ensures ByApache(cs)[id] in cs
  {
    if cs[|cs| - 1].apache != id { ByApacheFrom(cs[..|cs| - 1], id); }
  }

  lemma UpdatedRowsClean(existing: seq<Committer>, ms: seq<Member>, lower: string -> string, p: string)
    requires CleanRoster(ms) && RowsClean(existing, p) && (p == START || p == END)
    ensures RowsClean(UpdatedRows(existing, ms, lower), p)
  {
    hide Clean, FieldsHave, CleanMember, NewRow, ByApache, START, END;
    var known := ByApache(existing);
    var rows := NewRows(known, ms);
    forall i | 0 <= i < |ms| ensures Clean(rows[i]) && !FieldsHave(rows[i], p) {
      if ms[i].id in known { ByApacheFrom(existing, ms[i].id); }
      NewRowIsClean(known, ms[i], p);
    }
    SortIsStable(rows, lower);
    forall c | c in UpdatedRows(existing, ms, lower) ensures Clean(c) && !FieldsHave(c, p) {
      assert c in multiset(UpdatedRows(existing, ms, lower)) && c in multiset(rows);
    }
  }

  lemma HasNextLine(line: string, rest: string, p: string)
    requires p != "" && Free(p, {'\n'})
    ensures Has(line + "\n" + rest, p) <==> Has(line, p) || Has(rest, p)
  {
    HasAcross(line, '\n', rest, p);
  }

  lemma {:induction false} RowsLack(cs: seq<Committer>, p: string)
    requires cs != [] && RowsClean(cs, p) && Marker(p)
    ensures !Has(Join(Rows(cs), "\n"), p)
  {
    hide Has, GenerateTableRow, FieldsHave, Clean;
    assert Free(p, {'|'}) && Free(p, {'\n'});
    RowHas(cs[0], p);
    if |cs| == 1 {
    } else {
      RowsLack(cs[1..], p);
      HasNextLine(GenerateTableRow(cs[0]), Join(Rows(cs[1..]), "\n"), p);
    }
  }

  lemma TableIs(cs: seq<Committer>)
    ensures Table(cs) == HEADER + "\n" + (if cs == [] then SEPARATOR else SEPARATOR + "\n" + Join(Rows(cs), "\n"))
  {
    hide HEADER, SEPARATOR, Join;
    var rows := Rows(cs);
    assert [HEADER, SEPARATOR] + rows == [HEADER] + ([SEPARATOR] + rows);
    JoinCons(HEADER, [SEPARATOR] + rows, "\n");
    JoinCons(SEPARATOR, rows, "\n");
  }

  /** A printed table does not contain a marker. */
  lemma TableLacks(cs: seq<Committer>, p: string)
    requires RowsClean(cs, p) && Marker(p)
    ensures !Has(Table(cs), p)
  {
    hide Has, HEADER, SEPARATOR, Table, Join, Rows, RowsClean;
    assert Free(p, {'\n'});
    TableIs(cs);
    HeaderSkipped();
    SeparatorSkipped();
    LacksFirst(HEADER, p);
    LacksFirst(SEPARATOR, p);
    if cs == [] {
      HasNextLine(HEADER, SEPARATOR, p);
    } else {
      RowsLack(cs, p);
      HasNextLine(SEPARATOR, Join(Rows(cs), "\n"), p);
      HasNextLine(HEADER, SEPARATOR + "\n" + Join(Rows(cs), "\n"), p);
    }
  }

  // Where things are in the new text

  /** What is found inside a prefix is found there whatever follows the prefix. */
  lemma FoundInPrefix(p: string, x: string, y: string, m: string, from: nat)
    requires m != "" && var i := Find(p + x, m, from); i != -1 && i + |m| <= |p|
    ensures Find(p + y, m, from) == Find(p + x, m, from)
  {
    hide Find;
    var i := Find(p + x, m, from);
    OccursInPrefix(p, x, m, i);
    OccursInPrefix(p, y, m, i);
    forall j | from <= j < i ensures !OccursAt(p + y, m, j) {
      OccursInPrefix(p, x, m, j);
      OccursInPrefix(p, y, m, j);
    }
    FindIs(p + y, m, from, i);
  }

  predicate EndsLine(p: string) {
    p == "" || p[|p| - 1] == '\n'
  }

  lemma NotFoundBefore(p: string, t: string, r: string, m: string, j: nat)
    requires m != "" && Free(m, {'\n'}) && EndsLine(p) && !Has(p, m) && !Has(t, m)
    requires j <= |p| + |t|
    ensures !OccursAt(p + t + "\n" + r, m, j)
  {
    hide Has;
    var s := p + t + "\n" + r;
    if OccursAt(s, m, j) {
      OccursBeside(s, m, j, |p| + |t|, {'\n'});
      if p != "" { OccursBeside(s, m, j, |p| - 1, {'\n'}); }
      hide Free, OccursAt;
      if j < |p| {
        assert s == p + (t + "\n" + r);
        OccursInPrefix(p, t + "\n" + r, m, j);
        HasAt(p, m, j);
      } else {
        assert s == (p + t) + ("\n" + r);
        OccursInPrefix(p + t, "\n" + r, m, j);
        OccursInSuffix(p, t, m, j);
        HasAt(t, m, j - |p|);
      }
      assert false;
    }
  }

  /** A marker that is neither before the table nor in it is first found behind it. */
  lemma FoundBehind(p: string, t: string, r: string, m: string)
    requires m != "" && Free(m, {'\n'}) && EndsLine(p) && m <= r
    requires !Has(p, m) && !Has(t, m)
    ensures Find(p + t + "\n" + r, m, 0) == |p| + |t| + 1
  {
    hide Find, Has, Free;
    var s := p + t + "\n" + r;
    var k := |p| + |t|;
    assert s[k + 1..k + 1 + |m|] == r[..|m|] == m;
    forall j | 0 <= j < k + 1 ensures !OccursAt(s, m, j) { NotFoundBefore(p, t, r, m, j); }
    FindIs(s, m, 0, k + 1);
  }

  lemma HasAt(s: string, m: string, j: int)
    requires OccursAt(s, m, j)
    ensures Has(s, m)
  {}

  lemma PrefixLacks(content: string, m: string, n: nat)
    requires m != "" && n <= |content| && (Find(content, m, 0) == -1 || n <= Find(content, m, 0))
    ensures !Has(content[..n], m)
  {
    hide Find;
    if Has(content[..n], m) {
      var j :| 0 <= j <= n && OccursAt(content[..n], m, j);
      assert content == content[..n] + content[n..];
      OccursInPrefix(content[..n], content[n..], m, j);
      assert false;
    }
  }

  // The three layouts of the markers

  /** No line ends behind the start marker. */
  predicate Unended(content: string)
    requires HasMarkers(content)
  {
    StartLineEnd(content) == 0
  }

  /** The end marker is before the end of the start marker's line. */
  predicate Crossed(content: string)
    requires HasMarkers(content)
  {
    EndAt(content) < StartLineEnd(content)
  }

  /** The first newline behind the start marker is behind all of it. */
  lemma StartBeforeLineEnd(content: string)
    requires HasMarkers(content) && !Unended(content)
    ensures var a, n := StartAt(content), StartLineEnd(content);
            && a + |START| < n && content[n - 1] == '\n' && Free(content[a..n - 1], {'\n'})
  {
    hide Find, START;
    MarkersAreMarkers();
    var a, n := StartAt(content), StartLineEnd(content);
    assert OccursAt(content, "\n", n - 1);
    OccursChar(content, "\n", n - 1, 0);
    OccursBeside(content, START, a, n - 1, {'\n'});
    NoneBetween(content, a, n - 1);
  }

  lemma NoneBetween(content: string, a: nat, n: nat)
    requires a <= n <= |content| && forall j :: a <= j < n ==> !OccursAt(content, "\n", j)
    ensures Free(content[a..n], {'\n'})
  {
    forall j | 0 <= j < n - a ensures content[a..n][j] != '\n' {
      assert !OccursAt(content, "\n", a + j);
      assert content[a + j..a + j + 1] == [content[a + j]];
    }
  }

  lemma StartLineSkipped(line: string)
    requires line != "" && line[0] == '<'
    ensures ParseLine(line) == Skip
  {
    hide Trim, Has;
    TrimKeepsFirst(line, PY_SPACE);
  }

  /** A region without a newline has no rows. */
  lemma OneLineHasNoRows(content: string)
    requires HasMarkers(content) && Free(Region(content), {'\n'})
    ensures Existing(content) == Ok([])
  {
    hide ParseLine, Find;
    var r := Region(content);
    SplitFree(r, '\n');
    if r == "" {
      BlankLineSkipped();
    } else {
      MarkersAreMarkers();
      OccursChar(content, START, StartAt(content), 0);
      StartLineSkipped(r);
    }
    assert [r] + [] == [r];
    LineSkipped(r, []);
  }

  // An accepted update

  /** The fields read from the region do not contain the end marker. */
  lemma ExistingIsClean(content: string)
    requires HasMarkers(content) && Existing(content).Ok?
    ensures RowsClean(Existing(content).value, END)
  {
    hide Find, Has, Clean, ParseLines, SplitOn, START, END;
    var a, e := StartAt(content), EndAt(content);
    MarkersAreMarkers();
    PrefixLacks(content, END, e);
    var r := Region(content);
    forall c | c in Existing(content).value ensures Clean(c) && !FieldsHave(c, END) {
      ReadIsClean(r, c);
      if FieldsHave(c, END) {
        FieldsTransitive(r, c, END);
        RegionInPrefix(content);
        HasTransitive(content[..e], r, END);
        assert false;
      }
    }
  }

  lemma FieldsTransitive(text: string, c: Committer, p: string)
    requires FieldsFrom(text, c) && FieldsHave(c, p)
    ensures Has(text, p)
  {
    hide Has;
    if Has(c.name, p) { HasTransitive(text, c.name, p); }
    if Has(c.apache, p) { HasTransitive(text, c.apache, p); }
    if Has(c.github, p) { HasTransitive(text, c.github, p); }
    if Has(c.affiliation, p) { HasTransitive(text, c.affiliation, p); }
    if Has(c.role, p) { HasTransitive(text, c.role, p); }
  }

  lemma RegionInPrefix(content: string)
    requires HasMarkers(content)
    ensures Has(content[..EndAt(content)], Region(content))
  {
    hide Find;
    var a, e := StartAt(content), EndAt(content);
    if a <= e {
      assert content[..e][a..e] == content[a..e];
      SliceHas(content[..e], a, e);
    } else {
      SliceHas(content[..e], 0, 0);
    }
  }

  /** The table an update writes. */
  function NewTable(content: string, ms: seq<Member>, lower: string -> string): string
    requires Existing(content).Ok?
  {
    Table(UpdatedRows(Existing(content).value, ms, lower))
  }

  lemma RowsCleanAll(cs: seq<Committer>, p: string)
    requires RowsClean(cs, p)
    ensures AllClean(cs)
  {}

  /** A new text with the markers in their places reads back as the rows that were written, and
      updates to itself. */
  lemma StraightUpdate(content: string, ms: seq<Member>, lower: string -> string)
    requires CleanRoster(ms) && HasMarkers(content) && Existing(content).Ok?
    requires !Unended(content) && !Crossed(content)
    ensures var updated := Splice(content, NewTable(content, ms, lower));
            && Existing(updated) == Ok(UpdatedRows(Existing(content).value, ms, lower))
            && Update(updated, ms, lower) == Written(updated)
  {
    hide Find, Table, UpdatedRows, CleanRoster, ParseLines, START, END;
    var existing := Existing(content).value;
    var rows := UpdatedRows(existing, ms, lower);
    var t := Table(rows);
    ExistingIsClean(content);
    UpdatedRowsClean(existing, ms, lower, END);
    RowsCleanAll(rows, END);
    MarkersAreMarkers();
    TableLacks(rows, END);
    StraightPositions(content, t);
    StraightRegion(content, rows);
    MergeAgain(existing, ms, lower);
  }

  lemma MergeAgain(existing: seq<Committer>, ms: seq<Member>, lower: string -> string)
    requires CleanRoster(ms)
    ensures var rows := UpdatedRows(existing, ms, lower); UpdatedRows(rows, ms, lower) == rows
  {
    hide SortCommitters, NewRows, ByApache, CleanMember;
    var news := NewRows(ByApache(existing), ms);
    SortIsStable(news, lower);
    MergeIsIdempotent(ByApache(existing), ms, SortCommitters(news, lower));
  }

  lemma StraightPositions(content: string, t: string)
    requires HasMarkers(content) && !Unended(content) && !Crossed(content) && !Has(t, END)
    ensures var updated := Splice(content, t);
            && StartAt(updated) == StartAt(content)
            && EndAt(updated) == StartLineEnd(content) + |t| + 1
            && HasMarkers(updated) && StartLineEnd(updated) == StartLineEnd(content)
            && Splice(updated, t) == updated
  {
    hide Find, Has, START, END;
    MarkersAreMarkers();
    StartBeforeLineEnd(content);
    var a, e, n := StartAt(content), EndAt(content), StartLineEnd(content);
    var p, r := content[..n], content[e..];
    var updated := Splice(content, t);
    assert updated == p + t + "\n" + r && updated == p + (t + "\n" + r);
    assert content == p + content[n..];
    FoundInPrefix(p, content[n..], t + "\n" + r, START, 0);
    FoundInPrefix(p, content[n..], t + "\n" + r, "\n", a);
    PrefixLacks(content, END, n);
    assert OccursAt(content, END, e);
    assert r[..|END|] == content[e..e + |END|] == END;
    FoundBehind(p, t, r, END);
    assert updated[..n] == p && updated[n + |t| + 1..] == r;
  }

  lemma StraightRegion(content: string, rows: seq<Committer>)
    requires HasMarkers(content) && !Unended(content) && !Crossed(content)
    requires AllClean(rows) && !Has(Table(rows), END)
    ensures Existing(Splice(content, Table(rows))) == Ok(rows)
  {
    hide Find, Has, START, END, Table, ParseLines, AllClean, Splice;
    var t := Table(rows);
    StraightPositions(content, t);
    StartBeforeLineEnd(content);
    MarkersAreMarkers();
    var updated := Splice(content, t);
    var a, n := StartAt(content), StartLineEnd(content);
    var first := content[a..n - 1];
    OccursChar(content, START, a, 0);
    StartLineSkipped(first);
    RegionText(content, t);
    assert Region(updated) == first + ['\n'] + (t + "\n");
    SplitFirst(first, '\n', t + "\n");
    TableLines(rows);
    assert [first] + ([HEADER, SEPARATOR] + Rows(rows) + [""]) == [first, HEADER, SEPARATOR] + Rows(rows) + [""];
    TableReads(first, rows);
  }

  lemma RegionText(content: string, t: string)
    requires HasMarkers(content) && !Unended(content) && !Crossed(content) && !Has(t, END)
    ensures HasMarkers(Splice(content, t))
    ensures var a, n := StartAt(content), StartLineEnd(content);
            0 <= a < n && Region(Splice(content, t)) == content[a..n - 1] + ['\n'] + (t + "\n")
  {
    hide Find, Has, START, END;
    StraightPositions(content, t);
    StartBeforeLineEnd(content);
    var a, n := StartAt(content), StartLineEnd(content);
    var p, r := content[..n], content[EndAt(content)..];
    var updated := Splice(content, t);
    assert updated == p + (t + "\n") + r;
    MiddleOf(p, t + "\n", r, a);
    assert p[a..] == content[a..n - 1] + ['\n'];
  }

  lemma MiddleOf(p: string, m: string, r: string, a: nat)
    requires a <= |p|
    ensures (p + m + r)[a..|p| + |m|] == p[a..] + m
  {
  }

  lemma FreeSubset(s: string, a: set<char>, b: set<char>)
    requires Free(s, a) && b <= a
    ensures Free(s, b)
  {}

  lemma AllFreeAppend(a: seq<string>, b: seq<string>, cs: set<char>)
    requires AllFree(a, cs) && AllFree(b, cs)
    ensures AllFree(a + b, cs)
  {
    hide Free;
  }

  lemma TableLinesFree(rows: seq<Committer>)
    requires AllClean(rows)
    ensures AllFree([HEADER, SEPARATOR] + Rows(rows) + [""], {'\n'})
  {
    hide HEADER, SEPARATOR, Rows, Free, AllClean;
    HeaderSkipped();
    SeparatorSkipped();
    FreeSubset(HEADER, {'\n', '<'}, {'\n'});
    FreeSubset(SEPARATOR, {'\n', '<'}, {'\n'});
    RowsRead(rows);
    FreeNothing({'\n'});
    AllFreeAppend([HEADER, SEPARATOR], Rows(rows), {'\n'});
    AllFreeAppend([HEADER, SEPARATOR] + Rows(rows), [""], {'\n'});
  }

  lemma FreeNothing(cs: set<char>)
    ensures Free("", cs)
  {}

  lemma TableLines(rows: seq<Committer>)
    requires AllClean(rows)
    ensures SplitOn(Table(rows) + "\n", '\n') == [HEADER, SEPARATOR] + Rows(rows) + [""]
  {
    hide HEADER, SEPARATOR, Join, SplitOn, Rows, AllFree, AllClean;
    TableLinesFree(rows);
    var lines := [HEADER, SEPARATOR] + Rows(rows);
    JoinLast(lines);
    SplitJoin(lines + [""], '\n');
  }

  lemma {:induction false} JoinLast(lines: seq<string>)
    requires lines != []
    ensures Join(lines + [""], "\n") == Join(lines, "\n") + "\n"
  {
    hide Join;
    var x, rest := lines[0], lines[1..];
    assert lines == [x] + rest && lines + [""] == [x] + (rest + [""]);
    JoinCons(x, rest, "\n");
    JoinCons(x, rest + [""], "\n");
    if rest == [] {
      assert rest + [""] == [""] + [];
      JoinCons("", [], "\n");
    } else {
      JoinLast(rest);
    }
  }

  // The other layouts

  lemma FreePrefix(s: string, n: nat, cs: set<char>)
    requires n <= |s| && Free(s, cs)
    ensures Free(s[..n], cs)
  {}

  lemma CrossedHasNoRows(content: string)
    requires HasMarkers(content) && Crossed(content)
    ensures Existing(content) == Ok([])
  {
    hide Find, Existing, START, END;
    StartBeforeLineEnd(content);
    var a, e, n := StartAt(content), EndAt(content), StartLineEnd(content);
    if a <= e {
      assert content[a..n - 1][..e - a] == content[a..e];
      FreePrefix(content[a..n - 1], e - a, {'\n'});
    } else {
      FreeNothing({'\n'});
    }
    OneLineHasNoRows(content);
  }

  lemma CrossedPositions(content: string, t: string)
    requires HasMarkers(content) && Crossed(content)
    ensures var updated := Splice(content, t);
            && StartAt(updated) == StartAt(content) && EndAt(updated) == EndAt(content)
            && HasMarkers(updated) && StartLineEnd(updated) == StartLineEnd(content)
  {
    hide Find, START, END;
    MarkersAreMarkers();
    StartBeforeLineEnd(content);
    var a, e, n := StartAt(content), EndAt(content), StartLineEnd(content);
    var p, r := content[..n], content[e..];
    var updated := Splice(content, t);
    assert updated == p + (t + "\n" + r);
    assert content == p + content[n..];
    FoundInPrefix(p, content[n..], t + "\n" + r, START, 0);
    FoundInPrefix(p, content[n..], t + "\n" + r, "\n", a);
    assert Free(END, {'\n'}) by { FreeSubset(END, {'|', '\n'}, {'\n'}); }
    OccursBeside(content, END, e, n - 1, {'\n'});
    FoundInPrefix(p, content[n..], t + "\n" + r, END, 0);
  }

  /** When the end marker comes before the end of the start marker's line, the table is written
      behind that line and the text from the end marker on is repeated, at every update. */
  lemma CrossedUpdateGrows(content: string, ms: seq<Member>, lower: string -> string)
    requires HasMarkers(content) && Crossed(content) && Existing(content).Ok?
    ensures var updated := Splice(content, NewTable(content, ms, lower));
            |After(updated, ms, lower)| > |updated|
  {
    hide Find, Table, UpdatedRows, START, END, Existing;
    CrossedHasNoRows(content);
    var t := NewTable(content, ms, lower);
    var updated := Splice(content, t);
    CrossedPositions(content, t);
    CrossedHasNoRows(updated);
    assert Update(updated, ms, lower) == Written(Splice(updated, t));
  }

  lemma NoNewlineBehind(content: string)
    requires HasMarkers(content) && Unended(content)
    ensures StartAt(content) <= |content| && Free(content[StartAt(content)..], {'\n'})
  {
    hide Find, START;
    var a := StartAt(content);
    assert forall j :: a <= j ==> !OccursAt(content, "\n", j);
    NoneBetween(content, a, |content|);
    assert content[a..] == content[a..|content|];
  }

  lemma UnendedHasNoRows(content: string)
    requires HasMarkers(content) && Unended(content)
    ensures Existing(content) == Ok([])
  {
    hide Find, Existing, START, END;
    NoNewlineBehind(content);
    var a, e := StartAt(content), EndAt(content);
    if a <= e {
      assert content[a..][..e - a] == content[a..e];
      FreePrefix(content[a..], e - a, {'\n'});
    } else {
      FreeNothing({'\n'});
    }
    OneLineHasNoRows(content);
  }

  lemma FreeSuffix(s: string, n: nat, cs: set<char>)
    requires n <= |s| && Free(s, cs)
    ensures Free(s[n..], cs)
  {}

  /** Where the start marker is after such an update, if it is still there. */
  lemma UnendedPositions(content: string, t: string)
    requires HasMarkers(content) && Unended(content) && !Has(t, START) && !Has(t, END)
    ensures var updated := Splice(content, t);
            && updated == t + "\n" + content[EndAt(content)..] && EndAt(updated) == |t| + 1
            && (StartAt(updated) != -1 ==> StartAt(updated) > |t| && Find(updated, "\n", StartAt(updated)) == -1)
  {
    hide Find, Has, START, END;
    MarkersAreMarkers();
    var e := EndAt(content);
    var r := content[e..];
    var updated := Splice(content, t);
    assert updated == "" + t + "\n" + r && updated == t + "\n" + r;
    assert OccursAt(content, END, e);
    assert r[..|END|] == content[e..e + |END|] == END;
    LacksFirst("", END);
    assert Free(END, {'\n'}) by { FreeSubset(END, {'|', '\n'}, {'\n'}); }
    FoundBehind("", t, r, END);
    var a := StartAt(updated);
    if a != -1 {
      UnendedStart(content, t, a);
      FindNone(updated, "\n", a);
    }
  }

  lemma UnendedStart(content: string, t: string, a: nat)
    requires HasMarkers(content) && Unended(content) && !Has(t, START)
    requires OccursAt(t + "\n" + content[EndAt(content)..], START, a)
    ensures a > |t|
    ensures forall j :: a <= j ==> !OccursAt(t + "\n" + content[EndAt(content)..], "\n", j)
  {
    hide Find, Has, START, END;
    var e := EndAt(content);
    var r := content[e..];
    var s := t + "\n" + r;
    hide Free, OccursAt;
    StartBehindTable(t, r, a);
    OccursInSuffix(t + "\n", r, START, a);
    var k := a - |t| - 1;
    NoNewlineFromStart(content, k);
    assert s[a..] == r[k..];
    NoNewlineFrom(s, a);
  }

  /** A start marker behind a table that has none is in the text that follows the table. */
  lemma StartBehindTable(t: string, r: string, a: nat)
    requires !Has(t, START) && OccursAt(t + "\n" + r, START, a)
    ensures a > |t|
  {
    hide Has, START;
    MarkersAreMarkers();
    var s := t + "\n" + r;
    assert Free(START, {'\n'}) by { FreeSubset(START, {'|', '\n'}, {'\n'}); }
    OccursBeside(s, START, a, |t|, {'\n'});
    if a + |START| <= |t| {
      assert s == t + ("\n" + r);
      OccursInPrefix(t, "\n" + r, START, a);
      HasAt(t, START, a);
      assert false;
    }
  }

  /** Without an end of the start marker's line none follows a start marker behind the end marker. */
  lemma NoNewlineFromStart(content: string, k: nat)
    requires HasMarkers(content) && Unended(content) && OccursAt(content[EndAt(content)..], START, k)
    ensures k <= |content[EndAt(content)..]| && Free(content[EndAt(content)..][k..], {'\n'})
  {
    hide Find, Has, START, END, Free;
    var e, st := EndAt(content), StartAt(content);
    var r := content[e..];
    assert content == content[..e] + r;
    OccursInSuffix(content[..e], r, START, e + k);
    assert st <= e + k;
    NoNewlineBehind(content);
    FreeSuffix(content[st..], e + k - st, {'\n'});
    assert content[st..][e + k - st..] == r[k..];
  }

  lemma NoNewlineFrom(s: string, a: nat)
    requires a <= |s| && Free(s[a..], {'\n'})
    ensures forall j :: a <= j ==> !OccursAt(s, "\n", j)
  {
    forall j | a <= j < |s| ensures s[j] != '\n' {
      assert s[j] == s[a..][j - a];
    }
    forall j | a <= j ensures !OccursAt(s, "\n", j) {
      if OccursAt(s, "\n", j) {
        OccursChar(s, "\n", j, 0);
        assert false;
      }
    }
  }

  /** Without an end of the start marker's line the table goes to the top of the file. The markers are
      both still there exactly when the start marker occurs behind the end marker. */
  lemma UnendedUpdate(content: string, ms: seq<Member>, lower: string -> string)
    requires CleanRoster(ms) && HasMarkers(content) && Unended(content) && Existing(content).Ok?
    ensures Existing(content) == Ok([]) && AllClean(UpdatedRows([], ms, lower))
    ensures var t := NewTable(content, ms, lower);
            var updated := Splice(content, t);
            && (HasMarkers(updated) <==> Has(content[EndAt(content)..], START))
            && Existing(updated) == Ok([])
            && (HasMarkers(updated) ==> Splice(updated, t) == updated)
  {
    hide Find, Has, Table, UpdatedRows, START, END, Existing, RowsClean, CleanRoster;
    UnendedHasNoRows(content);
    NoRowsAreClean(START);
    NoRowsAreClean(END);
    UpdatedRowsClean([], ms, lower, START);
    UpdatedRowsClean([], ms, lower, END);
    MarkersAreMarkers();
    var rows := UpdatedRows([], ms, lower);
    RowsCleanAll(rows, END);
    TableLacks(rows, START);
    TableLacks(rows, END);
    var t := NewTable(content, ms, lower);
    var updated := Splice(content, t);
    UnendedPositions(content, t);
    UnendedKeepsStart(content, t);
    if HasMarkers(updated) {
      UnendedHasNoRows(updated);
      assert updated[..0] == "" && updated[|t| + 1..] == content[EndAt(content)..];
      assert Splice(updated, t) == updated;
    } else {
      NoMarkersNoRows(updated);
    }
  }

  lemma UnendedKeepsStart(content: string, t: string)
    requires HasMarkers(content) && Unended(content) && !Has(t, START)
    ensures StartAt(t + "\n" + content[EndAt(content)..]) != -1 <==> Has(content[EndAt(content)..], START)
  {
    hide Find, START, END;
    var r := content[EndAt(content)..];
    var s := t + "\n" + r;
    var a := StartAt(s);
    if a != -1 {
      UnendedStart(content, t, a);
      OccursInSuffix(t + "\n", r, START, a);
      HasAt(r, START, a - |t| - 1);
    }
    if Has(r, START) {
      var k :| 0 <= k <= |r| && OccursAt(r, START, k);
      OccursInSuffix(t + "\n", r, START, |t| + 1 + k);
      assert OccursAt(s, START, |t| + 1 + k);
    }
  }

  lemma NoRowsAreClean(p: string)
    ensures RowsClean([], p)
  {}

  lemma NoMarkersNoRows(content: string)
    requires !HasMarkers(content)
    ensures Existing(content) == Ok([])
  {}

  // Updating twice

  /** Different clean tables have different rows. */
  lemma TableTells(a: seq<Committer>, b: seq<Committer>)
    requires AllClean(a) && AllClean(b) && Table(a) == Table(b)
    ensures a == b
  {
    hide Table, Rows, ParseLines, ParseLine, HEADER, SEPARATOR, SplitOn, AllClean;
    BlankLineSkipped();
    TableLines(a);
    TableLines(b);
    TableReads("", a);
    TableReads("", b);
    assert [""] + ([HEADER, SEPARATOR] + Rows(a) + [""]) == ["", HEADER, SEPARATOR] + Rows(a) + [""];
    assert [""] + ([HEADER, SEPARATOR] + Rows(b) + [""]) == ["", HEADER, SEPARATOR] + Rows(b) + [""];
  }

  lemma SpliceTells(content: string, t: string, u: string)
    requires HasMarkers(content)
    ensures Splice(content, t) == Splice(content, u) <==> t == u
  {
    hide Find, START, END;
    var p, r := content[..StartLineEnd(content)], content[EndAt(content)..];
    var x, y := Splice(content, t), Splice(content, u);
    if x == y {
      assert x[|p|..|x| - |r| - 1] == t && y[|p|..|y| - |r| - 1] == u;
    }
  }

  lemma RowsOfReordered(known: map<string, Committer>, again: map<string, Committer>, ms: seq<Member>,
                        other: seq<Member>, lower: string -> string)
    requires multiset(other) == multiset(ms) && forall m <- ms :: NewRow(again, m) == NewRow(known, m)
    requires AllClean(SortCommitters(NewRows(known, ms), lower))
    ensures AllClean(SortCommitters(NewRows(again, other), lower))
  {
    hide SortCommitters, NewRow, NewRows, InOrder, WithKey, Clean;
    SameMembers(other, ms);
    SameRows(known, again, other);
    NewRowsPermute(known, other, ms);
    SortIsStable(NewRows(known, ms), lower);
    SortIsStable(NewRows(known, other), lower);
    SameMembers(SortCommitters(NewRows(known, ms), lower), SortCommitters(NewRows(known, other), lower));
    var a, b := SortCommitters(NewRows(known, ms), lower), SortCommitters(NewRows(known, other), lower);
    forall i | 0 <= i < |b| ensures Clean(b[i]) { assert b[i] in b && b[i] in a; }
  }

  /** The text has the table of a roster, and the rows it is read as tell the same details of each
      member. */
  ghost predicate HasTableOf(text: string, again: seq<Committer>, known: map<string, Committer>, ms: seq<Member>,
                             lower: string -> string) {
    && HasMarkers(text) && Existing(text) == Ok(again)
    && (forall m <- ms :: NewRow(ByApache(again), m) == NewRow(known, m))
    && AllClean(SortCommitters(NewRows(known, ms), lower))
    && Splice(text, Table(SortCommitters(NewRows(known, ms), lower))) == text
  }

  /** Such a text is left alone by the roster in another order exactly when the rows come in the same
      order. */
  lemma AfterReordered(text: string, again: seq<Committer>, known: map<string, Committer>, ms: seq<Member>,
                       other: seq<Member>, lower: string -> string)
    requires HasTableOf(text, again, known, ms, lower) && multiset(other) == multiset(ms)
    ensures After(text, other, lower) == text <==>
            SortCommitters(NewRows(known, other), lower) == SortCommitters(NewRows(known, ms), lower)
  {
    hide Find, Splice, Table, SortCommitters, NewRow, NewRows, ByApache, Existing, AllClean, START, END;
    var rows, next := SortCommitters(NewRows(known, ms), lower), SortCommitters(NewRows(known, other), lower);
    SameMembers(other, ms);
    SameRows(known, ByApache(again), other);
    RowsOfReordered(known, ByApache(again), ms, other, lower);
    SpliceTells(text, Table(next), Table(rows));
    if Table(next) == Table(rows) { TableTells(next, rows); }
  }

  /** A text that has the table of a roster is left alone by that roster in every order, exactly when no
      two rows share a sort key. */
  lemma StaysInEveryOrder(text: string, again: seq<Committer>, known: map<string, Committer>, ms: seq<Member>,
                          lower: string -> string)
    requires HasTableOf(text, again, known, ms, lower)
    ensures (forall other :: multiset(other) == multiset(ms) ==> After(text, other, lower) == text)
            <==> KeysTell(SortCommitters(NewRows(known, ms), lower), lower)
  {
    hide HasTableOf, After, SortCommitters, NewRow, NewRows, KeysTell;
    var rows := SortCommitters(NewRows(known, ms), lower);
    OrderDoesNotMatter(known, known, ms, lower);
    forall other | multiset(other) == multiset(ms)
      ensures After(text, other, lower) == text <==> SortCommitters(NewRows(known, other), lower) == rows
    {
      AfterReordered(text, again, known, ms, other, lower);
    }
    if KeysTell(rows, lower) {
      forall other | multiset(other) == multiset(ms) ensures After(text, other, lower) == text {
        assert SortCommitters(NewRows(known, other), lower) == rows;
      }
    } else {
      var other :| multiset(other) == multiset(ms) && SortCommitters(NewRows(known, other), lower) != rows;
      assert After(text, other, lower) != text;
    }
  }

  /** The same for the orders that the script can draw the roster in. */
  lemma StaysInEveryDraw(text: string, again: seq<Committer>, known: map<string, Committer>, pmcs: seq<Person>,
                         committers: seq<Person>, lower: string -> string)
    requires Dictionary(pmcs) && Dictionary(committers)
    requires HasTableOf(text, again, known, Members(pmcs, committers), lower)
    ensures (forall p, c :: multiset(p) == multiset(pmcs) && multiset(c) == multiset(committers) ==>
                              After(text, Members(p, c), lower) == text)
            <==> KeysTellInGroups(known, pmcs, committers, lower)
  {
    hide HasTableOf, After, SortCommitters, NewRows, Members, KeysTellInGroups;
    var ms := Members(pmcs, committers);
    var rows := SortCommitters(NewRows(known, ms), lower);
    DictionaryOrderDoesNotMatter(known, pmcs, committers, lower);
    forall p, c | multiset(p) == multiset(pmcs) && multiset(c) == multiset(committers)
      ensures After(text, Members(p, c), lower) == text
         <==> SortCommitters(NewRows(known, Members(p, c)), lower) == rows
    {
      MembersPermute(pmcs, committers, p, c);
      AfterReordered(text, again, known, ms, Members(p, c), lower);
    }
  }

  lemma StraightHasTable(content: string, ms: seq<Member>, lower: string -> string)
    requires CleanRoster(ms) && HasMarkers(content) && Existing(content).Ok? && !Unended(content) && !Crossed(content)
    ensures var known := ByApache(Existing(content).value);
            var rows := UpdatedRows(Existing(content).value, ms, lower);
            var text := Splice(content, Table(rows));
            After(text, ms, lower) == text && HasTableOf(text, rows, known, ms, lower)
  {
    hide Find, Splice, Table, SortCommitters, NewRow, ByApache, Existing, RowsClean, CleanMember, START, END;
    var existing := Existing(content).value;
    var known := ByApache(existing);
    var rows := UpdatedRows(existing, ms, lower);
    StraightUpdate(content, ms, lower);
    ExistingIsClean(content);
    UpdatedRowsClean(existing, ms, lower, END);
    RowsCleanAll(rows, END);
    MarkersAreMarkers();
    TableLacks(rows, END);
    StraightPositions(content, Table(rows));
    SortIsStable(NewRows(known, ms), lower);
    forall m <- ms ensures NewRow(ByApache(rows), m) == NewRow(known, m) {
      var i :| 0 <= i < |ms| && ms[i] == m;
      RowIsFoundAgain(known, ms, rows, i);
    }
  }

  lemma UnendedHasTable(content: string, ms: seq<Member>, lower: string -> string)
    requires CleanRoster(ms) && HasMarkers(content) && Existing(content).Ok? && Unended(content)
    ensures Existing(content) == Ok([])
    ensures var text := Splice(content, Table(UpdatedRows([], ms, lower)));
            && After(text, ms, lower) == text
            && (HasMarkers(text) <==> Has(content[EndAt(content)..], START))
            && (HasMarkers(text) ==> HasTableOf(text, [], ByApache([]), ms, lower))
  {
    hide Find, Has, Splice, Table, SortCommitters, NewRow, NewRows, ByApache, Existing, CleanMember, START, END;
    UnendedUpdate(content, ms, lower);
  }

  /** No line ends behind the start marker, and none is left behind the end marker. */
  predicate NoneLeft(content: string)
    requires HasMarkers(content)
  {
    StartLineEnd(content) == 0 && !Has(content[EndAt(content)..], START)
  }

  /** Where an update writes the file, a second update with the same clean roster in the same order
      leaves the text unchanged exactly when the start marker's line ends at or before the end marker.
      In whatever order the roster comes, it does so exactly when moreover no two rows share a sort key,
      or when no line ends behind the start marker and none is left behind the end marker, so that the
      second update finds no markers. */
  lemma SecondUpdateLeavesText(content: string, ms: seq<Member>, lower: string -> string)
    requires CleanRoster(ms) && Update(content, ms, lower).Written?
    ensures After(Update(content, ms, lower).text, ms, lower) == Update(content, ms, lower).text <==>
            StartLineEnd(content) <= EndAt(content)
    ensures var text := Update(content, ms, lower).text;
            (forall other :: multiset(other) == multiset(ms) ==> After(text, other, lower) == text) <==>
            && StartLineEnd(content) <= EndAt(content)
            && (|| KeysTell(UpdatedRows(Existing(content).value, ms, lower), lower)
                || NoneLeft(content))
  {
    hide Find, Splice, CleanMember, SortCommitters, NewRow, NewRows, Table, KeysTell, Existing, Has, HasTableOf;
    hide START, END;
    assert HasMarkers(content) && Existing(content).Ok?;
    var text := Update(content, ms, lower).text;
    assert text == Splice(content, NewTable(content, ms, lower));
    if Unended(content) {
      UnendedHasTable(content, ms, lower);
      if HasMarkers(text) { StaysInEveryOrder(text, [], ByApache([]), ms, lower); }
    } else if Crossed(content) {
      CrossedUpdateGrows(content, ms, lower);
    } else {
      StraightHasTable(content, ms, lower);
      var existing := Existing(content).value;
      StaysInEveryOrder(text, UpdatedRows(existing, ms, lower), ByApache(existing), ms, lower);
    }
  }

  /** The script draws the roster from sets, the PMC first. In whatever order it does so, where it writes
      the file, a second update leaves the text unchanged exactly when the start marker's line ends at or
      before the end marker and no two rows of the PMC and no two other rows share a sort key, or no
      markers are left. */
  lemma SecondUpdateOfRoster(content: string, pmcs: seq<Person>, committers: seq<Person>, lower: string -> string)
    requires Dictionary(pmcs) && Dictionary(committers) && CleanRoster(Members(pmcs, committers))
    requires HasMarkers(content) && Existing(content).Ok?
    ensures var text := After(content, Members(pmcs, committers), lower);
            (forall p, c :: multiset(p) == multiset(pmcs) && multiset(c) == multiset(committers) ==>
                              After(text, Members(p, c), lower) == text) <==>
            && StartLineEnd(content) <= EndAt(content)
            && (|| KeysTellInGroups(ByApache(Existing(content).value), pmcs, committers, lower)
                || NoneLeft(content))
  {
    hide Find, Splice, CleanRoster, UpdatedRows, ByApache, Members, Table, KeysTellInGroups, Existing, Has, HasTableOf;
    hide START, END;
    var ms := Members(pmcs, committers);
    var text := After(content, ms, lower);
    assert text == Splice(content, NewTable(content, ms, lower));
    if Unended(content) {
      UnendedHasTable(content, ms, lower);
      if HasMarkers(text) { StaysInEveryDraw(text, [], ByApache([]), pmcs, committers, lower); }
    } else if Crossed(content) {
      CrossedUpdateGrows(content, ms, lower);
    } else {
      StraightHasTable(content, ms, lower);
      var existing := Existing(content).value;
      StaysInEveryDraw(text, UpdatedRows(existing, ms, lower), ByApache(existing), pmcs, committers, lower);
    }
  }

  /** `c` is the last of the rows with its id. */
  predicate LastOfId(rows: seq<Committer>, c: Committer) {
    exists i :: 0 <= i < |rows| && rows[i] == c && forall j :: i < j < |rows| ==> rows[j].apache != c.apache
  }

  /** What is known of a member by hand is kept, and the chair stays the chair. */
  predicate KeepsDetails(c: Committer, d: Committer) {
    && d.name == c.name && d.apache == c.apache && d.github == c.github && d.affiliation == c.affiliation
    && (d.role == "PMC Chair" <==> c.role == "PMC Chair")
  }

  /** A new member has a name and nothing else. */
  predicate IsNewRow(d: Committer, pmcs: seq<Person>, committers: seq<Person>) {
    && d.github == "" && d.affiliation == "" && d.role != "PMC Chair"
    && (|| Person(d.apache, d.name) in committers
        || ((forall p <- committers :: p.id != d.apache) && Person(d.apache, d.name) in pmcs))
  }

  lemma {:induction false} LastIsKnown(rows: seq<Committer>, id: string)
    ensures id in ByApache(rows) <==> exists c <- rows :: c.apache == id
    ensures id in ByApache(rows) ==> LastOfId(rows, ByApache(rows)[id]) && ByApache(rows)[id].apache == id
  {
    if rows == [] {
    } else {
      var init, last := rows[..|rows| - 1], rows[|rows| - 1];
      assert rows == init + [last] && last in rows;
      LastIsKnown(init, id);
      if last.apache == id {
        assert LastOfId(rows, last) by { assert rows[|rows| - 1] == last; }
      } else if id in ByApache(init) {
        var c := ByApache(init)[id];
        var i :| 0 <= i < |init| && init[i] == c && forall j :: i < j < |init| ==> init[j].apache != c.apache;
        assert rows[i] == c && forall j :: i < j < |rows| ==> rows[j].apache != c.apache;
      }
    }
  }

  lemma LastIsOne(rows: seq<Committer>, c: Committer, d: Committer)
    requires LastOfId(rows, c) && LastOfId(rows, d) && c.apache == d.apache
    ensures c == d
  {
  }

  /** The row of a member who is in the table already. */
  lemma KnownRow(rows: seq<Committer>, m: Member, c: Committer)
    requires LastOfId(rows, c) && c.apache == m.id
    ensures KeepsDetails(c, NewRow(ByApache(rows), m))
  {
    hide LastOfId, ByApache;
    assert c in rows by { LastIsIn(rows, c); }
    LastIsKnown(rows, m.id);
    LastIsOne(rows, c, ByApache(rows)[m.id]);
    assert |"PMC"| != |"PMC Chair"| && "Committer"[0] != "PMC Chair"[0];
  }

  lemma LastIsIn(rows: seq<Committer>, c: Committer)
    requires LastOfId(rows, c)
    ensures c in rows
  {
  }

  /** The name that the roster has for a member. */
  lemma {:induction false} MemberHasName(pmcs: seq<Person>, committers: seq<Person>, m: Member)
    requires Dictionary(pmcs) && Dictionary(committers) && m in Members(pmcs, committers)
    ensures || Person(m.id, m.name) in committers
            || ((forall p <- committers :: p.id != m.id) && Person(m.id, m.name) in pmcs)
  {
    hide NameOf, FlatMap;
    PmcByPerson(pmcs, committers);
    OtherByPerson(pmcs, committers);
    if m in PmcMembers(pmcs, committers) {
      var p := FromPerson(pmcs, PmcEntry(committers), m);
      if NameOf(committers, m.id).Some? {
        var q := NameOfFirst(committers, m.id);
        assert q == Person(m.id, m.name);
      } else {
        NameOfIs(committers, m.id);
        forall q <- committers ensures q.id != m.id { assert q.id in Ids(committers); }
        assert p == Person(m.id, m.name);
      }
    } else {
      var p := FromPerson(committers, OtherEntry(pmcs), m);
      assert p == Person(m.id, m.name);
    }
  }

  lemma {:induction false} FromPerson(ps: seq<Person>, f: Person -> seq<Member>, m: Member) returns (p: Person)
    requires m in FlatMap(ps, f)
    ensures p in ps && m in f(p)
  {
    if m in f(ps[0]) {
      p := ps[0];
    } else {
      p := FromPerson(ps[1..], f, m);
    }
  }

  /** The row of a member who is not in the table. */
  lemma UnknownRow(rows: seq<Committer>, pmcs: seq<Person>, committers: seq<Person>, m: Member)
    requires Dictionary(pmcs) && Dictionary(committers) && m in Members(pmcs, committers)
    requires forall c <- rows :: c.apache != m.id
    ensures IsNewRow(NewRow(ByApache(rows), m), pmcs, committers)
  {
    hide ByApache, Members;
    LastIsKnown(rows, m.id);
    MemberHasName(pmcs, committers, m);
    assert |"PMC"| != |"PMC Chair"| && "Committer"[0] != "PMC Chair"[0];
  }

  /** Every new row either keeps the details of the last row with its id, or is new. */
  lemma RowsKeepDetails(before: seq<Committer>, pmcs: seq<Person>, committers: seq<Person>, d: Committer)
    requires Dictionary(pmcs) && Dictionary(committers) && d in NewRows(ByApache(before), Members(pmcs, committers))
    ensures forall c <- before :: LastOfId(before, c) && c.apache == d.apache ==> KeepsDetails(c, d)
    ensures (forall c <- before :: c.apache != d.apache) ==> IsNewRow(d, pmcs, committers)
  {
    hide NewRow, ByApache, Members, LastOfId, KeepsDetails, IsNewRow;
    var ms := Members(pmcs, committers);
    var i :| 0 <= i < |ms| && NewRows(ByApache(before), ms)[i] == d;
    assert ms[i] in ms;
    RowHasId(ByApache(before), ms[i]);
    forall c <- before | LastOfId(before, c) && c.apache == d.apache ensures KeepsDetails(c, d) {
      KnownRow(before, ms[i], c);
    }
    if forall c <- before :: c.apache != d.apache { UnknownRow(before, pmcs, committers, ms[i]); }
  }

  /** With the markers on lines of their own the file an update writes reads back as the rows that
      were written: one for every id of the roster, with its role, and no other. A row keeps what the
      last row with its id had, and the row of a new id has the roster's name and nothing else. */
  lemma UpdatedFileHasTheRoster(content: string, pmcs: seq<Person>, committers: seq<Person>, lower: string -> string)
    requires Dictionary(pmcs) && Dictionary(committers) && CleanRoster(Members(pmcs, committers))
    requires Update(content, Members(pmcs, committers), lower).Written?
    requires 0 < StartLineEnd(content) <= EndAt(content)
    ensures var text := Update(content, Members(pmcs, committers), lower).text;
            && Existing(text).Ok?
            && var rows := Existing(text).value;
               && (set c | c in rows :: c.apache) == Ids(pmcs) + Ids(committers)
               && |rows| == |Ids(pmcs) + Ids(committers)|
               && forall c :: c in rows ==>
                    c.role == "PMC Chair" || c.role == (if c.apache in Ids(pmcs) then "PMC" else "Committer")
    ensures var before := Existing(content).value;
            var rows := Existing(Update(content, Members(pmcs, committers), lower).text).value;
            && (forall c <- before, d <- rows :: LastOfId(before, c) && c.apache == d.apache ==> KeepsDetails(c, d))
            && forall d <- rows :: (forall c <- before :: c.apache != d.apache) ==> IsNewRow(d, pmcs, committers)
  {
    hide Find, Splice, CleanRoster, Table, START, END, Members, Existing, SortCommitters, ByApache;
    hide LastOfId, KeepsDetails, IsNewRow;
    var ms := Members(pmcs, committers);
    assert HasMarkers(content) && Existing(content).Ok?;
    StraightUpdate(content, ms, lower);
    MembersAreTheRoster(pmcs, committers);
    var known := ByApache(Existing(content).value);
    var news := NewRows(known, ms);
    SortIsStable(news, lower);
    var rows := UpdatedRows(Existing(content).value, ms, lower);
    RowsOfRoster(known, ms, rows, Ids(pmcs));
    SameMembers(rows, news);
    forall d <- rows
      ensures forall c <- Existing(content).value ::
                LastOfId(Existing(content).value, c) && c.apache == d.apache ==> KeepsDetails(c, d)
      ensures (forall c <- Existing(content).value :: c.apache != d.apache) ==> IsNewRow(d, pmcs, committers)
    {
      RowsKeepDetails(Existing(content).value, pmcs, committers, d);
    }
  }

  lemma {:induction false} RowsOfRoster(known: map<string, Committer>, ms: seq<Member>, rows: seq<Committer>,
                                        pmcIds: set<string>)
    requires DistinctIds(ms) && multiset(rows) == multiset(NewRows(known, ms))
    requires forall m :: m in ms ==> (m.pmc <==> m.id in pmcIds)
    ensures (set c | c in rows :: c.apache) == MemberIds(ms) && |rows| == |MemberIds(ms)|
    ensures forall c :: c in rows ==>
              c.role == "PMC Chair" || c.role == (if c.apache in pmcIds then "PMC" else "Committer")
  {
    hide NewRow, NewRows, MemberIds;
    SameMembers(rows, NewRows(known, ms));
    DistinctIdCount(ms);
    forall c <- rows
      ensures c.apache in MemberIds(ms)
      ensures c.role == "PMC Chair" || c.role == (if c.apache in pmcIds then "PMC" else "Committer")
    {
      RowOfRoster(known, ms, pmcIds, c);
    }
    IdsCovered(known, ms);
  }

  lemma {:induction false} RowOfRoster(known: map<string, Committer>, ms: seq<Member>, pmcIds: set<string>,
                                       c: Committer)
    requires c in NewRows(known, ms) && forall m :: m in ms ==> (m.pmc <==> m.id in pmcIds)
    ensures c.apache in MemberIds(ms)
    ensures c.role == "PMC Chair" || c.role == (if c.apache in pmcIds then "PMC" else "Committer")
  {
    hide NewRow, NewRows;
    var i :| 0 <= i < |ms| && NewRows(known, ms)[i] == c;
    assert ms[i] in ms;
    RowHasId(known, ms[i]);
    RowHasRole(known, ms[i]);
  }

  lemma IdsCovered(known: map<string, Committer>, ms: seq<Member>)
    ensures forall id :: id in MemberIds(ms) ==> exists c :: c in NewRows(known, ms) && c.apache == id
  {
    hide NewRow;
    var news := NewRows(known, ms);
    forall id | id in MemberIds(ms) ensures exists c :: c in news && c.apache == id {
      var i :| 0 <= i < |ms| && ms[i].id == id;
      RowHasId(known, ms[i]);
      assert news[i] in news;
    }
  }

  lemma RowHasRole(known: map<string, Committer>, m: Member)
    ensures NewRow(known, m).role == "PMC Chair" || NewRow(known, m).role == if m.pmc then "PMC" else "Committer"
  {}

  lemma {:induction false} DistinctIdCount(ms: seq<Member>)
    requires DistinctIds(ms)
    ensures |MemberIds(ms)| == |ms|
  {
    if ms == [] {
    } else {
      var rest := ms[1..];
      DistinctIdCount(rest);
      assert ms == [ms[0]] + rest;
      MemberIdsAppend([ms[0]], rest);
      OneId([ms[0]]);
      assert ms[0].id !in MemberIds(rest);
    }
  }
}
