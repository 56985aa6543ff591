/** Query identifiers and the file names made of them (benchmarks/src/sql_benchmark_suite.rs). */
module QueryFilenames {
  import opened Text
  import opened TextSearch
  import opened Decimal
  import opened Letters

  const PLAIN: string := "{QUERY_ID}"
  const PADDED: string := "{QUERY_ID_PADDED}"

  // Matching and replacing, leftmost first and without overlaps

  function Matches(s: string, p: string): nat
    requires p != ""
    decreases |s|
  {
    var i := Find(s, p, 0);
    if i == -1 then 0 else 1 + Matches(s[i + |p|..], p)
  }

  function Replace(s: string, p: string, r: string): string
    requires p != ""
    decreases |s|
  {
    var i := Find(s, p, 0);
    if i == -1 then s else s[..i] + r + Replace(s[i + |p|..], p, r)
  }

  /** `validate_query_pattern`, apart from what it asks of a path. */
  predicate ValidPattern(pattern: string) {
    Matches(pattern, PLAIN) + Matches(pattern, PADDED) == 1
  }

  predicate IsAlphanumeric(c: char) {
    '0' <= c <= '9' || 'a' <= c <= 'z' || 'A' <= c <= 'Z'
  }

  function DigitCount(s: string): (n: nat)
    ensures n <= |s| && AllDigits(s[..n])
    ensures n < |s| ==> !IsDigit(s[n])
  {
    if s == "" || !IsDigit(s[0]) then 0
    else
      assert s[..1 + DigitCount(s[1..])] == [s[0]] + s[1..][..DigitCount(s[1..])];
      1 + DigitCount(s[1..])
  }

  /** The identifier without its `q`. */
  function Stripped(query: string): string {
    if query != "" && (query[0] == 'q' || query[0] == 'Q') then query[1..] else query
  }

  predicate ValidId(id: string) {
    DigitCount(id) > 0 && forall c <- id :: IsAlphanumeric(c)
  }

  function Digits(id: string): (d: string)
    ensures AllDigits(d)
  {
    id[..DigitCount(id)]
  }

  function Suffix(id: string): string {
    id[DigitCount(id)..]
  }

  /** `trim_start_matches('0')`, and a zero if nothing is left. */
  function Trimmed0(digits: string): string {
    var t := TrimStart(digits, {'0'});
    if t == "" then "0" else t
  }

  /** `{:0>2}` */
  function Pad2(s: string): string {
    if |s| == 0 then "00" else if |s| == 1 then "0" + s else s
  }

  function Replacement(pattern: string, id: string): string {
    if Has(pattern, PADDED) then Pad2(Trimmed0(Digits(id))) + Suffix(id) else id
  }

  /** `query_filename` */
  function QueryFilename(pattern: string, query: string): Option<string> {
    var id := Stripped(query);
    if !ValidId(id) then None
    else
      var r := Replacement(pattern, id);
      Some(Replace(Replace(pattern, PADDED, r), PLAIN, r))
  }

  // One substitution

  lemma FindHas(s: string, p: string)
    ensures Find(s, p, 0) == -1 <==> !Has(s, p)
  {
    if Has(s, p) {
      var i :| 0 <= i <= |s| && OccursAt(s, p, i);
    }
  }

  /** A string with one match is what is before it, the match, and what is behind it; neither of
      these has another. */
  lemma OneMatch(s: string, p: string) returns (a: string, b: string)
    requires p != "" && Matches(s, p) == 1
    ensures s == a + p + b && !Has(b, p) && !Has(a, p)
    ensures forall r :: Replace(s, p, r) == a + r + b
  {
    var i := Find(s, p, 0);
    a, b := s[..i], s[i + |p|..];
    FindHas(b, p);
    NotBeforeFirst(s, p);
  }

  lemma NotBeforeFirst(s: string, p: string)
    requires p != "" && Find(s, p, 0) >= 0
    ensures !Has(s[..Find(s, p, 0)], p)
  {
    hide Find;
    var a := s[..Find(s, p, 0)];
    forall k | 0 <= k <= |a| - |p| ensures !OccursAt(a, p, k) {
      assert !OccursAt(s, p, k) && a[k..k + |p|] == s[k..k + |p|];
    }
  }

  lemma NoMatch(s: string, p: string, r: string)
    requires p != "" && Matches(s, p) == 0
    ensures !Has(s, p) && Replace(s, p, r) == s
  {
    FindHas(s, p);
  }

  /** A replacement starts with a digit and goes on with letters and digits. */
  predicate IsReplacement(r: string) {
    r != "" && IsDigit(r[0]) && forall c <- r :: IsAlphanumeric(c)
  }

  /** Putting a replacement between two strings makes no placeholder. */
  lemma NothingNew(a: string, r: string, b: string)
    requires IsReplacement(r) && !Has(a, PLAIN) && !Has(b, PLAIN)
    ensures !Has(a + r + b, PLAIN)
  {
    var s := a + r + b;
    if Has(s, PLAIN) {
      var k :| 0 <= k <= |s| && OccursAt(s, PLAIN, k);
      if k + |PLAIN| <= |a| {
        assert s == a + (r + b);
        OccursInPrefix(a, r + b, PLAIN, k);
      } else if k >= |a| + |r| {
        OccursInSuffix(a + r, b, PLAIN, k);
      } else if k <= |a| {
        assert s[|a|] == r[0] && IsDigit(s[|a|]);
        OccursChar(s, PLAIN, k, |a| - k);
      } else {
        assert s[k] == r[k - |a|] && IsAlphanumeric(s[k]);
        OccursChar(s, PLAIN, k, 0);
      }
    }
  }

  /** The two chained replacements substitute exactly once, whatever the identifier. */
  lemma SubstitutedOnce(pattern: string) returns (a: string, b: string)
    requires ValidPattern(pattern)
    ensures pattern == a + (if Has(pattern, PADDED) then PADDED else PLAIN) + b
    ensures forall query :: ValidId(Stripped(query)) ==>
              QueryFilename(pattern, query) == Some(a + Replacement(pattern, Stripped(query)) + b)
  {
    hide Replace, Matches;
    if Matches(pattern, PADDED) == 1 {
      a, b := OneMatch(pattern, PADDED);
      PartHas(a, PADDED, b);
      NoPlain(pattern, a, b);
    } else {
      a, b := OneMatch(pattern, PLAIN);
    }
    forall query | ValidId(Stripped(query))
      ensures QueryFilename(pattern, query) == Some(a + Replacement(pattern, Stripped(query)) + b)
    {
      var r := Replacement(pattern, Stripped(query));
      Replaceable(pattern, Stripped(query));
      if Matches(pattern, PADDED) == 1 {
        assert Replace(pattern, PADDED, r) == a + r + b;
        NothingNew(a, r, b);
        NotThere(a + r + b, PLAIN, r);
      } else {
        NoMatch(pattern, PADDED, r);
        assert Replace(pattern, PLAIN, r) == a + r + b;
      }
    }
    if Matches(pattern, PADDED) != 1 { NoMatch(pattern, PADDED, ""); }
  }

  lemma NotThere(s: string, p: string, r: string)
    requires p != "" && !Has(s, p)
    ensures Replace(s, p, r) == s
  {
    FindHas(s, p);
  }

  lemma NoPlain(pattern: string, a: string, b: string)
    requires pattern == a + PADDED + b && Matches(pattern, PLAIN) == 0
    ensures !Has(a, PLAIN) && !Has(b, PLAIN)
  {
    NoMatch(pattern, PLAIN, "");
    assert pattern == a + (PADDED + b);
    if Has(a, PLAIN) {
      var k :| 0 <= k <= |a| && OccursAt(a, PLAIN, k);
      OccursInPrefix(a, PADDED + b, PLAIN, k);
      assert false;
    }
    if Has(b, PLAIN) {
      var k :| 0 <= k <= |b| && OccursAt(b, PLAIN, k);
      OccursInSuffix(a + PADDED, b, PLAIN, |a + PADDED| + k);
      assert false;
    }
  }

  lemma Replaceable(pattern: string, id: string)
    requires ValidId(id)
    ensures IsReplacement(Replacement(pattern, id))
  {
    assert IsDigit(id[0]) by { assert id[..DigitCount(id)][0] in Digits(id); }
    if Has(pattern, PADDED) {
      CanonicalDigits(Digits(id));
      PaddedDigits(Trimmed0(Digits(id)));
    }
  }

  lemma PaddedDigits(d: string)
    requires AllDigits(d)
    ensures Pad2(d) != "" && AllDigits(Pad2(d))
  {
  }

  // What the file of a query is called

  lemma AlphanumericIs(c: char)
    ensures IsAlphanumeric(c) <==> c in DIGITS || c in SMALL || c in CAPITAL
  {
    DigitsAre(c);
    SmallAre(c);
    CapitalAre(c);
  }

  lemma DigitIs(k: nat)
    requires k < 10
    ensures DIGITS[k] as int == '0' as int + k
  {
  }

  lemma {:induction false} DigitCountOf(d: string, rest: string)
    requires AllDigits(d) && (rest != "" ==> !IsDigit(rest[0]))
    ensures DigitCount(d + rest) == |d|
  {
    if d == "" {
      assert d + rest == rest;
    } else {
      assert d[0] in d && forall c <- d[1..] :: c in d;
      DigitCountOf(d[1..], rest);
      assert (d + rest)[1..] == d[1..] + rest;
    }
  }

  lemma DigitsOf(d: string, rest: string)
    requires AllDigits(d) && (rest != "" ==> !IsDigit(rest[0]))
    ensures Digits(d + rest) == d && Suffix(d + rest) == rest
  {
    DigitCountOf(d, rest);
    assert (d + rest)[..|d|] == d && (d + rest)[|d|..] == rest;
  }

  lemma ShowLength(n: nat)
    ensures |Show(n)| == 1 <==> n < 10
  {
    if n >= 10 { assert Show(n / 10) != ""; }
  }

  /** A number of a padded pattern has two digits at least, and no zeros before them otherwise. */
  lemma PaddedNumber(n: nat)
    ensures Pad2(Show(n)) == (if n < 10 then "0" else "") + Show(n)
  {
    ShowLength(n);
    assert "" + Show(n) == Show(n);
  }

  /** A query is a number, with zeros before it or not, and then letters and digits. */
  predicate QueryText(zeros: string, n: nat, rest: string) {
    && Only(zeros, {'0'}) && (forall c <- rest :: c in DIGITS || c in SMALL || c in CAPITAL)
    && (rest != "" ==> !IsDigit(rest[0]))
  }

  lemma QueryIsValid(zeros: string, n: nat, rest: string)
    requires QueryText(zeros, n, rest)
    ensures var id := zeros + Show(n) + rest;
            && ValidId(id) && Stripped(id) == id && AllDigits(zeros + Show(n))
            && Digits(id) == zeros + Show(n) && Suffix(id) == rest
  {
    hide Show;
    var d := zeros + Show(n);
    forall c <- d ensures IsDigit(c) { if c in zeros { assert c in {'0'}; } }
    DigitCountOf(d, rest);
    DigitsOf(d, rest);
    forall c <- d + rest ensures IsAlphanumeric(c) { AlphanumericIs(c); }
    assert IsDigit((d + rest)[0]) by { assert d[0] in d; }
  }

  /** The file of query `n`: the number has two digits at least if the pattern is padded, and is as it was
      written if it is not; what follows it is kept, and a `q` before it is not. */
  lemma FileOfQuery(a: string, b: string, padded: bool, q: string, zeros: string, n: nat, rest: string)
    requires ValidPattern(a + (if padded then PADDED else PLAIN) + b) && q in ["", "q", "Q"]
    requires QueryText(zeros, n, rest)
    ensures var number := if padded then (if n < 10 then "0" else "") + Show(n) else zeros + Show(n);
            QueryFilename(a + (if padded then PADDED else PLAIN) + b, q + (zeros + Show(n) + rest))
            == Some(a + (number + rest) + b)
  {
    hide QueryFilename, ValidPattern, ValidId, Show, QueryText, Replacement;
    var pattern, id := a + (if padded then PADDED else PLAIN) + b, zeros + Show(n) + rest;
    QueryIsValid(zeros, n, rest);
    StrippedOnce(q, id);
    var x, y := SubstitutedOnce(pattern);
    OnlyPlaceholder(pattern, a, b, padded, x, y);
    ReplacementOf(pattern, zeros, n, rest);
  }

  /** A query has no file exactly when, behind its `q`, it does not start with a digit or holds a character
      that is neither a digit nor a letter. */
  lemma NoFileOfQuery(pattern: string, q: string, id: string)
    requires q in ["", "q", "Q"] && (q == "" ==> id == "" || (id[0] != 'q' && id[0] != 'Q'))
    ensures QueryFilename(pattern, q + id) == None <==>
            || id == "" || id[0] !in DIGITS
            || exists c <- id :: c !in DIGITS && c !in SMALL && c !in CAPITAL
  {
    if q == "" { assert q + id == id; } else { assert (q + id)[1..] == id; }
    assert Stripped(q + id) == id;
    forall c <- id ensures IsAlphanumeric(c) <==> c in DIGITS || c in SMALL || c in CAPITAL { AlphanumericIs(c); }
    if id != "" { DigitsAre(id[0]); }
  }

  lemma DigitsAre(c: char)
    ensures IsDigit(c) <==> c in DIGITS
  {
    if c in DIGITS { var k :| 0 <= k < |DIGITS| && DIGITS[k] == c; DigitIs(k); }
    if '0' <= c <= '9' { DigitIs((c - '0') as nat); }
  }

  lemma StrippedOnce(q: string, id: string)
    requires q in ["", "q", "Q"] && Stripped(id) == id
    ensures Stripped(q + id) == id
  {
    if q == "" { assert q + id == id; } else { assert (q + id)[1..] == id; }
  }

  lemma ReplacementOf(pattern: string, zeros: string, n: nat, rest: string)
    requires QueryText(zeros, n, rest)
    ensures Replacement(pattern, zeros + Show(n) + rest)
         == if Has(pattern, PADDED) then (if n < 10 then "0" else "") + Show(n) + rest else zeros + Show(n) + rest
  {
    hide Show, Has, Value, Pad2, Trimmed0, Digits;
    QueryIsValid(zeros, n, rest);
    LeadingZeros(zeros, Show(n));
    ValueOfShow(n);
    CanonicalDigits(zeros + Show(n));
    PaddedNumber(n);
  }

  /** A valid pattern has its placeholder at one place. */
  lemma OnlyPlaceholder(pattern: string, a: string, b: string, padded: bool, x: string, y: string)
    requires ValidPattern(pattern) && pattern == a + (if padded then PADDED else PLAIN) + b
    requires pattern == x + (if Has(pattern, PADDED) then PADDED else PLAIN) + y
    ensures Has(pattern, PADDED) == padded && x == a && y == b
  {
    hide Matches, Has;
    var p := if padded then PADDED else PLAIN;
    PartHas(a, p, b);
    MatchesWhenHas(pattern, p);
    MatchesWhenHas(pattern, if padded then PLAIN else PADDED);
    OneOccurrence(pattern, p, a, b, x, y);
  }

  lemma MatchesWhenHas(s: string, p: string)
    requires p != ""
    ensures Matches(s, p) > 0 <==> Has(s, p)
  {
    FindHas(s, p);
  }

  lemma OneOccurrence(s: string, p: string, a: string, b: string, x: string, y: string)
    requires p != "" && Matches(s, p) == 1 && s == a + p + b == x + p + y && (p == PLAIN || p == PADDED)
    ensures x == a && y == b
  {
    hide Matches;
    FirstOccurrence(s, p, a, b);
    FirstOccurrence(s, p, x, y);
    assert a == s[..|a|] && x == s[..|x|] && b == s[|a| + |p|..] && y == s[|x| + |p|..];
  }

  lemma FirstOccurrence(s: string, p: string, a: string, b: string)
    requires p != "" && Matches(s, p) == 1 && s == a + p + b && (p == PLAIN || p == PADDED)
    ensures Find(s, p, 0) == |a|
  {
    hide Find;
    var i := Find(s, p, 0);
    assert OccursAt(s, p, |a|);
    if i < |a| {
      if |a| < i + |p| {
        OccursChar(s, p, i, |a| - i);
        OccursChar(s, p, |a|, 0);
        BraceOnce(p, |a| - i);
      } else {
        NoneBehind(s, p, i + |p|, |a|);
      }
    }
  }

  lemma NoneBehind(s: string, p: string, from: nat, at: nat)
    requires p != "" && from <= at && at + |p| <= |s| && Matches(s[from..], p) == 0
    ensures !OccursAt(s, p, at)
  {
    hide Find;
    var t, k := s[from..], at - from;
    assert !OccursAt(t, p, k);
    assert t[k..k + |p|] == s[at..at + |p|];
  }

  lemma BraceOnce(p: string, j: nat)
    requires (p == PLAIN || p == PADDED) && 0 < j < |p|
    ensures p[0] == '{' && p[j] != '{'
  {
  }

  // Same file, same query

  lemma {:induction false} ShowOfValue(s: string)
    requires s != "" && AllDigits(s) && (s[0] != '0' || |s| == 1)
    ensures Show(Value(s)) == s && (s[0] != '0' ==> Value(s) > 0)
  {
    var d := DigitValue(s[|s| - 1]);
    assert DIGITS[d] == s[|s| - 1];
    if |s| == 1 {
      assert s[..0] == "";
    } else {
      ShowOfValue(s[..|s| - 1]);
      assert Value(s) / 10 == Value(s[..|s| - 1]) && Value(s) % 10 == d;
      assert s == s[..|s| - 1] + [s[|s| - 1]];
    }
  }

  lemma {:induction false} LeadingZeros(zeros: string, s: string)
    requires Only(zeros, {'0'}) && AllDigits(s)
    ensures AllDigits(zeros + s) && Value(zeros + s) == Value(s)
  {
    if s == "" {
      assert zeros + s == zeros;
      if zeros != "" {
        LeadingZeros(zeros[..|zeros| - 1], "");
        assert zeros[..|zeros| - 1] + "" == zeros[..|zeros| - 1];
        assert zeros[|zeros| - 1] == '0';
      }
    } else {
      LeadingZeros(zeros, s[..|s| - 1]);
      assert (zeros + s)[..|zeros + s| - 1] == zeros + s[..|s| - 1];
    }
  }

  /** Without its leading zeros a number is as it is written. */
  lemma CanonicalDigits(d: string)
    requires AllDigits(d)
    ensures Trimmed0(d) == Show(Value(d)) && AllDigits(Trimmed0(d))
  {
    var zeros := TrimStartSplits(d, {'0'});
    var t := TrimStart(d, {'0'});
    forall c <- t ensures IsDigit(c) { assert c in d; }
    LeadingZeros(zeros, t);
    if t != "" { ShowOfValue(t); }
  }

  lemma PaddingKeepsValue(d: string)
    requires d != "" && AllDigits(d)
    ensures AllDigits(Pad2(d)) && Value(Pad2(d)) == Value(d)
  {
    PaddedDigits(d);
    LeadingZeros("0", d);
  }

  lemma DigitAt(x: string, s: string, k: nat)
    requires AllDigits(x) && k < |x|
    ensures IsDigit((x + s)[k])
  {
    assert x[k] in x;
  }

  lemma DigitsEndFirst(x: string, s: string, y: string, t: string)
    requires AllDigits(x) && AllDigits(y) && x + s == y + t
    requires (s != "" ==> !IsDigit(s[0])) && (t != "" ==> !IsDigit(t[0]))
    ensures |x| <= |y|
  {
    if |x| > |y| {
      DigitAt(x, s, |y|);
      assert false;
    }
  }

  /** Two identifiers name the same file exactly when, for a padded pattern, their digits have the
      same value and they go on alike, and otherwise when they are equal without their `q`. */
  lemma SameFilename(pattern: string, query: string, other: string)
    requires ValidPattern(pattern) && ValidId(Stripped(query)) && ValidId(Stripped(other))
    ensures QueryFilename(pattern, query) == QueryFilename(pattern, other) <==>
            var i, j := Stripped(query), Stripped(other);
            if Has(pattern, PADDED) then Value(Digits(i)) == Value(Digits(j)) && Suffix(i) == Suffix(j) else i == j
  {
    hide QueryFilename, ValidPattern, ValidId;
    var i, j := Stripped(query), Stripped(other);
    var a, b := SubstitutedOnce(pattern);
    var r, s := Replacement(pattern, i), Replacement(pattern, j);
    assert a + r + b == a + s + b <==> r == s by {
      if a + r + b == a + s + b {
        assert r == (a + r + b)[|a|..|a + r + b| - |b|] && s == (a + s + b)[|a|..|a + s + b| - |b|];
      }
    }
    if Has(pattern, PADDED) { SameReplacement(i, j); }
  }

  lemma SameReplacement(i: string, j: string)
    ensures Pad2(Trimmed0(Digits(i))) + Suffix(i) == Pad2(Trimmed0(Digits(j))) + Suffix(j)
            <==> Value(Digits(i)) == Value(Digits(j)) && Suffix(i) == Suffix(j)
  {
    hide Pad2, Trimmed0, Digits, Value, Show;
    var c, d := Trimmed0(Digits(i)), Trimmed0(Digits(j));
    CanonicalDigits(Digits(i));
    CanonicalDigits(Digits(j));
    PaddingKeepsValue(c);
    PaddingKeepsValue(d);
    ValueOfShow(Value(Digits(i)));
    ValueOfShow(Value(Digits(j)));
    if Pad2(c) + Suffix(i) == Pad2(d) + Suffix(j) {
      DigitsEndFirst(Pad2(c), Suffix(i), Pad2(d), Suffix(j));
      DigitsEndFirst(Pad2(d), Suffix(j), Pad2(c), Suffix(i));
      assert Pad2(c) == (Pad2(c) + Suffix(i))[..|Pad2(c)|] && Pad2(d) == (Pad2(d) + Suffix(j))[..|Pad2(d)|];
      assert Suffix(i) == (Pad2(c) + Suffix(i))[|Pad2(c)|..] && Suffix(j) == (Pad2(d) + Suffix(j))[|Pad2(d)|..];
    }
  }
}
