/** Selecting benchmarks by a query such as `1` or `Q01` (benchmarks/src/sql_benchmark_runner.rs). */
module QuerySelection {
  import opened Text
  import opened TextSearch
  import opened Decimal
  import opened Letters
  import Q = QueryFilenames
  import O = StringOrder

  datatype Bench = Bench(name: string, subgroup: string)

  // Normalizing a query

  /** `normalize_query` */
  function Normalize(query: string): string {
    var q := TrimStart(query, {'Q', 'q'});
    "Q" + Q.Pad2(Q.Digits(q)) + Q.Suffix(q)
  }

  /** The letters `Q` before the number become one, and the number has two digits at least. */
  lemma NormalizeIs(letters: string, d: string, rest: string)
    requires Only(letters, {'Q', 'q'}) && AllDigits(d)
    requires rest != "" ==> !IsDigit(rest[0]) && (d == "" ==> rest[0] != 'Q' && rest[0] != 'q')
    ensures Normalize(letters + (d + rest)) == "Q" + (if d == "" then "00" else if |d| == 1 then "0" + d else d) + rest
  {
    hide Q.Digits, Q.Suffix;
    TrimStartPadded(letters, d + rest, {'Q', 'q'});
    assert d != "" ==> IsDigit(d[0]) by { if d != "" { assert d[0] in d; } }
    assert TrimStart(d + rest, {'Q', 'q'}) == d + rest;
    Q.DigitsOf(d, rest);
  }

  /** Normalizing a normalized query changes nothing. */
  lemma NormalizeIsIdempotent(query: string)
    ensures Normalize(Normalize(query)) == Normalize(query)
  {
    var q := TrimStart(query, {'Q', 'q'});
    var d, rest := Q.Pad2(Q.Digits(q)), Q.Suffix(q);
    Q.PaddedDigits(Q.Digits(q));
    assert IsDigit(d[0]) by { assert d[0] in d; }
    assert ("Q" + d + rest)[1..] == d + rest;
    assert TrimStart("Q" + d + rest, {'Q', 'q'}) == d + rest;
    Q.DigitsOf(d, rest);
  }

  // Ranking a name

  function UpperChar(c: char): char {
    if 'a' <= c <= 'z' then c - 'a' + 'A' else c
  }

  function Upper(s: string): (r: string)
    ensures |r| == |s|
  {
    if s == "" then "" else [UpperChar(s[0])] + Upper(s[1..])
  }

  /** The name split at every character that is neither a letter nor a digit. */
  function Tokens(s: string): (ts: seq<string>)
    ensures ts != []
  {
    if s == "" then [""]
    else if !Q.IsAlphanumeric(s[0]) then [""] + Tokens(s[1..])
    else [[s[0]] + Tokens(s[1..])[0]] + Tokens(s[1..])[1..]
  }

  /** One of the tokens starts with `q`. */
  predicate OneStarts(ts: seq<string>, q: string) {
    exists t <- ts :: q <= t
  }

  /** How well a name matches: exactly, at its start, at the start of a token, or somewhere. */
  function Rank(name: string, query: string): Option<nat> {
    var n, q := Upper(name), Upper(query);
    if n == q then Some(0)
    else if q <= n then Some(1)
    else if OneStarts(Tokens(n), q) then Some(2)
    else if Has(n, q) then Some(3)
    else None
  }

  lemma {:induction false} TokensAreParts(s: string, i: nat)
    requires i < |Tokens(s)|
    ensures Has(s, Tokens(s)[i])
    ensures i == 0 ==> Tokens(s)[0] <= s
  {
    var t := Tokens(s)[i];
    if s == "" {
      assert OccursAt(s, t, 0);
    } else if !Q.IsAlphanumeric(s[0]) {
      if i == 0 {
        assert OccursAt(s, t, 0);
      } else {
        TokensAreParts(s[1..], i - 1);
        Shifted(s, t);
      }
    } else {
      TokensAreParts(s[1..], i);
      if i == 0 {
        assert OccursAt(s, t, 0);
      } else {
        Shifted(s, t);
      }
    }
  }

  lemma Shifted(s: string, t: string)
    requires s != "" && Has(s[1..], t)
    ensures Has(s, t)
  {
    var k :| 0 <= k <= |s[1..]| && OccursAt(s[1..], t, k);
    assert s[1..][k..k + |t|] == s[k + 1..k + 1 + |t|];
    assert OccursAt(s, t, k + 1);
  }

  lemma UpperLetter(a: char, b: char)
    ensures UpperChar(a) == UpperChar(b) <==> SameLetter(a, b)
    ensures UpperChar(a) !in SMALL
  {
    hide LetterAt;
    if UpperChar(a) == UpperChar(b) && a != b {
      var k: nat := UpperChar(a) as int - 'A' as int;
      LetterIs(k, a);
      LetterIs(k, b);
    }
    if k :| LetterAt(k, a) && LetterAt(k, b) {
      LetterIs(k, a);
      LetterIs(k, b);
    }
    SmallAre(UpperChar(a));
  }

  lemma {:induction false} UpperIs(a: string, b: string)
    ensures Upper(a) == Upper(b) <==> SameText(a, b)
  {
    hide UpperChar, SameLetter;
    if a == "" || b == "" {
    } else {
      UpperLetter(a[0], b[0]);
      UpperIs(a[1..], b[1..]);
      assert a == [a[0]] + a[1..] && b == [b[0]] + b[1..];
      var x, y := Upper(a), Upper(b);
      assert x == y <==> x[0] == y[0] && x[1..] == y[1..];
      assert SameText(a, b) <==> SameLetter(a[0], b[0]) && SameText(a[1..], b[1..]) by {
        if SameLetter(a[0], b[0]) && SameText(a[1..], b[1..]) {
          forall i | 0 <= i < |a| ensures SameLetter(a[i], b[i]) {
            assert i > 0 ==> a[i] == a[1..][i - 1] && b[i] == b[1..][i - 1];
          }
        }
        if SameText(a, b) {
          forall i | 0 <= i < |a[1..]| ensures SameLetter(a[1..][i], b[1..][i]) {
            assert SameLetter(a[i + 1], b[i + 1]);
          }
        }
      }
    }
  }

  predicate AllAlphanumeric(q: string) {
    forall c <- q :: Q.IsAlphanumeric(c)
  }

  /** `q` stands at `i` in `n`, at the start of a stretch of letters and digits and inside it. */
  predicate AtToken(n: string, q: string, i: nat) {
    && OccursAt(n, q, i) && (i > 0 ==> !Q.IsAlphanumeric(n[i - 1]))
    && AllAlphanumeric(q)
  }

  lemma AtTokenNext(n: string, q: string, i: nat)
    requires n != "" && i > 0
    ensures AtToken(n, q, i) <==> (i == 1 ==> !Q.IsAlphanumeric(n[0])) && AtToken(n[1..], q, i - 1)
  {
    if OccursAt(n, q, i) || OccursAt(n[1..], q, i - 1) { assert n[1..][i - 1..i - 1 + |q|] == n[i..i + |q|]; }
  }

  lemma AllAlphanumericFirst(q: string)
    requires q != ""
    ensures AllAlphanumeric(q) <==> Q.IsAlphanumeric(q[0]) && AllAlphanumeric(q[1..])
  {
    hide Q.IsAlphanumeric;
    assert q == [q[0]] + q[1..];
  }

  lemma PrefixFirst(p: string, s: string)
    requires p != "" && s != ""
    ensures p <= s <==> p[0] == s[0] && p[1..] <= s[1..]
  {
    assert p == [p[0]] + p[1..] && s == [s[0]] + s[1..];
    if p <= s { assert s[1..][..|p| - 1] == s[..|p|][1..]; }
  }

  lemma TokensFirst(n: string)
    ensures n == "" ==> Tokens(n)[0] == ""
    ensures n != "" ==> Tokens(n)[0] == if Q.IsAlphanumeric(n[0]) then [n[0]] + Tokens(n[1..])[0] else ""
  {
    hide Q.IsAlphanumeric;
  }

  lemma {:induction false} FirstToken(n: string, q: string)
    ensures q <= Tokens(n)[0] <==> q <= n && AllAlphanumeric(q)
  {
    hide Tokens, AllAlphanumeric, Q.IsAlphanumeric;
    TokensFirst(n);
    if q == "" {
      NothingIsAlphanumeric();
    } else if n != "" {
      AllAlphanumericFirst(q);
      PrefixFirst(q, n);
      FirstToken(n[1..], q[1..]);
      if Q.IsAlphanumeric(n[0]) {
        var t := Tokens(n)[0];
        assert t[1..] == Tokens(n[1..])[0];
        PrefixFirst(q, t);
      }
    }
  }

  lemma NothingIsAlphanumeric()
    ensures AllAlphanumeric("")
  {
  }

  lemma OneStartsFirst(ts: seq<string>, q: string)
    requires ts != []
    ensures OneStarts(ts, q) <==> q <= ts[0] || OneStarts(ts[1..], q)
  {
    if t :| t in ts && q <= t {
      assert t == ts[0] || t in ts[1..];
    }
    if t :| t in ts[1..] && q <= t { assert t in ts; }
    if q <= ts[0] { assert ts[0] in ts; }
  }

  lemma {:induction false} LaterTokens(n: string, q: string)
    ensures OneStarts(Tokens(n)[1..], q) <==> exists i :: i > 0 && AtToken(n, q, i)
  {
    hide AtToken, Q.IsAlphanumeric;
    if n == "" {
      forall i: nat | i > 0 ensures !AtToken(n, q, i) { NotPast(n, q, i); }
    } else {
      var rest := n[1..];
      LaterTokens(rest, q);
      FirstToken(rest, q);
      StartsToken(rest, q);
      forall i: nat | i > 0
        ensures AtToken(n, q, i) <==> (i == 1 ==> !Q.IsAlphanumeric(n[0])) && AtToken(rest, q, i - 1)
      {
        AtTokenNext(n, q, i);
      }
      TokensOfRest(n, q);
      if i :| i > 0 && AtToken(rest, q, i) { assert AtToken(n, q, i + 1); }
      if AtToken(rest, q, 0) && !Q.IsAlphanumeric(n[0]) { assert AtToken(n, q, 1); }
    }
  }

  lemma NotPast(n: string, q: string, i: nat)
    requires i > |n|
    ensures !AtToken(n, q, i)
  {
  }

  lemma StartsToken(n: string, q: string)
    ensures AtToken(n, q, 0) <==> q <= n && AllAlphanumeric(q)
  {
  }

  lemma TokensOfRest(n: string, q: string)
    requires n != ""
    ensures var ts := Tokens(n[1..]);
            OneStarts(Tokens(n)[1..], q) <==> OneStarts(ts[1..], q) || (!Q.IsAlphanumeric(n[0]) && q <= ts[0])
  {
    hide Q.IsAlphanumeric, OneStarts;
    var ts := Tokens(n[1..]);
    OneStartsFirst(ts, q);
    assert Tokens(n)[1..] == if Q.IsAlphanumeric(n[0]) then ts[1..] else ts;
  }

  /** A name's rank: 0 if it is the query, 1 if it starts with it, 2 if one of its words does, 3 if it has
      it elsewhere. */
  lemma RankIs(name: string, query: string)
    ensures var n, q := Upper(name), Upper(query);
            && (Rank(name, query) == Some(0) <==> SameText(name, query))
            && (Rank(name, query) == Some(1) <==> n != q && q <= n)
            && (Rank(name, query) == Some(2) <==> !(q <= n) && exists i :: i > 0 && AtToken(n, q, i))
            && (Rank(name, query) == Some(3) <==> Has(n, q) && !(q <= n) && forall i :: i > 0 ==> !AtToken(n, q, i))
            && (Rank(name, query) == None <==> !Has(n, q))
  {
    hide Upper, AtToken, Has;
    var n, q := Upper(name), Upper(query);
    UpperIs(name, query);
    FirstToken(n, q);
    LaterTokens(n, q);
    RankedWhenContained(name, query);
    OneStartsFirst(Tokens(n), q);
  }

  /** A name has a rank exactly when it contains the query, in capitals. */
  lemma RankedWhenContained(name: string, query: string)
    ensures Rank(name, query).Some? <==> Has(Upper(name), Upper(query))
  {
    hide Upper, Tokens;
    var n, q := Upper(name), Upper(query);
    if q <= n {
      assert OccursAt(n, q, 0);
    } else if OneStarts(Tokens(n), q) {
      var i :| 0 <= i < |Tokens(n)| && q <= Tokens(n)[i];
      TokensAreParts(n, i);
      assert OccursAt(Tokens(n)[i], q, 0);
      HasTransitive(n, Tokens(n)[i], q);
    }
  }

  // Selecting

  predicate Ranked(b: Bench, q: string) {
    Rank(b.name, q).Some?
  }

  /** By name, then by subgroup. */
  predicate NotAfter(a: Bench, b: Bench) {
    if a.name == b.name then O.Le(a.subgroup, b.subgroup) else O.Le(a.name, b.name)
  }

  /** By rank, then by name, then by subgroup. */
  predicate NoWorse(a: Bench, b: Bench, q: string)
    requires Ranked(a, q) && Ranked(b, q)
  {
    var r, s := Rank(a.name, q).value, Rank(b.name, q).value;
    r < s || (r == s && NotAfter(a, b))
  }

  function Exact(bs: seq<Bench>, q: string): seq<Bench> {
    if bs == [] then []
    else Exact(bs[..|bs| - 1], q) + if Rank(bs[|bs| - 1].name, q) == Some(0) then [bs[|bs| - 1]] else []
  }

  /** The first of the best: no ranked one is better, and none before it is as good. */
  ghost predicate IsBest(bs: seq<Bench>, q: string, i: int) {
    && 0 <= i < |bs| && Ranked(bs[i], q)
    && (forall j :: 0 <= j < |bs| && Ranked(bs[j], q) ==> NoWorse(bs[i], bs[j], q))
    && (forall j :: 0 <= j < i && Ranked(bs[j], q) ==> !NoWorse(bs[j], bs[i], q))
  }

  /** What a query keeps: all exact matches in their order if there are any, and otherwise the one
      best match. */
  ghost predicate IsRetained(bs: seq<Bench>, q: string, out: seq<Bench>) {
    if exists b <- bs :: Rank(b.name, q) == Some(0) then out == Exact(bs, q)
    else if exists b <- bs :: Ranked(b, q) then exists i :: IsBest(bs, q, i) && out == [bs[i]]
    else out == []
  }

  lemma Total(a: Bench, b: Bench)
    ensures NotAfter(a, b) || NotAfter(b, a)
  {
    O.Total(a.name, b.name);
    O.Total(a.subgroup, b.subgroup);
  }

  lemma Transitive(a: Bench, b: Bench, c: Bench)
    requires NotAfter(a, b) && NotAfter(b, c)
    ensures NotAfter(a, c)
  {
    if a.name == b.name && b.name == c.name {
      O.Transitive(a.subgroup, b.subgroup, c.subgroup);
    } else if a.name != b.name && b.name != c.name {
      O.Transitive(a.name, b.name, c.name);
      if a.name == c.name { O.Antisymmetric(a.name, b.name); }
    }
  }

  /** The best rank that occurs. */
  method BestRank(bs: seq<Bench>, q: string) returns (best: Option<nat>)
    ensures best.None? <==> forall b <- bs :: !Ranked(b, q)
    ensures best.Some? ==> exists b <- bs :: Rank(b.name, q) == best
    ensures best.Some? ==> forall b <- bs :: Ranked(b, q) ==> best.value <= Rank(b.name, q).value
  {
    hide Rank;
    best := None;
    for i := 0 to |bs|
      invariant best.None? <==> forall k :: 0 <= k < i ==> !Ranked(bs[k], q)
      invariant best.Some? ==> exists k :: 0 <= k < i && Rank(bs[k].name, q) == best
      invariant best.Some? ==> forall k :: 0 <= k < i && Ranked(bs[k], q) ==> best.value <= Rank(bs[k].name, q).value
    {
      var r := Rank(bs[i].name, q);
      if r.Some? && (best.None? || r.value < best.value) { best := r; }
    }
  }

  method RetainExact(bs: seq<Bench>, q: string) returns (out: seq<Bench>)
    ensures out == Exact(bs, q)
  {
    hide Rank;
    out := [];
    for i := 0 to |bs|
      invariant out == Exact(bs[..i], q)
    {
      assert bs[..i + 1][..i] == bs[..i];
      if Rank(bs[i].name, q) == Some(0) { out := out + [bs[i]]; }
    }
    assert bs[..|bs|] == bs;
  }

  /** The first minimum by name and subgroup among those of a rank. */
  method FirstOfRank(bs: seq<Bench>, q: string, rank: nat) returns (best: nat)
    requires exists b <- bs :: Rank(b.name, q) == Some(rank)
    ensures best < |bs| && Rank(bs[best].name, q) == Some(rank)
    ensures forall j :: 0 <= j < |bs| && Rank(bs[j].name, q) == Some(rank) ==> NotAfter(bs[best], bs[j])
    ensures forall j :: 0 <= j < best && Rank(bs[j].name, q) == Some(rank) ==> !NotAfter(bs[j], bs[best])
  {
    hide Rank, NotAfter;
    var found := false;
    best := 0;
    for i := 0 to |bs|
      invariant found <==> exists k :: 0 <= k < i && Rank(bs[k].name, q) == Some(rank)
      invariant found ==> best < i && Rank(bs[best].name, q) == Some(rank)
      invariant found ==> forall j :: 0 <= j < i && Rank(bs[j].name, q) == Some(rank) ==> NotAfter(bs[best], bs[j])
      invariant found ==> forall j :: 0 <= j < best && Rank(bs[j].name, q) == Some(rank) ==> !NotAfter(bs[j], bs[best])
    {
      if Rank(bs[i].name, q) == Some(rank) {
        Total(bs[i], bs[i]);
        if !found {
          best := i;
        } else if !NotAfter(bs[best], bs[i]) {
          Total(bs[best], bs[i]);
          forall j | 0 <= j < i && Rank(bs[j].name, q) == Some(rank) ensures NotAfter(bs[i], bs[j]) {
            Transitive(bs[i], bs[best], bs[j]);
          }
          forall j | 0 <= j < i && Rank(bs[j].name, q) == Some(rank) ensures !NotAfter(bs[j], bs[i]) {
            if NotAfter(bs[j], bs[i]) { Transitive(bs[best], bs[j], bs[i]); }
          }
          best := i;
        }
        found := true;
      }
    }
  }

  method RetainQueryMatches(bs: seq<Bench>, query: string) returns (out: seq<Bench>)
    ensures IsRetained(bs, Normalize(query), out)
  {
    hide Rank, NotAfter, Exact, Normalize;
    var q := Normalize(query);
    var best := BestRank(bs, q);
    if best.None? { return []; }
    ghost var b :| b in bs && Rank(b.name, q) == best;
    if best.value == 0 {
      out := RetainExact(bs, q);
      return;
    }
    var i := FirstOfRank(bs, q, best.value);
    assert IsBest(bs, q, i);
    return [bs[i]];
  }

  lemma {:induction false} ExactHas(bs: seq<Bench>, q: string)
    ensures forall b :: b in Exact(bs, q) <==> b in bs && Rank(b.name, q) == Some(0)
  {
    hide Rank;
    if bs == [] {
    } else {
      ExactHas(bs[..|bs| - 1], q);
      assert bs == bs[..|bs| - 1] + [bs[|bs| - 1]];
    }
  }

  lemma NoneExact(q: string)
    ensures Exact([], q) == []
  {
  }

  lemma {:induction false} ExactLast(bs: seq<Bench>, q: string)
    requires bs != [] && Rank(bs[|bs| - 1].name, q) == Some(0)
    ensures Exact(bs, q) == Exact(bs[..|bs| - 1], q) + [bs[|bs| - 1]]
  {
    hide Rank;
  }

  lemma {:induction false} ExactOfExact(bs: seq<Bench>, q: string)
    requires forall b <- bs :: Rank(b.name, q) == Some(0)
    ensures Exact(bs, q) == bs
  {
    hide Rank, Exact;
    if bs == [] {
      NoneExact(q);
    } else {
      var init, last := bs[..|bs| - 1], bs[|bs| - 1];
      assert bs == init + [last] && last in bs;
      forall b <- init ensures Rank(b.name, q) == Some(0) { assert b in bs; }
      ExactOfExact(init, q);
      ExactLast(bs, q);
    }
  }

  /** Something is kept exactly when some name contains the normalized query, in capitals; and
      what is kept is among what there was. */
  lemma KeepsWhenContained(bs: seq<Bench>, q: string, out: seq<Bench>)
    requires IsRetained(bs, q, out)
    ensures out != [] <==> exists b <- bs :: Has(Upper(b.name), Upper(q))
    ensures forall b <- out :: b in bs && Ranked(b, q)
  {
    hide Rank, Exact, Upper;
    ExactHas(bs, q);
    forall b: Bench ensures Ranked(b, q) <==> Has(Upper(b.name), Upper(q)) { RankedWhenContained(b.name, q); }
    if exists b <- bs :: Rank(b.name, q) == Some(0) {
      var b :| b in bs && Rank(b.name, q) == Some(0);
      assert b in Exact(bs, q) && Ranked(b, q);
    } else if exists b <- bs :: Ranked(b, q) {
      var b :| b in bs && Ranked(b, q);
      assert out != [];
    }
  }

  /** There is one selection only. */
  lemma SelectionIsUnique(bs: seq<Bench>, q: string, out: seq<Bench>, other: seq<Bench>)
    requires IsRetained(bs, q, out) && IsRetained(bs, q, other)
    ensures out == other
  {
    hide Rank, Exact, NoWorse;
    if !(exists b <- bs :: Rank(b.name, q) == Some(0)) && exists b <- bs :: Ranked(b, q) {
      var i :| IsBest(bs, q, i) && out == [bs[i]];
      var j :| IsBest(bs, q, j) && other == [bs[j]];
      assert i == j;
    }
  }

  /** Selecting again changes nothing. */
  lemma SelectionIsIdempotent(bs: seq<Bench>, q: string, out: seq<Bench>, again: seq<Bench>)
    requires IsRetained(bs, q, out) && IsRetained(out, q, again)
    ensures again == out
  {
    hide Rank, Exact, NoWorse;
    KeepsWhenContained(bs, q, out);
    if exists b <- bs :: Rank(b.name, q) == Some(0) {
      ExactHas(bs, q);
      ExactOfExact(out, q);
    } else if exists b <- bs :: Ranked(b, q) {
      var i :| IsBest(bs, q, i) && out == [bs[i]];
      assert out[0] in bs && out[0] in out;
    }
  }
}
