/** Searching and splitting strings, as Python's `find`, `in`, `split` and `join` do. */
module TextSearch {
  import opened Text

  predicate Has(s: string, p: string) {
    exists i :: 0 <= i <= |s| && OccursAt(s, p, i)
  }

  /** The first occurrence of `p` in `s` at or after `from`, or -1. */
  function Find(s: string, p: string, from: nat): (i: int)
    ensures i == -1 || (from <= i && OccursAt(s, p, i))
    ensures forall j :: from <= j && (i == -1 || j < i) ==> !OccursAt(s, p, j)
    decreases |s| - from
  {
    if from > |s| then -1
    else if OccursAt(s, p, from) then from
    else Find(s, p, from + 1)
  }

  lemma FindIs(s: string, p: string, from: nat, i: nat)
    requires from <= i && OccursAt(s, p, i)
    requires forall j :: from <= j < i ==> !OccursAt(s, p, j)
    ensures Find(s, p, from) == i
  {}

  lemma FindNone(s: string, p: string, from: nat)
    requires forall j :: from <= j ==> !OccursAt(s, p, j)
    ensures Find(s, p, from) == -1
  {}

  lemma SliceOfSlice(s: string, a: nat, b: nat, c: nat, d: nat)
    requires a <= b <= |s| && c <= d <= b - a
    ensures s[a..b][c..d] == s[a + c..a + d]
  {
    var x, y := s[a..b][c..d], s[a + c..a + d];
    forall k | 0 <= k < |x| ensures x[k] == y[k] {
      assert x[k] == s[a..b][c + k] == s[a + (c + k)];
    }
  }

  lemma HasTransitive(s: string, t: string, p: string)
    requires Has(s, t) && Has(t, p)
    ensures Has(s, p)
  {
    var i :| 0 <= i <= |s| && OccursAt(s, t, i);
    var j :| 0 <= j <= |t| && OccursAt(t, p, j);
    SliceOfSlice(s, i, i + |t|, j, j + |p|);
    assert OccursAt(s, p, i + j);
  }

  lemma PartHas(a: string, b: string, c: string)
    ensures Has(a + b + c, b)
  {
    assert (a + b + c)[|a|..|a| + |b|] == b;
    assert OccursAt(a + b + c, b, |a|);
  }

  lemma SliceHas(s: string, i: nat, j: nat)
    requires i <= j <= |s|
    ensures Has(s, s[i..j])
  {
    assert OccursAt(s, s[i..j], i);
  }

  lemma OccursChar(s: string, p: string, i: int, k: nat)
    requires OccursAt(s, p, i) && k < |p|
    ensures s[i + k] == p[k]
  {
    assert s[i..i + |p|][k] == s[i + k];
  }

  /** An occurrence that holds no character of `cs` lies on one side of any such character. */
  lemma OccursBeside(s: string, p: string, i: int, k: nat, cs: set<char>)
    requires OccursAt(s, p, i) && Free(p, cs) && k < |s| && s[k] in cs
    ensures i + |p| <= k || k < i || p == ""
  {
    if i <= k < i + |p| {
      OccursChar(s, p, i, k - i);
      assert false;
    }
  }

  lemma OccursInPrefix(a: string, b: string, p: string, i: int)
    requires i + |p| <= |a|
    ensures OccursAt(a + b, p, i) <==> OccursAt(a, p, i)
  {
    if 0 <= i { assert (a + b)[i..i + |p|] == a[i..i + |p|]; }
  }

  lemma OccursInSuffix(a: string, b: string, p: string, i: int)
    requires i >= |a|
    ensures OccursAt(a + b, p, i) <==> OccursAt(b, p, i - |a|)
  {
    if i + |p| <= |a + b| { assert (a + b)[i..i + |p|] == b[i - |a|..i - |a| + |p|]; }
  }

  /** A non-empty pattern without `c` that occurs in two strings joined by `c` occurs in one of them. */
  lemma HasAcross(a: string, c: char, b: string, p: string)
    requires p != "" && Free(p, {c})
    ensures Has(a + [c] + b, p) <==> Has(a, p) || Has(b, p)
  {
    var s := a + [c] + b;
    assert s == a + ([c] + b);
    if Has(s, p) {
      var i :| 0 <= i <= |s| && OccursAt(s, p, i);
      OccursBeside(s, p, i, |a|, {c});
      if i + |p| <= |a| {
        OccursInPrefix(a, [c] + b, p, i);
        assert Has(a, p);
      } else {
        OccursInSuffix(a + [c], b, p, i);
        assert OccursAt(b, p, i - |a| - 1);
        assert Has(b, p);
      }
    }
    if Has(a, p) {
      PartHas("", a, [c] + b);
      assert "" + a + ([c] + b) == s;
      HasTransitive(s, a, p);
    }
    if Has(b, p) {
      PartHas(a + [c], b, "");
      assert a + [c] + b + "" == s;
      HasTransitive(s, b, p);
    }
  }

  /** A pattern whose ends are no padding and that occurs in padded text occurs in the text. */
  lemma HasInPadded(lead: string, x: string, tail: string, p: string, pad: set<char>)
    requires p != "" && Trimmed(p, pad) && Only(lead, pad) && Only(tail, pad)
    ensures Has(lead + x + tail, p) <==> Has(x, p)
  {
    var s := lead + x + tail;
    if Has(s, p) {
      var i :| 0 <= i <= |s| && OccursAt(s, p, i);
      OccursChar(s, p, i, 0);
      OccursChar(s, p, i, |p| - 1);
      OccursInPrefix(lead + x, tail, p, i);
      OccursInSuffix(lead, x, p, i);
      assert OccursAt(x, p, i - |lead|);
    }
    if Has(x, p) {
      PartHas(lead, x, tail);
      HasTransitive(s, x, p);
    }
  }

  /** `split(c)`. */
  function SplitOn(s: string, c: char): (r: seq<string>)
    ensures r != []
  {
    if s == "" then [""]
    else if s[0] == c then [""] + SplitOn(s[1..], c)
    else
      var rest := SplitOn(s[1..], c);
      [[s[0]] + rest[0]] + rest[1..]
  }

  /** `join`. */
  function Join(parts: seq<string>, sep: string): string {
    if parts == [] then ""
    else if |parts| == 1 then parts[0]
    else parts[0] + sep + Join(parts[1..], sep)
  }

  lemma JoinCons(x: string, rest: seq<string>, sep: string)
    ensures Join([x] + rest, sep) == if rest == [] then x else x + sep + Join(rest, sep)
  {
    assert ([x] + rest)[1..] == rest;
  }

  lemma {:induction false} SplitFree(s: string, c: char)
    requires Free(s, {c})
    ensures SplitOn(s, c) == [s]
  {
    if s == "" {
    } else {
      SplitFree(s[1..], c);
      assert [s[0]] + s[1..] == s;
    }
  }

  /** Splitting at the first separator. */
  lemma {:induction false} SplitFirst(a: string, c: char, b: string)
    requires Free(a, {c})
    ensures SplitOn(a + [c] + b, c) == [a] + SplitOn(b, c)
  {
    var s := a + [c] + b;
    if a == "" {
      assert s[0] == c && s[1..] == b;
    } else {
      assert s[0] == a[0] && s[1..] == a[1..] + [c] + b;
      SplitFirst(a[1..], c, b);
      assert [a[0]] + a[1..] == a;
    }
  }

  predicate AllFree(parts: seq<string>, cs: set<char>) {
    forall i :: 0 <= i < |parts| ==> Free(parts[i], cs)
  }

  /** Splitting undoes joining, when no part holds the separator. */
  lemma {:induction false} SplitJoin(parts: seq<string>, c: char)
    requires parts != [] && AllFree(parts, {c})
    ensures SplitOn(Join(parts, [c]), c) == parts
  {
    if |parts| == 1 {
      SplitFree(parts[0], c);
    } else {
      SplitFirst(parts[0], c, Join(parts[1..], [c]));
      SplitJoin(parts[1..], c);
    }
  }

  /** The parts of a split string are free of the separator, and are parts of the string. */
  lemma {:induction false} SplitParts(s: string, c: char, i: nat)
    requires i < |SplitOn(s, c)|
    ensures Free(SplitOn(s, c)[i], {c}) && Has(s, SplitOn(s, c)[i])
    decreases |s|
  {
    hide SplitOn, Has;
    var e := FirstSeparator(s, c);
    if e == |s| {
      SplitFree(s, c);
      PartHas("", s, "");
      assert "" + s + "" == s;
    } else {
      var a, b := s[..e], s[e + 1..];
      assert s == a + [c] + b;
      SplitFirst(a, c, b);
      if i == 0 {
        PartHas("", a, [c] + b);
        assert "" + a + ([c] + b) == s;
      } else {
        SplitParts(b, c, i - 1);
        PartHas(a + [c], b, "");
        assert a + [c] + b + "" == s;
        HasTransitive(s, b, SplitOn(b, c)[i - 1]);
      }
    }
  }

  function FirstSeparator(s: string, c: char): (e: nat)
    ensures e <= |s| && Free(s[..e], {c}) && (e < |s| ==> s[e] == c)
  {
    if s == "" || s[0] == c then 0
    else
      var e := 1 + FirstSeparator(s[1..], c);
      assert s[..e] == [s[0]] + s[1..][..e - 1];
      e
  }

  /** `count(c)` for one character. */
  function Count(s: string, c: char): nat {
    |SplitOn(s, c)| - 1
  }
}
