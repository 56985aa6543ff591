/** String operations shared by the models: the parts of Rust's `str` and
    Python's `str` that the sources use, on sequences of characters. */
module Text {

  datatype Option<+T> = None | Some(value: T)

  datatype Result<+T, +E> = Ok(value: T) | Err(error: E)

  /** Unicode property White_Space, which `str::trim` and `split_whitespace` use. */
  predicate IsWhiteSpace(c: char) {
    || '\t' <= c <= '\r' || c == ' ' || c == '\U{85}' || c == '\U{A0}' || c == '\U{1680}'
    || '\U{2000}' <= c <= '\U{200A}' || c == '\U{2028}' || c == '\U{2029}' || c == '\U{202F}'
    || c == '\U{205F}' || c == '\U{3000}'
  }

  const SPACE: set<char> := set c: char | IsWhiteSpace(c)

  /** One by one, they are these. */
  lemma WhiteSpaces()
    ensures SPACE ==
            {'\t', '\n', '\U{B}', '\U{C}', '\r', ' ', '\U{85}', '\U{A0}', '\U{1680}', '\U{2000}', '\U{2001}',
             '\U{2002}', '\U{2003}', '\U{2004}', '\U{2005}', '\U{2006}', '\U{2007}', '\U{2008}', '\U{2009}',
             '\U{200A}', '\U{2028}', '\U{2029}', '\U{202F}', '\U{205F}', '\U{3000}'}
  {
  }

  function TrimStart(s: string, cut: set<char>): string {
    if s != "" && s[0] in cut then TrimStart(s[1..], cut) else s
  }

  function TrimEnd(s: string, cut: set<char>): string {
    if s != "" && s[|s| - 1] in cut then TrimEnd(s[..|s| - 1], cut) else s
  }

  function Trim(s: string, cut: set<char>): string {
    TrimEnd(TrimStart(s, cut), cut)
  }

  /** Every character of `s` is in `cs`. */
  predicate Only(s: string, cs: set<char>) {
    forall i :: 0 <= i < |s| ==> s[i] in cs
  }

  /** No character of `s` is in `cs`. */
  predicate Free(s: string, cs: set<char>) {
    forall i :: 0 <= i < |s| ==> s[i] !in cs
  }

  /** Neither end of `s` is in `cut`. */
  predicate Trimmed(s: string, cut: set<char>) {
    s != "" ==> s[0] !in cut && s[|s| - 1] !in cut
  }

  predicate Blank(s: string) {
    Only(s, SPACE)
  }

  predicate OccursAt(s: string, p: string, i: int) {
    0 <= i <= |s| - |p| && s[i..i + |p|] == p
  }

  lemma Regroup<T>(x: seq<T>, y: seq<T>, z: seq<T>)
    ensures x + (y + z) == x + y + z
  {
  }

  function Repeat(c: char, n: nat): (s: string)
    ensures |s| == n && Only(s, {c})
  {
    seq(n, i => c)
  }

  function Spaces(n: nat): (s: string)
    ensures |s| == n && Only(s, {' '})
  {
    Repeat(' ', n)
  }

  function Concat(ss: seq<string>): string {
    if ss == [] then "" else ss[0] + Concat(ss[1..])
  }

  /** The first part grows by what precedes it. */
  function Attach(head: string, parts: seq<string>): (r: seq<string>)
    ensures r != []
  {
    if parts == [] then [head] else [head + parts[0]] + parts[1..]
  }

  lemma AttachAttach(a: string, b: string, parts: seq<string>)
    ensures Attach(a, Attach(b, parts)) == Attach(a + b, parts)
  {
    if parts != [] { assert a + (b + parts[0]) == a + b + parts[0]; }
  }

  lemma AttachNothing(parts: seq<string>)
    requires parts != []
    ensures Attach("", parts) == parts
  {
    assert "" + parts[0] == parts[0];
  }

  lemma {:induction false} ConcatAppend(a: seq<string>, b: seq<string>)
    ensures Concat(a + b) == Concat(a) + Concat(b)
  {
    if a == [] {
      assert a + b == b;
    } else {
      assert (a + b)[1..] == a[1..] + b;
      ConcatAppend(a[1..], b);
    }
  }

  lemma FreeAppend(a: string, b: string, cs: set<char>)
    ensures Free(a + b, cs) <==> Free(a, cs) && Free(b, cs)
  {
    var s := a + b;
    if Free(s, cs) {
      assert forall i :: 0 <= i < |a| ==> a[i] == s[i];
      assert forall i :: 0 <= i < |b| ==> b[i] == s[|a| + i];
    }
  }

  // Trimming

  lemma {:induction false} TrimStartSplits(s: string, cut: set<char>) returns (lead: string)
    ensures s == lead + TrimStart(s, cut) && Only(lead, cut)
    ensures TrimStart(s, cut) != "" ==> TrimStart(s, cut)[0] !in cut
  {
    if s != "" && s[0] in cut {
      var rest := TrimStartSplits(s[1..], cut);
      lead := [s[0]] + rest;
    } else {
      lead := "";
    }
  }

  lemma {:induction false} TrimEndSplits(s: string, cut: set<char>) returns (tail: string)
    ensures s == TrimEnd(s, cut) + tail && Only(tail, cut)
    ensures TrimEnd(s, cut) != "" ==> TrimEnd(s, cut)[|TrimEnd(s, cut)| - 1] !in cut
  {
    if s != "" && s[|s| - 1] in cut {
      var rest := TrimEndSplits(s[..|s| - 1], cut);
      tail := rest + [s[|s| - 1]];
    } else {
      tail := "";
    }
  }

  /** Trimming removes a prefix and a suffix of `cut` characters and leaves trimmed ends. */
  lemma {:induction false} TrimSplits(s: string, cut: set<char>) returns (lead: string, tail: string)
    ensures s == lead + Trim(s, cut) + tail
    ensures Only(lead, cut) && Only(tail, cut) && Trimmed(Trim(s, cut), cut)
  {
    lead := TrimStartSplits(s, cut);
    tail := TrimEndSplits(TrimStart(s, cut), cut);
    assert TrimStart(s, cut) == Trim(s, cut) + tail;
    assert Trim(s, cut) != "" ==> Trim(s, cut)[0] == TrimStart(s, cut)[0];
  }

  lemma {:induction false} TrimStartPadded(lead: string, s: string, cut: set<char>)
    requires Only(lead, cut)
    ensures TrimStart(lead + s, cut) == TrimStart(s, cut)
  {
    if lead == "" {
      assert lead + s == s;
    } else {
      assert (lead + s)[1..] == lead[1..] + s;
      TrimStartPadded(lead[1..], s, cut);
    }
  }

  lemma {:induction false} TrimEndPadded(s: string, tail: string, cut: set<char>)
    requires Only(tail, cut)
    ensures TrimEnd(s + tail, cut) == TrimEnd(s, cut)
  {
    if tail == "" {
      assert s + tail == s;
    } else {
      assert (s + tail)[..|s + tail| - 1] == s + tail[..|tail| - 1];
      TrimEndPadded(s, tail[..|tail| - 1], cut);
    }
  }

  /** Padding a string with `cut` characters on either side does not change its trimmed form. */
  lemma {:induction false} TrimPadded(lead: string, s: string, tail: string, cut: set<char>)
    requires Only(lead, cut) && Only(tail, cut)
    ensures Trim(lead + s + tail, cut) == Trim(s, cut)
  {
    assert lead + s + tail == lead + (s + tail);
    TrimStartPadded(lead, s + tail, cut);
    var l := TrimStartSplits(s, cut);
    if TrimStart(s, cut) == "" {
      assert s + tail == (l + tail) + "";
      TrimStartPadded(l + tail, "", cut);
    } else {
      assert s + tail == l + (TrimStart(s, cut) + tail);
      TrimStartPadded(l, TrimStart(s, cut) + tail, cut);
      assert TrimStart(TrimStart(s, cut) + tail, cut) == TrimStart(s, cut) + tail;
      TrimEndPadded(TrimStart(s, cut), tail, cut);
    }
  }

  lemma TrimTrimmed(s: string, cut: set<char>)
    requires Trimmed(s, cut)
    ensures Trim(s, cut) == s
  {}

  lemma TrimKeepsFirst(s: string, cut: set<char>)
    requires s != "" && s[0] !in cut
    ensures Trim(s, cut) != "" && Trim(s, cut)[0] == s[0]
  {
    var tail := TrimEndSplits(s, cut);
    if TrimEnd(s, cut) == "" {
      assert false;
    }
  }

  lemma TrimBlank(s: string, cut: set<char>)
    ensures Trim(s, cut) == "" <==> Only(s, cut)
  {
    var lead, tail := TrimSplits(s, cut);
    if Trim(s, cut) == "" {
      assert s == lead + tail;
    } else {
      assert s[|lead|] == Trim(s, cut)[0];
    }
  }
}
