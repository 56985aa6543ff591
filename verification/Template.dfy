/** The `${...}` placeholder expander of benchmark files
    (benchmarks/src/sql_benchmark.rs): two regular expressions applied one after the
    other, proved against a denotation of templates. */
module Template {
  import opened Text

  const DELIMITERS: set<char> := {'$', '{', '}', '|', ':', '-'}

  /** The regex class `\w`. It is a parameter: the only fact used about it is that it
      holds none of the characters that delimit a placeholder. */
  type WordClass = w: set<char> | w !! DELIMITERS witness {'a'}

  /** What a key is looked up in: the replacement mapping (its keys in lower case), then the
      process environment (its keys in upper case). Unicode case folding is a parameter. */
  datatype Scope = Scope(
    word: WordClass,
    mapping: map<string, string>,
    env: map<string, string>,
    lower: string -> string,
    upper: string -> string)

  function Lookup(scope: Scope, key: string): Option<string> {
    if scope.lower(key) in scope.mapping then Some(scope.mapping[scope.lower(key)])
    else if scope.upper(key) in scope.env then Some(scope.env[scope.upper(key)])
    else None
  }

  function LookupOr(scope: Scope, key: string, default: Option<string>): Option<string> {
    if Lookup(scope, key).Some? then Lookup(scope, key) else default
  }

  function AsciiLower(c: char): char {
    if 'A' <= c <= 'Z' then (c as int + 32) as char else c
  }

  function AsciiLowerAll(s: string): string {
    seq(|s|, i requires 0 <= i < |s| => AsciiLower(s[i]))
  }

  predicate EqIgnoreAsciiCase(a: string, b: string) {
    AsciiLowerAll(a) == AsciiLowerAll(b)
  }

  // The two regular expressions, as scanners at the start of a string

  /** The length of the longest prefix of `s` without a character of `stop`. */
  function Until(s: string, stop: set<char>): (n: nat)
    ensures n <= |s| && Free(s[..n], stop)
    ensures n < |s| ==> s[n] in stop
  {
    if s == "" || s[0] in stop then 0
    else
      var n := 1 + Until(s[1..], stop);
      assert s[..n] == [s[0]] + s[1..][..n - 1];
      n
  }

  /** The length of the longest prefix of `s` of word characters. */
  function WordPrefix(s: string, word: set<char>): (n: nat)
    ensures n <= |s| && Only(s[..n], word)
    ensures n < |s| ==> s[n] !in word
  {
    if s == "" || s[0] !in word then 0
    else
      var n := 1 + WordPrefix(s[1..], word);
      assert s[..n] == [s[0]] + s[1..][..n - 1];
      n
  }

  datatype Pass = Conditional | Variable

  /** A match: its length, and its capture groups. */
  datatype Captures = Captures(
    length: nat,
    key: string,
    default: Option<string>,
    onTrue: string,
    onFalse: string)

  /** The optional group `(?::-([^...]+))?` where `stop` are the excluded characters:
      the captured text and the length matched. */
  function MatchDefault(s: string, stop: set<char>): (Option<string>, nat) {
    if |s| >= 2 && s[..2] == ":-" && Until(s[2..], stop) > 0
    then (Some(s[2..][..Until(s[2..], stop)]), 2 + Until(s[2..], stop))
    else (None, 0)
  }

  /** The tail `\|([^|]+)\|([^}]+)}` of a conditional: its two groups and its length. */
  function MatchBranches(s: string): (m: Option<(string, string, nat)>)
    ensures m.Some? ==> m.value.2 <= |s|
  {
    if s == "" || s[0] != '|' then None else
      var t := Until(s[1..], {'|'});
      if t == 0 || 1 + t >= |s| then None else
        var f := Until(s[2 + t..], {'}'});
        if f == 0 || 2 + t + f >= |s| then None
        else Some((s[1..][..t], s[2 + t..][..f], 3 + t + f))
  }

  /** `\$\{(\w+)(?::-([^|}]+))?\|([^|]+)\|([^}]+)}` */
  function MatchConditional(word: WordClass, s: string): Option<Captures> {
    if !("${" <= s) then None else
      var k := WordPrefix(s[2..], word);
      if k == 0 then None else
        var (d, dn) := MatchDefault(s[2 + k..], {'|', '}'});
        match MatchBranches(s[2 + k + dn..])
        case None => None
        case Some(m) => Some(Captures(2 + k + dn + m.2, s[2..][..k], d, m.0, m.1))
  }

  /** `\$\{(\w+)(?::-([^}]+))?}` */
  function MatchVariable(word: WordClass, s: string): Option<Captures> {
    if !("${" <= s) then None else
      var k := WordPrefix(s[2..], word);
      if k == 0 then None else
        var (d, dn) := MatchDefault(s[2 + k..], {'}'});
        var a := 2 + k + dn;
        if a >= |s| || s[a] != '}' then None
        else Some(Captures(a + 1, s[2..][..k], d, "", ""))
  }

  function Match(pass: Pass, word: WordClass, s: string): (m: Option<Captures>)
    ensures m.Some? ==> 0 < m.value.length <= |s|
  {
    match pass
    case Conditional => MatchConditional(word, s)
    case Variable => MatchVariable(word, s)
  }

  // The regular expressions, as the languages they denote

  function DefaultText(default: Option<string>): string {
    if default.Some? then ":-" + default.value else ""
  }

  /** The text of a placeholder up to the part that tells the two kinds apart. */
  function Placeholder(key: string, default: Option<string>, tail: string): string {
    "${" + (key + (DefaultText(default) + tail))
  }

  function BranchText(onTrue: string, onFalse: string): string {
    "|" + (onTrue + ("|" + (onFalse + "}")))
  }

  predicate Key(word: set<char>, key: string) {
    key != "" && Only(key, word)
  }

  predicate Default(default: Option<string>, stop: set<char>) {
    default.Some? ==> default.value != "" && Free(default.value, stop)
  }

  /** The strings the expression of a pass matches, with the groups they are matched by. */
  ghost predicate Denotes(pass: Pass, word: WordClass, text: string, c: Captures) {
    && c.length == |text| && Key(word, c.key)
    && match pass
       case Conditional =>
         && Default(c.default, {'|', '}'})
         && c.onTrue != "" && Free(c.onTrue, {'|'})
         && c.onFalse != "" && Free(c.onFalse, {'}'})
         && text == Placeholder(c.key, c.default, BranchText(c.onTrue, c.onFalse))
       case Variable =>
         && Default(c.default, {'}'})
         && c.onTrue == "" && c.onFalse == ""
         && text == Placeholder(c.key, c.default, "}")
  }

  lemma UntilAt(s: string, n: nat, stop: set<char>)
    requires n <= |s| && Free(s[..n], stop) && (n < |s| ==> s[n] in stop)
    ensures Until(s, stop) == n
  {}

  lemma WordPrefixAt(s: string, n: nat, word: set<char>)
    requires n <= |s| && Only(s[..n], word) && (n < |s| ==> s[n] !in word)
    ensures WordPrefix(s, word) == n
  {}

  lemma {:induction false} WordPrefixStops(s: string, word: set<char>, j: nat)
    requires j < |s| && s[j] !in word
    ensures WordPrefix(s, word) <= j
  {
    if j > 0 && s[0] in word { WordPrefixStops(s[1..], word, j - 1); }
  }

  /** `x` followed by a stop character is scanned as exactly `x`. */
  lemma UntilPrefix(x: string, rest: string, stop: set<char>)
    requires Free(x, stop) && rest != "" && rest[0] in stop
    ensures Until(x + rest, stop) == |x| && (x + rest)[..|x|] == x
  {
    UntilAt(x + rest, |x|, stop);
  }

  lemma MatchDefaultOf(default: Option<string>, rest: string, stop: set<char>)
    requires Default(default, stop) && rest != "" && rest[0] in stop && rest[0] != ':'
    ensures MatchDefault(DefaultText(default) + rest, stop) == (default, |DefaultText(default)|)
  {
    var s := DefaultText(default) + rest;
    if default.Some? {
      assert s[..2] == ":-" && s[2..] == default.value + rest;
      UntilPrefix(default.value, rest, stop);
    } else {
      assert s == rest && s[0] != ':';
    }
  }

  lemma WordPrefixOf(word: WordClass, key: string, rest: string)
    requires Key(word, key) && rest != "" && rest[0] in DELIMITERS
    ensures WordPrefix(key + rest, word) == |key| && (key + rest)[..|key|] == key
  {
    WordPrefixAt(key + rest, |key|, word);
  }

  lemma PlaceholderParts(key: string, default: Option<string>, tail: string, rest: string)
    ensures var s := Placeholder(key, default, tail) + rest;
            var k := |key|; var dn := |DefaultText(default)|;
            && |s| == 2 + k + dn + |tail| + |rest| && "${" <= s
            && s[2..] == key + (DefaultText(default) + (tail + rest))
            && s[2 + k..] == DefaultText(default) + (tail + rest)
            && s[2 + k + dn..] == tail + rest
  {
    var d := DefaultText(default);
    var s := Placeholder(key, default, tail) + rest;
    Grouped(key, d, tail, rest);
    DroppedTwice("${", key, d, tail + rest);
  }

  lemma Grouped(key: string, d: string, tail: string, rest: string)
    ensures "${" + (key + (d + tail)) + rest == "${" + (key + (d + (tail + rest)))
  {
    assert d + tail + rest == d + (tail + rest);
    assert key + (d + tail) + rest == key + (d + tail + rest);
    assert "${" + (key + (d + tail)) + rest == "${" + (key + (d + tail) + rest);
  }

  lemma Dropped(a: string, b: string)
    ensures (a + b)[|a|..] == b && a <= a + b
  {
  }

  lemma DroppedTwice(a: string, b: string, c: string, d: string)
    ensures var s := a + (b + (c + d));
            a <= s && s[|a|..] == b + (c + d) && s[|a| + |b|..] == c + d && s[|a| + |b| + |c|..] == d
  {
    var s := a + (b + (c + d));
    Dropped(a, b + (c + d));
    Dropped(b, c + d);
    Dropped(c, d);
    assert s[|a| + |b|..] == s[|a|..][|b|..];
    assert s[|a| + |b| + |c|..] == s[|a| + |b|..][|c|..];
  }

  lemma MatchVariableComplete(word: WordClass, c: Captures, text: string, rest: string)
    requires Denotes(Variable, word, text, c)
    ensures MatchVariable(word, text + rest) == Some(c)
  {
    PlaceholderParts(c.key, c.default, "}", rest);
    WordPrefixOf(word, c.key, DefaultText(c.default) + ("}" + rest));
    MatchDefaultOf(c.default, "}" + rest, {'}'});
    assert (text + rest)[2 + |c.key| + |DefaultText(c.default)|..][0] == '}';
  }

  lemma MatchBranchesComplete(onTrue: string, onFalse: string, rest: string)
    requires onTrue != "" && Free(onTrue, {'|'}) && onFalse != "" && Free(onFalse, {'}'})
    ensures MatchBranches(BranchText(onTrue, onFalse) + rest)
         == Some((onTrue, onFalse, |BranchText(onTrue, onFalse)|))
  {
    hide Until, Free;
    var z := onFalse + ("}" + rest);
    BranchesThen(onTrue, onFalse, rest);
    UntilPrefix(onTrue, "|" + z, {'|'});
    UntilPrefix(onFalse, "}" + rest, {'}'});
  }

  lemma BranchesThen(onTrue: string, onFalse: string, rest: string)
    ensures var s, z := BranchText(onTrue, onFalse) + rest, onFalse + ("}" + rest);
            s[0] == '|' && s[1..] == onTrue + ("|" + z) && s[2 + |onTrue|..] == z
  {
    var s, z := BranchText(onTrue, onFalse) + rest, onFalse + ("}" + rest);
    assert s == "|" + (onTrue + ("|" + z));
    DroppedTwice("|", onTrue, "|", z);
  }

  lemma MatchBranchesSound(s: string)
    requires MatchBranches(s).Some?
    ensures var (t, f, n) := MatchBranches(s).value;
            && t != "" && Free(t, {'|'}) && f != "" && Free(f, {'}'})
            && s[..n] == BranchText(t, f)
  {
    var (t, f, n) := MatchBranches(s).value;
    assert s[..n] == "|" + (s[1..][..|t|] + ("|" + (s[2 + |t|..][..|f|] + "}")));
  }

  lemma MatchConditionalComplete(word: WordClass, c: Captures, text: string, rest: string)
    requires Denotes(Conditional, word, text, c)
    ensures MatchConditional(word, text + rest) == Some(c)
  {
    hide MatchBranches, Until, WordPrefix;
    var branches := BranchText(c.onTrue, c.onFalse);
    PlaceholderParts(c.key, c.default, branches, rest);
    WordPrefixOf(word, c.key, DefaultText(c.default) + (branches + rest));
    MatchDefaultOf(c.default, branches + rest, {'|', '}'});
    MatchBranchesComplete(c.onTrue, c.onFalse, rest);
  }

  lemma MatchDefaultSound(s: string, stop: set<char>)
    ensures var (d, n) := MatchDefault(s, stop);
            n <= |s| && s[..n] == DefaultText(d) && Default(d, stop)
  {}

  /** A string splits into the parts a placeholder is scanned by. */
  lemma ScannedParts(s: string, k: nat, dn: nat, n: nat)
    requires "${" <= s && 2 + k + dn + n <= |s|
    ensures s[..2 + k + dn + n]
         == "${" + (s[2..][..k] + (s[2 + k..][..dn] + s[2 + k + dn..][..n]))
  {}

  lemma MatchVariableSound(word: WordClass, s: string)
    requires MatchVariable(word, s).Some?
    ensures var c := MatchVariable(word, s).value; Denotes(Variable, word, s[..c.length], c)
  {
    var k := WordPrefix(s[2..], word);
    var dn := MatchDefault(s[2 + k..], {'}'}).1;
    MatchDefaultSound(s[2 + k..], {'}'});
    ScannedParts(s, k, dn, 1);
    assert s[2 + k + dn..][..1] == "}";
  }

  lemma MatchConditionalSound(word: WordClass, s: string)
    requires MatchConditional(word, s).Some?
    ensures var c := MatchConditional(word, s).value; Denotes(Conditional, word, s[..c.length], c)
  {
    hide MatchBranches, Until, WordPrefix;
    var k := WordPrefix(s[2..], word);
    var dn := MatchDefault(s[2 + k..], {'|', '}'}).1;
    MatchDefaultSound(s[2 + k..], {'|', '}'});
    MatchBranchesSound(s[2 + k + dn..]);
    ScannedParts(s, k, dn, MatchBranches(s[2 + k + dn..]).value.2);
  }

  /** Each regular expression matches at most one prefix of any string, with one choice of
      groups, and the scanner finds it: the search never has to backtrack. */
  lemma MatchIsDenotation(pass: Pass, word: WordClass, s: string, n: nat, c: Captures)
    requires n <= |s|
    ensures Denotes(pass, word, s[..n], c) <==> Match(pass, word, s) == Some(c) && n == c.length
  {
    assert s == s[..n] + s[n..];
    match pass {
      case Conditional =>
        if Denotes(pass, word, s[..n], c) { MatchConditionalComplete(word, c, s[..n], s[n..]); }
        if Match(pass, word, s).Some? { MatchConditionalSound(word, s); }
      case Variable =>
        if Denotes(pass, word, s[..n], c) { MatchVariableComplete(word, c, s[..n], s[n..]); }
        if Match(pass, word, s).Some? { MatchVariableSound(word, s); }
    }
  }

  // replace_all

  /** The text a match is replaced with; the error is the key that has no value. */
  function Replacement(pass: Pass, scope: Scope, c: Captures): Result<string, string> {
    match LookupOr(scope, c.key, c.default)
    case None => Err(c.key)
    case Some(v) =>
      if pass.Variable? then Ok(v)
      else if EqIgnoreAsciiCase(v, "true") then Ok(c.onTrue) else Ok(c.onFalse)
  }

  function Prepend(head: string, tail: Result<string, string>): Result<string, string> {
    if tail.Err? then tail else Ok(head + tail.value)
  }

  /** A regular expression: what it matches at the start of a string, if anything. */
  type Finder = f: string -> Option<Captures> | FindsPrefixes(f) witness (s => None)

  ghost predicate FindsPrefixes(find: string -> Option<Captures>) {
    forall s :: find(s).Some? ==> 0 < find(s).value.length <= |s|
  }

  /** `replace_all`: every match is replaced and all other text is kept, character by character. */
  function ReplaceAll(find: Finder, value: Captures -> Result<string, string>, s: string): Result<string, string>
    decreases |s|
  {
    if s == "" then Ok("")
    else match find(s)
      case None => Prepend(s[..1], ReplaceAll(find, value, s[1..]))
      case Some(c) =>
        if value(c).Err? then value(c)
        else Prepend(value(c).value, ReplaceAll(find, value, s[c.length..]))
  }

  lemma PrependPrepend(a: string, b: string, r: Result<string, string>)
    ensures Prepend(a, Prepend(b, r)) == Prepend(a + b, r)
  {
    if r.Ok? { assert a + (b + r.value) == a + b + r.value; }
  }

  lemma PrependNothing(r: Result<string, string>)
    ensures Prepend("", r) == r
  {
    if r.Ok? { assert "" + r.value == r.value; }
  }

  lemma PrependToNothing(find: Finder, value: Captures -> Result<string, string>, done: string)
    ensures Prepend(done, ReplaceAll(find, value, "")) == Ok(done)
  {
    assert done + "" == done;
  }

  lemma KeepsCharacter(find: Finder, value: Captures -> Result<string, string>,
                       done: string, haystack: string, at: nat)
    requires at < |haystack| && find(haystack[at..]).None?
    ensures Prepend(done, ReplaceAll(find, value, haystack[at..]))
         == Prepend(done + haystack[at..at + 1], ReplaceAll(find, value, haystack[at + 1..]))
  {
    var here := haystack[at..];
    assert here[1..] == haystack[at + 1..] && here[..1] == haystack[at..at + 1];
    PrependPrepend(done, here[..1], ReplaceAll(find, value, haystack[at + 1..]));
  }

  lemma ReplacesMatch(find: Finder, value: Captures -> Result<string, string>,
                      done: string, haystack: string, at: nat)
    requires at < |haystack| && find(haystack[at..]).Some?
    ensures var c := find(haystack[at..]).value;
            var rest := ReplaceAll(find, value, haystack[at + c.length..]);
            Prepend(done, ReplaceAll(find, value, haystack[at..])) ==
            if value(c).Err? then value(c) else Prepend(done + value(c).value, rest)
  {
    var here := haystack[at..];
    var c := find(here).value;
    if value(c).Ok? {
      assert here[c.length..] == haystack[at + c.length..];
      PrependPrepend(done, value(c).value, ReplaceAll(find, value, haystack[at + c.length..]));
    }
  }

  /** The loop of `replace_all` over `captures_iter`: the next match is searched for from the
      end of the previous one, and the text in between is copied as one slice. */
  method ReplaceAllLoop(find: Finder, value: Captures -> Result<string, string>, haystack: string)
    returns (r: Result<string, string>)
    ensures r == ReplaceAll(find, value, haystack)
  {
    hide ReplaceAll, Prepend;
    var output := "";
    var lastMatch, at := 0, 0;
    assert haystack[0..] == haystack && output + haystack[0..0] == "";
    PrependNothing(ReplaceAll(find, value, haystack));
    while at < |haystack|
      invariant 0 <= lastMatch <= at <= |haystack|
      invariant ReplaceAll(find, value, haystack)
             == Prepend(output + haystack[lastMatch..at], ReplaceAll(find, value, haystack[at..]))
      decreases |haystack| - at
    {
      match find(haystack[at..])
      case None =>
        KeepsCharacter(find, value, output + haystack[lastMatch..at], haystack, at);
        assert output + haystack[lastMatch..at] + haystack[at..at + 1] == output + haystack[lastMatch..at + 1];
        at := at + 1;
      case Some(c) =>
        output := output + haystack[lastMatch..at];
        ReplacesMatch(find, value, output, haystack, at);
        if value(c).Err? {
          return value(c);
        }
        output := output + value(c).value;
        at := at + c.length;
        lastMatch := at;
        assert output + haystack[lastMatch..at] == output;
    }
    assert haystack[at..] == "" && haystack[lastMatch..] == haystack[lastMatch..at];
    PrependToNothing(find, value, output + haystack[lastMatch..]);
    return Ok(output + haystack[lastMatch..]);
  }

  function Find(pass: Pass, word: WordClass): (f: Finder)
    ensures forall s :: f(s) == Match(pass, word, s)
  {
    s => Match(pass, word, s)
  }

  function Value(pass: Pass, scope: Scope): (f: Captures -> Result<string, string>)
    ensures forall c :: f(c) == Replacement(pass, scope, c)
  {
    c => Replacement(pass, scope, c)
  }

  function Replace(pass: Pass, scope: Scope, s: string): Result<string, string> {
    ReplaceAll(Find(pass, scope.word), Value(pass, scope), s)
  }

  /** `process_replacements_with_env`: the conditional pass, then the variable pass over its output. */
  function Expand(scope: Scope, input: string): Result<string, string> {
    match Replace(Conditional, scope, input)
    case Err(key) => Err(key)
    case Ok(text) => Replace(Variable, scope, text)
  }

  method ProcessReplacements(scope: Scope, input: string) returns (r: Result<string, string>)
    ensures r == Expand(scope, input)
  {
    var text := ReplaceAllLoop(Find(Conditional, scope.word), Value(Conditional, scope), input);
    if text.Err? {
      return text;
    }
    r := ReplaceAllLoop(Find(Variable, scope.word), Value(Variable, scope), text.value);
  }

  /** A string at which a pass matches is replaced and the pass goes on behind the match. */
  lemma ReplaceMatch(pass: Pass, scope: Scope, text: string, c: Captures, rest: string)
    requires Denotes(pass, scope.word, text, c) && text != ""
    ensures Replace(pass, scope, text + rest)
         == match Replacement(pass, scope, c)
            case Err(k) => Err(k)
            case Ok(v) => Prepend(v, Replace(pass, scope, rest))
  {
    assert (text + rest)[..|text|] == text && (text + rest)[|text|..] == rest;
    MatchIsDenotation(pass, scope.word, text + rest, |text|, c);
  }

  /** A string at which a pass does not match keeps its first character. */
  lemma ReplaceSkip(pass: Pass, scope: Scope, s: string)
    requires s != "" && Match(pass, scope.word, s).None?
    ensures Replace(pass, scope, s) == Prepend(s[..1], Replace(pass, scope, s[1..]))
  {}

  // Templates and what they mean

  datatype Atom =
    | Lit(text: string)
    | Var(key: string, default: Option<string>)

  datatype Piece =
    | Plain(atom: Atom)
    | Cond(key: string, default: Option<string>, onTrue: seq<Atom>, onFalse: string)

  /** Literal text: no placeholder opens in it, nor at its end. A `$` elsewhere is allowed. */
  predicate Literal(text: string) {
    && (forall i :: 0 <= i < |text| - 1 ==> text[i] != '$' || text[i + 1] != '{')
    && (text != "" ==> text[|text| - 1] != '$')
  }

  predicate AtomValid(word: WordClass, a: Atom) {
    match a
    case Lit(text) => Literal(text)
    case Var(key, default) => Key(word, key) && Default(default, {'|', '}'})
  }

  predicate AtomsValid(word: WordClass, atoms: seq<Atom>) {
    forall i :: 0 <= i < |atoms| ==> AtomValid(word, atoms[i])
  }

  predicate PieceValid(word: WordClass, p: Piece) {
    match p
    case Plain(a) => AtomValid(word, a)
    case Cond(key, default, onTrue, onFalse) =>
      && Key(word, key) && Default(default, {'|', '}'})
      && AtomsValid(word, onTrue)
      && RenderAtoms(onTrue) != "" && Free(RenderAtoms(onTrue), {'|'})
      && onFalse != "" && Free(onFalse, {'}'}) && Literal(onFalse)
  }

  predicate Valid(word: WordClass, pieces: seq<Piece>) {
    forall i :: 0 <= i < |pieces| ==> PieceValid(word, pieces[i])
  }

  function RenderAtom(a: Atom): string {
    match a
    case Lit(text) => text
    case Var(key, default) => Placeholder(key, default, "}")
  }

  function RenderAtoms(atoms: seq<Atom>): string {
    if atoms == [] then "" else RenderAtom(atoms[0]) + RenderAtoms(atoms[1..])
  }

  function RenderPiece(p: Piece): string {
    match p
    case Plain(a) => RenderAtom(a)
    case Cond(key, default, onTrue, onFalse) =>
      Placeholder(key, default, BranchText(RenderAtoms(onTrue), onFalse))
  }

  function Render(pieces: seq<Piece>): string {
    if pieces == [] then "" else RenderPiece(pieces[0]) + Render(pieces[1..])
  }

  /** The atoms a piece stands for; the error is a key without a value. */
  function Branch(scope: Scope, p: Piece): Result<seq<Atom>, string> {
    match p
    case Plain(a) => Ok([a])
    case Cond(key, default, onTrue, onFalse) =>
      match LookupOr(scope, key, default)
      case None => Err(key)
      case Some(v) => Ok(if EqIgnoreAsciiCase(v, "true") then onTrue else [Lit(onFalse)])
  }

  /** The atoms a template selects, or the first conditional key without a value. */
  function Select(scope: Scope, pieces: seq<Piece>): Result<seq<Atom>, string> {
    if pieces == [] then Ok([])
    else match Branch(scope, pieces[0])
      case Err(key) => Err(key)
      case Ok(atoms) =>
        var rest := Select(scope, pieces[1..]);
        if rest.Err? then rest else Ok(atoms + rest.value)
  }

  /** The values of the atoms, concatenated, or the first key without a value. */
  function Values(scope: Scope, atoms: seq<Atom>): Result<string, string> {
    if atoms == [] then Ok("")
    else match atoms[0]
      case Lit(text) => Prepend(text, Values(scope, atoms[1..]))
      case Var(key, default) =>
        match LookupOr(scope, key, default)
        case None => Err(key)
        case Some(v) => Prepend(v, Values(scope, atoms[1..]))
  }

  /** The meaning of a template: conditionals select atoms, and the selected atoms are
      evaluated once. Values are not scanned again, and branches that are not selected
      are not evaluated. */
  function Denotation(scope: Scope, pieces: seq<Piece>): Result<string, string> {
    match Select(scope, pieces)
    case Err(key) => Err(key)
    case Ok(atoms) => Values(scope, atoms)
  }

  // Expansion computes the denotation

  lemma NoMatch(pass: Pass, word: WordClass, s: string)
    requires !("${" <= s)
    ensures Match(pass, word, s).None?
  {}

  /** Literal text is copied by either pass, whatever follows it. */
  lemma {:induction false} LiteralCopied(pass: Pass, scope: Scope, text: string, rest: string)
    requires Literal(text)
    ensures Replace(pass, scope, text + rest) == Prepend(text, Replace(pass, scope, rest))
  {
    hide Match, Replace, Prepend;
    var s := text + rest;
    if text == "" {
      assert s == rest;
      PrependNothing(Replace(pass, scope, rest));
    } else {
      assert s[0] == text[0] && (|text| > 1 ==> s[1] == text[1]);
      NoMatch(pass, scope.word, s);
      ReplaceSkip(pass, scope, s);
      assert s[1..] == text[1..] + rest;
      LiteralCopied(pass, scope, text[1..], rest);
      PrependPrepend(s[..1], text[1..], Replace(pass, scope, rest));
      assert s[..1] + text[1..] == text;
    }
  }

  /** A conditional cannot open where a `}` comes before any `|`. */
  lemma NoConditional(word: WordClass, x: string, rest: string)
    requires Free(x, {'|', '}'})
    ensures Match(Conditional, word, x + ("}" + rest)).None?
  {
    hide Until, MatchDefault, WordPrefix;
    var s := x + ("}" + rest);
    if "${" <= s {
      assert s[0] == '$' && s[1] == '{' && s[|x|] == '}';
      assert |x| >= 2;
      var k := WordPrefix(s[2..], word);
      WordPrefixStops(s[2..], word, |x| - 2);
      var y := x[2 + k..];
      assert s[2 + k..] == y + ("}" + rest);
      DefaultThenClose(y, rest);
      var dn := MatchDefault(y + ("}" + rest), {'|', '}'}).1;
      assert s[2 + k + dn..] == (y + ("}" + rest))[dn..];
    }
  }

  lemma DefaultThenClose(y: string, rest: string)
    requires Free(y, {'|', '}'})
    ensures var s := y + ("}" + rest);
            var n := MatchDefault(s, {'|', '}'}).1;
            n <= |y| && s[n] != '|'
  {
    hide Until;
    var s := y + ("}" + rest);
    if |s| >= 2 && s[..2] == ":-" {
      assert s[0] == ':' && s[1] == '-' && s[|y|] == '}';
      assert s[2..] == y[2..] + ("}" + rest);
      UntilPrefix(y[2..], "}" + rest, {'|', '}'});
    }
  }

  lemma {:induction false} ConditionalPassSkips(scope: Scope, x: string, rest: string)
    requires Free(x, {'|', '}'})
    ensures Replace(Conditional, scope, x + ("}" + rest))
         == Prepend(x + "}", Replace(Conditional, scope, rest))
  {
    hide Match, Replace, Prepend;
    var s := x + ("}" + rest);
    NoConditional(scope.word, x, rest);
    ReplaceSkip(Conditional, scope, s);
    if x == "" {
      assert s[1..] == rest && s[..1] == x + "}";
    } else {
      assert s[1..] == x[1..] + ("}" + rest);
      ConditionalPassSkips(scope, x[1..], rest);
      PrependPrepend(s[..1], x[1..] + "}", Replace(Conditional, scope, rest));
      assert s[..1] + (x[1..] + "}") == x + "}";
    }
  }

  lemma VariableOpens(word: WordClass, key: string, default: Option<string>)
    requires Key(word, key) && Default(default, {'|', '}'})
    ensures Free("${" + (key + DefaultText(default)), {'|', '}'})
  {}

  /** The conditional pass copies variables and literals. */
  lemma AtomCopied(scope: Scope, a: Atom, rest: string)
    requires AtomValid(scope.word, a)
    ensures Replace(Conditional, scope, RenderAtom(a) + rest)
         == Prepend(RenderAtom(a), Replace(Conditional, scope, rest))
  {
    hide Replace, Prepend, Free;
    match a
    case Lit(text) => LiteralCopied(Conditional, scope, text, rest);
    case Var(key, default) =>
      var x := "${" + (key + DefaultText(default));
      assert RenderAtom(a) + rest == x + ("}" + rest);
      assert RenderAtom(a) == x + "}";
      assert Free(x, {'|', '}'}) by { VariableOpens(scope.word, key, default); }
      ConditionalPassSkips(scope, x, rest);
  }

  lemma {:induction false} RenderAtomsAppend(a: seq<Atom>, b: seq<Atom>)
    ensures RenderAtoms(a + b) == RenderAtoms(a) + RenderAtoms(b)
  {
    if a == [] {
      assert a + b == b;
    } else {
      assert (a + b)[1..] == a[1..] + b;
      RenderAtomsAppend(a[1..], b);
    }
  }

  /** The conditional pass replaces a piece by the text of the atoms it stands for. */
  lemma PieceSelected(scope: Scope, p: Piece, rest: string)
    requires PieceValid(scope.word, p)
    ensures Branch(scope, p).Ok? ==> AtomsValid(scope.word, Branch(scope, p).value)
    ensures Replace(Conditional, scope, RenderPiece(p) + rest)
         == match Branch(scope, p)
            case Err(k) => Err(k)
            case Ok(atoms) => Prepend(RenderAtoms(atoms), Replace(Conditional, scope, rest))
  {
    hide Replace, Prepend, Free, LookupOr, EqIgnoreAsciiCase, BranchText;
    match p
    case Plain(a) =>
      AtomCopied(scope, a, rest);
      assert RenderAtoms([a]) == RenderAtom(a);
    case Cond(key, default, onTrue, onFalse) =>
      var text := RenderPiece(p);
      ReplaceMatch(Conditional, scope, text,
        Captures(|text|, key, default, RenderAtoms(onTrue), onFalse), rest);
      assert RenderAtoms([Lit(onFalse)]) == onFalse;
  }

  lemma ReplaceNothing(pass: Pass, scope: Scope)
    ensures Replace(pass, scope, "") == Ok("")
  {}

  /** The conditional pass over a rendered template renders the selected atoms. */
  lemma {:induction false} ConditionalPass(scope: Scope, pieces: seq<Piece>)
    requires Valid(scope.word, pieces)
    ensures Select(scope, pieces).Ok? ==> AtomsValid(scope.word, Select(scope, pieces).value)
    ensures Replace(Conditional, scope, Render(pieces))
         == match Select(scope, pieces)
            case Err(k) => Err(k)
            case Ok(atoms) => Ok(RenderAtoms(atoms))
  {
    hide Replace, RenderPiece, Branch, PieceValid;
    if pieces == [] {
      ReplaceNothing(Conditional, scope);
    } else {
      var p, rest := pieces[0], pieces[1..];
      ConditionalPass(scope, rest);
      PieceSelected(scope, p, Render(rest));
      if Branch(scope, p).Ok? && Select(scope, rest).Ok? {
        RenderAtomsAppend(Branch(scope, p).value, Select(scope, rest).value);
      }
    }
  }

  /** The variable pass over rendered atoms evaluates each of them once. */
  lemma {:induction false} VariablePass(scope: Scope, atoms: seq<Atom>)
    requires AtomsValid(scope.word, atoms)
    ensures Replace(Variable, scope, RenderAtoms(atoms)) == Values(scope, atoms)
  {
    if atoms == [] {
      ReplaceNothing(Variable, scope);
    } else {
      hide Replace, Prepend;
      var rest := atoms[1..];
      VariablePass(scope, rest);
      assert AtomValid(scope.word, atoms[0]);
      match atoms[0]
      case Lit(text) => LiteralCopied(Variable, scope, text, RenderAtoms(rest));
      case Var(key, default) =>
        var text := RenderAtom(atoms[0]);
        ReplaceMatch(Variable, scope, text, Captures(|text|, key, default, "", ""), RenderAtoms(rest));
    }
  }

  /** Expanding a rendered template gives its denotation: the same text, or the same missing key. */
  lemma ExpansionIsDenotation(scope: Scope, pieces: seq<Piece>)
    requires Valid(scope.word, pieces)
    ensures Expand(scope, Render(pieces)) == Denotation(scope, pieces)
  {
    ConditionalPass(scope, pieces);
    if Select(scope, pieces).Ok? {
      VariablePass(scope, Select(scope, pieces).value);
    }
  }

  // When expansion fails

  predicate AtomResolved(scope: Scope, a: Atom) {
    a.Var? ==> LookupOr(scope, a.key, a.default).Some?
  }

  /** Every key that has to be evaluated for this piece has a value: the key of the
      conditional and the keys in the branch it selects, but not those in the other branch. */
  predicate Resolved(scope: Scope, p: Piece) {
    && Branch(scope, p).Ok?
    && forall i :: 0 <= i < |Branch(scope, p).value| ==> AtomResolved(scope, Branch(scope, p).value[i])
  }

  lemma {:induction false} ValuesFail(scope: Scope, atoms: seq<Atom>)
    ensures Values(scope, atoms).Ok? <==> forall i :: 0 <= i < |atoms| ==> AtomResolved(scope, atoms[i])
  {
    if atoms == [] {
    } else {
      ValuesFail(scope, atoms[1..]);
      assert atoms == [atoms[0]] + atoms[1..];
    }
  }

  lemma {:induction false} SelectResolved(scope: Scope, pieces: seq<Piece>)
    ensures (forall i :: 0 <= i < |pieces| ==> Resolved(scope, pieces[i]))
       <==> Select(scope, pieces).Ok? && Values(scope, Select(scope, pieces).value).Ok?
  {
    hide Branch, AtomResolved;
    if pieces == [] {
    } else {
      SelectResolved(scope, pieces[1..]);
      assert pieces == [pieces[0]] + pieces[1..];
      if Select(scope, pieces).Ok? {
        ValuesFail(scope, Select(scope, pieces).value);
        ValuesFail(scope, Select(scope, pieces[1..]).value);
        var a, b := Branch(scope, pieces[0]).value, Select(scope, pieces[1..]).value;
        assert forall i :: 0 <= i < |a| ==> (a + b)[i] == a[i];
        assert forall i :: 0 <= i < |b| ==> b[i] == (a + b)[|a| + i];
      }
    }
  }

  /** Expansion of a template succeeds exactly when every key that is evaluated has a value. */
  lemma ExpansionSucceeds(scope: Scope, pieces: seq<Piece>)
    requires Valid(scope.word, pieces)
    ensures Expand(scope, Render(pieces)).Ok?
       <==> forall i :: 0 <= i < |pieces| ==> Resolved(scope, pieces[i])
  {
    ExpansionIsDenotation(scope, pieces);
    SelectResolved(scope, pieces);
  }

  // A placeholder inside a placeholder

  /** `${k${b}}` is expanded once, from the inside: what is left is a placeholder for the key
      `k` followed by the value of `b`. Expansion is therefore not idempotent, and applying it
      again looks the composed key up. */
  lemma NestedPlaceholder(scope: Scope, k: string, b: string, v: string)
    requires Key(scope.word, k) && Key(scope.word, b) && Lookup(scope, b) == Some(v)
    ensures Expand(scope, "${" + k + "${" + b + "}}") == Ok("${" + k + v + "}")
    ensures Key(scope.word, k + v) ==> Expand(scope, "${" + k + v + "}") == LookupOrFail(scope, k + v)
  {
    hide Replace;
    var inner := Placeholder(b, None, "}");
    var s := "${" + k + "${" + b + "}}";
    NestedCopied(scope, k, b);
    assert s == "${" + k + (inner + "}");
    KeyWithoutClose(scope, k, inner + "}");
    ReplaceMatch(Variable, scope, inner, Captures(|inner|, b, None, "", ""), "}");
    LiteralCopied(Variable, scope, "}", "");
    ReplaceNothing(Variable, scope);
    assert "}" + "" == "}";
    assert ("${" + k) + (v + "}") == "${" + k + v + "}";
    if Key(scope.word, k + v) {
      VariableExpands(scope, k + v);
      assert Placeholder(k + v, None, "}") == "${" + k + v + "}";
    }
  }

  function LookupOrFail(scope: Scope, key: string): Result<string, string> {
    match Lookup(scope, key) case None => Err(key) case Some(v) => Ok(v)
  }

  lemma VariableExpands(scope: Scope, key: string)
    requires Key(scope.word, key)
    ensures Expand(scope, Placeholder(key, None, "}")) == LookupOrFail(scope, key)
  {
    hide Expand, Replace;
    var a := Var(key, None);
    var p := [Plain(a)];
    assert Render(p[1..]) == "" && Render(p) == RenderAtom(a) + "" == Placeholder(key, None, "}");
    ExpansionIsDenotation(scope, p);
    assert Select(scope, p[1..]) == Ok([]);
    assert Branch(scope, p[0]) == Ok([a]) && [a] + [] == [a];
    assert Values(scope, [a][1..]) == Ok("");
    if Lookup(scope, key).Some? { assert Lookup(scope, key).value + "" == Lookup(scope, key).value; }
  }

  lemma NestedCopied(scope: Scope, k: string, b: string)
    requires Key(scope.word, k) && Key(scope.word, b)
    ensures var s := "${" + k + "${" + b + "}}"; Replace(Conditional, scope, s) == Ok(s)
  {
    hide Replace;
    var s := "${" + k + "${" + b + "}}";
    var x := "${" + (k + ("${" + b));
    assert s == x + ("}" + "}");
    assert Free(x, {'|', '}'});
    ConditionalPassSkips(scope, x, "}");
    LiteralCopied(Conditional, scope, "}", "");
    ReplaceNothing(Conditional, scope);
    assert "}" + "" == "}";
    assert x + "}" + "}" == s;
  }

  lemma KeyRunsOn(word: WordClass, k: string, rest: string)
    requires Key(word, k) && rest != "" && rest[0] == '$'
    ensures Match(Variable, word, "${" + k + rest).None?
  {
    hide WordPrefix, Until;
    var s := "${" + k + rest;
    assert s[2..] == k + rest && s[2 + |k|..] == rest;
    WordPrefixOf(word, k, rest);
  }

  /** The variable pass copies an opened placeholder whose key runs into another `$`. */
  lemma KeyWithoutClose(scope: Scope, k: string, rest: string)
    requires Key(scope.word, k) && rest != "" && rest[0] == '$'
    ensures Replace(Variable, scope, "${" + k + rest) == Prepend("${" + k, Replace(Variable, scope, rest))
  {
    hide Replace, Prepend, Match;
    var s := "${" + k + rest;
    KeyRunsOn(scope.word, k, rest);
    ReplaceSkip(Variable, scope, s);
    var t := "{" + k;
    assert s[1..] == t + rest;
    LiteralCopied(Variable, scope, t, rest);
    PrependPrepend("$", t, Replace(Variable, scope, rest));
    assert "$" + t == "${" + k && s[..1] == "$";
  }
}
