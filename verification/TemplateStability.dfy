/** When expanded text can be expanded again without a change (benchmarks/src/sql_benchmark.rs). */
module TemplateStability {
  import opened Text
  import opened Template

  /** Neither expression matches anywhere in a text. */
  ghost predicate NoPlaceholder(word: WordClass, s: string) {
    NoneOf(Conditional, word, s) && NoneOf(Variable, word, s)
  }

  ghost predicate NoneOf(pass: Pass, word: WordClass, s: string) {
    forall i :: 0 <= i < |s| ==> Match(pass, word, s[i..]).None?
  }

  lemma NoneInRest(pass: Pass, word: WordClass, s: string)
    requires s != ""
    ensures NoneOf(pass, word, s) <==> Match(pass, word, s).None? && NoneOf(pass, word, s[1..])
  {
    hide Match;
    assert s[0..] == s;
    forall i | 0 <= i < |s[1..]| ensures s[1..][i..] == s[i + 1..] {}
    if Match(pass, word, s).None? && NoneOf(pass, word, s[1..]) {
      forall i | 0 <= i < |s| ensures Match(pass, word, s[i..]).None? {
        if i > 0 { assert s[1..][i - 1..] == s[i..]; }
      }
    }
    if NoneOf(pass, word, s) {
      forall i | 0 <= i < |s[1..]| ensures Match(pass, word, s[1..][i..]).None? { assert s[1..][i..] == s[i + 1..]; }
    }
  }

  /** A pass that matches nowhere changes nothing. */
  lemma {:induction false} Unmatched(pass: Pass, scope: Scope, s: string)
    requires NoneOf(pass, scope.word, s)
    ensures Replace(pass, scope, s) == Ok(s)
  {
    hide Match, Replace, NoneOf;
    if s == "" {
      ReplaceNothing(pass, scope);
    } else {
      NoneInRest(pass, scope.word, s);
      ReplaceSkip(pass, scope, s);
      Unmatched(pass, scope, s[1..]);
      assert s[..1] + s[1..] == s;
    }
  }

  /** With nothing to look keys up in, what replaces a match is shorter than the match. */
  lemma ReplacementIsShorter(pass: Pass, scope: Scope, s: string)
    requires scope.mapping == map[] && scope.env == map[] && Match(pass, scope.word, s).Some?
    ensures var c := Match(pass, scope.word, s).value;
            Replacement(pass, scope, c).Ok? ==> |Replacement(pass, scope, c).value| < c.length
  {
    hide Match, Key, Default;
    var c := Match(pass, scope.word, s).value;
    MatchIsDenotation(pass, scope.word, s, c.length, c);
  }

  lemma {:induction false} Shrinks(pass: Pass, scope: Scope, s: string)
    requires scope.mapping == map[] && scope.env == map[]
    ensures Replace(pass, scope, s).Ok? ==> |Replace(pass, scope, s).value| <= |s|
    ensures Replace(pass, scope, s).Ok? && |Replace(pass, scope, s).value| == |s| ==> NoneOf(pass, scope.word, s)
    decreases |s|
  {
    hide Match, Replace, NoneOf, Replacement;
    if s == "" {
      ReplaceNothing(pass, scope);
      assert NoneOf(pass, scope.word, s) by { NoneInNothing(pass, scope.word); }
    } else if Match(pass, scope.word, s).None? {
      NoneInRest(pass, scope.word, s);
      ReplaceSkip(pass, scope, s);
      Shrinks(pass, scope, s[1..]);
    } else {
      var c := Match(pass, scope.word, s).value;
      ReplacementIsShorter(pass, scope, s);
      MatchIsDenotation(pass, scope.word, s, c.length, c);
      assert s == s[..c.length] + s[c.length..];
      ReplaceMatch(pass, scope, s[..c.length], c, s[c.length..]);
      Shrinks(pass, scope, s[c.length..]);
    }
  }

  lemma NoneInNothing(pass: Pass, word: WordClass)
    ensures NoneOf(pass, word, "")
  {
  }

  /** A text is left alone in every scope exactly when it holds no placeholder. */
  lemma StableInEveryScope(word: WordClass, o: string)
    ensures (forall scope: Scope :: scope.word == word ==> Expand(scope, o) == Ok(o)) <==> NoPlaceholder(word, o)
  {
    hide Replace, NoneOf;
    if NoPlaceholder(word, o) {
      forall scope: Scope | scope.word == word ensures Expand(scope, o) == Ok(o) {
        Unmatched(Conditional, scope, o);
        Unmatched(Variable, scope, o);
      }
    }
    if forall scope: Scope :: scope.word == word ==> Expand(scope, o) == Ok(o) {
      var scope := Scope(word, map[], map[], s => s, s => s);
      assert Expand(scope, o) == Ok(o);
      Shrinks(Conditional, scope, o);
      var text := Replace(Conditional, scope, o).value;
      Shrinks(Variable, scope, text);
      Unmatched(Conditional, scope, o);
    }
  }

  // Templates whose expansion is stable

  function ValueOf(scope: Scope, a: Atom): Option<string> {
    if a.Lit? then Some(a.text) else LookupOr(scope, a.key, a.default)
  }

  /** What an atom stands for is literal text: it opens no placeholder, nor does it end in a dollar. */
  predicate PlainValue(scope: Scope, a: Atom) {
    ValueOf(scope, a).Some? ==> Literal(ValueOf(scope, a).value)
  }

  /** Every value that the template evaluates is literal text. */
  predicate PlainValues(scope: Scope, pieces: seq<Piece>) {
    Select(scope, pieces).Ok? ==> forall a <- Select(scope, pieces).value :: PlainValue(scope, a)
  }

  predicate Opens(text: string, i: int)
    requires 0 <= i < |text| - 1
  {
    text[i] == '$' && text[i + 1] == '{'
  }

  lemma LiteralIs(text: string)
    ensures Literal(text) <==>
            (forall i :: 0 <= i < |text| - 1 ==> !Opens(text, i)) && (text != "" ==> text[|text| - 1] != '$')
  {
    if forall i :: 0 <= i < |text| - 1 ==> !Opens(text, i) {
      forall i | 0 <= i < |text| - 1 ensures text[i] != '$' || text[i + 1] != '{' { assert !Opens(text, i); }
    }
  }

  lemma LiteralAppend(a: string, b: string)
    requires Literal(a) && Literal(b)
    ensures Literal(a + b)
  {
    hide Literal;
    var s := a + b;
    LiteralIs(a);
    LiteralIs(b);
    LiteralIs(s);
    forall i | 0 <= i < |s| - 1 ensures !Opens(s, i) {
      if i < |a| - 1 {
        assert !Opens(a, i);
      } else if i >= |a| {
        assert !Opens(b, i - |a|);
      }
    }
  }

  lemma {:induction false} ValuesAreLiteral(scope: Scope, atoms: seq<Atom>)
    requires forall a <- atoms :: PlainValue(scope, a)
    ensures Values(scope, atoms).Ok? ==> Literal(Values(scope, atoms).value)
  {
    hide Literal, LookupOr;
    if atoms == [] {
      LiteralIs("");
    } else {
      assert PlainValue(scope, atoms[0]);
      ValuesAreLiteral(scope, atoms[1..]);
      if Values(scope, atoms).Ok? {
        LiteralAppend(ValueOf(scope, atoms[0]).value, Values(scope, atoms[1..]).value);
      }
    }
  }

  lemma LiteralHoldsNone(word: WordClass, s: string)
    requires Literal(s)
    ensures NoPlaceholder(word, s)
  {
    hide Match, Literal;
    LiteralIs(s);
    forall pass, i | 0 <= i < |s| ensures Match(pass, word, s[i..]).None? {
      assert i < |s| - 1 ==> !Opens(s, i);
      NoMatch(pass, word, s[i..]);
    }
  }

  /** Expanding a template whose evaluated values are literal text gives text that no further
      expansion changes, in whatever scope. */
  lemma PlainValuesAreStable(scope: Scope, pieces: seq<Piece>, later: Scope)
    requires Valid(scope.word, pieces) && PlainValues(scope, pieces) && later.word == scope.word
    ensures var o := Expand(scope, Render(pieces)); o.Ok? ==> Expand(later, o.value) == o
  {
    hide Expand, Literal, NoPlaceholder;
    ExpansionIsDenotation(scope, pieces);
    var o := Expand(scope, Render(pieces));
    if o.Ok? {
      ValuesAreLiteral(scope, Select(scope, pieces).value);
      LiteralHoldsNone(scope.word, o.value);
      StableInEveryScope(scope.word, o.value);
    }
  }

  // Expansions that are not stable

  /** A match goes on to match whatever surrounds it. */
  lemma NoneInMiddle(pass: Pass, word: WordClass, pre: string, v: string, post: string)
    requires NoneOf(pass, word, pre + v + post)
    ensures NoneOf(pass, word, v)
  {
    hide Match, Denotes;
    var s := pre + v + post;
    forall i | 0 <= i < |v| ensures Match(pass, word, v[i..]).None? {
      if Match(pass, word, v[i..]).Some? {
        var c := Match(pass, word, v[i..]).value;
        var t := s[|pre| + i..];
        MatchHasLength(pass, word, v[i..]);
        assert t[..c.length] == v[i..][..c.length];
        MatchIsDenotation(pass, word, v[i..], c.length, c);
        MatchIsDenotation(pass, word, t, c.length, c);
        assert false;
      }
    }
  }

  lemma MatchHasLength(pass: Pass, word: WordClass, s: string)
    requires Match(pass, word, s).Some?
    ensures Match(pass, word, s).value.length <= |s|
  {
  }

  lemma {:induction false} ValueIsInside(scope: Scope, atoms: seq<Atom>, a: Atom) returns (pre: string, post: string)
    requires a in atoms && Values(scope, atoms).Ok?
    ensures ValueOf(scope, a).Some? && Values(scope, atoms) == Ok(pre + ValueOf(scope, a).value + post)
  {
    hide LookupOr;
    var rest := Values(scope, atoms[1..]).value;
    if a == atoms[0] {
      pre, post := "", rest;
      assert "" + ValueOf(scope, a).value == ValueOf(scope, a).value;
    } else {
      pre, post := ValueIsInside(scope, atoms[1..], a);
      var v := ValueOf(scope, atoms[0]).value;
      assert v + (pre + ValueOf(scope, a).value + post) == v + pre + ValueOf(scope, a).value + post;
      pre := v + pre;
    }
  }

  /** Conversely, an expansion that no further expansion changes has been made from values that hold
      no placeholder. */
  lemma {:induction false} StableValuesHoldNone(scope: Scope, pieces: seq<Piece>, a: Atom)
    requires Valid(scope.word, pieces) && Expand(scope, Render(pieces)).Ok?
    requires var o := Expand(scope, Render(pieces));
             forall later: Scope :: later.word == scope.word ==> Expand(later, o.value) == o
    requires Select(scope, pieces).Ok? && a in Select(scope, pieces).value
    ensures ValueOf(scope, a).Some? && NoPlaceholder(scope.word, ValueOf(scope, a).value)
  {
    hide Expand, NoneOf, ValueOf;
    ExpansionIsDenotation(scope, pieces);
    var o := Expand(scope, Render(pieces));
    StableInEveryScope(scope.word, o.value);
    var pre, post := ValueIsInside(scope, Select(scope, pieces).value, a);
    NoneInMiddle(Conditional, scope.word, pre, ValueOf(scope, a).value, post);
    NoneInMiddle(Variable, scope.word, pre, ValueOf(scope, a).value, post);
  }

  function Plains(atoms: seq<Atom>): seq<Piece> {
    if atoms == [] then [] else [Plain(atoms[0])] + Plains(atoms[1..])
  }

  lemma {:induction false} PlainsAre(scope: Scope, atoms: seq<Atom>)
    requires AtomsValid(scope.word, atoms)
    ensures Valid(scope.word, Plains(atoms)) && Render(Plains(atoms)) == RenderAtoms(atoms)
    ensures Select(scope, Plains(atoms)) == Ok(atoms)
  {
    hide AtomValid, RenderAtom;
    if atoms == [] {
    } else {
      PlainsAre(scope, atoms[1..]);
      var pieces := Plains(atoms);
      assert pieces[1..] == Plains(atoms[1..]) && pieces[0] == Plain(atoms[0]);
      assert [atoms[0]] + atoms[1..] == atoms;
    }
  }

  /** Variables and literals are replaced by their values. */
  lemma AtomsExpand(scope: Scope, atoms: seq<Atom>)
    requires AtomsValid(scope.word, atoms)
    ensures Expand(scope, RenderAtoms(atoms)) == Values(scope, atoms)
  {
    PlainsAre(scope, atoms);
    ExpansionIsDenotation(scope, Plains(atoms));
  }

  lemma AtomsCons(scope: Scope, a: Atom, rest: seq<Atom>)
    ensures RenderAtoms([a] + rest) == RenderAtom(a) + RenderAtoms(rest)
    ensures a.Lit? ==> Values(scope, [a] + rest) == Prepend(a.text, Values(scope, rest))
    ensures a.Var? && LookupOr(scope, a.key, a.default).Some? ==>
              Values(scope, [a] + rest) == Prepend(LookupOr(scope, a.key, a.default).value, Values(scope, rest))
    ensures RenderAtoms([]) == "" && Values(scope, []) == Ok("")
  {
    assert ([a] + rest)[1..] == rest;
  }

  /** A variable between literal texts is replaced by its value. Expanding it changes nothing in this
      scope exactly when the value is the placeholder itself. */
  lemma LonePlaceholder(scope: Scope, pre: string, key: string, default: Option<string>, post: string)
    requires Literal(pre) && Literal(post) && Key(scope.word, key) && Default(default, {'|', '}'})
    requires LookupOr(scope, key, default).Some?
    ensures var text, v := Placeholder(key, default, "}"), LookupOr(scope, key, default).value;
            && Expand(scope, pre + text + post) == Ok(pre + v + post)
            && (Expand(scope, pre + text + post) == Ok(pre + text + post) <==> v == text)
  {
    hide Expand, Literal, Key, Default, Placeholder, LookupOr, RenderAtoms, Values;
    var text, v := Placeholder(key, default, "}"), LookupOr(scope, key, default).value;
    var a, b, c := Lit(pre), Var(key, default), Lit(post);
    AtomsCons(scope, c, []);
    AtomsCons(scope, b, [c] + []);
    AtomsCons(scope, a, [b] + ([c] + []));
    AtomsExpand(scope, [a] + ([b] + ([c] + [])));
    assert pre + (text + (post + "")) == pre + text + post && pre + (v + (post + "")) == pre + v + post;
    SameMiddle(pre, v, text, post);
  }

  lemma SameMiddle(pre: string, v: string, w: string, post: string)
    ensures pre + v + post == pre + w + post <==> v == w
  {
    if pre + v + post == pre + w + post {
      assert v == (pre + v + post)[|pre|..|pre + v + post| - |post|];
      assert w == (pre + w + post)[|pre|..|pre + w + post| - |post|];
    }
  }

  /** A value that is a placeholder leaves a placeholder behind, and so does a value or a default that
      is a dollar before a brace, without any nesting: `${x}` with the value `${k}`, and `${x:-$}{k}`. */
  lemma ValueOpensPlaceholder(scope: Scope, x: string, default: Option<string>, k: string, split: bool)
    requires Key(scope.word, x) && Key(scope.word, k) && Default(default, {'|', '}'})
    requires LookupOr(scope, x, default) == Some(if split then "$" else "${" + k + "}")
    ensures var post := if split then "{" + k + "}" else "";
            && Expand(scope, Placeholder(x, default, "}") + post) == Ok("${" + k + "}")
            && Expand(scope, "${" + k + "}") == LookupOrFail(scope, k)
            && !NoPlaceholder(scope.word, "${" + k + "}")
  {
    hide Expand, LookupOr, Default, NoPlaceholder, Key, Literal, Placeholder;
    var post := if split then "{" + k + "}" else "";
    var text := Placeholder(x, default, "}");
    BracedIsLiteral(scope.word, k);
    LonePlaceholder(scope, "", x, default, post);
    Framed(text, post, k);
    PlaceholderOfKey(k);
    VariableExpands(scope, k);
    KeyIsHeld(scope.word, k);
  }

  lemma Framed(text: string, post: string, k: string)
    ensures "" + text + post == text + post
    ensures "" + "$" + ("{" + k + "}") == "${" + k + "}" && "" + ("${" + k + "}") + "" == "${" + k + "}"
  {
    assert "" + text == text && "" + "$" == "$" && "" + ("${" + k + "}") == "${" + k + "}";
    assert "$" + ("{" + k + "}") == "${" + k + "}";
  }

  lemma BracedIsLiteral(word: WordClass, k: string)
    requires Key(word, k)
    ensures Literal("{" + k + "}") && Literal("")
  {
    var s := "{" + k + "}";
    forall i | 0 <= i < |s| ensures s[i] != '$' { assert 1 <= i <= |k| ==> s[i] == k[i - 1]; }
  }

  lemma PlaceholderOfKey(k: string)
    ensures Placeholder(k, None, "}") == "${" + k + "}"
  {
    assert "" + "}" == "}";
    assert "${" + (k + "}") == "${" + k + "}";
  }

  lemma KeyIsHeld(word: WordClass, k: string)
    requires Key(word, k)
    ensures !NoPlaceholder(word, "${" + k + "}")
  {
    hide Match, Key;
    var s := "${" + k + "}";
    PlaceholderOfKey(k);
    assert s[..|s|] == s && s[0..] == s;
    MatchIsDenotation(Variable, word, s, |s|, Captures(|s|, k, None, "", ""));
  }

  /** Whether a text is stable in one scope is not a matter of its placeholders alone: here two
      replacements, neither of which is the placeholder it replaces, make the same text again. */
  lemma ReplacementsCancel(scope: Scope, a: string, b: string)
    requires Key(scope.word, a) && Key(scope.word, b)
    requires Lookup(scope, a) == Some("${" + a + "}$") && Lookup(scope, b) == Some("{" + b + "}")
    ensures var o := "${" + a + "}" + ("${" + b + "}"); Expand(scope, o) == Ok(o)
  {
    hide Expand, Key, Lookup, RenderAtoms, Values, Placeholder;
    var x, y := Var(a, None), Var(b, None);
    PlaceholderOfKey(a);
    PlaceholderOfKey(b);
    AtomsCons(scope, y, []);
    AtomsCons(scope, x, [y] + []);
    AtomsExpand(scope, [x] + ([y] + []));
    SameAgain(a, b);
  }

  lemma SameAgain(a: string, b: string)
    ensures "${" + a + "}" + ("${" + b + "}" + "") == "${" + a + "}" + ("${" + b + "}")
    ensures "${" + a + "}$" + ("{" + b + "}" + "") == "${" + a + "}" + ("${" + b + "}")
  {
    assert "${" + b + "}" + "" == "${" + b + "}" && "{" + b + "}" + "" == "{" + b + "}";
    assert "${" + a + "}$" == "${" + a + "}" + "$" && "${" + b + "}" == "$" + ("{" + b + "}");
    Regroup("${" + a + "}", "$", "{" + b + "}");
  }

}
