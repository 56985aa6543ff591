/** What a placeholder stands for, said with the mapping and the environment alone
    (benchmarks/src/sql_benchmark.rs). */
module TemplateValues {
  import opened Letters
  import opened Text
  import opened Template
  import opened TemplateStability

  // ASCII letters

  lemma LetterIsLowered(k: nat, c: char)
    requires LetterAt(k, c)
    ensures AsciiLower(c) == SMALL[k]
  {
    Alphabet(k);
  }

  lemma LettersAgree(a: char, b: char)
    ensures AsciiLower(a) == AsciiLower(b) <==> SameLetter(a, b)
  {
    if AsciiLower(a) == AsciiLower(b) && a != b {
      var k: nat := AsciiLower(a) as int - 'a' as int;
      Alphabet(k);
      assert LetterAt(k, a) && LetterAt(k, b);
    }
    if k :| LetterAt(k, a) && LetterAt(k, b) {
      LetterIsLowered(k, a);
      LetterIsLowered(k, b);
    }
  }

  /** Strings are equal without regard to ASCII case exactly when they are letter by letter. */
  lemma SameLetters(a: string, b: string)
    ensures EqIgnoreAsciiCase(a, b) <==> SameText(a, b)
  {
    hide SameLetter, AsciiLower;
    var x, y := AsciiLowerAll(a), AsciiLowerAll(b);
    assert |x| == |a| && |y| == |b|;
    if |a| == |b| {
      forall i | 0 <= i < |a| ensures x[i] == y[i] <==> SameLetter(a[i], b[i]) { LettersAgree(a[i], b[i]); }
    }
  }

  predicate SpellsTrue(v: string) {
    && |v| == 4
    && (v[0] == 't' || v[0] == 'T') && (v[1] == 'r' || v[1] == 'R')
    && (v[2] == 'u' || v[2] == 'U') && (v[3] == 'e' || v[3] == 'E')
  }

  lemma TrueInAnyCase(v: string)
    ensures EqIgnoreAsciiCase(v, "true") <==> SpellsTrue(v)
  {
    if |v| == 4 {
      var x, y := AsciiLowerAll(v), AsciiLowerAll("true");
      assert y == "true";
      assert x == [AsciiLower(v[0]), AsciiLower(v[1]), AsciiLower(v[2]), AsciiLower(v[3])];
      assert x == y <==> x[0] == 't' && x[1] == 'r' && x[2] == 'u' && x[3] == 'e';
    }
  }

  // Where a value comes from

  /** The mapping comes first, then the environment, then the default. */
  lemma ValueComesFrom(scope: Scope, key: string, default: Option<string>)
    ensures scope.lower(key) in scope.mapping ==>
              LookupOr(scope, key, default) == Some(scope.mapping[scope.lower(key)])
    ensures scope.lower(key) !in scope.mapping && scope.upper(key) in scope.env ==>
              LookupOr(scope, key, default) == Some(scope.env[scope.upper(key)])
    ensures scope.lower(key) !in scope.mapping && scope.upper(key) !in scope.env ==>
              LookupOr(scope, key, default) == default
  {
  }

  predicate KeyText(scope: Scope, key: string) {
    key != "" && forall i :: 0 <= i < |key| ==> key[i] in scope.word
  }

  /** `${key}` is the mapping's value for the key in lower case, otherwise the environment's for the key in
      upper case; otherwise the key is missing. */
  lemma VariableStandsFor(scope: Scope, key: string)
    requires KeyText(scope, key)
    ensures Expand(scope, "${" + key + "}")
         == if scope.lower(key) in scope.mapping then Ok(scope.mapping[scope.lower(key)])
            else if scope.upper(key) in scope.env then Ok(scope.env[scope.upper(key)])
            else Err(key)
  {
    hide Expand, Placeholder;
    VariableExpands(scope, key);
    PlaceholderOfKey(key);
    ValueComesFrom(scope, key, None);
  }

  /** A text of one piece. */
  lemma {:induction false} OnePiece(scope: Scope, p: Piece)
    requires PieceValid(scope.word, p)
    ensures Expand(scope, RenderPiece(p))
         == match Branch(scope, p)
            case Err(k) => Err(k)
            case Ok(atoms) => Values(scope, atoms)
  {
    hide Expand, RenderPiece, Branch, PieceValid, Values;
    var pieces := [p];
    assert pieces[1..] == [] && Render([]) == "" && Select(scope, []) == Ok([]);
    assert Render(pieces) == RenderPiece(p) + "" == RenderPiece(p);
    ExpansionIsDenotation(scope, pieces);
    if Branch(scope, p).Ok? { assert Branch(scope, p).value + [] == Branch(scope, p).value; }
  }

  lemma {:induction false} OneAtom(scope: Scope, a: Atom)
    ensures Values(scope, [a])
         == match a
            case Lit(text) => Ok(text)
            case Var(key, default) =>
              var v := LookupOr(scope, key, default);
              if v.None? then Err(key) else Ok(v.value)
  {
    hide LookupOr;
    assert [a][1..] == [];
    match a
    case Lit(text) => assert text + "" == text;
    case Var(key, default) =>
      if LookupOr(scope, key, default).Some? {
        assert LookupOr(scope, key, default).value + "" == LookupOr(scope, key, default).value;
      }
  }

  predicate DefaultFor(d: string) {
    d != "" && forall i :: 0 <= i < |d| ==> d[i] != '|' && d[i] != '}'
  }

  lemma DefaultedText(key: string, d: string, tail: string)
    ensures Placeholder(key, Some(d), tail) == "${" + key + ":-" + d + tail
    ensures Placeholder(key, None, tail) == "${" + key + tail
  {
    assert ":-" + d + tail == ":-" + (d + tail);
    assert "" + tail == tail;
    assert key + (":-" + (d + tail)) == key + ":-" + d + tail;
  }

  /** `${key:-d}` stands for the default where `${key}` would be missing. */
  lemma VariableWithDefault(scope: Scope, key: string, d: string)
    requires KeyText(scope, key) && DefaultFor(d)
    ensures Expand(scope, "${" + key + ":-" + d + "}")
         == if scope.lower(key) in scope.mapping then Ok(scope.mapping[scope.lower(key)])
            else if scope.upper(key) in scope.env then Ok(scope.env[scope.upper(key)])
            else Ok(d)
  {
    hide Expand, Placeholder, Values, LookupOr;
    var a := Var(key, Some(d));
    DefaultedText(key, d, "}");
    OnePiece(scope, Plain(a));
    OneAtom(scope, a);
    ValueComesFrom(scope, key, Some(d));
  }

  predicate BranchFor(t: string, f: string) {
    && t != "" && f != "" && Literal(t) && Literal(f)
    && (forall i :: 0 <= i < |t| ==> t[i] != '|') && forall i :: 0 <= i < |f| ==> f[i] != '}'
  }

  lemma {:induction false} ConditionalIs(scope: Scope, key: string, default: Option<string>, t: string, f: string)
    requires KeyText(scope, key) && (default.Some? ==> DefaultFor(default.value)) && BranchFor(t, f)
    ensures Expand(scope, Placeholder(key, default, "|" + t + "|" + f + "}"))
         == match LookupOr(scope, key, default)
            case None => Err(key)
            case Some(v) => Ok(if SpellsTrue(v) then t else f)
  {
    hide Expand, Placeholder, Values, LookupOr, Literal;
    var p := Cond(key, default, [Lit(t)], f);
    assert [Lit(t)][1..] == [] && t + "" == t;
    assert RenderAtoms([Lit(t)]) == RenderAtom(Lit(t)) + RenderAtoms([]) == t;
    assert BranchText(t, f) == "|" + t + "|" + f + "}";
    OnePiece(scope, p);
    OneAtom(scope, Lit(t));
    OneAtom(scope, Lit(f));
    if LookupOr(scope, key, default).Some? { TrueInAnyCase(LookupOr(scope, key, default).value); }
  }

  /** `${key|t|f}` is `t` when the value is "true" in any ASCII case, and `f` otherwise. */
  lemma ConditionalStandsFor(scope: Scope, key: string, t: string, f: string)
    requires KeyText(scope, key) && BranchFor(t, f)
    ensures Expand(scope, "${" + key + "|" + t + "|" + f + "}")
         == if scope.lower(key) in scope.mapping then Ok(if SpellsTrue(scope.mapping[scope.lower(key)]) then t else f)
            else if scope.upper(key) in scope.env then Ok(if SpellsTrue(scope.env[scope.upper(key)]) then t else f)
            else Err(key)
  {
    hide Expand, Placeholder, LookupOr, BranchFor, SpellsTrue;
    ConditionalIs(scope, key, None, t, f);
    DefaultedText(key, "", "|" + t + "|" + f + "}");
    assert "${" + key + ("|" + t + "|" + f + "}") == "${" + key + "|" + t + "|" + f + "}";
    ValueComesFrom(scope, key, None);
  }

  lemma ConditionalWithDefault(scope: Scope, key: string, d: string, t: string, f: string)
    requires KeyText(scope, key) && DefaultFor(d) && BranchFor(t, f)
    ensures Expand(scope, "${" + key + ":-" + d + "|" + t + "|" + f + "}")
         == if scope.lower(key) in scope.mapping then Ok(if SpellsTrue(scope.mapping[scope.lower(key)]) then t else f)
            else if scope.upper(key) in scope.env then Ok(if SpellsTrue(scope.env[scope.upper(key)]) then t else f)
            else Ok(if SpellsTrue(d) then t else f)
  {
    hide Expand, Placeholder, LookupOr, BranchFor, SpellsTrue, DefaultFor;
    ConditionalIs(scope, key, Some(d), t, f);
    DefaultedText(key, d, "|" + t + "|" + f + "}");
    assert "${" + key + ":-" + d + ("|" + t + "|" + f + "}") == "${" + key + ":-" + d + "|" + t + "|" + f + "}";
    ValueComesFrom(scope, key, Some(d));
  }
}
