/** The part of the workflow expression language that skip conditions are written in: comparisons,
    negated groups, and conjunctions. */
module Expression {
  import opened Text

  datatype Expr =
    | Atom(text: string)
    | Not(inner: Expr)
    | And(left: Expr, right: Expr)

  /** Conjunctions nest to the right, and atoms hold neither parentheses nor `&`. */
  predicate Valid(e: Expr) {
    match e
    case Atom(text) => text != "" && Free(text, {'&', '(', ')'})
    case Not(inner) => Valid(inner)
    case And(left, right) => !left.And? && Valid(left) && Valid(right)
  }

  function Render(e: Expr): string {
    match e
    case Atom(text) => text
    case Not(inner) => "!(" + Render(inner) + ")"
    case And(left, right) => Render(left) + " && " + Render(right)
  }

  /** Which comparisons hold in an event. */
  type Event = string -> bool

  predicate Eval(e: Expr, event: Event) {
    match e
    case Atom(text) => event(text)
    case Not(inner) => !Eval(inner, event)
    case And(left, right) => Eval(left, event) && Eval(right, event)
  }

  // Reading an expression back

  function AtomLength(s: string): (n: nat)
    ensures n <= |s|
  {
    if s == "" || s[0] in {'&', '(', ')'} || " && " <= s then 0 else 1 + AtomLength(s[1..])
  }

  function ParseUnary(s: string): (r: Option<(Expr, string)>)
    ensures r.Some? ==> |r.value.1| < |s|
    decreases |s|, 0
  {
    if "!(" <= s then
      match ParseConjunction(s[2..])
      case None => None
      case Some((e, rest)) => if ")" <= rest then Some((Not(e), rest[1..])) else None
    else
      var n := AtomLength(s);
      if n == 0 then None else Some((Atom(s[..n]), s[n..]))
  }

  function ParseConjunction(s: string): (r: Option<(Expr, string)>)
    ensures r.Some? ==> |r.value.1| < |s|
    decreases |s|, 1
  {
    match ParseUnary(s)
    case None => None
    case Some((e, rest)) =>
      if " && " <= rest then
        match ParseConjunction(rest[4..])
        case None => None
        case Some((f, rest')) => Some((And(e, f), rest'))
      else Some((e, rest))
  }

  /** What may follow a conjunction, and what may follow one of its parts. */
  predicate Ends(rest: string) {
    rest == "" || ")" <= rest
  }

  lemma EndsIsNoConjunction(rest: string)
    requires Ends(rest)
    ensures !(" && " <= rest)
  {
    assert rest != "" ==> rest[0] == ')';
  }

  predicate EndsPart(rest: string) {
    Ends(rest) || " && " <= rest
  }

  lemma {:induction false} AtomLengthOf(text: string, rest: string)
    requires Free(text, {'&', '(', ')'}) && EndsPart(rest)
    ensures AtomLength(text + rest) == |text|
  {
    var s := text + rest;
    if text == "" {
      assert s == rest;
    } else {
      assert s[0] == text[0] && s[1..] == text[1..] + rest;
      assert |s| > 1 ==> s[1] == if |text| > 1 then text[1] else rest[0];
      AtomLengthOf(text[1..], rest);
    }
  }

  lemma {:induction false} ParseUnaryOf(e: Expr, rest: string)
    requires Valid(e) && !e.And? && EndsPart(rest)
    ensures ParseUnary(Render(e) + rest) == Some((e, rest))
    decreases e, 0
  {
    var s := Render(e) + rest;
    match e
    case Atom(text) =>
      AtomLengthOf(text, rest);
      assert s[0] == text[0];
      assert |s| > 1 ==> s[1] == if |text| > 1 then text[1] else rest[0];
    case Not(inner) =>
      assert s[2..] == Render(inner) + (")" + rest);
      ParseConjunctionOf(inner, ")" + rest);
  }

  lemma {:induction false} ParseConjunctionOf(e: Expr, rest: string)
    requires Valid(e) && Ends(rest)
    ensures ParseConjunction(Render(e) + rest) == Some((e, rest))
    decreases e, 1
  {
    EndsIsNoConjunction(rest);
    if e.And? {
      var tail := " && " + (Render(e.right) + rest);
      assert Render(e) + rest == Render(e.left) + tail;
      ParseUnaryOf(e.left, tail);
      assert tail[4..] == Render(e.right) + rest;
      ParseConjunctionOf(e.right, rest);
    } else {
      ParseUnaryOf(e, rest);
    }
  }

  // Reading nothing else

  lemma {:induction false} AtomIsFree(s: string)
    ensures Free(s[..AtomLength(s)], {'&', '(', ')'})
  {
    if AtomLength(s) > 0 {
      AtomIsFree(s[1..]);
      assert s[..AtomLength(s)] == [s[0]] + s[1..][..AtomLength(s[1..])];
      FreeAppend([s[0]], s[1..][..AtomLength(s[1..])], {'&', '(', ')'});
    }
  }

  lemma RenderedBefore(e: Expr, f: Expr, rest: string)
    ensures Render(Not(e)) + rest == "!(" + (Render(e) + (")" + rest))
    ensures Render(And(e, f)) + rest == Render(e) + (" && " + (Render(f) + rest))
  {
  }

  lemma {:induction false} ParsedUnaryIs(s: string)
    requires ParseUnary(s).Some?
    ensures var (e, rest) := ParseUnary(s).value; Valid(e) && !e.And? && s == Render(e) + rest
    decreases |s|, 0
  {
    hide Render, AtomLength;
    if "!(" <= s {
      ParsedConjunctionIs(s[2..]);
      var (e, rest) := ParseConjunction(s[2..]).value;
      assert s == "!(" + s[2..] && rest == ")" + rest[1..];
      RenderedBefore(e, e, rest[1..]);
    } else {
      AtomIsItself(s[..AtomLength(s)]);
      AtomIsFree(s);
      assert s == s[..AtomLength(s)] + s[AtomLength(s)..];
    }
  }

  lemma {:induction false} ParsedConjunctionIs(s: string)
    requires ParseConjunction(s).Some?
    ensures var (e, rest) := ParseConjunction(s).value; Valid(e) && s == Render(e) + rest
    decreases |s|, 1
  {
    hide Render, ParseUnary;
    ParsedUnaryIs(s);
    var (e, rest) := ParseUnary(s).value;
    if " && " <= rest {
      ParsedConjunctionIs(rest[4..]);
      var (f, rest') := ParseConjunction(rest[4..]).value;
      assert rest == " && " + rest[4..];
      RenderedBefore(e, f, rest');
    }
  }

  lemma AtomIsItself(text: string)
    ensures Render(Atom(text)) == text
  {
  }

  // Conditions

  const OPEN := "${{ "
  const CLOSE := " }}"

  /** The text of an `if:`. */
  function Condition(e: Expr): string {
    OPEN + Render(e) + CLOSE
  }

  /** What an `if:` says of an event; None for text that is not a condition of this form. */
  function Meaning(text: string, event: Event): Option<bool> {
    if |text| < |OPEN| + |CLOSE| || !(OPEN <= text) || text[|text| - |CLOSE|..] != CLOSE then None
    else
      match ParseConjunction(text[|OPEN|..|text| - |CLOSE|])
      case Some((e, rest)) => if rest == "" then Some(Eval(e, event)) else None
      case None => None
  }

  /** A rendered condition means what its expression says. */
  lemma ConditionMeaning(e: Expr, event: Event)
    requires Valid(e)
    ensures Meaning(Condition(e), event) == Some(Eval(e, event))
  {
    var text := Condition(e);
    assert text[|OPEN|..|text| - |CLOSE|] == Render(e) + "";
    assert text[|text| - |CLOSE|..] == CLOSE;
    ParseConjunctionOf(e, "");
  }

  /** No other text is a condition. */
  lemma MeaningIsCondition(text: string, event: Event) returns (e: Expr)
    requires Meaning(text, event).Some?
    ensures Valid(e) && text == Condition(e) && Meaning(text, event) == Some(Eval(e, event))
  {
    var inside := text[|OPEN|..|text| - |CLOSE|];
    ParsedConjunctionIs(inside);
    e := ParseConjunction(inside).value.0;
    assert Render(e) + "" == Render(e);
    assert text == OPEN + inside + CLOSE;
  }
}
