/** The order of strings by code point, and sets of strings in that order. */
module StringOrder {

  predicate Le(a: string, b: string) {
    a == "" || (b != "" && (a[0] < b[0] || (a[0] == b[0] && Le(a[1..], b[1..]))))
  }

  lemma {:induction false} Total(a: string, b: string)
    ensures Le(a, b) || Le(b, a)
  {
    if a != "" && b != "" { Total(a[1..], b[1..]); }
  }

  lemma {:induction false} Antisymmetric(a: string, b: string)
    requires Le(a, b) && Le(b, a)
    ensures a == b
  {
    if a == "" {
    } else {
      Antisymmetric(a[1..], b[1..]);
      assert a == [a[0]] + a[1..] && b == [b[0]] + b[1..];
    }
  }

  lemma {:induction false} Transitive(a: string, b: string, c: string)
    requires Le(a, b) && Le(b, c)
    ensures Le(a, c)
  {
    if a != "" && a[0] == b[0] && b[0] == c[0] { Transitive(a[1..], b[1..], c[1..]); }
  }

  predicate IsLeast(m: string, s: set<string>) {
    m in s && forall x :: x in s ==> Le(m, x)
  }

  lemma LeastOfMore(s: set<string>, x: string, m: string)
    requires x in s && IsLeast(m, s - {x})
    ensures IsLeast(if Le(m, x) then m else x, s)
  {
    hide Le;
    Total(m, x);
    Total(x, x);
    if !Le(m, x) {
      forall y | y in s ensures Le(x, y) {
        if y != x {
          assert y in s - {x};
          Transitive(x, m, y);
        }
      }
    }
  }

  lemma {:induction false} LeastExists(s: set<string>) returns (m: string)
    requires s != {}
    ensures IsLeast(m, s)
  {
    hide IsLeast;
    m :| m in s;
    if s == {m} {
      OnlyIsLeast(m);
    } else {
      var x := m;
      m := LeastExists(s - {x});
      LeastOfMore(s, x, m);
      m := if Le(m, x) then m else x;
    }
  }

  lemma OnlyIsLeast(x: string)
    ensures IsLeast(x, {x})
  {
    Total(x, x);
  }

  lemma LeastIsUnique(s: set<string>, a: string, b: string)
    requires IsLeast(a, s) && IsLeast(b, s)
    ensures a == b
  {
    Antisymmetric(a, b);
  }

  function Least(s: set<string>): (m: string)
    requires s != {}
    ensures m in s && forall x :: x in s ==> Le(m, x)
  {
    assert exists m :: IsLeast(m, s) by { var m := LeastExists(s); }
    assert forall a, b | IsLeast(a, s) && IsLeast(b, s) :: a == b by {
      forall a, b | IsLeast(a, s) && IsLeast(b, s) ensures a == b { LeastIsUnique(s, a, b); }
    }
    var m :| IsLeast(m, s); m
  }

  /** `sorted` of a set of strings. */
  function Sorted(s: set<string>): (r: seq<string>)
    ensures forall x :: x in r <==> x in s
    ensures |r| == |s|
  {
    if s == {} then [] else [Least(s)] + Sorted(s - {Least(s)})
  }

  predicate Ascending(r: seq<string>) {
    forall i, j :: 0 <= i < j < |r| ==> r[i] != r[j] && Le(r[i], r[j])
  }

  lemma AscendingCons(m: string, rest: seq<string>)
    requires Ascending(rest) && forall x :: x in rest ==> m != x && Le(m, x)
    ensures Ascending([m] + rest)
  {
    var r := [m] + rest;
    forall i, j | 0 <= i < j < |r| ensures r[i] != r[j] && Le(r[i], r[j]) {
      assert r[j] == rest[j - 1] && rest[j - 1] in rest;
      if i > 0 {
        assert r[i] == rest[i - 1];
        assert rest[i - 1] != rest[j - 1] && Le(rest[i - 1], rest[j - 1]);
      }
    }
  }

  lemma {:induction false} SortedIsAscending(s: set<string>)
    ensures Ascending(Sorted(s))
  {
    if s == {} {
    } else {
      SortedIsAscending(s - {Least(s)});
      AscendingCons(Least(s), Sorted(s - {Least(s)}));
    }
  }
}
