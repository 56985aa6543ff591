/** The order in which the roster comes: the script draws it from sets
    (docs/scripts/update_committer_list.py). */
module RosterOrder {
  import opened Committers
  import opened Roster
  import StringOrder

  /** No two rows share a sort key. */
  ghost predicate KeysTell(cs: seq<Committer>, lower: string -> string) {
    forall c <- cs, d <- cs :: SortKey(c, lower) == SortKey(d, lower) ==> c == d
  }

  lemma KeyLeAntisymmetric(a: Key, b: Key)
    requires KeyLe(a, b) && KeyLe(b, a)
    ensures a == b
  {
    StringOrder.Antisymmetric(a.id, b.id);
  }

  lemma SameMembers<T>(a: seq<T>, b: seq<T>)
    requires multiset(a) == multiset(b)
    ensures |a| == |b| && forall x :: x in a <==> x in b
  {
    assert |a| == |multiset(a)| && |b| == |multiset(b)|;
    forall x ensures x in a <==> x in b { assert x in multiset(a) <==> x in multiset(b); }
  }

  lemma TakenOut<T>(s: seq<T>, i: nat)
    requires i < |s|
    ensures multiset(s) == multiset(s[..i] + s[i + 1..]) + multiset{s[i]}
  {
    assert s == s[..i] + [s[i]] + s[i + 1..];
  }

  lemma Cancels<T>(x: multiset<T>, y: multiset<T>, m: T)
    requires x + multiset{m} == y + multiset{m}
    ensures x == y
  {
    assert x == x + multiset{m} - multiset{m} && y == y + multiset{m} - multiset{m};
  }

  lemma FirstTakenOut<T>(s: seq<T>)
    requires s != []
    ensures multiset(s) == multiset(s[1..]) + multiset{s[0]}
  {
    assert s == [s[0]] + s[1..];
  }

  lemma SameRest<T>(a: seq<T>, b: seq<T>)
    requires a != [] && b != [] && multiset(a) == multiset(b) && a[0] == b[0]
    ensures multiset(a[1..]) == multiset(b[1..])
  {
    FirstTakenOut(a);
    FirstTakenOut(b);
    Cancels(multiset(a[1..]), multiset(b[1..]), a[0]);
  }

  lemma FirstIsLeast(a: seq<Committer>, c: Committer, lower: string -> string)
    requires InOrder(a, lower) && c in a
    ensures KeyLe(SortKey(a[0], lower), SortKey(c, lower))
  {
    hide SortKey, KeyLe;
    var i :| 0 <= i < |a| && a[i] == c;
    if i == 0 { KeyLeTotal(SortKey(c, lower), SortKey(c, lower)); }
  }

  lemma SameFirst(a: seq<Committer>, b: seq<Committer>, lower: string -> string)
    requires a != [] && InOrder(a, lower) && InOrder(b, lower) && multiset(a) == multiset(b) && KeysTell(a, lower)
    ensures b != [] && a[0] == b[0]
  {
    hide SortKey, KeyLe, InOrder;
    SameMembers(a, b);
    FirstIsLeast(a, b[0], lower);
    FirstIsLeast(b, a[0], lower);
    KeyLeAntisymmetric(SortKey(a[0], lower), SortKey(b[0], lower));
  }

  lemma RestInOrder(a: seq<Committer>, lower: string -> string)
    requires a != [] && InOrder(a, lower)
    ensures InOrder(a[1..], lower) && (KeysTell(a, lower) ==> KeysTell(a[1..], lower))
  {
    hide SortKey, KeyLe;
    forall c | c in a[1..] ensures c in a {}
  }

  /** Rows with different keys have one order only. */
  lemma {:induction false} OrderIsUnique(a: seq<Committer>, b: seq<Committer>, lower: string -> string)
    requires InOrder(a, lower) && InOrder(b, lower) && multiset(a) == multiset(b) && KeysTell(a, lower)
    ensures a == b
  {
    hide SortKey, KeyLe, InOrder, KeysTell;
    SameMembers(a, b);
    if a == [] {
    } else {
      SameFirst(a, b, lower);
      SameRest(a, b);
      RestInOrder(a, lower);
      RestInOrder(b, lower);
      OrderIsUnique(a[1..], b[1..], lower);
      assert a == [a[0]] + a[1..] && b == [b[0]] + b[1..];
    }
  }

  // The same members in another order give the same rows in another order

  /** The rows of members, in no order. */
  function RowBag(e: map<string, Committer>, ms: seq<Member>): multiset<Committer> {
    multiset(NewRows(e, ms))
  }

  lemma NewRowTakenOut(e: map<string, Committer>, ms: seq<Member>, i: nat)
    requires i < |ms|
    ensures RowBag(e, ms) == RowBag(e, ms[..i] + ms[i + 1..]) + multiset{NewRow(e, ms[i])}
  {
    hide NewRow;
    var rows, rest := NewRows(e, ms), NewRows(e, ms[..i] + ms[i + 1..]);
    TakenOut(rows, i);
    assert rest == rows[..i] + rows[i + 1..];
  }

  /** The first element taken out of both. */
  lemma TakenOutOfBoth<T>(a: seq<T>, b: seq<T>) returns (i: nat)
    requires multiset(a) == multiset(b) && a != []
    ensures i < |b| && b[i] == a[0] && multiset(a[1..]) == multiset(b[..i] + b[i + 1..])
  {
    SameMembers(a, b);
    assert a[0] in b;
    i :| 0 <= i < |b| && b[i] == a[0];
    FirstTakenOut(a);
    TakenOut(b, i);
    Cancels(multiset(a[1..]), multiset(b[..i] + b[i + 1..]), a[0]);
  }

  lemma {:induction false} NewRowsPermute(e: map<string, Committer>, a: seq<Member>, b: seq<Member>)
    requires multiset(a) == multiset(b)
    ensures RowBag(e, a) == RowBag(e, b)
  {
    hide NewRow, RowBag;
    if a == [] {
      SameMembers(a, b);
      assert b == [];
    } else {
      var i := TakenOutOfBoth(a, b);
      var rest := b[..i] + b[i + 1..];
      NewRowsPermute(e, a[1..], rest);
      assert a[..0] + a[1..] == a[1..];
      NewRowTakenOut(e, a, 0);
      NewRowTakenOut(e, b, i);
    }
  }

  lemma SameRows(e: map<string, Committer>, f: map<string, Committer>, ms: seq<Member>)
    requires forall m <- ms :: NewRow(f, m) == NewRow(e, m)
    ensures NewRows(f, ms) == NewRows(e, ms)
  {
    hide NewRow;
    forall i | 0 <= i < |ms| ensures NewRow(f, ms[i]) == NewRow(e, ms[i]) { assert ms[i] in ms; }
  }

  // Two rows with one key can come in either order

  lemma WithKeyFirst(cs: seq<Committer>, k: Key, lower: string -> string)
    requires cs != []
    ensures WithKey(cs, k, lower)
         == (if SortKey(cs[0], lower) == k then [cs[0]] else []) + WithKey(cs[1..], k, lower)
  {
  }

  lemma WithKeyNone(k: Key, lower: string -> string)
    ensures WithKey([], k, lower) == []
  {
  }

  lemma {:induction false} WithKeyAppend(a: seq<Committer>, b: seq<Committer>, k: Key, lower: string -> string)
    ensures WithKey(a + b, k, lower) == WithKey(a, k, lower) + WithKey(b, k, lower)
  {
    hide SortKey, WithKey;
    if a == [] {
      assert a + b == b && [] + WithKey(b, k, lower) == WithKey(b, k, lower);
      WithKeyNone(k, lower);
    } else {
      WithKeyFirst(a, k, lower);
      WithKeyFirst(a + b, k, lower);
      assert (a + b)[1..] == a[1..] + b;
      WithKeyAppend(a[1..], b, k, lower);
      var head := if SortKey(a[0], lower) == k then [a[0]] else [];
      var x, y := WithKey(a[1..], k, lower), WithKey(b, k, lower);
      assert head + (x + y) == head + x + y;
    }
  }

  /** Sequences that agree up to `i` and have different rows with one key there sort differently. */
  lemma SortedDiffer(a: seq<Committer>, b: seq<Committer>, i: nat, lower: string -> string)
    requires i < |a| && i < |b| && a[..i] == b[..i] && a[i] != b[i] && SortKey(a[i], lower) == SortKey(b[i], lower)
    ensures SortCommitters(a, lower) != SortCommitters(b, lower)
  {
    hide SortKey, SortCommitters, InOrder, WithKey;
    var k := SortKey(a[i], lower);
    SortIsStable(a, lower);
    SortIsStable(b, lower);
    WithKeyAt(a, i, k, lower);
    WithKeyAt(b, i, k, lower);
    assert WithKey(a, k, lower) != WithKey(b, k, lower);
  }

  lemma WithKeyAt(a: seq<Committer>, i: nat, k: Key, lower: string -> string)
    requires i < |a| && SortKey(a[i], lower) == k
    ensures var n := |WithKey(a[..i], k, lower)|; n < |WithKey(a, k, lower)| && WithKey(a, k, lower)[n] == a[i]
  {
    assert a == a[..i] + a[i..];
    WithKeyAppend(a[..i], a[i..], k, lower);
  }

  function Swapped<T>(s: seq<T>, i: nat, j: nat): seq<T>
    requires i < |s| && j < |s|
  {
    s[i := s[j]][j := s[i]]
  }

  /** The rows are in the same order whatever the order of the roster, exactly when no two of them
      share a sort key. */
  lemma OrderDoesNotMatter(e: map<string, Committer>, f: map<string, Committer>, ms: seq<Member>,
                           lower: string -> string)
    requires forall m <- ms :: NewRow(f, m) == NewRow(e, m)
    ensures var rows := SortCommitters(NewRows(e, ms), lower);
            (forall other :: multiset(other) == multiset(ms) ==> SortCommitters(NewRows(f, other), lower) == rows)
            <==> KeysTell(rows, lower)
  {
    hide SortKey, SortCommitters, NewRow, NewRows, KeysTell;
    var rows := SortCommitters(NewRows(e, ms), lower);
    if KeysTell(rows, lower) {
      forall other | multiset(other) == multiset(ms) ensures SortCommitters(NewRows(f, other), lower) == rows {
        StaysInOrder(e, f, ms, other, lower);
      }
    } else {
      var other := OtherOrder(e, ms, lower);
      SameMembers(other, ms);
      SameRows(e, f, other);
    }
  }

  lemma SwappedPermutes<T>(s: seq<T>, i: nat, j: nat)
    requires i < j < |s|
    ensures multiset(Swapped(s, i, j)) == multiset(s)
  {
  }

  /** Two of the members have different rows that share a key. */
  lemma TwoThatShare(e: map<string, Committer>, ms: seq<Member>, lower: string -> string) returns (k: nat, l: nat)
    requires !KeysTell(NewRows(e, ms), lower)
    ensures k < l < |ms| && NewRow(e, ms[k]) != NewRow(e, ms[l])
    ensures SortKey(NewRow(e, ms[k]), lower) == SortKey(NewRow(e, ms[l]), lower)
  {
    hide SortKey, NewRow, NewRows;
    var rows := NewRows(e, ms);
    var c, d :| c in rows && d in rows && SortKey(c, lower) == SortKey(d, lower) && c != d;
    var x: nat :| x < |rows| && rows[x] == c;
    var y: nat :| y < |rows| && rows[y] == d;
    k, l := if x < y then x else y, if x < y then y else x;
  }

  lemma KeysTellSorted(rows: seq<Committer>, lower: string -> string)
    ensures KeysTell(SortCommitters(rows, lower), lower) <==> KeysTell(rows, lower)
  {
    hide SortKey, SortCommitters, InOrder, WithKey;
    SortIsStable(rows, lower);
    SameMembers(SortCommitters(rows, lower), rows);
  }

  /** An order of the roster in which the rows sort differently. */
  lemma OtherOrder(e: map<string, Committer>, ms: seq<Member>, lower: string -> string) returns (other: seq<Member>)
    requires !KeysTell(SortCommitters(NewRows(e, ms), lower), lower)
    ensures multiset(other) == multiset(ms)
    ensures SortCommitters(NewRows(e, other), lower) != SortCommitters(NewRows(e, ms), lower)
  {
    hide SortKey, SortCommitters, NewRow, KeysTell;
    KeysTellSorted(NewRows(e, ms), lower);
    var i, j := TwoThatShare(e, ms, lower);
    other := Swapped(ms, i, j);
    SwappedPermutes(ms, i, j);
    var a, b := NewRows(e, ms), NewRows(e, other);
    assert a[..i] == b[..i];
    SortedDiffer(a, b, i, lower);
  }

  lemma StaysInOrder(e: map<string, Committer>, f: map<string, Committer>, ms: seq<Member>, other: seq<Member>,
                     lower: string -> string)
    requires multiset(other) == multiset(ms) && forall m <- ms :: NewRow(f, m) == NewRow(e, m)
    requires KeysTell(SortCommitters(NewRows(e, ms), lower), lower)
    ensures SortCommitters(NewRows(f, other), lower) == SortCommitters(NewRows(e, ms), lower)
  {
    hide SortCommitters, NewRow, NewRows, KeysTell, InOrder, WithKey;
    SameMembers(other, ms);
    SameRows(e, f, other);
    NewRowsPermute(e, other, ms);
    SortIsStable(NewRows(e, ms), lower);
    SortIsStable(NewRows(e, other), lower);
    OrderIsUnique(SortCommitters(NewRows(e, ms), lower), SortCommitters(NewRows(e, other), lower), lower);
  }
}
