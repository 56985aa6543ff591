/** The orders in which the script can draw the roster: two dictionaries made from sets, the PMC first
    (docs/scripts/update_committer_list.py). */
module RosterGroups {
  import opened Text
  import opened Committers
  import opened Roster
  import opened RosterOrder

  // A stable sort is determined by the rows of each key, in their order

  lemma {:induction false} WithKeyIn(cs: seq<Committer>, k: Key, lower: string -> string, c: Committer)
    ensures c in WithKey(cs, k, lower) <==> c in cs && SortKey(c, lower) == k
  {
    hide SortKey;
    if cs == [] {
    } else {
      WithKeyIn(cs[1..], k, lower, c);
      assert cs == [cs[0]] + cs[1..];
    }
  }

  lemma FirstWithKey(cs: seq<Committer>, lower: string -> string)
    requires cs != []
    ensures WithKey(cs, SortKey(cs[0], lower), lower) != [] && WithKey(cs, SortKey(cs[0], lower), lower)[0] == cs[0]
  {
    hide SortKey;
  }

  /** The first rows of two such sequences are the same. */
  lemma SameFirstByKeys(a: seq<Committer>, b: seq<Committer>, lower: string -> string)
    requires InOrder(a, lower) && InOrder(b, lower) && a != []
    requires forall k :: WithKey(a, k, lower) == WithKey(b, k, lower)
    ensures b != [] && a[0] == b[0]
  {
    hide SortKey, InOrder, WithKey, KeyLe;
    var k := SortKey(a[0], lower);
    FirstWithKey(a, lower);
    assert a[0] in WithKey(b, k, lower);
    WithKeyIn(b, k, lower, a[0]);
    var l := SortKey(b[0], lower);
    FirstWithKey(b, lower);
    assert b[0] in WithKey(a, l, lower);
    WithKeyIn(a, l, lower, b[0]);
    FirstIsLeast(a, b[0], lower);
    FirstIsLeast(b, a[0], lower);
    KeyLeAntisymmetric(k, l);
  }

  lemma RestWithKey(a: seq<Committer>, b: seq<Committer>, k: Key, lower: string -> string)
    requires a != [] && b != [] && a[0] == b[0] && WithKey(a, k, lower) == WithKey(b, k, lower)
    ensures WithKey(a[1..], k, lower) == WithKey(b[1..], k, lower)
  {
    hide SortKey, WithKey;
    WithKeyFirst(a, k, lower);
    WithKeyFirst(b, k, lower);
    var head := if SortKey(a[0], lower) == k then [a[0]] else [];
    var x, y := WithKey(a[1..], k, lower), WithKey(b[1..], k, lower);
    assert (head + x)[|head|..] == x && (head + y)[|head|..] == y;
  }

  lemma {:induction false} SameByKeys(a: seq<Committer>, b: seq<Committer>, lower: string -> string)
    requires InOrder(a, lower) && InOrder(b, lower)
    requires forall k :: WithKey(a, k, lower) == WithKey(b, k, lower)
    ensures a == b
  {
    hide SortKey, InOrder, WithKey;
    if a == [] {
      if b != [] { SameFirstByKeys(b, a, lower); }
    } else {
      SameFirstByKeys(a, b, lower);
      RestInOrder(a, lower);
      RestInOrder(b, lower);
      forall k ensures WithKey(a[1..], k, lower) == WithKey(b[1..], k, lower) { RestWithKey(a, b, k, lower); }
      SameByKeys(a[1..], b[1..], lower);
      assert a == [a[0]] + a[1..] && b == [b[0]] + b[1..];
    }
  }

  lemma SortedByKeys(x: seq<Committer>, y: seq<Committer>, lower: string -> string)
    requires forall k :: WithKey(x, k, lower) == WithKey(y, k, lower)
    ensures SortCommitters(x, lower) == SortCommitters(y, lower)
  {
    hide InOrder, WithKey, SortCommitters;
    SortIsStable(x, lower);
    SortIsStable(y, lower);
    SameByKeys(SortCommitters(x, lower), SortCommitters(y, lower), lower);
  }

  /** Rows of the same sorted order have the same rows of each key. */
  lemma SameWithKeys(x: seq<Committer>, y: seq<Committer>, k: Key, lower: string -> string)
    requires SortCommitters(x, lower) == SortCommitters(y, lower)
    ensures WithKey(x, k, lower) == WithKey(y, k, lower)
  {
    hide InOrder, WithKey, SortCommitters;
    SortIsStable(x, lower);
    SortIsStable(y, lower);
  }

  // Dictionaries in another order

  lemma {:induction false} NameOfFirst(people: seq<Person>, id: string) returns (p: Person)
    requires NameOf(people, id).Some?
    ensures p in people && p.id == id && NameOf(people, id) == Some(p.name)
  {
    if people[0].id == id {
      p := people[0];
    } else {
      p := NameOfFirst(people[1..], id);
    }
  }

  lemma {:induction false} NameOfMember(people: seq<Person>, p: Person)
    requires Dictionary(people) && p in people
    ensures NameOf(people, p.id) == Some(p.name)
  {
    if people[0].id == p.id {
      var i :| 0 <= i < |people| && people[i] == p;
      assert i == 0;
    } else {
      NameOfMember(people[1..], p);
    }
  }

  lemma SameNames(a: seq<Person>, b: seq<Person>, id: string)
    requires Dictionary(a) && multiset(a) == multiset(b)
    ensures NameOf(a, id) == NameOf(b, id)
  {
    hide NameOf;
    SameMembers(a, b);
    NameOfIs(a, id);
    NameOfIs(b, id);
    assert Ids(a) == Ids(b);
    if NameOf(b, id).Some? {
      var p := NameOfFirst(b, id);
      NameOfMember(a, p);
    }
  }

  // Both groups are made person by person

  function FlatMap(ps: seq<Person>, f: Person -> seq<Member>): seq<Member> {
    if ps == [] then [] else f(ps[0]) + FlatMap(ps[1..], f)
  }

  function PmcEntry(committers: seq<Person>): Person -> seq<Member> {
    (p: Person) => var n := NameOf(committers, p.id); [Member(p.id, if n.Some? then n.value else p.name, true)]
  }

  function OtherEntry(pmcs: seq<Person>): Person -> seq<Member> {
    (p: Person) => if NameOf(pmcs, p.id).Some? then [] else [Member(p.id, p.name, false)]
  }

  lemma {:induction false} PmcByPerson(pmcs: seq<Person>, committers: seq<Person>)
    ensures PmcMembers(pmcs, committers) == FlatMap(pmcs, PmcEntry(committers))
  {
    hide NameOf;
    if pmcs == [] {
    } else {
      PmcByPerson(pmcs[1..], committers);
    }
  }

  lemma {:induction false} OtherByPerson(pmcs: seq<Person>, committers: seq<Person>)
    ensures OtherMembers(pmcs, committers) == FlatMap(committers, OtherEntry(pmcs))
  {
    hide NameOf;
    if committers == [] {
    } else {
      OtherByPerson(pmcs, committers[1..]);
    }
  }

  lemma {:induction false} SameFlatMap(ps: seq<Person>, f: Person -> seq<Member>, g: Person -> seq<Member>)
    requires forall p :: f(p) == g(p)
    ensures FlatMap(ps, f) == FlatMap(ps, g)
  {
    if ps == [] {
    } else {
      SameFlatMap(ps[1..], f, g);
    }
  }

  lemma NoPeople(f: Person -> seq<Member>)
    ensures FlatMap([], f) == []
  {
  }

  lemma FirstPerson(ps: seq<Person>, f: Person -> seq<Member>)
    requires ps != []
    ensures FlatMap(ps, f) == f(ps[0]) + FlatMap(ps[1..], f)
  {
  }

  lemma {:induction false} FlatMapAppend(a: seq<Person>, b: seq<Person>, f: Person -> seq<Member>)
    ensures FlatMap(a + b, f) == FlatMap(a, f) + FlatMap(b, f)
  {
    hide FlatMap;
    if a == [] {
      NoPeople(f);
      assert a + b == b && [] + FlatMap(b, f) == FlatMap(b, f);
    } else {
      FlatMapAppend(a[1..], b, f);
      FirstPerson(a, f);
      FirstPerson(a + b, f);
      assert (a + b)[1..] == a[1..] + b;
      Regroup(f(a[0]), FlatMap(a[1..], f), FlatMap(b, f));
    }
  }

  /** What one person gives stands behind what those before give. */
  lemma FlatMapAt(ps: seq<Person>, f: Person -> seq<Member>, u: nat)
    requires u < |ps|
    ensures FlatMap(ps, f) == FlatMap(ps[..u], f) + f(ps[u]) + FlatMap(ps[u + 1..], f)
  {
    hide FlatMap;
    FlatMapAppend(ps[..u], ps[u..], f);
    assert ps == ps[..u] + ps[u..] && ps[u..][0] == ps[u] && ps[u..][1..] == ps[u + 1..];
    FirstPerson(ps[u..], f);
    Regroup(FlatMap(ps[..u], f), f(ps[u]), FlatMap(ps[u + 1..], f));
  }

  function Bag(ps: seq<Person>, f: Person -> seq<Member>): multiset<Member> {
    multiset(FlatMap(ps, f))
  }

  lemma BagTakenOut(ps: seq<Person>, f: Person -> seq<Member>, i: nat)
    requires i < |ps|
    ensures Bag(ps, f) == Bag(ps[..i] + ps[i + 1..], f) + multiset(f(ps[i]))
  {
    hide FlatMap;
    FlatMapAt(ps, f, i);
    FlatMapAppend(ps[..i], ps[i + 1..], f);
  }

  lemma {:induction false} BagPermutes(a: seq<Person>, b: seq<Person>, f: Person -> seq<Member>)
    requires multiset(a) == multiset(b)
    ensures Bag(a, f) == Bag(b, f)
  {
    hide Bag;
    if a == [] {
      SameMembers(a, b);
      assert b == [];
    } else {
      var i := TakenOutOfBoth(a, b);
      BagPermutes(a[1..], b[..i] + b[i + 1..], f);
      assert a[..0] + a[1..] == a[1..];
      BagTakenOut(a, f, 0);
      BagTakenOut(b, f, i);
    }
  }

  /** The groups of permuted dictionaries are the same members in another order. */
  lemma GroupsPermute(pmcs: seq<Person>, committers: seq<Person>, p: seq<Person>, c: seq<Person>)
    requires Dictionary(pmcs) && Dictionary(committers)
    requires multiset(p) == multiset(pmcs) && multiset(c) == multiset(committers)
    ensures multiset(PmcMembers(p, c)) == multiset(PmcMembers(pmcs, committers))
    ensures multiset(OtherMembers(p, c)) == multiset(OtherMembers(pmcs, committers))
  {
    hide NameOf, FlatMap;
    PmcByPerson(p, c);
    PmcByPerson(pmcs, committers);
    forall x ensures PmcEntry(c)(x) == PmcEntry(committers)(x) { SameNames(committers, c, x.id); }
    SameFlatMap(p, PmcEntry(c), PmcEntry(committers));
    BagPermutes(p, pmcs, PmcEntry(committers));
    OtherByPerson(p, c);
    OtherByPerson(pmcs, committers);
    forall x ensures OtherEntry(p)(x) == OtherEntry(pmcs)(x) { SameNames(pmcs, p, x.id); }
    SameFlatMap(c, OtherEntry(p), OtherEntry(pmcs));
    BagPermutes(c, committers, OtherEntry(pmcs));
  }

  lemma MembersPermute(pmcs: seq<Person>, committers: seq<Person>, p: seq<Person>, c: seq<Person>)
    requires Dictionary(pmcs) && Dictionary(committers)
    requires multiset(p) == multiset(pmcs) && multiset(c) == multiset(committers)
    ensures multiset(Members(p, c)) == multiset(Members(pmcs, committers))
  {
    hide PmcMembers, OtherMembers;
    GroupsPermute(pmcs, committers, p, c);
  }

  // Two rows of one group that share a key can change places

  /** A function that gives at most one member for a person. */
  ghost predicate AtMostOne(f: Person -> seq<Member>) {
    forall p :: |f(p)| <= 1
  }

  /** The person that a member is made from. */
  lemma {:induction false} MadeFrom(ps: seq<Person>, f: Person -> seq<Member>, k: nat) returns (u: nat)
    requires AtMostOne(f) && k < |FlatMap(ps, f)|
    ensures u < |ps| && |FlatMap(ps[..u], f)| == k && f(ps[u]) == [FlatMap(ps, f)[k]]
    decreases |ps|
  {
    hide FlatMap, AtMostOne;
    if ps == [] { NoPeople(f); }
    var n := |ps| - 1;
    FlatMapAt(ps, f, n);
    NoPeople(f);
    assert ps[n + 1..] == [] && FlatMap(ps, f) == FlatMap(ps[..n], f) + f(ps[n]);
    if k < |FlatMap(ps[..n], f)| {
      u := MadeFrom(ps[..n], f, k);
      assert ps[..n][..u] == ps[..u];
    } else {
      u := n;
      AtMostOneIs(f, ps[n]);
    }
  }

  lemma AtMostOneIs(f: Person -> seq<Member>, p: Person)
    requires AtMostOne(f)
    ensures |f(p)| <= 1
  {
  }

  lemma PrefixGrows(ps: seq<Person>, f: Person -> seq<Member>, u: nat, v: nat)
    requires u <= v <= |ps|
    ensures |FlatMap(ps[..u], f)| <= |FlatMap(ps[..v], f)|
  {
    FlatMapAppend(ps[..u], ps[u..v], f);
    assert ps[..v] == ps[..u] + ps[u..v];
  }

  /** Another order of the people that puts member `l` where member `k` was, behind the same ones. */
  lemma OtherMemberFirst(ps: seq<Person>, f: Person -> seq<Member>, k: nat, l: nat) returns (qs: seq<Person>)
    requires AtMostOne(f) && k < l < |FlatMap(ps, f)|
    ensures multiset(qs) == multiset(ps) && k < |FlatMap(qs, f)|
    ensures FlatMap(qs, f)[..k] == FlatMap(ps, f)[..k] && FlatMap(qs, f)[k] == FlatMap(ps, f)[l]
  {
    hide FlatMap, AtMostOne;
    var u := MadeFrom(ps, f, k);
    var v := MadeFrom(ps, f, l);
    if v <= u { PrefixGrows(ps, f, v, u); }
    qs := Swapped(ps, u, v);
    SwappedPermutes(ps, u, v);
    FlatMapAt(ps, f, u);
    FlatMapAt(qs, f, u);
    assert qs[..u] == ps[..u] && qs[u] == ps[v];
  }

  lemma RowsUpTo(e: map<string, Committer>, ms: seq<Member>, k: nat)
    requires k <= |ms|
    ensures NewRows(e, ms)[..k] == NewRows(e, ms[..k])
  {
    hide NewRow;
  }

  /** Members that agree up to `k` and have different rows of one key there make different tables. */
  lemma MembersSortDifferently(e: map<string, Committer>, a: seq<Member>, b: seq<Member>, k: nat,
                               lower: string -> string)
    requires k < |a| && k < |b| && a[..k] == b[..k] && NewRow(e, a[k]) != NewRow(e, b[k])
    requires SortKey(NewRow(e, a[k]), lower) == SortKey(NewRow(e, b[k]), lower)
    ensures SortCommitters(NewRows(e, a), lower) != SortCommitters(NewRows(e, b), lower)
  {
    hide SortKey, NewRow, NewRows, SortCommitters;
    RowsUpTo(e, a, k);
    RowsUpTo(e, b, k);
    SortedDiffer(NewRows(e, a), NewRows(e, b), k, lower);
  }

  /** No two rows of the PMC and no two other rows share a sort key. */
  ghost predicate KeysTellInGroups(e: map<string, Committer>, pmcs: seq<Person>, committers: seq<Person>,
                                   lower: string -> string) {
    && KeysTell(NewRows(e, PmcMembers(pmcs, committers)), lower)
    && KeysTell(NewRows(e, OtherMembers(pmcs, committers)), lower)
  }

  lemma PmcInOtherOrder(e: map<string, Committer>, pmcs: seq<Person>, committers: seq<Person>, lower: string -> string)
    returns (p: seq<Person>)
    requires !KeysTell(NewRows(e, PmcMembers(pmcs, committers)), lower)
    ensures multiset(p) == multiset(pmcs)
    ensures SortCommitters(NewRows(e, Members(p, committers)), lower)
         != SortCommitters(NewRows(e, Members(pmcs, committers)), lower)
  {
    hide SortKey, SortCommitters, NewRow, NewRows, KeysTell, PmcMembers, OtherMembers, FlatMap, NameOf;
    var f := PmcEntry(committers);
    PmcByPerson(pmcs, committers);
    var k, l := TwoThatShare(e, PmcMembers(pmcs, committers), lower);
    p := OtherMemberFirst(pmcs, f, k, l);
    PmcByPerson(p, committers);
    var a, b := Members(p, committers), Members(pmcs, committers);
    assert a[..k] == FlatMap(p, f)[..k] && b[..k] == FlatMap(pmcs, f)[..k];
    MembersSortDifferently(e, a, b, k, lower);
  }

  lemma OthersInOtherOrder(e: map<string, Committer>, pmcs: seq<Person>, committers: seq<Person>,
                           lower: string -> string)
    returns (c: seq<Person>)
    requires Dictionary(committers) && !KeysTell(NewRows(e, OtherMembers(pmcs, committers)), lower)
    ensures multiset(c) == multiset(committers)
    ensures SortCommitters(NewRows(e, Members(pmcs, c)), lower)
         != SortCommitters(NewRows(e, Members(pmcs, committers)), lower)
  {
    hide SortKey, SortCommitters, NewRow, NewRows, KeysTell, PmcMembers, OtherMembers, FlatMap, NameOf;
    var f := OtherEntry(pmcs);
    OtherByPerson(pmcs, committers);
    var k, l := TwoThatShare(e, OtherMembers(pmcs, committers), lower);
    c := OtherMemberFirst(committers, f, k, l);
    OtherByPerson(pmcs, c);
    SamePmc(pmcs, committers, c);
    var head := PmcMembers(pmcs, committers);
    var a, b := Members(pmcs, c), Members(pmcs, committers);
    SamePrefix(head, FlatMap(c, f), FlatMap(committers, f), k);
    MembersSortDifferently(e, a, b, |head| + k, lower);
  }

  lemma SamePrefix(head: seq<Member>, x: seq<Member>, y: seq<Member>, k: nat)
    requires k <= |x| && k <= |y| && x[..k] == y[..k]
    ensures (head + x)[..|head| + k] == (head + y)[..|head| + k]
  {
    assert (head + x)[..|head| + k] == head + x[..k];
    assert (head + y)[..|head| + k] == head + y[..k];
  }

  /** The PMC entries do not depend on the order of the committers. */
  lemma SamePmc(pmcs: seq<Person>, committers: seq<Person>, c: seq<Person>)
    requires Dictionary(committers) && multiset(c) == multiset(committers)
    ensures PmcMembers(pmcs, c) == PmcMembers(pmcs, committers)
  {
    hide NameOf, FlatMap;
    PmcByPerson(pmcs, c);
    PmcByPerson(pmcs, committers);
    forall x ensures PmcEntry(c)(x) == PmcEntry(committers)(x) { SameNames(committers, c, x.id); }
    SameFlatMap(pmcs, PmcEntry(c), PmcEntry(committers));
  }

  /** A group in another order has the same rows of each key. */
  lemma GroupKeepsKeys(e: map<string, Committer>, a: seq<Member>, b: seq<Member>, k: Key, lower: string -> string)
    requires multiset(b) == multiset(a) && KeysTell(NewRows(e, a), lower)
    ensures WithKey(NewRows(e, b), k, lower) == WithKey(NewRows(e, a), k, lower)
  {
    hide SortCommitters, NewRow, NewRows, KeysTell, WithKey;
    KeysTellSorted(NewRows(e, a), lower);
    StaysInOrder(e, e, a, b, lower);
    SameWithKeys(NewRows(e, b), NewRows(e, a), k, lower);
  }

  lemma {:induction false} NewRowsAppend(e: map<string, Committer>, a: seq<Member>, b: seq<Member>)
    ensures NewRows(e, a + b) == NewRows(e, a) + NewRows(e, b)
  {
    hide NewRow;
  }

  lemma GroupsStayInOrder(e: map<string, Committer>, pmcs: seq<Person>, committers: seq<Person>, p: seq<Person>,
                          c: seq<Person>, lower: string -> string)
    requires Dictionary(pmcs) && Dictionary(committers) && KeysTellInGroups(e, pmcs, committers, lower)
    requires multiset(p) == multiset(pmcs) && multiset(c) == multiset(committers)
    ensures SortCommitters(NewRows(e, Members(p, c)), lower)
         == SortCommitters(NewRows(e, Members(pmcs, committers)), lower)
  {
    hide SortCommitters, NewRow, NewRows, KeysTell, WithKey, PmcMembers, OtherMembers;
    GroupsPermute(pmcs, committers, p, c);
    var x, y := PmcMembers(p, c), OtherMembers(p, c);
    var u, v := PmcMembers(pmcs, committers), OtherMembers(pmcs, committers);
    NewRowsAppend(e, x, y);
    NewRowsAppend(e, u, v);
    forall k ensures WithKey(NewRows(e, x + y), k, lower) == WithKey(NewRows(e, u + v), k, lower) {
      WithKeyAppend(NewRows(e, x), NewRows(e, y), k, lower);
      WithKeyAppend(NewRows(e, u), NewRows(e, v), k, lower);
      GroupKeepsKeys(e, u, x, k, lower);
      GroupKeepsKeys(e, v, y, k, lower);
    }
    SortedByKeys(NewRows(e, x + y), NewRows(e, u + v), lower);
  }

  /** Whatever the order of the two dictionaries, the rows are in the same order, exactly when no two
      rows of the PMC and no two other rows share a sort key. */
  lemma DictionaryOrderDoesNotMatter(e: map<string, Committer>, pmcs: seq<Person>, committers: seq<Person>,
                                     lower: string -> string)
    requires Dictionary(pmcs) && Dictionary(committers)
    ensures (forall p, c :: multiset(p) == multiset(pmcs) && multiset(c) == multiset(committers) ==>
               SortCommitters(NewRows(e, Members(p, c)), lower)
               == SortCommitters(NewRows(e, Members(pmcs, committers)), lower))
            <==> KeysTellInGroups(e, pmcs, committers, lower)
  {
    hide SortCommitters, NewRow, NewRows, KeysTell, PmcMembers, OtherMembers, Members;
    if !KeysTell(NewRows(e, PmcMembers(pmcs, committers)), lower) {
      var p := PmcInOtherOrder(e, pmcs, committers, lower);
    } else if !KeysTell(NewRows(e, OtherMembers(pmcs, committers)), lower) {
      var c := OthersInOtherOrder(e, pmcs, committers, lower);
    } else {
      forall p, c | multiset(p) == multiset(pmcs) && multiset(c) == multiset(committers)
        ensures SortCommitters(NewRows(e, Members(p, c)), lower)
             == SortCommitters(NewRows(e, Members(pmcs, committers)), lower)
      {
        GroupsStayInOrder(e, pmcs, committers, p, c, lower);
      }
    }
  }
}
