/** Merging the committer table with the roster of the project, and sorting it
    (docs/scripts/update_committer_list.py). */
module Roster {
  import opened Text
  import opened Committers
  import StringOrder

  /** An entry of one of the roster's two dictionaries, in insertion order. */
  datatype Person = Person(id: string, name: string)

  /** An entry of the merged dictionary, and whether its id is a PMC id. */
  datatype Member = Member(id: string, name: string, pmc: bool)

  function NameOf(people: seq<Person>, id: string): Option<string> {
    if people == [] then None
    else if people[0].id == id then Some(people[0].name)
    else NameOf(people[1..], id)
  }

  /** The PMC entries of `{**pmcs, **committers}`: a committer's name replaces the PMC's. */
  function PmcMembers(pmcs: seq<Person>, committers: seq<Person>): seq<Member> {
    if pmcs == [] then []
    else
      var p := pmcs[0];
      var n := NameOf(committers, p.id);
      [Member(p.id, if n.Some? then n.value else p.name, true)] + PmcMembers(pmcs[1..], committers)
  }

  /** Its other entries: the committers whose ids are no PMC ids. */
  function OtherMembers(pmcs: seq<Person>, committers: seq<Person>): seq<Member> {
    if committers == [] then []
    else
      (if NameOf(pmcs, committers[0].id).Some? then []
       else [Member(committers[0].id, committers[0].name, false)])
      + OtherMembers(pmcs, committers[1..])
  }

  function Members(pmcs: seq<Person>, committers: seq<Person>): seq<Member> {
    PmcMembers(pmcs, committers) + OtherMembers(pmcs, committers)
  }

  /** The rows of the table by Apache id; a later row replaces an earlier one. */
  function ByApache(cs: seq<Committer>): map<string, Committer> {
    if cs == [] then map[] else ByApache(cs[..|cs| - 1])[cs[|cs| - 1].apache := cs[|cs| - 1]]
  }

  /** The new row of a member: a known row keeps its details and the chair keeps the role. */
  function NewRow(existing: map<string, Committer>, m: Member): Committer {
    var role := if m.pmc then "PMC" else "Committer";
    if m.id in existing then
      var e := existing[m.id];
      Committer(e.name, m.id, e.github, e.affiliation, if e.role == "PMC Chair" then "PMC Chair" else role)
    else Committer(m.name, m.id, "", "", role)
  }

  function NewRows(existing: map<string, Committer>, ms: seq<Member>): (r: seq<Committer>)
    ensures |r| == |ms| && forall i :: 0 <= i < |ms| ==> r[i] == NewRow(existing, ms[i])
  {
    if ms == [] then [] else [NewRow(existing, ms[0])] + NewRows(existing, ms[1..])
  }

  /** The merge loop of `update_governance_file`. */
  method MergeRoster(existing: seq<Committer>, pmcs: seq<Person>, committers: seq<Person>)
    returns (updated: seq<Committer>)
    ensures updated == NewRows(ByApache(existing), Members(pmcs, committers))
  {
    hide Members, NewRow;
    var byApache := map[];
    for i := 0 to |existing|
      invariant byApache == ByApache(existing[..i])
    {
      assert existing[..i + 1][..i] == existing[..i];
      byApache := byApache[existing[i].apache := existing[i]];
    }
    assert existing[..|existing|] == existing;
    var members := Members(pmcs, committers);
    updated := [];
    for i := 0 to |members|
      invariant |updated| == i && forall j :: 0 <= j < i ==> updated[j] == NewRow(byApache, members[j])
    {
      updated := updated + [NewRow(byApache, members[i])];
    }
    assert updated == NewRows(byApache, members);
  }

  // Merging again

  predicate DistinctIds(ms: seq<Member>) {
    forall i, j :: 0 <= i < j < |ms| ==> ms[i].id != ms[j].id
  }

  /** Rows with the members' ids, in any order. */
  predicate Covers(cs: seq<Committer>, rows: seq<Committer>) {
    multiset(cs) == multiset(rows)
  }

  lemma {:induction false} ByApacheFinds(cs: seq<Committer>, c: Committer)
    requires c in cs && forall d :: d in cs && d.apache == c.apache ==> d == c
    ensures c.apache in ByApache(cs) && ByApache(cs)[c.apache] == c
  {
    var init, last := cs[..|cs| - 1], cs[|cs| - 1];
    assert cs == init + [last];
    if last.apache != c.apache {
      assert c in init;
      ByApacheFinds(init, c);
    }
  }

  lemma {:induction false} OnlyRowWithId(existing: map<string, Committer>, ms: seq<Member>, i: nat, d: Committer)
    requires DistinctIds(ms) && i < |ms| && d in NewRows(existing, ms) && d.apache == ms[i].id
    ensures d == NewRow(existing, ms[i])
  {
    hide NewRow;
    var news := NewRows(existing, ms);
    var j :| 0 <= j < |news| && news[j] == d;
    RowHasId(existing, ms[j]);
    assert ms[i].id == ms[j].id;
    assert i == j;
  }

  lemma RowIsFoundAgain(existing: map<string, Committer>, ms: seq<Member>, rows: seq<Committer>, i: nat)
    requires DistinctIds(ms) && Covers(rows, NewRows(existing, ms)) && i < |ms|
    ensures NewRow(ByApache(rows), ms[i]) == NewRow(existing, ms[i])
  {
    hide NewRow, ByApache, NewRows;
    var news := NewRows(existing, ms);
    var c := NewRow(existing, ms[i]);
    assert news[i] == c;
    assert c in multiset(news) && c in multiset(rows);
    RowHasId(existing, ms[i]);
    forall d | d in rows && d.apache == c.apache ensures d == c {
      assert d in multiset(rows) && d in multiset(news);
      OnlyRowWithId(existing, ms, i, d);
    }
    ByApacheFinds(rows, c);
    RowAgain(existing, ByApache(rows), ms[i]);
  }

  /** Merging the roster with the rows a merge has made, in whatever order, changes no row. */
  lemma MergeIsIdempotent(existing: map<string, Committer>, ms: seq<Member>, rows: seq<Committer>)
    requires DistinctIds(ms) && Covers(rows, NewRows(existing, ms))
    ensures NewRows(ByApache(rows), ms) == NewRows(existing, ms)
  {
    hide NewRow, ByApache, Covers;
    forall i | 0 <= i < |ms| ensures NewRow(ByApache(rows), ms[i]) == NewRow(existing, ms[i]) {
      RowIsFoundAgain(existing, ms, rows, i);
    }
  }

  lemma RowHasId(existing: map<string, Committer>, m: Member)
    ensures NewRow(existing, m).apache == m.id
  {}

  lemma RowAgain(existing: map<string, Committer>, again: map<string, Committer>, m: Member)
    requires m.id in again && again[m.id] == NewRow(existing, m)
    ensures NewRow(again, m) == NewRow(existing, m)
  {
    assert |"PMC"| != |"PMC Chair"| && |"Committer"| == |"PMC Chair"|;
    assert "Committer"[0] != "PMC Chair"[0];
  }

  // The roster's ids

  function Ids(people: seq<Person>): set<string> {
    set p | p in people :: p.id
  }

  predicate Dictionary(people: seq<Person>) {
    forall i, j :: 0 <= i < j < |people| ==> people[i].id != people[j].id
  }

  lemma {:induction false} NameOfIs(people: seq<Person>, id: string)
    ensures NameOf(people, id).Some? <==> id in Ids(people)
  {
    if people == [] {
    } else {
      NameOfIs(people[1..], id);
      assert people == [people[0]] + people[1..];
      if id in Ids(people[1..]) {
        var p :| p in people[1..] && p.id == id;
        assert p in people;
      }
    }
  }

  lemma {:induction false} PmcIds(pmcs: seq<Person>, committers: seq<Person>)
    ensures var ms := PmcMembers(pmcs, committers);
            |ms| == |pmcs| && forall i :: 0 <= i < |ms| ==> ms[i].id == pmcs[i].id && ms[i].pmc
  {
    if pmcs == [] {
    } else {
      PmcIds(pmcs[1..], committers);
    }
  }

  function MemberIds(ms: seq<Member>): set<string> {
    set m | m in ms :: m.id
  }

  lemma IdsCons(p: Person, rest: seq<Person>)
    ensures Ids([p] + rest) == {p.id} + Ids(rest)
  {
    assert forall x :: x in [p] + rest <==> x == p || x in rest;
    if Ids(rest) != {} {
      forall id | id in Ids(rest) ensures id in Ids([p] + rest) {
        var x :| x in rest && x.id == id;
        assert x in [p] + rest;
      }
    }
    assert p in [p] + rest;
  }

  lemma MemberIdsAppend(a: seq<Member>, b: seq<Member>)
    ensures MemberIds(a + b) == MemberIds(a) + MemberIds(b)
  {
    forall id | id in MemberIds(a) + MemberIds(b) ensures id in MemberIds(a + b) {
      var m :| (m in a || m in b) && m.id == id;
      assert m in a + b;
    }
  }

  lemma {:induction false} OtherIds(pmcs: seq<Person>, committers: seq<Person>)
    ensures MemberIds(OtherMembers(pmcs, committers)) == Ids(committers) - Ids(pmcs)
    ensures forall m :: m in OtherMembers(pmcs, committers) ==> !m.pmc
  {
    hide Ids, MemberIds, NameOf;
    if committers == [] {
      NoIds();
    } else {
      var c, rest := committers[0], committers[1..];
      assert committers == [c] + rest;
      IdsCons(c, rest);
      OtherIds(pmcs, rest);
      NameOfIs(pmcs, c.id);
      var one := if NameOf(pmcs, c.id).Some? then [] else [Member(c.id, c.name, false)];
      MemberIdsAppend(one, OtherMembers(pmcs, rest));
      OneId(one);
    }
  }

  lemma NoIds()
    ensures Ids([]) == {} && MemberIds([]) == {}
  {}

  lemma OneId(ms: seq<Member>)
    requires |ms| <= 1
    ensures MemberIds(ms) == if ms == [] then {} else {ms[0].id}
  {
    if ms != [] {
      assert ms[0] in ms;
    }
  }

  lemma DistinctCons(m: Member, ms: seq<Member>)
    requires DistinctIds(ms) && m.id !in MemberIds(ms)
    ensures DistinctIds([m] + ms)
  {
    var r := [m] + ms;
    forall i, j | 0 <= i < j < |r| ensures r[i].id != r[j].id {
      assert r[j] == ms[j - 1] && ms[j - 1] in ms;
      if i > 0 { assert r[i] == ms[i - 1]; }
    }
  }

  lemma {:induction false} OtherIdsDistinct(pmcs: seq<Person>, committers: seq<Person>)
    requires Dictionary(committers)
    ensures DistinctIds(OtherMembers(pmcs, committers))
  {
    if committers == [] {
    } else {
      hide NameOf, MemberIds;
      var c, rest := committers[0], committers[1..];
      OtherIdsDistinct(pmcs, rest);
      OtherIds(pmcs, rest);
      assert c.id !in Ids(rest) by {
        forall p | p in rest ensures p.id != c.id {
          var j :| 0 <= j < |rest| && rest[j] == p;
          assert committers[j + 1] == p;
        }
      }
      DistinctCons(Member(c.id, c.name, false), OtherMembers(pmcs, rest));
    }
  }

  lemma DistinctAppend(a: seq<Member>, b: seq<Member>)
    requires DistinctIds(a) && DistinctIds(b) && MemberIds(a) !! MemberIds(b)
    ensures DistinctIds(a + b)
  {
    var ms := a + b;
    forall i, j | 0 <= i < j < |ms| ensures ms[i].id != ms[j].id {
      if i < |a| && j >= |a| {
        assert ms[i] in a && ms[j] == b[j - |a|] && ms[j] in b;
        assert ms[i].id in MemberIds(a) && ms[j].id in MemberIds(b);
      } else if i >= |a| {
        assert ms[i] == b[i - |a|] && ms[j] == b[j - |a|];
      }
    }
  }

  lemma PmcIdSet(pmcs: seq<Person>, committers: seq<Person>)
    ensures MemberIds(PmcMembers(pmcs, committers)) == Ids(pmcs)
  {
    hide PmcMembers;
    var ms := PmcMembers(pmcs, committers);
    PmcIds(pmcs, committers);
    forall id | id in MemberIds(ms) ensures id in Ids(pmcs) {
      var i :| 0 <= i < |ms| && ms[i].id == id;
      assert pmcs[i] in pmcs;
    }
    forall id | id in Ids(pmcs) ensures id in MemberIds(ms) {
      var i :| 0 <= i < |pmcs| && pmcs[i].id == id;
      assert ms[i] in ms;
    }
  }

  /** The merged roster has every id of the two dictionaries once; PMC ids are marked as such. */
  lemma MembersAreTheRoster(pmcs: seq<Person>, committers: seq<Person>)
    requires Dictionary(pmcs) && Dictionary(committers)
    ensures var ms := Members(pmcs, committers);
            && DistinctIds(ms) && MemberIds(ms) == Ids(pmcs) + Ids(committers)
            && (forall m :: m in ms ==> (m.pmc <==> m.id in Ids(pmcs)))
  {
    hide PmcMembers, OtherMembers, Ids;
    var a, b := PmcMembers(pmcs, committers), OtherMembers(pmcs, committers);
    PmcIds(pmcs, committers);
    PmcIdSet(pmcs, committers);
    OtherIds(pmcs, committers);
    OtherIdsDistinct(pmcs, committers);
    DistinctAppend(a, b);
    MemberIdsAppend(a, b);
    forall m: Member | m in a + b ensures m.pmc <==> m.id in Ids(pmcs) {
      if m in a {
        assert m.id in MemberIds(a);
      } else {
        assert m.id in MemberIds(b);
      }
    }
  }

  // Sorting

  function RoleOrder(role: string): nat {
    if role == "PMC Chair" then 0 else if role == "PMC" then 1 else if role == "Committer" then 2 else 3
  }

  datatype Key = Key(order: nat, id: string)

  function SortKey(c: Committer, lower: string -> string): Key {
    Key(RoleOrder(c.role), lower(c.apache))
  }

  predicate KeyLe(a: Key, b: Key) {
    a.order < b.order || (a.order == b.order && StringOrder.Le(a.id, b.id))
  }

  /** `sorted` with the key of `sort_committers`: stable insertion from the right. */
  function SortCommitters(cs: seq<Committer>, lower: string -> string): seq<Committer> {
    if cs == [] then [] else Insert(cs[0], SortCommitters(cs[1..], lower), lower)
  }

  function Insert(c: Committer, cs: seq<Committer>, lower: string -> string): seq<Committer> {
    if cs == [] || KeyLe(SortKey(c, lower), SortKey(cs[0], lower)) then [c] + cs
    else [cs[0]] + Insert(c, cs[1..], lower)
  }

  ghost predicate InOrder(cs: seq<Committer>, lower: string -> string) {
    cs != [] ==>
      && (forall d :: d in cs[1..] ==> KeyLe(SortKey(cs[0], lower), SortKey(d, lower)))
      && InOrder(cs[1..], lower)
  }

  function WithKey(cs: seq<Committer>, k: Key, lower: string -> string): seq<Committer> {
    if cs == [] then []
    else (if SortKey(cs[0], lower) == k then [cs[0]] else []) + WithKey(cs[1..], k, lower)
  }

  lemma KeyLeTotal(a: Key, b: Key)
    ensures KeyLe(a, b) || KeyLe(b, a)
  {
    StringOrder.Total(a.id, b.id);
  }

  lemma KeyLeTransitive(a: Key, b: Key, c: Key)
    requires KeyLe(a, b) && KeyLe(b, c)
    ensures KeyLe(a, c)
  {
    if a.order == b.order == c.order { StringOrder.Transitive(a.id, b.id, c.id); }
  }

  lemma {:induction false} InsertPermutes(c: Committer, cs: seq<Committer>, lower: string -> string)
    ensures multiset(Insert(c, cs, lower)) == multiset{c} + multiset(cs)
  {
    hide KeyLe, SortKey;
    if !(cs == [] || KeyLe(SortKey(c, lower), SortKey(cs[0], lower))) {
      InsertPermutes(c, cs[1..], lower);
      assert cs == [cs[0]] + cs[1..];
    }
  }

  lemma {:induction false} InsertSorts(c: Committer, cs: seq<Committer>, lower: string -> string)
    requires InOrder(cs, lower)
    ensures InOrder(Insert(c, cs, lower), lower)
  {
    hide KeyLe, SortKey;
    var r := Insert(c, cs, lower);
    if cs == [] || KeyLe(SortKey(c, lower), SortKey(cs[0], lower)) {
      assert r[1..] == cs;
      forall d | d in cs ensures KeyLe(SortKey(c, lower), SortKey(d, lower)) {
        assert cs == [cs[0]] + cs[1..];
        if d in cs[1..] { KeyLeTransitive(SortKey(c, lower), SortKey(cs[0], lower), SortKey(d, lower)); }
      }
    } else {
      var rest := Insert(c, cs[1..], lower);
      InsertSorts(c, cs[1..], lower);
      InsertPermutes(c, cs[1..], lower);
      KeyLeTotal(SortKey(c, lower), SortKey(cs[0], lower));
      assert r[1..] == rest;
      forall d | d in rest ensures KeyLe(SortKey(cs[0], lower), SortKey(d, lower)) {
        assert d in multiset(rest);
      }
    }
  }

  lemma {:induction false} InsertIsStable(c: Committer, cs: seq<Committer>, lower: string -> string, k: Key)
    ensures WithKey(Insert(c, cs, lower), k, lower) == WithKey([c] + cs, k, lower)
  {
    hide SortKey;
    var r := Insert(c, cs, lower);
    assert ([c] + cs)[1..] == cs;
    if !(cs == [] || KeyLe(SortKey(c, lower), SortKey(cs[0], lower))) {
      InsertIsStable(c, cs[1..], lower, k);
      assert ([c] + cs[1..])[1..] == cs[1..];
      assert r[1..] == Insert(c, cs[1..], lower);
      SelfLe(SortKey(c, lower));
    }
  }

  lemma WithKeyCons(c: Committer, a: seq<Committer>, b: seq<Committer>, k: Key, lower: string -> string)
    requires WithKey(a, k, lower) == WithKey(b, k, lower)
    ensures WithKey([c] + a, k, lower) == WithKey([c] + b, k, lower)
  {
    assert ([c] + a)[1..] == a && ([c] + b)[1..] == b;
  }

  lemma SelfLe(k: Key)
    ensures KeyLe(k, k)
  {
    StringOrder.Total(k.id, k.id);
  }

  /** The sorted list is a permutation in key order that keeps rows with the same key in their order. */
  lemma {:induction false} SortIsStable(cs: seq<Committer>, lower: string -> string)
    ensures multiset(SortCommitters(cs, lower)) == multiset(cs)
    ensures InOrder(SortCommitters(cs, lower), lower)
    ensures forall k :: WithKey(SortCommitters(cs, lower), k, lower) == WithKey(cs, k, lower)
  {
    if cs == [] {
    } else {
      hide InOrder, SortKey, KeyLe, Insert, WithKey;
      var rest := SortCommitters(cs[1..], lower);
      SortIsStable(cs[1..], lower);
      InsertPermutes(cs[0], rest, lower);
      InsertSorts(cs[0], rest, lower);
      assert cs == [cs[0]] + cs[1..];
      forall k ensures WithKey(SortCommitters(cs, lower), k, lower) == WithKey(cs, k, lower) {
        InsertIsStable(cs[0], rest, lower, k);
        WithKeyCons(cs[0], rest, cs[1..], k, lower);
      }
    }
  }

  lemma {:induction false} OrderedAt(cs: seq<Committer>, lower: string -> string, i: nat, j: nat)
    requires InOrder(cs, lower) && i < j < |cs|
    ensures KeyLe(SortKey(cs[i], lower), SortKey(cs[j], lower))
  {
    hide KeyLe, SortKey;
    if i == 0 {
      assert cs[j] == cs[1..][j - 1];
    } else {
      OrderedAt(cs[1..], lower, i - 1, j - 1);
    }
  }

  /** `b` may stand behind `a`: the chair is before the rest of the PMC, which is before the committers,
      who are before all others; within a role the ids are in order. */
  predicate MayFollow(a: Committer, b: Committer, lower: string -> string) {
    && (b.role == "PMC Chair" ==> a.role == "PMC Chair")
    && (b.role == "PMC" ==> a.role == "PMC Chair" || a.role == "PMC")
    && (b.role == "Committer" ==> a.role == "PMC Chair" || a.role == "PMC" || a.role == "Committer")
    && (a.role == b.role ==> StringOrder.Le(lower(a.apache), lower(b.apache)))
  }

  /** The sorted rows are in the order of their roles, and then of their ids in lower case. */
  lemma SortedByRole(cs: seq<Committer>, lower: string -> string)
    ensures var r := SortCommitters(cs, lower); forall i, j :: 0 <= i < j < |r| ==> MayFollow(r[i], r[j], lower)
  {
    hide SortCommitters, InOrder, StringOrder.Le;
    var r := SortCommitters(cs, lower);
    SortIsStable(cs, lower);
    forall i, j | 0 <= i < j < |r| ensures MayFollow(r[i], r[j], lower) { OrderedAt(r, lower, i, j); }
  }
}
