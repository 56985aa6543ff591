/** The counts that the tie breaker of the sort-preserving merge can have in a run, and what it
    chooses by them (datafusion/physical-plan/src/sorts/merge.rs). */
module TieBreakerRounds {
  import opened LoserTree
  import opened TieBreaker
  import opened SortPreservingMerge
  import opened TieBreakerRuns

  /** In a round a stream that was polled has no stream before it in its half with the key of the
      round. */
  ghost predicate PolledAreFirst(h: Heads, counts: seq<nat>, top: nat)
    requires |counts| == |h| >= 2 && top < |h|
  {
    forall s: nat, k: nat :: k < s < |h| && HalfOf(h, k) == HalfOf(h, s) && counts[s] > 0 ==> h[k] != h[top]
  }

  /** The leader of the half that `top` is not in has the key of `top`. */
  ghost predicate TiesAcross(h: Heads, top: nat)
    requires |h| >= 2 && top < |h|
  {
    forall b: nat :: b < |h| && Leads(h, 5 - HalfOf(h, top), b) ==> SameKey(h, top, b)
  }

  /** What holds whenever a row of `top` is taken. */
  ghost predicate RoundState(h: Heads, ties: Ties, top: nat) {
    && |ties.counts| == |h| >= 2 && top < |h|
    && Tied(h, top) && Leads(h, HalfOf(h, top), top)
    && (ties.roundRobin ==> TiesAcross(h, top) && PolledAreFirst(h, ties.counts, top))
  }

  /** The winner has moved on from `h` to `g`, and `a` and `b` lead the halves. */
  ghost predicate Step(h: Heads, g: Heads, top: nat, repeats: bool, a: nat, b: nat) {
    && |g| >= 2 && Moved(h, g, top) && (repeats <==> g[top] == h[top])
    && Leads(g, HalfOf(g, top), a) && Leads(g, 5 - HalfOf(g, top), b)
  }

  /** A stream that is polled again led its half. */
  lemma NoneBeforeTop(h: Heads, g: Heads, top: nat, repeats: bool, a: nat, b: nat, k: nat)
    requires |h| >= 2 && Step(h, g, top, repeats, a, b) && Tied(h, top) && Leads(h, HalfOf(h, top), top)
    requires k < top && HalfOf(h, k) == HalfOf(h, top)
    ensures g[k] == h[k] != h[top]
  {
    hide Half;
    assert StableLe(h, top, k);
  }

  /** A round has one key: the leader of the other half keeps it. */
  lemma RoundKeepsKey(h: Heads, g: Heads, top: nat, repeats: bool, a: nat, b: nat)
    requires |h| >= 2 && Step(h, g, top, repeats, a, b) && TiesAcross(h, top)
    ensures a < |g| && b < |g| && g[b] == h[b] == h[top]
  {
    hide Half;
    assert HalfOf(g, b) != HalfOf(g, top);
    assert b != top;
    forall k: nat | k < |h| && HalfOf(h, k) == 5 - HalfOf(h, top) ensures StableLe(h, b, k) {
      assert StableLe(g, b, k) && k != top;
    }
    assert Leads(h, 5 - HalfOf(h, top), b) && SameKey(h, top, b);
  }

  /** A leader that was not the last winner has not been polled in the round. */
  lemma NewLeaderIsUnpolled(h: Heads, g: Heads, ties: Ties, top: nat, repeats: bool, a: nat, b: nat)
    requires RoundState(h, ties, top) && Step(h, g, top, repeats, a, b)
    requires a < |g| && b < |g| && SameKey(g, a, b) && a != top
    ensures RoundCounts(ties)[a] == 0
  {
    hide Half;
    if ties.roundRobin {
      RoundKeepsKey(h, g, top, repeats, a, b);
      assert HalfOf(h, a) == HalfOf(h, top);
      assert StableLe(h, top, a);
    }
  }

  /** The counts after a tie. */
  lemma CountsAfterTie(h: Heads, g: Heads, ties: Ties, top: nat, repeats: bool, a: nat, b: nat)
    requires RoundState(h, ties, top) && Step(h, g, top, repeats, a, b)
    requires a < |g| && b < |g| && SameKey(g, a, b)
    ensures var (now, next) := Chosen(g, ties, top, repeats, a, b);
            now.roundRobin && PolledAreFirst(g, now.counts, next)
  {
    hide Half;
    var (now, next) := Chosen(g, ties, top, repeats, a, b);
    assert g[next] == g[b];
    if ties.roundRobin { RoundKeepsKey(h, g, top, repeats, a, b); }
    forall s: nat, k: nat | k < s < |g| && HalfOf(g, k) == HalfOf(g, s) && now.counts[s] > 0
      ensures g[k] != g[next]
    {
      assert HalfOf(h, k) == HalfOf(h, s);
      if s == top && a == top {
        assert repeats;
        NoneBeforeTop(h, g, top, repeats, a, b, k);
      } else {
        assert now.counts[s] == RoundCounts(ties)[s];
        assert ties.roundRobin && h[k] != h[top];
      }
    }
  }

  /** Every state of a run is followed by one of these. */
  lemma RoundGoesOn(h: Heads, g: Heads, ties: Ties, top: nat, repeats: bool, now: Ties, next: nat)
    requires RoundState(h, ties, top) && Moved(h, g, top) && (repeats <==> g[top] == h[top])
    requires Follows(g, ties, top, repeats, now, next) && next < |g| && g[next].Some?
    ensures RoundState(g, now, next)
  {
    hide Half, Chosen, Tied, Leads, PolledAreFirst, Follows;
    var a, b := LeadersOfChoice(g, ties, top, repeats, now, next);
    ChosenIs(g, ties, top, repeats, a, b);
    HalvesDiffer(g, top, a, b);
    ChosenIsTied(g, ties, top, repeats, a, b);
    if now.roundRobin {
      CountsAfterTie(h, g, ties, top, repeats, a, b);
      var other := if next == a then b else a;
      forall c: nat | c < |g| && Leads(g, 5 - HalfOf(g, next), c) ensures SameKey(g, next, c) {
        OneLeader(g, 5 - HalfOf(g, next), other, c);
      }
    }
  }

  lemma ChosenIs(h: Heads, ties: Ties, top: nat, repeats: bool, a: nat, b: nat)
    requires |ties.counts| == |h| && a < |h| && b < |h|
    ensures var r := Chosen(h, ties, top, repeats, a, b);
            (r.1 == a || r.1 == b) && (r.0.roundRobin <==> SameKey(h, a, b))
  {
  }

  lemma HalvesDiffer(h: Heads, top: nat, a: nat, b: nat)
    requires |h| >= 2 && Leads(h, HalfOf(h, top), a) && Leads(h, 5 - HalfOf(h, top), b)
    ensures HalfOf(h, a) == HalfOf(h, top) && HalfOf(h, b) == 5 - HalfOf(h, top)
  {
  }

  lemma OneLeader(h: Heads, c: nat, a: nat, b: nat)
    requires |h| >= 2 && Leads(h, c, a) && Leads(h, c, b) && h[a].Some?
    ensures a == b
  {
    hide HalfOf;
    assert StableLe(h, a, b) && StableLe(h, b, a);
  }

  lemma LeastStarts(h: Heads, ties: Ties)
    requires |ties.counts| == |h| >= 2 && !ties.roundRobin && h[Least(h)].Some?
    ensures RoundState(h, ties, Least(h))
  {
    hide Least, Half;
    forall k: nat | k < |h| ensures KeyLe(h, Least(h), k) { assert StableLe(h, Least(h), k); }
  }

  /** The states of a run. */
  lemma {:induction false} AlwaysRoundState(streams: Streams, out: seq<Row>, ties: seq<Ties>, j: nat)
    requires |streams| >= 2 && AllAscending(streams) && Interleaves(streams, out) && Turns(streams, out, ties)
    requires j < |out|
    ensures Positions(streams, Behind(streams, out[..j])) && |ties| == |out| && |ties[j].counts| == |streams|
    ensures RoundState(HeadsBefore(streams, out, j), ties[j], out[j].stream)
  {
    hide Least, Follows, HeadsAt, Behind, Interleaves, Turns, Repeats, AllAscending, Tied, Leads, TiesAcross;
    hide PolledAreFirst;
    if j == 0 {
      FirstTurn(streams, out, ties);
      assert out[..0] == [];
      HeadOfRow(streams, out, 0);
      LeastStarts(HeadsBefore(streams, out, 0), ties[0]);
    } else {
      AlwaysRoundState(streams, out, ties, j - 1);
      TurnAt(streams, out, ties, j);
      HeadOfRow(streams, out, j);
      HeadsMove(streams, out, j - 1);
      RoundGoesOn(HeadsBefore(streams, out, j - 1), HeadsBefore(streams, out, j), ties[j - 1], out[j - 1].stream,
                  Repeats(streams, out[j - 1]), ties[j], out[j].stream);
    }
  }

  /** A tied stream that does not lead its half has not been polled in the round. */
  lemma OthersAreUnpolled(h: Heads, ties: Ties, top: nat, c: nat, a: nat, s: nat)
    requires RoundState(h, ties, top) && ties.roundRobin
    requires Leads(h, c, a) && h[a] == h[top] && s < |h| && Tied(h, s) && HalfOf(h, s) == c && s != a
    ensures ties.counts[s] == 0
  {
    hide Half;
    assert KeyLe(h, s, top) && KeyLe(h, top, s);
    assert StableLe(h, a, s);
  }

  /** At every tie of a run only leaders of the halves have been polled, and of them not one that has
      just come to lead. So a stream polled least is chosen exactly when the chosen one has not been
      polled, or the last winner still leads and neither half holds two streams with the least key. */
  lemma TieInARun(streams: Streams, out: seq<Row>, ties: seq<Ties>, j: nat, a: nat, b: nat)
    requires |streams| >= 2 && AllAscending(streams) && Interleaves(streams, out) && Turns(streams, out, ties)
    requires 0 < j < |out| && Positions(streams, Behind(streams, out[..j]))
    requires var h, top := HeadsBefore(streams, out, j), out[j - 1].stream;
             Leads(h, HalfOf(h, top), a) && Leads(h, 5 - HalfOf(h, top), b) && SameKey(h, a, b)
    ensures var h, top, counts, next := HeadsBefore(streams, out, j), out[j - 1].stream, ties[j].counts, out[j].stream;
            && |counts| == |h| && (next == a || next == b)
            && (forall s: nat :: s < |h| && Tied(h, s) && s != a && s != b ==> counts[s] == 0)
            && (LeastPolled(h, counts, next) <==> counts[next] == 0 || (a == top && OneInEachHalf(h)))
            && (a != top ==> counts[a] == 0 && (LeastPolled(h, counts, next) <==> a < b || counts[b] == 0))
  {
    hide Least, Follows, HeadsAt, Behind, Interleaves, Turns, Repeats, AllAscending, RoundState, Half, Tied, Leads;
    hide Chosen, LeastPolled, OneInEachHalf;
    TurnAt(streams, out, ties, j);
    AlwaysRoundState(streams, out, ties, j - 1);
    AlwaysRoundState(streams, out, ties, j);
    HeadsMove(streams, out, j - 1);
    HeadOfRow(streams, out, j);
    var h, g := HeadsBefore(streams, out, j - 1), HeadsBefore(streams, out, j);
    var top, repeats := out[j - 1].stream, Repeats(streams, out[j - 1]);
    TieAfter(h, g, ties[j - 1], top, repeats, ties[j], out[j].stream, a, b);
  }

  /** The same for one step. */
  lemma TieAfter(h: Heads, g: Heads, ties: Ties, top: nat, repeats: bool, now: Ties, next: nat, a: nat, b: nat)
    requires RoundState(h, ties, top) && Step(h, g, top, repeats, a, b) && SameKey(g, a, b)
    requires Follows(g, ties, top, repeats, now, next) && next < |g| && RoundState(g, now, next)
    ensures next == a || next == b
    ensures forall s: nat :: s < |g| && Tied(g, s) && s != a && s != b ==> now.counts[s] == 0
    ensures LeastPolled(g, now.counts, next) <==> now.counts[next] == 0 || (a == top && OneInEachHalf(g))
    ensures a != top ==> now.counts[a] == 0 && (LeastPolled(g, now.counts, next) <==> a < b || now.counts[b] == 0)
  {
    hide Half, Leads, Follows, TiesAcross, PolledAreFirst, Chosen, Tied, LeastPolled, OneInEachHalf;
    var x, y := LeadersOfChoice(g, ties, top, repeats, now, next);
    OneLeader(g, HalfOf(g, top), a, x);
    OneLeader(g, 5 - HalfOf(g, top), b, y);
    HalvesDiffer(g, top, a, b);
    ChosenIsTied(g, ties, top, repeats, a, b);
    ChosenAtTie(g, ties, top, repeats, a, b);
    forall s: nat | s < |g| && Tied(g, s) && s != a && s != b ensures now.counts[s] == 0 {
      if HalfOf(g, s) == HalfOf(g, top) {
        OthersAreUnpolled(g, now, next, HalfOf(g, top), a, s);
      } else {
        OthersAreUnpolled(g, now, next, 5 - HalfOf(g, top), b, s);
      }
    }
    if a != top { NewLeaderIsUnpolled(h, g, ties, top, repeats, a, b); }
    LeastOfTied(g, now.counts, top, next, a, b);
  }

  lemma ChosenAtTie(h: Heads, ties: Ties, top: nat, repeats: bool, a: nat, b: nat)
    requires |ties.counts| == |h| && a < |h| && b < |h| && SameKey(h, a, b) && a != b
    ensures var (now, next) := Chosen(h, ties, top, repeats, a, b);
            && now.roundRobin
            && (a != top ==> now.counts == RoundCounts(ties) && next == if b < a then b else a)
            && (a == top ==> next == if PolledMore(now.counts, a, b) then b else a)
  {
  }

  lemma LeastOfTied(h: Heads, counts: seq<nat>, top: nat, next: nat, a: nat, b: nat)
    requires Leaders(h, top, a, b) && |counts| == |h| && a != b && Tied(h, a) && Tied(h, b)
    requires forall s: nat :: s < |h| && Tied(h, s) && s != a && s != b ==> counts[s] == 0
    requires if a == top then next == (if PolledMore(counts, a, b) then b else a)
             else counts[a] == 0 && next == if b < a then b else a
    ensures LeastPolled(h, counts, next) <==> counts[next] == 0 || (a == top && OneInEachHalf(h))
    ensures a != top ==> (LeastPolled(h, counts, next) <==> a < b || counts[b] == 0)
  {
    hide Half, Tied;
    if counts[next] > 0 {
      if a == top && !OneInEachHalf(h) {
        var q := OneDoesNotLead(h, top, a, b);
        assert counts[q] < counts[next];
      }
      if a == top && OneInEachHalf(h) {
        forall k: nat | k < |h| && Tied(h, k) ensures counts[next] <= counts[k] { OnlyLeaders(h, top, a, b, k); }
      }
    }
  }

  lemma OnlyLeaders(h: Heads, top: nat, a: nat, b: nat, k: nat)
    requires Leaders(h, top, a, b) && Tied(h, a) && Tied(h, b) && OneInEachHalf(h) && k < |h| && Tied(h, k)
    ensures k == a || k == b
  {
    hide Half, Tied;
  }
}
