/** The round-robin tie breaker of the sort-preserving merge
    (datafusion/physical-plan/src/sorts/merge.rs), without the tree and without the epochs that
    reset its counts. */
module TieBreaker {
  import opened LoserTree

  // The halves of the tree

  /** The child of the root that a node is below. */
  function Half(x: nat): (c: nat)
    requires x >= 2
    ensures 2 <= c <= 3
  {
    if x <= 3 then x else Half(x / 2)
  }

  lemma {:induction false} HalfIsBelow(c: nat, x: nat)
    requires 2 <= c <= 3 && x >= 2
    ensures Below(c, x) <==> Half(x) == c
    decreases x
  {
    if x <= 3 {
    } else {
      HalfIsBelow(c, x / 2);
    }
  }

  /** The half of stream `s` among several. */
  function HalfOf(h: Heads, s: nat): (c: nat)
    requires |h| >= 2
    ensures 2 <= c <= 3
  {
    Half(|h| + s)
  }

  /** The first of the least streams of a half. */
  ghost predicate Leads(h: Heads, c: nat, a: nat)
    requires |h| >= 2
  {
    && a < |h| && HalfOf(h, a) == c
    && forall k: nat :: k < |h| && HalfOf(h, k) == c ==> StableLe(h, a, k)
  }

  // The choice at the root

  /** Whether a round is going on, and how often each stream was polled in it. */
  datatype Ties = Ties(roundRobin: bool, counts: seq<nat>)

  /** The counts that a tie starts from: zero in a new round. */
  function RoundCounts(ties: Ties): (counts: seq<nat>)
    ensures |counts| == |ties.counts|
  {
    if ties.roundRobin then ties.counts else seq(|ties.counts|, _ => 0)
  }

  predicate PolledMore(counts: seq<nat>, a: nat, b: nat)
    requires a < |counts| && b < |counts|
  {
    counts[a] > counts[b] || (counts[a] == counts[b] && a > b)
  }

  /** A tie of `winner` and `challenger` when `top` won last; `repeats` says that its new row has the
      key of its last one. The challenger wins if the second result is true. */
  function Tie(ties: Ties, top: nat, repeats: bool, winner: nat, challenger: nat): (Ties, bool)
    requires winner < |ties.counts| && challenger < |ties.counts|
  {
    var counts := RoundCounts(ties);
    if winner == top then
      var now := counts[winner := if repeats then counts[winner] + 1 else 0];
      (Ties(true, now), PolledMore(now, winner, challenger))
    else (Ties(true, counts), challenger < winner)
  }

  predicate SameKey(h: Heads, a: nat, b: nat)
    requires a < |h| && b < |h|
  {
    h[a].Some? && h[a] == h[b]
  }

  /** The match at the root. */
  function RootChoice(h: Heads, ties: Ties, top: nat, repeats: bool, winner: nat, challenger: nat): (Ties, bool)
    requires |ties.counts| == |h| && winner < |h| && challenger < |h|
  {
    if SameKey(h, winner, challenger) then Tie(ties, top, repeats, winner, challenger)
    else (ties.(roundRobin := false), !KeyLe(h, winner, challenger) || h[winner].None?)
  }

  /** What the root chooses between the leader `a` of the half of the last winner and the leader `b`
      of the other half. */
  function Chosen(h: Heads, ties: Ties, top: nat, repeats: bool, a: nat, b: nat): (r: (Ties, nat))
    requires |ties.counts| == |h| && a < |h| && b < |h|
    ensures |r.0.counts| == |h| && (r.1 == a || r.1 == b)
  {
    var (now, swap) := RootChoice(h, ties, top, repeats, a, b);
    (now, if swap then b else a)
  }

  /** From one winner to the next. */
  ghost predicate Follows(h: Heads, ties: Ties, top: nat, repeats: bool, now: Ties, next: nat)
    requires |ties.counts| == |h| && top < |h|
  {
    if |h| == 1 then now == ties && next == top
    else exists a, b ::
        && Leads(h, HalfOf(h, top), a) && Leads(h, 5 - HalfOf(h, top), b)
        && (now, next) == Chosen(h, ties, top, repeats, a, b)
  }

  lemma FollowsByChoice(h: Heads, ties: Ties, top: nat, repeats: bool, a: nat, b: nat)
    requires |ties.counts| == |h| >= 2 && top < |h| && Leads(h, HalfOf(h, top), a) && Leads(h, 5 - HalfOf(h, top), b)
    ensures var (now, next) := Chosen(h, ties, top, repeats, a, b); Follows(h, ties, top, repeats, now, next)
  {
  }

  lemma LeadersOfChoice(h: Heads, ties: Ties, top: nat, repeats: bool, now: Ties, next: nat) returns (a: nat, b: nat)
    requires |ties.counts| == |h| >= 2 && top < |h| && Follows(h, ties, top, repeats, now, next)
    ensures a < |h| && b < |h| && Leads(h, HalfOf(h, top), a) && Leads(h, 5 - HalfOf(h, top), b)
    ensures (now, next) == Chosen(h, ties, top, repeats, a, b)
  {
    hide Chosen;
    a, b :| Leads(h, HalfOf(h, top), a) && Leads(h, 5 - HalfOf(h, top), b)
            && (now, next) == Chosen(h, ties, top, repeats, a, b);
  }

  // When the stream that was polled least is chosen

  /** A stream with the least key. */
  ghost predicate Tied(h: Heads, s: nat)
    requires s < |h|
  {
    h[s].Some? && forall k: nat :: k < |h| ==> KeyLe(h, s, k)
  }

  ghost predicate LeastPolled(h: Heads, counts: seq<nat>, s: nat)
    requires |counts| == |h| && s < |h|
  {
    Tied(h, s) && forall k: nat :: k < |h| && Tied(h, k) ==> counts[s] <= counts[k]
  }

  /** Neither half holds two streams with the least key. */
  ghost predicate OneInEachHalf(h: Heads)
    requires |h| >= 2
  {
    forall s: nat, k: nat :: s < |h| && k < |h| && Tied(h, s) && Tied(h, k) && HalfOf(h, s) == HalfOf(h, k) ==> s == k
  }

  /** Whatever the counts are, and whether or not a round is going on, the choice falls on a stream
      that was polled least. */
  ghost predicate AlwaysLeastPolled(h: Heads, top: nat, repeats: bool, a: nat, b: nat)
    requires a < |h| && b < |h|
  {
    forall ties: Ties :: |ties.counts| == |h| ==>
      LeastPolled(h, Chosen(h, ties, top, repeats, a, b).0.counts, Chosen(h, ties, top, repeats, a, b).1)
  }

  /** The leaders of both halves, at least one of them with a row. */
  ghost predicate Leaders(h: Heads, top: nat, a: nat, b: nat) {
    && |h| >= 2 && top < |h| && Leads(h, HalfOf(h, top), a) && Leads(h, 5 - HalfOf(h, top), b)
    && (h[a].Some? || h[b].Some?)
  }

  /** The choice has the least key, and a stream with the least key is led by one that has it. */
  lemma ChosenIsTied(h: Heads, ties: Ties, top: nat, repeats: bool, a: nat, b: nat)
    requires Leaders(h, top, a, b) && |ties.counts| == |h|
    ensures a != b && Tied(h, Chosen(h, ties, top, repeats, a, b).1)
    ensures SameKey(h, a, b) ==> Tied(h, a) && Tied(h, b)
    ensures !SameKey(h, a, b) ==> forall s: nat :: s < |h| && Tied(h, s) ==>
              HalfOf(h, s) == HalfOf(h, Chosen(h, ties, top, repeats, a, b).1)
  {
    hide Half;
    var m := Chosen(h, ties, top, repeats, a, b).1;
    var other := if m == a then b else a;
    assert KeyLe(h, m, other) && h[m].Some?;
    forall k: nat | k < |h| ensures KeyLe(h, m, k) {
      assert HalfOf(h, k) == HalfOf(h, a) || HalfOf(h, k) == HalfOf(h, b);
      assert StableLe(h, a, k) || StableLe(h, b, k);
    }
    if SameKey(h, a, b) {
      forall k: nat | k < |h| ensures KeyLe(h, a, k) && KeyLe(h, b, k) { assert KeyLe(h, m, k); }
    } else {
      forall s: nat | s < |h| && Tied(h, s) ensures HalfOf(h, s) == HalfOf(h, m) {
        assert KeyLe(h, s, m);
        assert HalfOf(h, s) == HalfOf(h, other) ==> StableLe(h, other, s);
      }
    }
  }

  /** Of two tied streams in one half one does not lead it. */
  lemma OneDoesNotLead(h: Heads, top: nat, a: nat, b: nat) returns (q: nat)
    requires Leaders(h, top, a, b) && !OneInEachHalf(h)
    ensures q < |h| && Tied(h, q) && q != a && q != b
  {
    hide Half, Tied;
    var s: nat, k: nat :| s < |h| && k < |h| && Tied(h, s) && Tied(h, k) && HalfOf(h, s) == HalfOf(h, k) && s != k;
    q := if s == a || s == b then k else s;
  }

  /** All streams polled once, except one that was not. */
  function Spoiler(n: nat, q: nat): (ties: Ties)
    requires q < n
    ensures |ties.counts| == n && ties.roundRobin && ties.counts[q] == 0
    ensures forall k :: 0 <= k < n && k != q ==> ties.counts[k] == 1
  {
    Ties(true, seq(n, k => if k == q then 0 else 1))
  }

  /** A stream that does not lead its half is passed over although it was polled less. */
  lemma PassedOver(h: Heads, top: nat, repeats: bool, a: nat, b: nat, q: nat)
    requires Leaders(h, top, a, b) && q < |h| && Tied(h, q) && q != a && q != b
    requires SameKey(h, a, b) ==> a == top && repeats
    ensures !AlwaysLeastPolled(h, top, repeats, a, b)
  {
    hide Half, Tied;
    var ties := Spoiler(|h|, q);
    ChosenIsTied(h, ties, top, repeats, a, b);
    var (now, next) := Chosen(h, ties, top, repeats, a, b);
    assert now.counts[next] > now.counts[q];
    assert !LeastPolled(h, now.counts, next);
  }

  /** When the last winner no longer leads its half, a tie goes by stream, whatever the counts. */
  lemma CountsAreIgnored(h: Heads, top: nat, repeats: bool, a: nat, b: nat)
    requires Leaders(h, top, a, b) && SameKey(h, a, b) && a != top
    ensures !AlwaysLeastPolled(h, top, repeats, a, b)
  {
    hide Half, Tied;
    var other := if a < b then b else a;
    var ties := Spoiler(|h|, other);
    ChosenIsTied(h, ties, top, repeats, a, b);
    var (now, next) := Chosen(h, ties, top, repeats, a, b);
    assert now.counts[next] > now.counts[other];
    assert !LeastPolled(h, now.counts, next);
  }

  lemma ChosenWasPolledLeast(h: Heads, ties: Ties, top: nat, repeats: bool, a: nat, b: nat)
    requires Leaders(h, top, a, b) && |ties.counts| == |h|
    requires if SameKey(h, a, b) then a == top && (!repeats || OneInEachHalf(h)) else OneInEachHalf(h)
    ensures LeastPolled(h, Chosen(h, ties, top, repeats, a, b).0.counts, Chosen(h, ties, top, repeats, a, b).1)
  {
    hide Half, Tied;
    ChosenIsTied(h, ties, top, repeats, a, b);
    var (now, next) := Chosen(h, ties, top, repeats, a, b);
    forall k: nat | k < |h| && Tied(h, k) ensures now.counts[next] <= now.counts[k] {
      assert OneInEachHalf(h) && SameKey(h, a, b) ==> k == a || k == b;
    }
  }

  /** The documented rule is that among streams with the same value the one polled least is chosen.
      It holds for all counts exactly when neither half of the tree holds two streams with the
      least key, or the last winner has just come to a tie with a new key; and, if there is a tie
      between the halves, only when the last winner still leads its own. */
  lemma LeastPolledIsChosen(h: Heads, top: nat, repeats: bool, a: nat, b: nat)
    requires Leaders(h, top, a, b)
    ensures AlwaysLeastPolled(h, top, repeats, a, b) <==>
            if SameKey(h, a, b) then a == top && (!repeats || OneInEachHalf(h)) else OneInEachHalf(h)
  {
    hide Half, Tied, OneInEachHalf, Chosen, LeastPolled;
    if SameKey(h, a, b) && a != top {
      CountsAreIgnored(h, top, repeats, a, b);
    } else if !OneInEachHalf(h) && (SameKey(h, a, b) ==> repeats) {
      var q := OneDoesNotLead(h, top, a, b);
      PassedOver(h, top, repeats, a, b, q);
    } else {
      forall ties: Ties | |ties.counts| == |h|
        ensures LeastPolled(h, Chosen(h, ties, top, repeats, a, b).0.counts, Chosen(h, ties, top, repeats, a, b).1)
      {
        ChosenWasPolledLeast(h, ties, top, repeats, a, b);
      }
    }
  }

  /** As long as the last winner goes on with the same key, the rule holds for all counts exactly when
      neither half holds two streams with the least key. */
  lemma LeastPolledInARound(h: Heads, top: nat, a: nat, b: nat)
    requires Leaders(h, top, a, b) && Leads(h, HalfOf(h, top), top) && h[top].Some?
    ensures AlwaysLeastPolled(h, top, true, a, b) <==> OneInEachHalf(h)
  {
    hide Half, OneInEachHalf, AlwaysLeastPolled;
    LeastPolledIsChosen(h, top, true, a, b);
    assert StableLe(h, top, a) && StableLe(h, a, top);
  }
}
