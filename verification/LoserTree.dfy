/** The tournament tree of the sort-preserving merge (datafusion/physical-plan/src/sorts/merge.rs).
    Nodes 1 to n - 1 of the tree hold losers, node 0 the winner. The streams are the leaves: stream
    `s` stands at node n + s, and the parent of node `x` is x / 2. */
module LoserTree {
  import opened Numbers
  import opened Text

  /** The current key of every stream, or None for one that is exhausted. */
  type Heads = seq<Option<int>>

  /** What a node holds before any stream has reached it. */
  const EMPTY: int := -1

  // Comparing streams

  /** `is_gt`: an exhausted stream is greater than any, and equal keys go by stream. */
  predicate IsGt(h: Heads, a: nat, b: nat)
    requires a < |h| && b < |h|
  {
    match (h[a], h[b])
    case (None, _) => true
    case (_, None) => false
    case (Some(x), Some(y)) => x > y || (x == y && a > b)
  }

  /** The key of `a` is not greater. */
  predicate KeyLe(h: Heads, a: nat, b: nat)
    requires a < |h| && b < |h|
  {
    h[b].None? || (h[a].Some? && h[a].value <= h[b].value)
  }

  /** The key of `a` is not greater, and if the keys are equal `a` is not the later stream. */
  predicate StableLe(h: Heads, a: nat, b: nat)
    requires a < |h| && b < |h|
  {
    h[b].None? || (h[a].Some? && (h[a].value < h[b].value || (h[a].value == h[b].value && a <= b)))
  }

  /** What a node asks of winner and loser: with a tie breaker the root only looks at keys. */
  predicate Beats(h: Heads, tieBreaker: bool, x: nat, a: nat, b: nat)
    requires a < |h| && b < |h|
  {
    if tieBreaker && x == 1 then KeyLe(h, a, b) else StableLe(h, a, b)
  }

  // The shape of the tree

  /** `y` is `x` or a descendant of it. */
  ghost predicate Below(x: nat, y: nat) {
    y == x || (y > x && Below(x, y / 2))
  }

  lemma {:induction false} BelowChildren(x: nat, y: nat)
    requires x >= 1
    ensures Below(x, y) <==> y == x || Below(2 * x, y) || Below(2 * x + 1, y)
    decreases y
  {
    if y <= x {
    } else {
      BelowChildren(x, y / 2);
    }
  }

  lemma BelowItself(x: nat)
    ensures Below(x, x)
  {
  }

  lemma {:induction false} BelowOneChild(x: nat, y: nat)
    requires x >= 1 && Below(2 * x, y)
    ensures !Below(2 * x + 1, y)
    decreases y
  {
    if y <= 2 * x + 1 {
    } else {
      BelowOneChild(x, y / 2);
    }
  }

  lemma {:induction false} BelowRoot(y: nat)
    requires y >= 1
    ensures Below(1, y)
  {
    if y <= 1 {
    } else {
      BelowRoot(y / 2);
    }
  }

  function Sibling(c: nat): nat
    requires c >= 2
  {
    if c % 2 == 0 then c + 1 else c - 1
  }

  /** A node above `c` is above the nodes below `c`, and these are not below its sibling. */
  lemma Family(c: nat, y: nat)
    requires c >= 2
    ensures Below(c / 2, y) <==> y == c / 2 || Below(c, y) || Below(Sibling(c), y)
    ensures !(Below(c, y) && Below(Sibling(c), y))
    ensures !Below(c, c / 2) && !Below(Sibling(c), c / 2) && Sibling(c) / 2 == c / 2
  {
    hide Below;
    BelowChildren(c / 2, y);
    if Below(2 * (c / 2), y) { BelowOneChild(c / 2, y); }
    NotBelow(c, c / 2);
    NotBelow(Sibling(c), c / 2);
  }

  lemma NotBelow(x: nat, y: nat)
    requires y < x
    ensures !Below(x, y)
  {
  }

  // Winners

  /** The stream that has won every match below node `x`. */
  function Win(t: seq<int>, x: nat): (w: nat)
    requires 1 <= x < 2 * |t|
    ensures w < |t|
    decreases 2 * |t| - x
  {
    if x >= |t| then x - |t|
    else
      var a, b := Win(t, 2 * x), Win(t, 2 * x + 1);
      if t[x] == a then b else a
  }

  lemma {:induction false} WinIsBelow(t: seq<int>, x: nat)
    requires 1 <= x < 2 * |t|
    ensures Below(x, |t| + Win(t, x))
    decreases 2 * |t| - x
  {
    if x >= |t| {
    } else {
      WinIsBelow(t, 2 * x);
      WinIsBelow(t, 2 * x + 1);
      BelowChildren(x, |t| + Win(t, x));
    }
  }

  /** Two trees hold the same below `x`. */
  ghost predicate Agree(t: seq<int>, u: seq<int>, x: nat) {
    |t| == |u| && forall y :: 1 <= y < |t| && Below(x, y) ==> t[y] == u[y]
  }

  lemma {:induction false} AgreeBelow(t: seq<int>, u: seq<int>, x: nat, y: nat)
    requires x >= 1 && Agree(t, u, x) && Below(x, y)
    ensures Agree(t, u, y)
    decreases y
  {
    forall z | 1 <= z < |t| && Below(y, z) ensures t[z] == u[z] { BelowTransitive(x, y, z); }
  }

  lemma {:induction false} BelowTransitive(x: nat, y: nat, z: nat)
    requires Below(x, y) && Below(y, z)
    ensures Below(x, z)
    decreases z
  {
    if z <= y {
    } else {
      BelowTransitive(x, y, z / 2);
    }
  }

  lemma {:induction false} SameWinner(t: seq<int>, u: seq<int>, x: nat)
    requires 1 <= x < 2 * |t| && Agree(t, u, x)
    ensures Win(t, x) == Win(u, x)
    decreases 2 * |t| - x
  {
    if x >= |t| {
    } else {
      BelowChildren(x, 2 * x);
      BelowChildren(x, 2 * x + 1);
      AgreeBelow(t, u, x, 2 * x);
      AgreeBelow(t, u, x, 2 * x + 1);
      SameWinner(t, u, 2 * x);
      SameWinner(t, u, 2 * x + 1);
      assert Below(x, x);
    }
  }

  // Played matches

  /** Node `x` holds the loser of the winners below it. */
  ghost predicate Played(t: seq<int>, h: Heads, tieBreaker: bool, x: nat)
    requires 1 <= x < |t| == |h|
  {
    var a, b := Win(t, 2 * x), Win(t, 2 * x + 1);
    (t[x] == a || t[x] == b) && Beats(h, tieBreaker, x, Win(t, x), t[x])
  }

  ghost predicate AllPlayed(t: seq<int>, h: Heads, tieBreaker: bool, c: nat)
    requires |t| == |h|
  {
    forall y :: 1 <= y < |t| && Below(c, y) ==> Played(t, h, tieBreaker, y)
  }

  /** The heads of the streams below `x` are the same. */
  ghost predicate SameHeads(h: Heads, g: Heads, x: nat) {
    |h| == |g| && forall s :: 0 <= s < |h| && Below(x, |h| + s) ==> h[s] == g[s]
  }

  lemma WinnersAlike(t: seq<int>, u: seq<int>, x: nat)
    requires 1 <= x < |t| && Agree(t, u, x)
    ensures t[x] == u[x] && Win(t, x) == Win(u, x)
    ensures Win(t, 2 * x) == Win(u, 2 * x) && Win(t, 2 * x + 1) == Win(u, 2 * x + 1)
  {
    hide Win, Below;
    BelowItself(x);
    BelowItself(2 * x);
    BelowItself(2 * x + 1);
    BelowChildren(x, 2 * x);
    BelowChildren(x, 2 * x + 1);
    AgreeBelow(t, u, x, 2 * x);
    AgreeBelow(t, u, x, 2 * x + 1);
    SameWinner(t, u, x);
    SameWinner(t, u, 2 * x);
    SameWinner(t, u, 2 * x + 1);
  }

  lemma PlayersAreBelow(t: seq<int>, x: nat)
    requires 1 <= x < |t|
    ensures Below(x, |t| + Win(t, x)) && Below(x, |t| + Win(t, 2 * x)) && Below(x, |t| + Win(t, 2 * x + 1))
  {
    hide Win, Below;
    WinIsBelow(t, x);
    WinIsBelow(t, 2 * x);
    WinIsBelow(t, 2 * x + 1);
    BelowChildren(x, |t| + Win(t, 2 * x));
    BelowChildren(x, |t| + Win(t, 2 * x + 1));
  }

  lemma PlayedAlike(t: seq<int>, u: seq<int>, h: Heads, g: Heads, tieBreaker: bool, x: nat)
    requires 1 <= x < |t| == |h| && Agree(t, u, x) && SameHeads(h, g, x) && Played(t, h, tieBreaker, x)
    ensures Played(u, g, tieBreaker, x)
  {
    hide Win, Below, Beats, Agree;
    WinnersAlike(t, u, x);
    PlayersAreBelow(t, x);
    BeatsAlike(h, g, tieBreaker, x, Win(t, x), t[x]);
  }

  lemma BeatsAlike(h: Heads, g: Heads, tieBreaker: bool, x: nat, a: nat, b: nat)
    requires a < |h| == |g| && b < |h| && h[a] == g[a] && h[b] == g[b]
    ensures Beats(h, tieBreaker, x, a, b) == Beats(g, tieBreaker, x, a, b)
  {
  }

  lemma AllPlayedAlike(t: seq<int>, u: seq<int>, h: Heads, g: Heads, tieBreaker: bool, c: nat)
    requires c >= 1 && |t| == |h| && Agree(t, u, c) && SameHeads(h, g, c) && AllPlayed(t, h, tieBreaker, c)
    ensures AllPlayed(u, g, tieBreaker, c)
  {
    hide Played;
    forall y | 1 <= y < |u| && Below(c, y) ensures Played(u, g, tieBreaker, y) {
      AgreeBelow(t, u, c, y);
      forall s | 0 <= s < |h| && Below(y, |h| + s) ensures h[s] == g[s] { BelowTransitive(c, y, |h| + s); }
      PlayedAlike(t, u, h, g, tieBreaker, y);
    }
  }

  /** After all matches below a node, no stream there beats the winner. */
  lemma {:induction false} WinnerIsLeast(t: seq<int>, h: Heads, tieBreaker: bool, c: nat, s: nat)
    requires 1 <= c < 2 * |t| && |t| == |h| && s < |t|
    requires AllPlayed(t, h, tieBreaker, c) && Below(c, |t| + s)
    ensures Beats(h, tieBreaker, c, Win(t, c), s)
    decreases 2 * |t| - c
  {
    hide Beats, Below;
    if c >= |t| {
      LeafIsAlone(c, |t| + s);
      BeatsItself(h, tieBreaker, c, s);
    } else {
      BelowChildren(c, |t| + s);
      BelowItself(c);
      assert Played(t, h, tieBreaker, c);
      var d := if Below(2 * c, |t| + s) then 2 * c else 2 * c + 1;
      forall y | 1 <= y < |t| && Below(d, y) ensures Played(t, h, tieBreaker, y) { BelowChildren(c, y); }
      LeafIsNotInner(c, |t|, |t| + s);
      WinnerIsLeast(t, h, tieBreaker, d, s);
      BeatsOn(h, tieBreaker, c, d, Win(t, c), Win(t, d), s);
    }
  }

  lemma LeafIsNotInner(c: nat, n: nat, y: nat)
    requires c < n <= y
    ensures y != c
  {
  }

  lemma LeafIsAlone(c: nat, y: nat)
    requires Below(c, y) && y < 2 * c
    ensures y == c
  {
  }

  lemma BeatsItself(h: Heads, tieBreaker: bool, x: nat, a: nat)
    requires a < |h|
    ensures Beats(h, tieBreaker, x, a, a)
  {
  }

  /** A winner that is, or beats, the winner of a child beats whatever that one beats. */
  lemma BeatsOn(h: Heads, tieBreaker: bool, c: nat, d: nat, a: nat, b: nat, s: nat)
    requires a < |h| && b < |h| && s < |h| && d >= 2
    requires (a == b || Beats(h, tieBreaker, c, a, b)) && Beats(h, tieBreaker, d, b, s)
    ensures Beats(h, tieBreaker, c, a, s)
  {
  }

  /** The winner of the whole tree has won every match on its way. */
  lemma {:induction false} WinnerOnPath(t: seq<int>, h: Heads, tieBreaker: bool, x: nat, w: nat)
    requires 1 <= x < 2 * |t| && |t| == |h| && Win(t, 1) == w && Below(x, |t| + w)
    requires AllPlayed(t, h, tieBreaker, 1)
    ensures Win(t, x) == w
  {
    hide Below, Beats;
    if x <= 1 {
    } else {
      var p := x / 2;
      Family(x, |t| + w);
      WinnerOnPath(t, h, tieBreaker, p, w);
      WinIsBelow(t, Sibling(x));
      BelowRoot(p);
      assert Played(t, h, tieBreaker, p);
    }
  }

  /** A match between the winners of two siblings is entered at their parent. */
  lemma MatchPlayed(t: seq<int>, h: Heads, tieBreaker: bool, c: nat, winner: nat, loser: nat)
    requires 2 <= c < 2 * |t| && |t| == |h| && Sibling(c) < 2 * |t|
    requires AllPlayed(t, h, tieBreaker, c) && AllPlayed(t, h, tieBreaker, Sibling(c))
    requires || (winner == Win(t, c) && loser == Win(t, Sibling(c)))
             || (winner == Win(t, Sibling(c)) && loser == Win(t, c))
    requires Beats(h, tieBreaker, c / 2, winner, loser)
    ensures c / 2 < |t| && AllPlayed(t[c / 2 := loser], h, tieBreaker, c / 2) && Win(t[c / 2 := loser], c / 2) == winner
  {
    hide Below, Beats, Played, AllPlayed, Win;
    var x := c / 2;
    var u := t[x := loser];
    Family(c, x);
    MatchAlike(t, h, tieBreaker, c, loser);
    MatchAlike(t, h, tieBreaker, Sibling(c), loser);
    Different(t, c);
    PlayedOnEntry(u, h, tieBreaker, c, winner, loser);
    AllPlayedAbove(u, h, tieBreaker, c);
  }

  lemma AllPlayedAbove(u: seq<int>, h: Heads, tieBreaker: bool, c: nat)
    requires 2 <= c < 2 * |u| && |u| == |h| && Played(u, h, tieBreaker, c / 2)
    requires AllPlayed(u, h, tieBreaker, c) && AllPlayed(u, h, tieBreaker, Sibling(c))
    ensures AllPlayed(u, h, tieBreaker, c / 2)
  {
    hide Below, Played;
    forall y | 1 <= y < |u| && Below(c / 2, y) ensures Played(u, h, tieBreaker, y) { Family(c, y); }
  }

  lemma Different(t: seq<int>, c: nat)
    requires 2 <= c < 2 * |t| && Sibling(c) < 2 * |t|
    ensures Win(t, c) != Win(t, Sibling(c))
  {
    hide Below, Win;
    WinIsBelow(t, c);
    WinIsBelow(t, Sibling(c));
    Family(c, |t| + Win(t, c));
  }

  lemma PlayedOnEntry(u: seq<int>, h: Heads, tieBreaker: bool, c: nat, winner: nat, loser: nat)
    requires 2 <= c < 2 * |u| && |u| == |h| && Sibling(c) < 2 * |u| && c / 2 < |u| && u[c / 2] == loser
    requires || (winner == Win(u, c) && loser == Win(u, Sibling(c)))
             || (winner == Win(u, Sibling(c)) && loser == Win(u, c))
    requires winner != loser && Beats(h, tieBreaker, c / 2, winner, loser)
    ensures Played(u, h, tieBreaker, c / 2) && Win(u, c / 2) == winner
  {
    hide Beats;
  }

  lemma MatchAlike(t: seq<int>, h: Heads, tieBreaker: bool, c: nat, loser: int)
    requires 2 <= c < 2 * |t| && |t| == |h| && AllPlayed(t, h, tieBreaker, c)
    ensures c / 2 < |t| && AllPlayed(t[c / 2 := loser], h, tieBreaker, c) && Win(t[c / 2 := loser], c) == Win(t, c)
  {
    hide Below, Played, Win;
    var u := t[c / 2 := loser];
    Family(c, c / 2);
    SameWinner(t, u, c);
    AllPlayedAlike(t, u, h, h, tieBreaker, c);
  }

  lemma KeysOnly(h: Heads, a: nat, b: nat)
    requires a < |h| && b < |h| && StableLe(h, a, b)
    ensures KeyLe(h, a, b)
  {
  }

  lemma Compared(h: Heads, a: nat, b: nat)
    requires a < |h| && b < |h|
    ensures if IsGt(h, a, b) then StableLe(h, b, a) else StableLe(h, a, b)
  {
  }

  // After the winner has moved on

  /** Trees hold the same except below `c`. */
  ghost predicate AgreeOutside(t: seq<int>, u: seq<int>, c: nat) {
    |t| == |u| && forall y :: 0 <= y < |t| && !Below(c, y) ==> t[y] == u[y]
  }

  /** Only the head of `w` is new. */
  ghost predicate Moved(h: Heads, g: Heads, w: nat) {
    w < |h| == |g| && forall s :: 0 <= s < |h| && s != w ==> h[s] == g[s]
  }

  /** On the way up from the winner's leaf every node holds the winner of the other side. */
  lemma Challenger(t: seq<int>, u: seq<int>, h: Heads, g: Heads, tieBreaker: bool, c: nat, w: nat)
    requires |t| == |h| && Moved(h, g, w) && AllPlayed(t, h, tieBreaker, 1) && Win(t, 1) == w
    requires 2 <= c < 2 * |t| && Below(c, |t| + w) && AgreeOutside(t, u, c)
    ensures Sibling(c) < 2 * |t| && u[c / 2] == Win(u, Sibling(c)) && AllPlayed(u, g, tieBreaker, Sibling(c))
  {
    hide Below, Beats, Win;
    var x, d := c / 2, Sibling(c);
    Family(c, |t| + w);
    WinnerOnPath(t, h, tieBreaker, c, w);
    WinnerOnPath(t, h, tieBreaker, x, w);
    BelowRoot(x);
    PlayedAt(t, h, tieBreaker, x, c);
    OutsideSibling(t, u, c);
    SameWinner(t, u, d);
    PlayedBelow(t, h, tieBreaker, d);
    forall s | 0 <= s < |h| && Below(d, |h| + s) ensures h[s] == g[s] {}
    AllPlayedAlike(t, u, h, g, tieBreaker, d);
  }

  lemma PlayedAt(t: seq<int>, h: Heads, tieBreaker: bool, x: nat, c: nat)
    requires 2 <= c < 2 * |t| && |t| == |h| && x == c / 2 < |t| && Played(t, h, tieBreaker, x) && Win(t, x) == Win(t, c)
    ensures t[x] == Win(t, Sibling(c))
  {
    Different(t, c);
  }

  lemma OutsideSibling(t: seq<int>, u: seq<int>, c: nat)
    requires c >= 2 && AgreeOutside(t, u, c)
    ensures Agree(t, u, Sibling(c)) && (c / 2 < |t| ==> t[c / 2] == u[c / 2])
  {
    hide Below;
    Family(c, c / 2);
    forall y | 1 <= y < |t| && Below(Sibling(c), y) ensures t[y] == u[y] { Family(c, y); }
  }

  lemma PlayedBelow(t: seq<int>, h: Heads, tieBreaker: bool, d: nat)
    requires |t| == |h| && AllPlayed(t, h, tieBreaker, 1)
    ensures AllPlayed(t, h, tieBreaker, d)
  {
    hide Below, Played;
    forall y | 1 <= y < |t| && Below(d, y) ensures Played(t, h, tieBreaker, y) { BelowRoot(y); }
  }

  lemma OutsideParent(t: seq<int>, u: seq<int>, c: nat, v: int)
    requires c >= 2 && c / 2 < |u| && AgreeOutside(t, u, c)
    ensures AgreeOutside(t, u[c / 2 := v], c / 2)
  {
    hide Below;
    forall y | 0 <= y < |t| && !Below(c / 2, y) ensures t[y] == u[c / 2 := v][y] {
      Family(c, y);
      BelowItself(c / 2);
    }
  }

  /** A tree in which all matches are played, with the winner at node 0. */
  ghost predicate Settled(t: seq<int>, h: Heads, tieBreaker: bool) {
    |t| == |h| > 0 && AllPlayed(t, h, tieBreaker, 1) && t[0] == Win(t, 1)
  }

  /** What is settled except above `c`, where `winner` has arrived. */
  ghost predicate Climbing(t: seq<int>, u: seq<int>, g: Heads, tieBreaker: bool, c: nat, w: nat, winner: nat) {
    && |t| == |u| == |g| && 1 <= c < 2 * |t| && Below(c, |t| + w) && AgreeOutside(t, u, c)
    && AllPlayed(u, g, tieBreaker, c) && winner == Win(u, c)
  }

  lemma ClimbStarts(t: seq<int>, g: Heads, tieBreaker: bool, w: nat)
    requires |t| == |g| && w < |t|
    ensures Climbing(t, t, g, tieBreaker, |t| + w, w, w)
  {
    var leaf := |t| + w;
    forall y: nat | y < |t| ensures !Below(leaf, y) { NotBelow(leaf, y); }
  }

  lemma ClimbGoesOn(t: seq<int>, u: seq<int>, h: Heads, g: Heads, tieBreaker: bool, c: nat, w: nat,
                    arrived: nat, winner: nat, loser: nat)
    requires |t| == |h| && Moved(h, g, w) && AllPlayed(t, h, tieBreaker, 1) && Win(t, 1) == w
    requires c >= 2 && Climbing(t, u, g, tieBreaker, c, w, arrived) && c / 2 < |u|
    requires (winner == arrived && loser == u[c / 2]) || (winner == u[c / 2] && loser == arrived)
    requires winner < |g| && loser < |g| && Beats(g, tieBreaker, c / 2, winner, loser)
    ensures Climbing(t, u[c / 2 := loser], g, tieBreaker, c / 2, w, winner)
  {
    hide Below, Beats, Win, AllPlayed;
    Challenger(t, u, h, g, tieBreaker, c, w);
    MatchPlayed(u, g, tieBreaker, c, winner, loser);
    OutsideParent(t, u, c, loser);
    Family(c, |t| + w);
  }

  lemma ClimbEnds(t: seq<int>, u: seq<int>, g: Heads, tieBreaker: bool, w: nat, winner: nat)
    requires Climbing(t, u, g, tieBreaker, 1, w, winner)
    ensures Settled(u[0 := winner], g, tieBreaker)
  {
    hide Below, Win, Played;
    var v := u[0 := winner];
    forall s | 0 <= s < |g| && Below(1, |g| + s) ensures g[s] == g[s] {}
    SameWinner(u, v, 1);
    AllPlayedAlike(u, v, g, g, tieBreaker, 1);
  }

  /** The nodes between `x` and the root. */
  function Levels(x: nat): nat {
    if x <= 1 then 0 else 1 + Levels(x / 2)
  }

  lemma {:induction false} LevelsAreLogarithmic(x: nat)
    requires x >= 1
    ensures Pow2(Levels(x)) <= x < 2 * Pow2(Levels(x))
  {
    if x <= 1 {
    } else {
      LevelsAreLogarithmic(x / 2);
    }
  }

  /** The loop of `update_loser_tree`: from the leaf of the old winner up to the root, which is left
      to the caller. It plays a number of matches that is logarithmic in the number of streams. */
  method Climb(t: seq<int>, g: Heads, tieBreaker: bool, ghost h: Heads)
    returns (u: seq<int>, winner: nat, x: nat, ghost c: nat, ghost matches: nat)
    requires Settled(t, h, tieBreaker) && 0 <= t[0] && Moved(h, g, t[0])
    ensures Climbing(t, u, g, tieBreaker, c, t[0], winner) && x == c / 2 <= 1
    ensures x == 1 <==> |t| > 1
    ensures x == 1 ==> 0 <= u[1] < |t|
    ensures |t| == 1 ==> matches == 0
    ensures |t| > 1 ==> Pow2(matches) < |t|
  {
    hide Below, Win, Climbing, AllPlayed, Played, AgreeOutside;
    u, winner := t, t[0];
    x := (|t| + winner) / 2;
    c := |t| + winner;
    ClimbStarts(t, g, tieBreaker, winner);
    ClimbingIs(t, u, g, tieBreaker, c, t[0], winner);
    matches := 0;
    while x > 1
      invariant matches + Levels(x) == Levels((|t| + t[0]) / 2)
      invariant c >= 1 && x == c / 2 < |t| && |u| == |t| && (|t| > 1 ==> x >= 1)
      invariant Climbing(t, u, g, tieBreaker, c, t[0], winner) && winner < |t|
    {
      ClimbMeets(t, u, h, g, tieBreaker, c, t[0], winner);
      var challenger := u[x];
      Compared(g, winner, challenger);
      if IsGt(g, winner, challenger) {
        ClimbGoesOn(t, u, h, g, tieBreaker, c, t[0], winner, challenger, winner);
        u := u[x := winner];
        winner := challenger;
      } else {
        ClimbGoesOn(t, u, h, g, tieBreaker, c, t[0], winner, winner, challenger);
        assert u[x := challenger] == u;
      }
      matches := matches + 1;
      c := c / 2;
      x := x / 2;
    }
    if x == 1 { ClimbMeets(t, u, h, g, tieBreaker, c, t[0], winner); }
    if |t| > 1 { LevelsAreLogarithmic((|t| + t[0]) / 2); }
  }

  lemma ClimbingIs(t: seq<int>, u: seq<int>, g: Heads, tieBreaker: bool, c: nat, w: nat, winner: nat)
    requires Climbing(t, u, g, tieBreaker, c, w, winner)
    ensures |u| == |t| && 1 <= c && c / 2 < |t| && winner < |t| && winner == Win(u, c)
  {
  }

  lemma ClimbMeets(t: seq<int>, u: seq<int>, h: Heads, g: Heads, tieBreaker: bool, c: nat, w: nat, winner: nat)
    requires |t| == |h| && Moved(h, g, w) && AllPlayed(t, h, tieBreaker, 1) && Win(t, 1) == w
    requires c >= 2 && Climbing(t, u, g, tieBreaker, c, w, winner)
    ensures c / 2 < |u| && 0 <= u[c / 2] < |t| && u[c / 2] != winner
  {
    Challenger(t, u, h, g, tieBreaker, c, w);
    Different(u, c);
  }

  // Building the tree

  /** Every stream below `x` is one of the first `k` of `n`. */
  ghost predicate Full(n: nat, k: nat, x: nat) {
    forall s: nat :: s < n && Hosts(n, x, s) ==> s < k
  }

  /** Stream `s` of `n` is below `x`. */
  ghost predicate Hosts(n: nat, x: nat, s: nat) {
    Below(x, n + s)
  }

  /** Node `x` after the first `k` streams: it holds the loser of two winners, or the one winner that
      has come, or nothing. */
  ghost predicate Waits(t: seq<int>, h: Heads, k: nat, x: nat)
    requires 1 <= x < |t| == |h|
  {
    var n := |t|;
    if Full(n, k, 2 * x) then
      if Full(n, k, 2 * x + 1) then Played(t, h, false, x) else t[x] == Win(t, 2 * x)
    else if Full(n, k, 2 * x + 1) then t[x] == Win(t, 2 * x + 1)
    else t[x] == EMPTY
  }

  ghost predicate Built(t: seq<int>, h: Heads, k: nat)
    requires |t| == |h|
  {
    forall x :: 1 <= x < |t| ==> Waits(t, h, k, x)
  }

  /** Stream `k` has climbed to `c`: everything below is there and played. */
  ghost predicate Rising(t: seq<int>, u: seq<int>, h: Heads, k: nat, c: nat, winner: nat) {
    && |t| == |u| == |h| && k < |t| && 1 <= c < 2 * |t| && Below(c, |t| + k) && AgreeOutside(t, u, c)
    && Full(|t|, k + 1, c) && AllPlayed(u, h, false, c) && winner == Win(u, c)
  }

  lemma NotFull(n: nat, k: nat, x: nat)
    requires k < n && Below(x, n + k)
    ensures !Full(n, k, x)
  {
    assert Hosts(n, x, k);
  }

  /** Without stream `k` below it, a node is full no sooner. */
  lemma FullAlike(n: nat, k: nat, x: nat)
    requires !Below(x, n + k)
    ensures Full(n, k, x) <==> Full(n, k + 1, x)
  {
    assert !Hosts(n, x, k);
  }

  lemma RisesFromLeaf(t: seq<int>, h: Heads, k: nat)
    requires |t| == |h| && k < |t|
    ensures Rising(t, t, h, k, |t| + k, k)
  {
    var leaf := |t| + k;
    forall y: nat | y < |t| ensures !Below(leaf, y) { NotBelow(leaf, y); }
    forall s: nat | s < |t| && Hosts(|t|, leaf, s) ensures s < k + 1 { LeafIsAlone(leaf, |t| + s); }
  }

  /** What is full is played. */
  lemma FullIsPlayed(t: seq<int>, h: Heads, k: nat, d: nat)
    requires |t| == |h| && 1 <= d && Built(t, h, k) && Full(|t|, k, d)
    ensures AllPlayed(t, h, false, d)
  {
    hide Below, Played;
    forall y | 1 <= y < |t| && Below(d, y) ensures Played(t, h, false, y) {
      FullBelow(|t|, k, d, y);
      FullChildren(|t|, k, y);
      assert Waits(t, h, k, y);
    }
  }

  lemma FullBelow(n: nat, k: nat, x: nat, y: nat)
    requires Full(n, k, x) && Below(x, y)
    ensures Full(n, k, y)
  {
    forall s: nat | s < n && Hosts(n, y, s) ensures s < k {
      BelowTransitive(x, y, n + s);
      assert Hosts(n, x, s);
    }
  }

  lemma FullChildren(n: nat, k: nat, x: nat)
    requires 1 <= x < n
    ensures Full(n, k, x) <==> Full(n, k, 2 * x) && Full(n, k, 2 * x + 1)
  {
    hide Below;
    var a, b := 2 * x, 2 * x + 1;
    forall s: nat | s < n ensures Hosts(n, x, s) <==> Hosts(n, a, s) || Hosts(n, b, s) { BelowChildren(x, n + s); }
  }

  /** Where the other side is full, its winner waits at the parent; where it is not, nothing does. */
  lemma WaitsAbove(t: seq<int>, u: seq<int>, h: Heads, k: nat, c: nat, winner: nat)
    requires Rising(t, u, h, k, c, winner) && Built(t, h, k) && c >= 2
    ensures c / 2 < |u| && Sibling(c) < 2 * |u|
    ensures if Full(|t|, k, Sibling(c)) then u[c / 2] == Win(u, Sibling(c)) && AllPlayed(u, h, false, Sibling(c))
            else u[c / 2] == EMPTY
  {
    hide Below, Played, Win;
    var x, d := c / 2, Sibling(c);
    NotFull(|t|, k, c);
    assert Waits(t, h, k, x);
    OutsideSibling(t, u, c);
    if Full(|t|, k, d) {
      FullIsPlayed(t, h, k, d);
      AllPlayedAlike(t, u, h, h, false, d);
      SameWinner(t, u, d);
    }
  }

  lemma RisesOn(t: seq<int>, u: seq<int>, h: Heads, k: nat, c: nat, arrived: nat, winner: nat, loser: nat)
    requires Rising(t, u, h, k, c, arrived) && Built(t, h, k) && c >= 2 && c / 2 < |u| && u[c / 2] != EMPTY
    requires (winner == arrived && loser == u[c / 2]) || (winner == u[c / 2] && loser == arrived)
    requires winner < |h| && loser < |h| && StableLe(h, winner, loser)
    ensures Rising(t, u[c / 2 := loser], h, k, c / 2, winner)
  {
    hide Below, Win, AllPlayed, Full, StableLe;
    var x, d := c / 2, Sibling(c);
    WaitsAbove(t, u, h, k, c, arrived);
    MatchPlayed(u, h, false, c, winner, loser);
    OutsideParent(t, u, c, loser);
    Family(c, |t| + k);
    FullAlike(|t|, k, d);
    FullChildren(|t|, k + 1, x);
  }

  lemma {:induction false} Ancestors(a: nat, b: nat, y: nat)
    requires Below(a, y) && Below(b, y)
    ensures Below(a, b) || Below(b, a)
    decreases y
  {
    if y != a && y != b { Ancestors(a, b, y / 2); }
  }

  /** A node beside the way of stream `k` up to the parent of `c` is as full as before, with the
      same winner. */
  lemma Beside(t: seq<int>, u: seq<int>, h: Heads, k: nat, c: nat, winner: nat, e: nat, v: int)
    requires Rising(t, u, h, k, c, winner) && c >= 2 && c / 2 < |u| && !Full(|t|, k, Sibling(c))
    requires 2 <= e < 2 * |t| && !Below(c, e / 2) && e / 2 != c / 2
    ensures Full(|t|, k + 1, e) <==> Full(|t|, k, e)
    ensures Full(|t|, k, e) ==> Win(u[c / 2 := v], e) == Win(t, e)
  {
    hide Below, Win, AllPlayed, Full;
    if Below(e, |t| + k) {
      NotFull(|t|, k, e);
      OnTheWay(|t|, k, c, e);
    } else {
      FullAlike(|t|, k, e);
      OffTheWay(t, u, |t| + k, c, e, v);
      SameWinner(t, u[c / 2 := v], e);
    }
  }

  /** A node further up the way than `c` is not full while the other side of `c` is not. */
  lemma OnTheWay(n: nat, k: nat, c: nat, e: nat)
    requires c >= 2 && e >= 2 && Below(c, n + k) && Below(e, n + k) && !Below(c, e / 2) && e / 2 != c / 2
    requires !Full(n, k, Sibling(c))
    ensures !Full(n, k + 1, e)
  {
    var d := Sibling(c);
    Ancestors(c, e, n + k);
    assert Below(e, c / 2);
    Family(c, d);
    BelowItself(d);
    BelowTransitive(e, c / 2, d);
    Family(c, n + k);
    FullAlike(n, k, d);
    if Full(n, k + 1, e) { FullBelow(n, k + 1, e, d); }
  }

  /** What is below a node off the way has not changed. */
  lemma OffTheWay(t: seq<int>, u: seq<int>, leaf: nat, c: nat, e: nat, v: int)
    requires c >= 2 && e >= 2 && Below(c, leaf) && !Below(e, leaf) && !Below(c, e / 2) && e / 2 != c / 2
    requires AgreeOutside(t, u, c) && c / 2 < |u|
    ensures Agree(t, u[c / 2 := v], e)
  {
    var w := u[c / 2 := v];
    forall z | 1 <= z < |t| && Below(e, z) ensures t[z] == w[z] {
      NotOnTheWay(leaf, c, e, z);
    }
  }

  lemma NotOnTheWay(leaf: nat, c: nat, e: nat, z: nat)
    requires c >= 2 && e >= 2 && Below(c, leaf) && !Below(e, leaf) && !Below(c, e / 2) && e / 2 != c / 2 && Below(e, z)
    ensures z != c / 2 && !Below(c, z)
  {
    Family(c, leaf);
    if z == c / 2 { BelowTransitive(e, z, leaf); }
    if Below(c, z) {
      Ancestors(c, e, z);
      if Below(e, c) { BelowTransitive(e, c, leaf); }
    }
  }

  lemma PlacedBeside(t: seq<int>, u: seq<int>, h: Heads, k: nat, c: nat, winner: nat, y: nat)
    requires Rising(t, u, h, k, c, winner) && c >= 2 && c / 2 < |u| && !Full(|t|, k, Sibling(c))
    requires 1 <= y < |t| && Waits(t, h, k, y) && !Below(c, y) && y != c / 2
    ensures Waits(u[c / 2 := winner], h, k + 1, y)
  {
    hide Below, Full, AllPlayed, Beats;
    Beside(t, u, h, k, c, winner, 2 * y, winner);
    Beside(t, u, h, k, c, winner, 2 * y + 1, winner);
  }

  lemma PlacedBelow(t: seq<int>, u: seq<int>, h: Heads, k: nat, c: nat, winner: nat, y: nat)
    requires Rising(t, u, h, k, c, winner) && c >= 2 && c / 2 < |u|
    requires 1 <= y < |t| && Below(c, y)
    ensures Waits(u[c / 2 := winner], h, k + 1, y)
  {
    hide Below, Full, Played, Win;
    MatchAlike(u, h, false, c, winner);
    FullBelow(|t|, k + 1, c, y);
    FullChildren(|t|, k + 1, y);
  }

  lemma PlacedHere(t: seq<int>, u: seq<int>, h: Heads, k: nat, c: nat, winner: nat)
    requires Rising(t, u, h, k, c, winner) && c >= 2 && c / 2 < |u| && !Full(|t|, k, Sibling(c))
    ensures Waits(u[c / 2 := winner], h, k + 1, c / 2)
  {
    hide Below, Full, Played, Win;
    MatchAlike(u, h, false, c, winner);
    Family(c, |t| + k);
    FullAlike(|t|, k, Sibling(c));
  }

  /** A winner that finds its parent empty waits there. */
  lemma Placed(t: seq<int>, u: seq<int>, h: Heads, k: nat, c: nat, winner: nat)
    requires Rising(t, u, h, k, c, winner) && Built(t, h, k) && c >= 2 && c / 2 < |u| && u[c / 2] == EMPTY
    ensures Built(u[c / 2 := winner], h, k + 1) && k + 1 < |t|
  {
    hide Below, Waits, Full, AllPlayed;
    WaitsAbove(t, u, h, k, c, winner);
    var v, m := u[c / 2 := winner], k + 1;
    forall y | 1 <= y < |t| ensures Waits(v, h, m, y) {
      if Below(c, y) {
        PlacedBelow(t, u, h, k, c, winner, y);
      } else if y == c / 2 {
        PlacedHere(t, u, h, k, c, winner);
      } else {
        PlacedBeside(t, u, h, k, c, winner, y);
      }
    }
    if k + 1 == |t| { LastIsElsewhere(|t|, c); }
  }

  lemma LastIsElsewhere(n: nat, c: nat)
    requires c >= 2 && n >= 1 && Below(c, n + (n - 1))
    ensures Full(n, n - 1, Sibling(c))
  {
    hide Below;
    forall s: nat | s < n && Hosts(n, Sibling(c), s) ensures s < n - 1 { Family(c, n + (n - 1)); }
  }

  /** The winner that reaches the top has won against all streams. */
  lemma Crowned(t: seq<int>, u: seq<int>, h: Heads, k: nat, winner: nat)
    requires Rising(t, u, h, k, 1, winner)
    ensures k + 1 == |t| && Settled(u[0 := winner], h, false) && Built(u[0 := winner], h, k + 1)
  {
    hide Below, Played, Win;
    ClimbEnds(t, u, h, false, k, winner);
    BelowRoot(|t| + (|t| - 1));
    assert Hosts(|t|, 1, |t| - 1);
    var v, m := u[0 := winner], k + 1;
    forall y | 1 <= y < |v| ensures Waits(v, h, m, y) { BelowRoot(y); }
  }

  lemma NothingBuilt(t: seq<int>, h: Heads)
    requires |t| == |h| && forall x :: 0 <= x < |t| ==> t[x] == EMPTY
    ensures Built(t, h, 0)
  {
    hide Below, Win, Played;
    forall x | 1 <= x < |t| ensures Waits(t, h, 0, x) {
      WinIsBelow(t, 2 * x);
      WinIsBelow(t, 2 * x + 1);
      assert Hosts(|t|, 2 * x, Win(t, 2 * x)) && Hosts(|t|, 2 * x + 1, Win(t, 2 * x + 1));
    }
  }

  /** `init_loser_tree` */
  method InitLoserTree(h: Heads) returns (t: seq<int>)
    requires h != []
    ensures Settled(t, h, false)
  {
    hide Below, Win, Rising, Built, AllPlayed, Played, Settled;
    t := seq(|h|, _ => EMPTY);
    NothingBuilt(t, h);
    for i := 0 to |h|
      invariant |t| == |h| && Built(t, h, i) && (i == |h| ==> Settled(t, h, false))
    {
      ghost var before := t;
      var winner: nat := i;
      var x := (|h| + i) / 2;
      ghost var c := |h| + i;
      RisesFromLeaf(t, h, i);
      while x != 0 && t[x] != EMPTY
        invariant c >= 1 && x == c / 2 < |h| == |t| && winner < |h|
        invariant Rising(before, t, h, i, c, winner)
      {
        RisingMeets(before, t, h, i, c, winner);
        var challenger := t[x];
        Compared(h, winner, challenger);
        if IsGt(h, winner, challenger) {
          RisesOn(before, t, h, i, c, winner, challenger, winner);
          t := t[x := winner];
          winner := challenger;
        } else {
          RisesOn(before, t, h, i, c, winner, winner, challenger);
          assert t[x := challenger] == t;
        }
        c := c / 2;
        x := x / 2;
      }
      if x == 0 { Crowned(before, t, h, i, winner); } else { Placed(before, t, h, i, c, winner); }
      t := t[x := winner];
    }
  }

  lemma RisingMeets(t: seq<int>, u: seq<int>, h: Heads, k: nat, c: nat, winner: nat)
    requires Rising(t, u, h, k, c, winner) && Built(t, h, k) && c >= 2 && c / 2 < |u| && u[c / 2] != EMPTY
    ensures 0 <= u[c / 2] < |h| && u[c / 2] != winner
  {
    WaitsAbove(t, u, h, k, c, winner);
    Different(u, c);
  }
}
