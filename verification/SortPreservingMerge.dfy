/** Merging sorted streams with a tournament tree (datafusion/physical-plan/src/sorts/merge.rs). */
module SortPreservingMerge {
  import opened Text
  import opened LoserTree
  import opened TieBreaker

  /** A row of the output: the stream it is from and its position there. */
  datatype Row = Row(stream: nat, index: nat)

  type Streams = seq<seq<int>>

  predicate Ascending(s: seq<int>) {
    forall i, j :: 0 <= i <= j < |s| ==> s[i] <= s[j]
  }

  ghost predicate AllAscending(streams: Streams) {
    forall s <- streams :: Ascending(s)
  }

  predicate Positions(streams: Streams, pos: seq<nat>) {
    |pos| == |streams| && forall s :: 0 <= s < |pos| ==> pos[s] <= |streams[s]|
  }

  function HeadAt(stream: seq<int>, i: nat): Option<int> {
    if i < |stream| then Some(stream[i]) else None
  }

  /** The current keys of all streams. */
  function HeadsAt(streams: Streams, pos: seq<nat>): (h: Heads)
    requires Positions(streams, pos)
    ensures |h| == |streams|
  {
    seq(|streams|, s requires 0 <= s < |streams| => HeadAt(streams[s], pos[s]))
  }

  // What the output is

  function CountOf(out: seq<Row>, s: nat): nat {
    if out == [] then 0 else CountOf(out[..|out| - 1], s) + if out[|out| - 1].stream == s then 1 else 0
  }

  predicate InRange(streams: Streams, r: Row) {
    r.stream < |streams| && r.index < |streams[r.stream]|
  }

  function KeyOf(streams: Streams, r: Row): int
    requires InRange(streams, r)
  {
    streams[r.stream][r.index]
  }

  /** The rows of each stream are there in their order, from the first on. */
  ghost predicate Interleaves(streams: Streams, out: seq<Row>) {
    forall j :: 0 <= j < |out| ==> InRange(streams, out[j]) && out[j].index == CountOf(out[..j], out[j].stream)
  }

  ghost predicate KeysAscend(streams: Streams, out: seq<Row>)
    requires forall r <- out :: InRange(streams, r)
  {
    forall i, j :: 0 <= i <= j < |out| ==> KeyOf(streams, out[i]) <= KeyOf(streams, out[j])
  }

  /** No row is left out whose key is smaller than one that is there. */
  ghost predicate Smallest(streams: Streams, out: seq<Row>)
    requires forall r <- out :: InRange(streams, r)
  {
    forall j, s, i :: 0 <= j < |out| && 0 <= s < |streams| && CountOf(out, s) <= i < |streams[s]| ==>
      KeyOf(streams, out[j]) <= streams[s][i]
  }

  // The simple form: look at every stream for every row

  /** The first stream with the least key. */
  function Least(h: Heads): (s: nat)
    requires h != []
    ensures s < |h| && forall k :: 0 <= k < |h| ==> StableLe(h, s, k)
    ensures forall k :: 0 <= k < |h| && h[s].Some? && StableLe(h, k, s) ==> k == s
  {
    if |h| == 1 then 0
    else
      var m := Least(h[..|h| - 1]);
      var last := |h| - 1;
      assert forall k :: 0 <= k < last ==> StableLe(h[..last], m, k) && h[..last][k] == h[k];
      if StableLe(h, m, last) then m else last
  }

  /** The streams' positions behind the rows of an output. */
  function Behind(streams: Streams, out: seq<Row>): seq<nat> {
    seq(|streams|, s requires 0 <= s => CountOf(out, s))
  }

  /** Every row is from the first stream that has the least key at that point. */
  ghost predicate IsStable(streams: Streams, out: seq<Row>) {
    forall j :: 0 <= j < |out| ==>
      && Positions(streams, Behind(streams, out[..j])) && streams != []
      && out[j].stream == Least(HeadsAt(streams, Behind(streams, out[..j])))
  }

  /** The row behind this one has the same key. */
  predicate Repeats(streams: Streams, r: Row)
    requires InRange(streams, r)
  {
    r.index + 1 < |streams[r.stream]| && streams[r.stream][r.index + 1] == streams[r.stream][r.index]
  }

  /** Behind an output, with the tie breaker's states along it, `next` is the winner to come and `now`
      the state that goes with it: first the first of the least streams, then as the tie breaker has
      it. */
  ghost predicate Due(streams: Streams, out: seq<Row>, ties: seq<Ties>, now: Ties, next: nat) {
    var n := |streams|;
    && n > 0 && |ties| == |out| && Positions(streams, Behind(streams, out))
    && var h := HeadsAt(streams, Behind(streams, out));
       if out == [] then now == Ties(false, seq(n, _ => 0)) && next == Least(h)
       else
         var r, t := out[|out| - 1], ties[|out| - 1];
         InRange(streams, r) && |t.counts| == n && Follows(h, t, r.stream, Repeats(streams, r), now, next)
  }

  /** With a tie breaker: every row is from the winner that is due. */
  ghost predicate Turns(streams: Streams, out: seq<Row>, ties: seq<Ties>) {
    |ties| == |out| && forall j :: 0 <= j < |out| ==> Due(streams, out[..j], ties[..j], ties[j], out[j].stream)
  }

  lemma TurnsOneMore(streams: Streams, out: seq<Row>, ties: seq<Ties>, now: Ties, r: Row)
    requires Turns(streams, out, ties) && Due(streams, out, ties, now, r.stream)
    ensures Turns(streams, out + [r], ties + [now])
  {
    hide Due;
    var all, states := out + [r], ties + [now];
    forall j | 0 <= j < |all| ensures Due(streams, all[..j], states[..j], states[j], all[j].stream) {
      if j < |out| {
        assert all[..j] == out[..j] && states[..j] == ties[..j];
      } else {
        assert all[..j] == out && states[..j] == ties;
      }
    }
  }

  lemma FirstDue(streams: Streams, t: seq<int>, now: Ties)
    requires streams != [] && Positions(streams, Behind(streams, []))
    requires now == Ties(false, seq(|streams|, _ => 0))
    requires Settled(t, HeadsAt(streams, Behind(streams, [])), false)
    ensures var h := HeadsAt(streams, Behind(streams, []));
            0 <= t[0] < |h| && (h[t[0]].Some? ==> Due(streams, [], [], now, t[0]))
  {
    hide Settled, Behind, HeadsAt, Least;
    StableTopIsLeast(t, HeadsAt(streams, Behind(streams, [])));
  }

  lemma NextDue(streams: Streams, out: seq<Row>, ties: seq<Ties>, r: Row, t: Ties, now: Ties, next: nat)
    requires |ties| == |out| && InRange(streams, r) && |t.counts| == |streams|
    requires Positions(streams, Behind(streams, out + [r]))
    requires Follows(HeadsAt(streams, Behind(streams, out + [r])), t, r.stream, Repeats(streams, r), now, next)
    ensures Due(streams, out + [r], ties + [t], now, next)
  {
  }

  lemma CountOneMore(out: seq<Row>, r: Row, s: nat)
    ensures CountOf(out + [r], s) == CountOf(out, s) + if r.stream == s then 1 else 0
  {
    assert (out + [r])[..|out + [r]| - 1] == out;
  }

  /** The winner of a settled tree is a least stream. */
  lemma TopIsLeast(t: seq<int>, h: Heads, tieBreaker: bool, s: nat)
    requires Settled(t, h, tieBreaker) && s < |h|
    ensures 0 <= t[0] < |h| && KeyLe(h, t[0], s) && (!tieBreaker ==> StableLe(h, t[0], s))
  {
    hide Below, Win, AllPlayed;
    BelowRoot(|t| + s);
    WinnerIsLeast(t, h, tieBreaker, 1, s);
  }

  lemma StableTopIsLeast(t: seq<int>, h: Heads)
    requires Settled(t, h, false)
    ensures 0 <= t[0] < |h| && (h[t[0]].Some? ==> t[0] == Least(h))
  {
    hide AllPlayed, Win, KeyLe;
    TopIsLeast(t, h, false, Least(h));
    var w: nat := t[0];
    assert StableLe(h, Least(h), w) && StableLe(h, w, Least(h));
  }

  /** A tree that goes by streams among equal keys serves as one that does not. */
  lemma SettledAnyway(t: seq<int>, h: Heads, tieBreaker: bool)
    requires Settled(t, h, false)
    ensures Settled(t, h, tieBreaker)
  {
    hide Below, Win;
    forall y | 1 <= y < |t| && Below(1, y) ensures Played(t, h, tieBreaker, y) {
      assert Played(t, h, false, y);
      KeysOnly(h, Win(t, y), t[y]);
    }
  }

  class MergeStream {
    const streams: Streams
    const tieBreaker: bool
    const fetch: Option<nat>
    var pos: seq<nat>
    var cursors: Heads
    var tree: seq<int>

    // The tie breaker
    var roundRobin: bool
    var polled: seq<nat>
    var pollEpochs: seq<nat>
    var epoch: nat

    ghost predicate Valid()
      reads this
    {
      && streams != [] && fetch != Some(0) && AllAscending(streams)
      && Positions(streams, pos) && cursors == HeadsAt(streams, pos)
      && |polled| == |pollEpochs| == |streams| && forall k :: 0 <= k < |pollEpochs| ==> pollEpochs[k] <= epoch
    }

    constructor (streams: Streams, tieBreaker: bool, fetch: Option<nat>)
      requires streams != [] && fetch != Some(0) && AllAscending(streams)
      ensures Valid() && pos == Behind(streams, []) && this.streams == streams && this.tieBreaker == tieBreaker
      ensures this.fetch == fetch && TieState() == Ties(false, seq(|streams|, _ => 0))
    {
      this.streams, this.tieBreaker, this.fetch := streams, tieBreaker, fetch;
      pos := seq(|streams|, _ => 0);
      cursors := seq(|streams|, s requires 0 <= s < |streams| => HeadAt(streams[s], 0));
      tree := [];
      roundRobin, epoch := false, 0;
      polled, pollEpochs := seq(|streams|, _ => 0), seq(|streams|, _ => 0);
    }

    /** The polls of a stream in the current round of the tie breaker. */
    function PollCount(s: nat): nat
      requires s < |polled| == |pollEpochs|
      reads this
    {
      if pollEpochs[s] == epoch then polled[s] else 0
    }

    /** The tie breaker's state, with the counts that the epochs stand for. */
    function TieState(): (ties: Ties)
      requires |polled| == |pollEpochs| == |streams|
      reads this
      ensures |ties.counts| == |streams|
    {
      Ties(roundRobin, seq(|streams|, s requires 0 <= s < |streams| reads this
                             requires |polled| == |pollEpochs| == |streams| => PollCount(s)))
    }

    /** The current row has the key of the row before it. */
    predicate EqualsPrevious(s: nat)
      requires s < |streams| == |pos|
      reads this
    {
      0 < pos[s] < |streams[s]| && streams[s][pos[s]] == streams[s][pos[s] - 1]
    }

    method UpdatePollCount(s: nat)
      requires Valid() && s < |streams| && cursors[s].Some?
      modifies this`polled, this`pollEpochs
      ensures Valid()
      ensures PollCount(s) == if EqualsPrevious(s) then old(PollCount(s)) + 1 else 0
      ensures forall k :: 0 <= k < |streams| && k != s ==> PollCount(k) == old(PollCount(k))
    {
      if pollEpochs[s] != epoch {
        pollEpochs := pollEpochs[s := epoch];
        polled := polled[s := 0];
      }
      polled := polled[s := if EqualsPrevious(s) then polled[s] + 1 else 0];
    }

    /** `handle_tie`: whether the challenger takes the root from a winner with the same key. A new
        round starts with all counts at zero, although only the epoch changes. */
    method HandleTie(winner: nat, challenger: nat) returns (swap: bool)
      requires Valid() && winner < |streams| && challenger < |streams| && cursors[winner].Some?
      requires tree != [] && 0 <= tree[0] < |streams|
      modifies this`roundRobin, this`polled, this`pollEpochs, this`epoch
      ensures Valid()
      ensures (TieState(), swap) == Tie(old(TieState()), tree[0], EqualsPrevious(tree[0]), winner, challenger)
    {
      if !roundRobin {
        roundRobin := true;
        epoch := epoch + 1;
      }
      ghost var counts := RoundCounts(old(TieState()));
      assert TieState().counts == counts;
      if winner == tree[0] {
        UpdatePollCount(winner);
        assert TieState().counts == counts[winner := if EqualsPrevious(winner) then counts[winner] + 1 else 0];
        swap := PollCount(winner) > PollCount(challenger)
                || (PollCount(winner) == PollCount(challenger) && winner > challenger);
      } else {
        swap := challenger < winner;
      }
    }

    /** The match at the root: the loser never has a smaller key, and without a tie breaker equal keys
        go by stream. */
    method RootMatch(winner: nat, challenger: nat) returns (swap: bool)
      requires Valid() && winner < |streams| && challenger < |streams| && tree != [] && 0 <= tree[0] < |streams|
      modifies this`roundRobin, this`polled, this`pollEpochs, this`epoch
      ensures Valid()
      ensures tieBreaker ==>
                (TieState(), swap)
                == RootChoice(cursors, old(TieState()), tree[0], EqualsPrevious(tree[0]), winner, challenger)
      ensures if swap then Beats(cursors, tieBreaker, 1, challenger, winner)
              else Beats(cursors, tieBreaker, 1, winner, challenger)
    {
      if tieBreaker {
        match (cursors[winner], cursors[challenger])
        case (Some(a), Some(b)) =>
          if a == b {
            swap := HandleTie(winner, challenger);
          } else {
            roundRobin := false;
            swap := a > b;
          }
        case (None, _) =>
          roundRobin := false;
          swap := true;
        case (_, None) =>
          roundRobin := false;
          swap := false;
      } else {
        Compared(cursors, winner, challenger);
        swap := IsGt(cursors, winner, challenger);
      }
      assert !SameKey(cursors, winner, challenger) ==> TieState().counts == old(TieState()).counts;
    }

    /** `update_loser_tree`: after the winner's head has changed, the tree is settled again. */
    method UpdateLoserTree(ghost before: Heads)
      requires Valid() && Settled(tree, before, tieBreaker) && 0 <= tree[0] && Moved(before, cursors, tree[0])
      modifies this`tree, this`roundRobin, this`polled, this`pollEpochs, this`epoch
      ensures Valid() && Settled(tree, cursors, tieBreaker)
      ensures tieBreaker ==>
                0 <= old(tree[0]) < |streams| && 0 <= tree[0]
                && Follows(cursors, old(TieState()), old(tree[0]), EqualsPrevious(old(tree[0])), TieState(), tree[0])
    {
      hide Below, Win, AllPlayed, AgreeOutside, Climbing, Beats, Leads, RootChoice, HalfOf, Follows;
      var t := tree;
      ghost var w: nat := tree[0];
      var u, winner, x, c, matches := Climb(t, cursors, tieBreaker, before);
      ClimbingIs(t, u, cursors, tieBreaker, c, w, winner);
      if x == 1 {
        var challenger: nat := u[1];
        LeadersMeet(t, u, before, cursors, tieBreaker, c, w, winner);
        var swap := RootMatch(winner, challenger);
        FollowsByChoice(cursors, old(TieState()), w, EqualsPrevious(w), winner, challenger);
        if swap {
          ClimbGoesOn(t, u, before, cursors, tieBreaker, c, w, winner, challenger, winner);
          u := u[1 := winner];
          winner := challenger;
        } else {
          ClimbGoesOn(t, u, before, cursors, tieBreaker, c, w, winner, winner, challenger);
          assert u[1 := challenger] == u;
        }
        c := c / 2;
      }
      ClimbEnds(t, u, cursors, tieBreaker, w, winner);
      ghost var ties := TieState();
      tree := u[0 := winner];
      assert TieState().counts == ties.counts;
      if |streams| == 1 {
        assert ties.counts == old(TieState()).counts;
        FollowsAlone(cursors, ties, w, EqualsPrevious(w));
      }
    }

    /** `advance_cursors` and the poll behind it: the next row of a stream, if it has one. */
    method Advance(s: nat)
      requires Valid() && s < |streams| && cursors[s].Some?
      modifies this`pos, this`cursors
      ensures Valid() && pos == old(pos)[s := old(pos)[s] + 1] && Moved(old(cursors), cursors, s)
      ensures TieState() == old(TieState())
    {
      pos := pos[s := pos[s] + 1];
      cursors := cursors[s := HeadAt(streams[s], pos[s])];
      assert TieState().counts == old(TieState()).counts;
    }

    method BuildTree()
      requires Valid()
      modifies this`tree
      ensures Valid() && Settled(tree, cursors, false) && TieState() == old(TieState())
    {
      hide Settled;
      tree := InitLoserTree(cursors);
      assert TieState().counts == old(TieState()).counts;
    }

    /** The winner moves on, and the next one is found: behind `out` and the row just taken it is the
        stream whose turn it is. */
    method NextWinner(ghost out: seq<Row>, ghost ties: seq<Ties>)
      requires Valid() && Settled(tree, cursors, tieBreaker) && tree != [] && 0 <= tree[0] < |streams|
      requires cursors[tree[0]].Some? && pos == Behind(streams, out) && |ties| == |out|
      modifies this`pos, this`cursors, this`tree, this`roundRobin, this`polled, this`pollEpochs, this`epoch
      ensures Valid() && Settled(tree, cursors, tieBreaker) && tree != [] && 0 <= tree[0] < |streams|
      ensures pos == Behind(streams, out + [Row(old(tree[0]), old(pos[tree[0]]))])
      ensures Left(streams, pos) < old(Left(streams, pos))
      ensures tieBreaker ==>
                Due(streams, out + [Row(old(tree[0]), old(pos[tree[0]]))], ties + [old(TieState())],
                    TieState(), tree[0])
    {
      hide Settled, CountOf, Behind, HeadsAt, Left, InRange, AllAscending, Moved, Due, Follows, Repeats, TieState;
      var w: nat := tree[0];
      ghost var r, t, before := Row(w, pos[w]), TieState(), cursors;
      HeadIsThere(streams, pos, w);
      BehindCounts(streams, out);
      LeftAfter(streams, pos, w);
      Advance(w);
      UpdateLoserTree(before);
      SettledTop(tree, cursors, tieBreaker);
      BehindOneMore(streams, out, r);
      RepeatsIs(streams, pos, r);
      if tieBreaker { NextDue(streams, out, ties, r, t, TieState(), tree[0]); }
    }

    /** The loop of `create_stream`: rows in ascending order, those of a stream in their order, none
        left out that is smaller than one that is there; all of them, or as many as are asked for.
        Without a tie breaker, always the first of the least streams; with one, the stream whose turn
        it is. */
    method Merge() returns (out: seq<Row>, ghost ties: seq<Ties>)
      requires Valid() && pos == Behind(streams, []) && TieState() == Ties(false, seq(|streams|, _ => 0))
      modifies this
      ensures Interleaves(streams, out) && (forall r <- out :: InRange(streams, r))
      ensures KeysAscend(streams, out) && Smallest(streams, out)
      ensures fetch.Some? ==> |out| <= fetch.value
      ensures fetch.None? || |out| < fetch.value ==> forall s :: 0 <= s < |streams| ==> CountOf(out, s) == |streams[s]|
      ensures if tieBreaker then Turns(streams, out, ties) else IsStable(streams, out)
    {
      hide Settled, CountOf, KeysAscend, Smallest, Interleaves, IsStable, Least, Merged;
      hide Behind, HeadsAt, Left, InRange, AllAscending, Moved, Turns, Due, Follows, Repeats, TieState;
      BuildTree();
      FirstDue(streams, tree, TieState());
      SettledAnyway(tree, cursors, tieBreaker);
      out, ties := [], [];
      NoTurns(streams);
      NothingMerged(streams);
      SettledTop(tree, cursors, tieBreaker);
      while cursors[tree[0]].Some?
        invariant Valid() && Settled(tree, cursors, tieBreaker) && tree != [] && 0 <= tree[0] < |streams|
        invariant pos == Behind(streams, out) && Merged(streams, tieBreaker, out)
        invariant fetch.Some? ==> |out| < fetch.value
        invariant |ties| == |out| && (tieBreaker ==> Turns(streams, out, ties))
        invariant tieBreaker && cursors[tree[0]].Some? ==> Due(streams, out, ties, TieState(), tree[0])
        decreases Left(streams, pos)
      {
        var w: nat := tree[0];
        var r := Row(w, pos[w]);
        HeadIsThere(streams, pos, w);
        BehindCounts(streams, out);
        OneMoreRow(streams, tieBreaker, out, pos, cursors, tree);
        if tieBreaker { TurnsOneMore(streams, out, ties, TieState(), r); }
        ghost var taken, states := out, ties;
        out, ties := out + [r], ties + [TieState()];
        if fetch.Some? && |out| >= fetch.value { MergedIs(streams, tieBreaker, out); return; }
        NextWinner(taken, states);
      }
      MergedIs(streams, tieBreaker, out);
      BehindCounts(streams, out);
      AllMerged(streams, pos, cursors, tree, tieBreaker);
    }
  }

  lemma FollowsAlone(h: Heads, ties: Ties, top: nat, repeats: bool)
    requires |ties.counts| == |h| == 1 && top == 0
    ensures Follows(h, ties, top, repeats, ties, top)
  {
  }

  /** Two winners that meet at the root lead their halves. */
  lemma LeadersMeet(t: seq<int>, u: seq<int>, h: Heads, g: Heads, tieBreaker: bool, c: nat, w: nat, winner: nat)
    requires |t| == |h| && Moved(h, g, w) && AllPlayed(t, h, tieBreaker, 1) && Win(t, 1) == w
    requires c / 2 == 1 && Climbing(t, u, g, tieBreaker, c, w, winner) && |u| >= 2 && 0 <= u[1] < |g|
    ensures w < |g| && HalfOf(g, w) == c && Leads(g, c, winner) && Leads(g, 5 - c, u[1])
  {
    hide Below, Win, Half, StableLe;
    Challenger(t, u, h, g, tieBreaker, c, w);
    HalfIsBelow(c, |g| + w);
    WinnerLeads(u, g, tieBreaker, c);
    WinnerLeads(u, g, tieBreaker, 5 - c);
  }

  lemma WinnerLeads(u: seq<int>, g: Heads, tieBreaker: bool, c: nat)
    requires 2 <= c <= 3 && |u| == |g| >= 2 && AllPlayed(u, g, tieBreaker, c)
    ensures Leads(g, c, Win(u, c))
  {
    hide Below, Win, Half, StableLe, AllPlayed;
    WinIsBelow(u, c);
    HalfIsBelow(c, |g| + Win(u, c));
    forall k: nat | k < |g| && HalfOf(g, k) == c ensures StableLe(g, Win(u, c), k) {
      HalfIsBelow(c, |g| + k);
      WinnerIsLeast(u, g, tieBreaker, c, k);
    }
  }

  /** Every winner leads its half. */
  lemma TopLeadsItsHalf(t: seq<int>, h: Heads, tieBreaker: bool)
    requires Settled(t, h, tieBreaker) && |h| >= 2
    ensures 0 <= t[0] < |h| && Leads(h, HalfOf(h, t[0]), t[0])
  {
    hide Below, Win, Half, AllPlayed;
    var w: nat := t[0];
    var c := HalfOf(h, w);
    HalfIsBelow(c, |h| + w);
    WinnerOnPath(t, h, tieBreaker, c, w);
    PlayedBelow(t, h, tieBreaker, c);
    WinnerLeads(t, h, tieBreaker, c);
  }

  lemma SettledTop(t: seq<int>, h: Heads, tieBreaker: bool)
    requires Settled(t, h, tieBreaker)
    ensures |t| == |h| && h != [] && 0 <= t[0] < |h|
  {
  }

  lemma RepeatsIs(streams: Streams, pos: seq<nat>, r: Row)
    requires |pos| == |streams| && r.stream < |streams| && r.index < |streams[r.stream]| && pos[r.stream] == r.index + 1
    ensures InRange(streams, r)
    ensures Repeats(streams, r) <==>
            0 < pos[r.stream] < |streams[r.stream]|
            && streams[r.stream][pos[r.stream]] == streams[r.stream][pos[r.stream] - 1]
  {
  }

  lemma NoTurns(streams: Streams)
    ensures Turns(streams, [], [])
  {
  }

  lemma HeadIsThere(streams: Streams, pos: seq<nat>, s: nat)
    requires Positions(streams, pos) && s < |streams| && HeadsAt(streams, pos)[s].Some?
    ensures pos[s] < |streams[s]|
  {
    assert HeadsAt(streams, pos)[s] == HeadAt(streams[s], pos[s]);
  }

  lemma BehindCounts(streams: Streams, out: seq<Row>)
    ensures |Behind(streams, out)| == |streams|
    ensures forall s :: 0 <= s < |streams| ==> Behind(streams, out)[s] == CountOf(out, s)
  {
  }

  /** What the loop keeps. */
  ghost predicate Merged(streams: Streams, tieBreaker: bool, out: seq<Row>) {
    && Interleaves(streams, out) && (forall r <- out :: InRange(streams, r))
    && KeysAscend(streams, out) && Smallest(streams, out) && (!tieBreaker ==> IsStable(streams, out))
  }

  /** The rows that are still to come. */
  function Left(streams: Streams, pos: seq<nat>): nat
    requires Positions(streams, pos)
  {
    if streams == [] then 0
    else
      var n := |streams| - 1;
      Left(streams[..n], pos[..n]) + (|streams[n]| - pos[n])
  }

  lemma {:induction false} LeftAfter(streams: Streams, pos: seq<nat>, w: nat)
    requires Positions(streams, pos) && w < |streams| && pos[w] < |streams[w]|
    ensures Left(streams, pos[w := pos[w] + 1]) < Left(streams, pos)
  {
    var n := |streams| - 1;
    var next := pos[w := pos[w] + 1];
    if w < n {
      LeftAfter(streams[..n], pos[..n], w);
      assert next[..n] == pos[..n][w := pos[w] + 1];
    } else {
      assert next[..n] == pos[..n];
    }
  }

  lemma NothingMerged(streams: Streams)
    ensures Merged(streams, false, []) && Merged(streams, true, [])
  {
  }

  lemma MergedIs(streams: Streams, tieBreaker: bool, out: seq<Row>)
    requires Merged(streams, tieBreaker, out)
    ensures Interleaves(streams, out) && (forall r <- out :: InRange(streams, r))
    ensures KeysAscend(streams, out) && Smallest(streams, out) && (!tieBreaker ==> IsStable(streams, out))
  {
  }

  lemma BehindOneMore(streams: Streams, out: seq<Row>, r: Row)
    requires r.stream < |streams|
    ensures Behind(streams, out + [r]) == Behind(streams, out)[r.stream := CountOf(out, r.stream) + 1]
  {
    forall s | 0 <= s < |streams|
      ensures Behind(streams, out + [r])[s] == Behind(streams, out)[r.stream := CountOf(out, r.stream) + 1][s]
    {
      CountOneMore(out, r, s);
    }
  }

  lemma StaysInterleaved(streams: Streams, out: seq<Row>, r: Row)
    requires Interleaves(streams, out) && InRange(streams, r) && r.index == CountOf(out, r.stream)
    ensures Interleaves(streams, out + [r])
  {
    hide CountOf;
    var all := out + [r];
    forall j | 0 <= j < |all| ensures InRange(streams, all[j]) && all[j].index == CountOf(all[..j], all[j].stream) {
      if j < |out| { assert all[..j] == out[..j]; } else { assert all[..j] == out; }
    }
  }

  /** A row that is no greater than any that is left is no smaller than any that is there. */
  lemma {:induction false} StaysAscending(streams: Streams, out: seq<Row>, r: Row)
    requires (forall q <- out :: InRange(streams, q)) && InRange(streams, r) && r.index == CountOf(out, r.stream)
    requires KeysAscend(streams, out) && Smallest(streams, out)
    ensures KeysAscend(streams, out + [r])
  {
    hide CountOf;
    var all := out + [r];
    forall i, j | 0 <= i <= j < |all| ensures KeyOf(streams, all[i]) <= KeyOf(streams, all[j]) {
      if i < |out| && j == |out| { assert KeyOf(streams, out[i]) <= streams[r.stream][r.index]; }
    }
  }

  /** The key is no greater than what is left of any stream. */
  ghost predicate Lowest(streams: Streams, pos: seq<nat>, key: int)
    requires Positions(streams, pos)
  {
    forall s, i :: 0 <= s < |streams| && pos[s] <= i < |streams[s]| ==> key <= streams[s][i]
  }

  lemma StaysSmallest(streams: Streams, out: seq<Row>, r: Row, pos: seq<nat>)
    requires (forall q <- out :: InRange(streams, q)) && InRange(streams, r) && Smallest(streams, out)
    requires Positions(streams, pos) && pos == Behind(streams, out) && Lowest(streams, pos, KeyOf(streams, r))
    ensures Smallest(streams, out + [r])
  {
    hide CountOf;
    var all := out + [r];
    forall j, s, i | 0 <= j < |all| && 0 <= s < |streams| && CountOf(all, s) <= i < |streams[s]|
      ensures KeyOf(streams, all[j]) <= streams[s][i]
    {
      CountOneMore(out, r, s);
      assert pos[s] == CountOf(out, s) <= i;
      if j < |out| { assert all[j] == out[j]; }
    }
  }

  lemma TopIsLowest(streams: Streams, pos: seq<nat>, h: Heads, t: seq<int>, tieBreaker: bool)
    requires streams != [] && AllAscending(streams) && Positions(streams, pos) && h == HeadsAt(streams, pos)
    requires Settled(t, h, tieBreaker) && 0 <= t[0] < |h| && h[t[0]].Some?
    ensures Lowest(streams, pos, h[t[0]].value)
  {
    hide Settled;
    SettledTop(t, h, tieBreaker);
    forall s, i | 0 <= s < |streams| && pos[s] <= i < |streams[s]| ensures h[t[0]].value <= streams[s][i] {
      TopIsLeast(t, h, tieBreaker, s);
      assert h[s] == HeadAt(streams[s], pos[s]);
      assert Ascending(streams[s]);
    }
  }

  lemma StaysStable(streams: Streams, out: seq<Row>, r: Row, pos: seq<nat>, h: Heads, t: seq<int>)
    requires streams != [] && Positions(streams, pos) && h == HeadsAt(streams, pos) && pos == Behind(streams, out)
    requires Settled(t, h, false) && 0 <= t[0] < |h| && h[t[0]].Some? && r.stream == t[0] && IsStable(streams, out)
    ensures IsStable(streams, out + [r])
  {
    hide Settled, Least, CountOf;
    StableTopIsLeast(t, h);
    var all := out + [r];
    forall j | 0 <= j < |all|
      ensures Positions(streams, Behind(streams, all[..j]))
      ensures all[j].stream == Least(HeadsAt(streams, Behind(streams, all[..j])))
    {
      if j < |out| { assert all[..j] == out[..j]; } else { assert all[..j] == out; }
    }
  }

  lemma OneMoreRow(streams: Streams, tieBreaker: bool, out: seq<Row>, pos: seq<nat>, h: Heads, t: seq<int>)
    requires streams != [] && AllAscending(streams) && Positions(streams, pos) && h == HeadsAt(streams, pos)
    requires Merged(streams, tieBreaker, out) && pos == Behind(streams, out)
    requires Settled(t, h, tieBreaker) && 0 <= t[0] < |h| && h[t[0]].Some?
    ensures Merged(streams, tieBreaker, out + [Row(t[0], pos[t[0]])])
  {
    hide Settled, Interleaves, KeysAscend, Smallest, IsStable, CountOf, Lowest;
    SettledTop(t, h, tieBreaker);
    var w: nat := t[0];
    var r := Row(w, pos[w]);
    assert h[w] == HeadAt(streams[w], pos[w]);
    TopIsLowest(streams, pos, h, t, tieBreaker);
    StaysInterleaved(streams, out, r);
    StaysAscending(streams, out, r);
    StaysSmallest(streams, out, r, pos);
    if !tieBreaker { StaysStable(streams, out, r, pos, h, t); }
  }

  /** When the winner is exhausted all streams are. */
  lemma AllMerged(streams: Streams, pos: seq<nat>, h: Heads, t: seq<int>, tieBreaker: bool)
    requires Positions(streams, pos) && h == HeadsAt(streams, pos) && Settled(t, h, tieBreaker)
    requires 0 <= t[0] < |h| && h[t[0]].None?
    ensures forall s :: 0 <= s < |streams| ==> pos[s] == |streams[s]|
  {
    hide Settled;
    forall s | 0 <= s < |streams| ensures pos[s] == |streams[s]| {
      TopIsLeast(t, h, tieBreaker, s);
      assert h[s] == HeadAt(streams[s], pos[s]);
    }
  }

  // The stable merge

  lemma {:induction false} CountsGrow(out: seq<Row>, i: nat, j: nat, s: nat)
    requires i <= j <= |out|
    ensures CountOf(out[..i], s) + (if i < j && out[i].stream == s then 1 else 0) <= CountOf(out[..j], s)
  {
    if i >= j {
    } else {
      CountsGrow(out, i, j - 1, s);
      assert out[..j][..j - 1] == out[..j - 1];
    }
  }

  /** By key, then by stream, then by position in the stream. */
  predicate Precedes(streams: Streams, q: Row, r: Row)
    requires InRange(streams, q) && InRange(streams, r)
  {
    || KeyOf(streams, q) < KeyOf(streams, r)
    || (KeyOf(streams, q) == KeyOf(streams, r)
        && (q.stream < r.stream || (q.stream == r.stream && q.index < r.index)))
  }

  /** Without a tie breaker the output is what a stable sort of all streams in a row gives. */
  lemma StableIsSorted(streams: Streams, out: seq<Row>, i: nat, j: nat)
    requires AllAscending(streams) && Interleaves(streams, out) && IsStable(streams, out) && i < j < |out|
    ensures Precedes(streams, out[i], out[j])
  {
    hide CountOf, Least;
    var q, r := out[i], out[j];
    var pos := Behind(streams, out[..i]);
    var h := HeadsAt(streams, pos);
    CountsGrow(out, i, j, r.stream);
    assert h[q.stream] == HeadAt(streams[q.stream], q.index);
    assert h[r.stream] == HeadAt(streams[r.stream], pos[r.stream]);
    assert pos[r.stream] <= r.index;
    assert q.stream == Least(h) && StableLe(h, q.stream, r.stream);
    assert Ascending(streams[r.stream]) && streams[r.stream][pos[r.stream]] <= streams[r.stream][r.index];
  }

  /** With fewer rows asked for, the output is the beginning of what it is with more. */
  lemma {:induction false} StableIsPrefix(streams: Streams, out: seq<Row>, more: seq<Row>, j: nat)
    requires Interleaves(streams, out) && IsStable(streams, out)
    requires Interleaves(streams, more) && IsStable(streams, more)
    requires j <= |out| <= |more|
    ensures out[..j] == more[..j]
  {
    hide CountOf, Least;
    if j == 0 {
    } else {
      StableIsPrefix(streams, out, more, j - 1);
      assert out[j - 1] == more[j - 1];
    }
  }
}
