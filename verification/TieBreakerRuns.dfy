/** What the tie breaker of the sort-preserving merge does over whole runs
    (datafusion/physical-plan/src/sorts/merge.rs). */
module TieBreakerRuns {
  import opened Text
  import opened LoserTree
  import opened TieBreaker
  import opened SortPreservingMerge

  /** The first row, and every other one. */
  lemma FirstTurn(streams: Streams, out: seq<Row>, ties: seq<Ties>)
    requires Turns(streams, out, ties) && out != []
    ensures |ties| == |out| && Positions(streams, Behind(streams, [])) && streams != []
    ensures ties[0] == Ties(false, seq(|streams|, _ => 0))
    ensures out[0].stream == Least(HeadsAt(streams, Behind(streams, [])))
  {
    hide Least, HeadsAt, Behind;
    assert Due(streams, out[..0], ties[..0], ties[0], out[0].stream);
    assert out[..0] == [];
  }

  lemma TurnAt(streams: Streams, out: seq<Row>, ties: seq<Ties>, j: nat)
    requires Turns(streams, out, ties) && 0 < j < |out|
    ensures |ties| == |out| && Positions(streams, Behind(streams, out[..j])) && InRange(streams, out[j - 1])
    ensures |ties[j - 1].counts| == |streams|
    ensures Follows(HeadsAt(streams, Behind(streams, out[..j])), ties[j - 1], out[j - 1].stream,
                    Repeats(streams, out[j - 1]), ties[j], out[j].stream)
  {
    hide Least, HeadsAt, Behind, Follows, Repeats;
    assert Due(streams, out[..j], ties[..j], ties[j], out[j].stream);
  }

  // Four streams of one key

  function Copies(m: nat, key: int): seq<int> {
    seq(m, _ => key)
  }

  function FourAlike(m: nat, key: int): Streams {
    [Copies(m, key), Copies(m, key), Copies(m, key), Copies(m, key)]
  }

  /** The tie breaker's state when row `j` is taken. */
  function StateAt(j: nat): Ties {
    if j == 0 then Ties(false, [0, 0, 0, 0]) else Ties(true, [(j + 1) / 2, 0, j / 2, 0])
  }

  /** The first `j` rows are from streams 0 and 2 in turn. */
  ghost predicate ZeroAndTwo(out: seq<Row>, j: nat) {
    j <= |out| && forall i :: 0 <= i < j ==> out[i].stream == 2 * (i % 2)
  }

  lemma {:induction false} CountsOfTurns(out: seq<Row>, j: nat)
    requires ZeroAndTwo(out, j)
    ensures CountOf(out[..j], 0) == (j + 1) / 2 && CountOf(out[..j], 2) == j / 2
    ensures CountOf(out[..j], 1) == 0 && CountOf(out[..j], 3) == 0
  {
    if j == 0 {
    } else {
      CountsOfTurns(out, j - 1);
      assert out[..j][..j - 1] == out[..j - 1];
    }
  }

  /** As long as streams 0 and 2 have rows, all four have the key at their heads. */
  lemma HeadsOfTurns(m: nat, key: int, out: seq<Row>, j: nat)
    requires ZeroAndTwo(out, j) && j + 1 < 2 * m
    ensures var streams := FourAlike(m, key);
            && Behind(streams, out[..j]) == [(j + 1) / 2, 0, j / 2, 0]
            && Positions(streams, Behind(streams, out[..j]))
            && HeadsAt(streams, Behind(streams, out[..j])) == [Some(key), Some(key), Some(key), Some(key)]
  {
    hide CountOf;
    CountsOfTurns(out, j);
    assert Behind(FourAlike(m, key), out[..j]) == [(j + 1) / 2, 0, j / 2, 0];
  }

  /** Of four streams with one key the first of each half leads it. */
  lemma LeadersOfFour(key: int, c: nat, a: nat)
    requires 2 <= c <= 3 && Leads([Some(key), Some(key), Some(key), Some(key)], c, a)
    ensures a == 2 * (c - 2)
  {
    var h := [Some(key), Some(key), Some(key), Some(key)];
    HalvesOfFour(h);
    assert HalfOf(h, 2 * (c - 2)) == c;
  }

  lemma TurnOfFour(key: int, j: nat, now: Ties, next: nat)
    requires Follows([Some(key), Some(key), Some(key), Some(key)], StateAt(j), 2 * (j % 2), true, now, next)
    ensures now == StateAt(j + 1) && next == 2 * ((j + 1) % 2)
  {
    hide Leads, Half, Follows;
    var h := [Some(key), Some(key), Some(key), Some(key)];
    var top := 2 * (j % 2);
    HalvesOfFour(h);
    var a, b := LeadersOfChoice(h, StateAt(j), top, true, now, next);
    LeadersOfFour(key, HalfOf(h, top), a);
    LeadersOfFour(key, 5 - HalfOf(h, top), b);
    assert SameKey(h, a, b);
    assert RoundCounts(StateAt(j)) == [(j + 1) / 2, 0, j / 2, 0];
  }

  lemma HalvesOfFour(h: Heads)
    requires |h| == 4
    ensures HalfOf(h, 0) == 2 && HalfOf(h, 1) == 2 && HalfOf(h, 2) == 3 && HalfOf(h, 3) == 3
  {
    assert Half(4) == 2 && Half(5) == 2 && Half(6) == 3 && Half(7) == 3;
  }

  /** Four streams of one key come out 0, 2, 0, 2, ... for as long as these two have rows. */
  lemma {:induction false} FourTakeTwoTurns(m: nat, key: int, out: seq<Row>, ties: seq<Ties>, j: nat)
    requires Interleaves(FourAlike(m, key), out) && Turns(FourAlike(m, key), out, ties)
    requires j < |out| < 2 * m
    ensures ZeroAndTwo(out, j + 1) && ties[j] == StateAt(j)
  {
    hide Least, Follows, HeadsAt, Behind, Interleaves, Turns, FourAlike, Repeats;
    HeadsOfTurns(m, key, out, 0);
    if j == 0 {
      assert out[..0] == [];
      FirstTurn(FourAlike(m, key), out, ties);
      FirstOfFour(key);
      assert |FourAlike(m, key)| == 4 by { FourStreams(m, key); }
      assert ties[0].counts == [0, 0, 0, 0];
    } else {
      FourTakeTwoTurns(m, key, out, ties, j - 1);
      HeadsOfTurns(m, key, out, j);
      TurnAt(FourAlike(m, key), out, ties, j);
      GoesOn(m, key, out, j);
      TurnOfFour(key, j - 1, ties[j], out[j].stream);
    }
  }

  lemma FourStreams(m: nat, key: int)
    ensures |FourAlike(m, key)| == 4
  {
  }

  lemma GoesOn(m: nat, key: int, out: seq<Row>, j: nat)
    requires Interleaves(FourAlike(m, key), out) && 0 < j < |out| < 2 * m && ZeroAndTwo(out, j)
    ensures Repeats(FourAlike(m, key), out[j - 1])
  {
    hide CountOf;
    CountsOfTurns(out, j - 1);
    assert out[j - 1].index == CountOf(out[..j - 1], out[j - 1].stream);
  }

  lemma FirstOfFour(key: int)
    ensures Least([Some(key), Some(key), Some(key), Some(key)]) == 0
  {
    var h := [Some(key), Some(key), Some(key), Some(key)];
    assert StableLe(h, 0, Least(h)) && StableLe(h, Least(h), 0);
  }

  /** From the third row on the stream that is chosen is not one polled least: streams 1 and 3 have
      the same key and have not been polled at all. */
  lemma TwoOfFourAreNeverPolled(m: nat, key: int, out: seq<Row>, ties: seq<Ties>, j: nat)
    requires Interleaves(FourAlike(m, key), out) && Turns(FourAlike(m, key), out, ties)
    requires 2 <= j < |out| < 2 * m
    ensures var h := HeadsAt(FourAlike(m, key), Behind(FourAlike(m, key), out[..j]));
            && |ties[j].counts| == |h| == 4 && out[j].stream < 4 && Tied(h, 1) && Tied(h, 3)
            && ties[j].counts[1] == 0 && ties[j].counts[3] == 0 && ties[j].counts[out[j].stream] > 0
            && !LeastPolled(h, ties[j].counts, out[j].stream)
  {
    hide Least, Follows, Behind, Interleaves, Turns;
    FourTakeTwoTurns(m, key, out, ties, j);
    HeadsOfTurns(m, key, out, j);
  }

  // Two streams

  function HeadsBefore(streams: Streams, out: seq<Row>, j: nat): Heads
    requires j <= |out| && Positions(streams, Behind(streams, out[..j]))
  {
    HeadsAt(streams, Behind(streams, out[..j]))
  }

  /** What the state is when a row of one of two streams is taken: outside a tie there is no round;
      in a tie the streams have been polled equally often, or stream 0 once more and it is the turn
      of stream 1. */
  ghost predicate InTurn(h: Heads, ties: Ties, top: nat)
    requires |h| == |ties.counts| == 2
  {
    var c := ties.counts;
    if SameKey(h, 0, 1) then
      || (top == 0 && (ties.roundRobin ==> c[0] == c[1]))
      || (top == 1 && ties.roundRobin && c[0] == c[1] + 1)
    else !ties.roundRobin && top < 2 && h[top].Some? && KeyLe(h, top, 1 - top)
  }

  lemma LeadersOfTwo(h: Heads, c: nat, a: nat)
    requires |h| == 2 && 2 <= c <= 3 && Leads(h, c, a)
    ensures a == c - 2 && HalfOf(h, 0) == 2 && HalfOf(h, 1) == 3
  {
    assert Half(2) == 2 && Half(3) == 3;
  }

  /** One turn: `h` is what the heads were, `g` what they are after the winner has moved on. */
  lemma {:induction false} NextTurn(h: Heads, g: Heads, ties: Ties, top: nat, repeats: bool, now: Ties, next: nat)
    requires |h| == |g| == |ties.counts| == 2 && top < 2 && InTurn(h, ties, top) && Moved(h, g, top)
    requires h[top].Some? && KeyLe(h, top, 1 - top) && (repeats <==> g[top] == h[top])
    requires g[top].Some? ==> g[top].value >= h[top].value
    requires Follows(g, ties, top, repeats, now, next) && next < 2 && g[next].Some?
    ensures |now.counts| == 2 && InTurn(g, now, next)
    ensures SameKey(h, 0, 1) && SameKey(g, 0, 1) ==> next == 1 - top
  {
    hide Leads, Half, Follows;
    var a, b := LeadersOfChoice(g, ties, top, repeats, now, next);
    LeadersOfTwo(g, HalfOf(g, top), a);
    LeadersOfTwo(g, 5 - HalfOf(g, top), b);
  }

  lemma HeadOfRow(streams: Streams, out: seq<Row>, j: nat)
    requires Interleaves(streams, out) && j < |out| && Positions(streams, Behind(streams, out[..j]))
    ensures InRange(streams, out[j]) && HeadsBefore(streams, out, j)[out[j].stream] == Some(KeyOf(streams, out[j]))
  {
    hide CountOf;
    var r := out[j];
    assert HeadsBefore(streams, out, j)[r.stream] == HeadAt(streams[r.stream], CountOf(out[..j], r.stream));
  }

  lemma HeadsMove(streams: Streams, out: seq<Row>, j: nat)
    requires Interleaves(streams, out) && j < |out| && AllAscending(streams)
    requires Positions(streams, Behind(streams, out[..j])) && Positions(streams, Behind(streams, out[..j + 1]))
    ensures InRange(streams, out[j])
    ensures var h, g, top := HeadsBefore(streams, out, j), HeadsBefore(streams, out, j + 1), out[j].stream;
            && Moved(h, g, top) && (Repeats(streams, out[j]) <==> g[top] == h[top])
            && (g[top].Some? ==> h[top].Some? && g[top].value >= h[top].value)
  {
    hide CountOf;
    var r := out[j];
    var h, g := HeadsBefore(streams, out, j), HeadsBefore(streams, out, j + 1);
    HeadOfRow(streams, out, j);
    forall s | 0 <= s < |streams| ensures g[s] == if s == r.stream then HeadAt(streams[s], r.index + 1) else h[s] {
      assert out[..j + 1] == out[..j] + [r];
      CountOneMore(out[..j], r, s);
    }
    assert Ascending(streams[r.stream]);
  }

  /** Two streams are in turn at every row. */
  lemma {:induction false} AlwaysInTurn(streams: Streams, out: seq<Row>, ties: seq<Ties>, j: nat)
    requires |streams| == 2 && AllAscending(streams) && Interleaves(streams, out) && Turns(streams, out, ties)
    requires j < |out|
    ensures Positions(streams, Behind(streams, out[..j])) && |ties[j].counts| == 2 && out[j].stream < 2
    ensures InTurn(HeadsBefore(streams, out, j), ties[j], out[j].stream)
    ensures j > 0 && SameKey(HeadsBefore(streams, out, j - 1), 0, 1) && SameKey(HeadsBefore(streams, out, j), 0, 1) ==>
              out[j].stream == 1 - out[j - 1].stream
  {
    hide Least, Follows, HeadsAt, Behind, Interleaves, Turns, Repeats, AllAscending, InTurn;
    if j == 0 {
      FirstTurn(streams, out, ties);
      assert out[..0] == [];
      HeadOfRow(streams, out, 0);
      FirstInTurn(HeadsBefore(streams, out, 0), ties[0]);
    } else {
      AlwaysInTurn(streams, out, ties, j - 1);
      TurnAt(streams, out, ties, j);
      HeadOfRow(streams, out, j - 1);
      HeadOfRow(streams, out, j);
      HeadsMove(streams, out, j - 1);
      var h, top := HeadsBefore(streams, out, j - 1), out[j - 1].stream;
      InTurnIsLeast(h, ties[j - 1], top);
      NextTurn(h, HeadsBefore(streams, out, j), ties[j - 1], top, Repeats(streams, out[j - 1]), ties[j], out[j].stream);
    }
  }

  lemma FirstInTurn(h: Heads, ties: Ties)
    requires |h| == |ties.counts| == 2 && !ties.roundRobin && h[Least(h)].Some?
    ensures InTurn(h, ties, Least(h))
  {
    hide Least;
    assert StableLe(h, Least(h), 0) && StableLe(h, Least(h), 1);
  }

  lemma InTurnIsLeast(h: Heads, ties: Ties, top: nat)
    requires |h| == |ties.counts| == 2 && top < 2 && InTurn(h, ties, top)
    ensures KeyLe(h, top, 1 - top)
  {
  }

  /** Both streams have the same key at their heads before the rows from `i` to `j`. */
  ghost predicate TiedThroughout(streams: Streams, out: seq<Row>, i: nat, j: nat)
    requires |streams| == 2
  {
    && i <= j <= |out|
    && forall k :: i <= k < j ==>
         Positions(streams, Behind(streams, out[..k])) && SameKey(HeadsBefore(streams, out, k), 0, 1)
  }

  /** With two streams the tie breaker does what it is for: as long as both have the same key, their
      rows are taken in turn, so neither is ahead by more than one. */
  lemma {:induction false} TwoTakeTurns(streams: Streams, out: seq<Row>, ties: seq<Ties>, i: nat, j: nat)
    requires |streams| == 2 && AllAscending(streams) && Interleaves(streams, out) && Turns(streams, out, ties)
    requires TiedThroughout(streams, out, i, j)
    ensures -1 <= CountOf(out[i..j], 0) - CountOf(out[i..j], 1) <= 1
    ensures i < j ==> CountOf(out[i..j], 0) - CountOf(out[i..j], 1)
                      == if out[i].stream == out[j - 1].stream then 1 - 2 * out[i].stream else 0
    decreases j
  {
    hide Least, Follows, HeadsAt, Behind, Interleaves, Turns, Repeats, AllAscending, InTurn, HeadsBefore;
    if i == j {
    } else {
      TwoTakeTurns(streams, out, ties, i, j - 1);
      assert out[i..j][..|out[i..j]| - 1] == out[i..j - 1];
      AlwaysInTurn(streams, out, ties, i);
      AlwaysInTurn(streams, out, ties, j - 1);
      if i < j - 1 { AlwaysInTurn(streams, out, ties, j - 2); }
    }
  }
}
