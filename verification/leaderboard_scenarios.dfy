/**
 A concrete board: five players tied on 5, then a 4 and a 3. As written the
 positions jump to 8 and then fall back to 7; under competition ranking they
 are 1, 1, 1, 1, 1, 6, 7.
 */
module LeaderboardScenarios {
  import opened Leaderboard
  import opened LeaderboardProofs

  const FiveTied: seq<Row<int, int>> :=
    [Row(1, 5), Row(2, 5), Row(3, 5), Row(4, 5), Row(5, 5), Row(6, 4), Row(7, 3)]

  function Positions<P, V>(es: seq<Entry<P, V>>): (ps: seq<int>)
    ensures |ps| == |es|
  {
    seq(|es|, i requires 0 <= i < |es| => es[i].position)
  }

  function Ties<P, V>(es: seq<Entry<P, V>>): (ts: seq<bool>)
    ensures |ts| == |es|
  {
    seq(|es|, i requires 0 <= i < |es| => es[i].tie)
  }

  lemma FiveTiedRuns()
    ensures RunStart(FiveTied, 4) == 0
    ensures RunStart(FiveTied, 5) == 5 && RunStart(FiveTied, 6) == 6
  {
    assert RunStart(FiveTied, 1) == 0;
    assert RunStart(FiveTied, 2) == 0;
    assert RunStart(FiveTied, 3) == 0;
  }

  /** As written the row after the run of five is placed at 8, past the board's
      seven rows, and the row after it at 7: positions decrease. */
  lemma PositionsAsWritten()
    ensures var es := GenerateBoard(AsWritten, FiveTied, " games", false, 0).entries;
            Positions(es) == [1, 1, 1, 1, 1, 8, 7] &&
            Ties(es) == [true, true, true, true, true, false, false] &&
            es[5].position > es[6].position
  {
    BoardMatches(AsWritten, FiveTied, " games", false, 0);
    FiveTiedRuns();
    var es := GenerateBoard(AsWritten, FiveTied, " games", false, 0).entries;
    assert ReferenceTie(FiveTied, 7, 0) by {
      assert EqualsPrevious(FiveTied, 1) && FiveTied[0].player == FiveTied[RunStart(FiveTied, 1)].player;
    }
    assert !ReferenceTie(FiveTied, 7, 5);
    assert !ReferenceTie(FiveTied, 7, 6);
  }

  /** Competition ranking numbers the same rows 1, 1, 1, 1, 1, 6, 7. */
  lemma PositionsCompetition()
    ensures Positions(GenerateBoard(Competition, FiveTied, " games", false, 0).entries) == [1, 1, 1, 1, 1, 6, 7]
  {
    BoardMatches(Competition, FiveTied, " games", false, 0);
    FiveTiedRuns();
  }

  /** A player who headed an earlier run of ties is not tied again by a
      later, distinct value: rows (1, 5), (2, 5), (1, 4). */
  const EarlierRun: seq<Row<int, int>> := [Row(1, 5), Row(2, 5), Row(1, 4)]

  lemma EarlierRunDoesNotTie(rk: Ranking)
    ensures Ties(GenerateBoard(rk, EarlierRun, " games", false, 0).entries) == [true, true, false]
  {
    BoardMatches(rk, EarlierRun, " games", false, 0);
    assert RunStart(EarlierRun, 1) == 0;
    assert ReferenceTie(EarlierRun, 3, 0) by {
      assert EqualsPrevious(EarlierRun, 1);
    }
    assert !ReferenceTie(EarlierRun, 3, 2);
  }
}
