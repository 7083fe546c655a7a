/**
 Properties of the leaderboard's rank and tie computation. Each entry is
 characterised against reference definitions stated over the input rows
 alone: where the run of equal values containing a row begins, the position
 that run start implies, and which later runs mark the row's player tied.
 */
module LeaderboardProofs {
  import opened Optional
  import opened Leaderboard

  /** Row `k` repeats the value of the row before it. */
  predicate EqualsPrevious<P, V(==)>(rows: seq<Row<P, V>>, k: nat)
    requires k < |rows|
  {
    0 < k && rows[k].value == rows[k - 1].value
  }

  /** Where the run of equal consecutive values containing row `k` begins. */
  function RunStart<P, V(==)>(rows: seq<Row<P, V>>, k: nat): (s: nat)
    requires k < |rows|
    ensures s <= k && !EqualsPrevious(rows, s)
    ensures forall j :: s < j <= k ==> EqualsPrevious(rows, j)
    decreases k
  {
    if EqualsPrevious(rows, k) then RunStart(rows, k - 1) else k
  }

  /** The position row `k` must get. Under `Competition` it is one more than
      the index of its run's start. As written, a run starting at `s > 0`
      adds `max(L - 2, 1)` to `s`, where `L` is the length of the run before it. */
  function ReferencePosition<P, V(==)>(rk: Ranking, rows: seq<Row<P, V>>, k: nat): int
    requires k < |rows|
  {
    var s := RunStart(rows, k);
    match rk
    case Competition => s + 1
    case AsWritten => if s == 0 then 1 else s + Max(s - RunStart(rows, s - 1) - 2, 1)
  }

  /** Whether row `k` is tied once the first `n` rows are processed: it
      repeats its predecessor's value, or some row `j` in `[k, n)` extended a
      run whose first player is row `k`'s player. */
  predicate ReferenceTie<P(==), V(==)>(rows: seq<Row<P, V>>, n: nat, k: nat)
    requires k < |rows| && n <= |rows|
  {
    EqualsPrevious(rows, k) ||
    exists j :: k <= j < n && EqualsPrevious(rows, j) && rows[k].player == rows[RunStart(rows, j)].player
  }

  predicate EntryMatches<P(==), V(==)>(rk: Ranking, rows: seq<Row<P, V>>, n: nat, k: nat, e: Entry<P, V>)
    requires k < |rows| && n <= |rows|
  {
    e.player == rows[k].player && e.value == rows[k].value &&
    e.position == ReferencePosition(rk, rows, k) && (e.tie <==> ReferenceTie(rows, n, k))
  }

  /** The loop state after `n` rows agrees with the reference definitions. */
  predicate ScanMatches<P(==), V(==)>(rk: Ranking, rows: seq<Row<P, V>>, n: nat, st: Scan<P, V>)
    requires n <= |rows|
  {
    |st.entries| == n &&
    (forall k :: 0 <= k < n ==> EntryMatches(rk, rows, n, k, st.entries[k])) &&
    (n == 0 ==> st.lastValue == None && st.tieLength == 0) &&
    (n > 0 ==>
       st.lastValue == Some(rows[n - 1].value) &&
       st.lastNum == ReferencePosition(rk, rows, n - 1) &&
       st.lastTie == Some(rows[RunStart(rows, n - 1)].player) &&
       st.tieLength == n - 1 - RunStart(rows, n - 1))
  }

  /** Processing row `n` adds its marks to the earlier rows' tie flags. */
  lemma ReferenceTieStep<P, V>(rows: seq<Row<P, V>>, n: nat, k: nat)
    requires k <= n < |rows|
    ensures ReferenceTie(rows, n + 1, k) <==>
              ReferenceTie(rows, n, k) ||
              (EqualsPrevious(rows, n) && rows[k].player == rows[RunStart(rows, n)].player)
  {
    if ReferenceTie(rows, n + 1, k) && !EqualsPrevious(rows, k) {
      var j :| k <= j < n + 1 && EqualsPrevious(rows, j) && rows[k].player == rows[RunStart(rows, j)].player;
      if j < n {
        assert ReferenceTie(rows, n, k);
      }
    }
    if EqualsPrevious(rows, n) && rows[k].player == rows[RunStart(rows, n)].player {
      assert k <= n < n + 1;
    }
  }

  /** Positions of the new row: shared when the value repeats, fresh otherwise. */
  lemma StepPosition<P, V>(rk: Ranking, rows: seq<Row<P, V>>, n: nat, st: Scan<P, V>)
    requires n < |rows| && ScanMatches(rk, rows, n, st)
    ensures Step(rk, st, n, rows[n]).lastNum == ReferencePosition(rk, rows, n)
  {
    if n > 0 && EqualsPrevious(rows, n) {
      assert RunStart(rows, n) == RunStart(rows, n - 1);
    }
  }

  /** One iteration keeps the loop state in agreement with the reference. */
  lemma StepMatches<P, V>(rk: Ranking, rows: seq<Row<P, V>>, n: nat, st: Scan<P, V>)
    requires n < |rows| && ScanMatches(rk, rows, n, st)
    ensures ScanMatches(rk, rows, n + 1, Step(rk, st, n, rows[n]))
  {
    var st' := Step(rk, st, n, rows[n]);
    var equal := EqualsPrevious(rows, n);
    assert equal <==> st.lastValue == Some(rows[n].value);
    assert RunStart(rows, n) == if equal then RunStart(rows, n - 1) else n;
    StepPosition(rk, rows, n, st);
    var es := st.entries + [Entry(st'.lastNum, rows[n].player, rows[n].value, equal)];
    assert st'.entries == if equal then MarkTies(es, st'.lastTie) else es;
    forall k | 0 <= k <= n
      ensures EntryMatches(rk, rows, n + 1, k, st'.entries[k])
    {
      ReferenceTieStep(rows, n, k);
      if k < n {
        assert EntryMatches(rk, rows, n, k, st.entries[k]);
      }
    }
  }

  /** The loop state after any prefix of the rows agrees with the reference. */
  lemma {:induction false} ScanRowsMatch<P, V>(rk: Ranking, rows: seq<Row<P, V>>, n: nat)
    requires n <= |rows|
    ensures ScanMatches(rk, rows, n, ScanRows(rk, rows, n))
    decreases n
  {
    if n > 0 {
      ScanRowsMatch(rk, rows, n - 1);
      StepMatches(rk, rows, n - 1, ScanRows(rk, rows, n - 1));
    }
  }

  // ---------------------------------------------------------------------
  // The generated board.

  /** Every entry of the board agrees with the reference definitions. */
  lemma BoardMatches<P, V>(rk: Ranking, rows: seq<Row<P, V>>, suffix: string, floats: bool,
                                   minPrecision: nat)
    ensures var b := GenerateBoard(rk, rows, suffix, floats, minPrecision);
            |b.entries| == |rows| &&
            forall k :: 0 <= k < |rows| ==> EntryMatches(rk, rows, |rows|, k, b.entries[k])
  {
    ScanRowsMatch(rk, rows, |rows|);
  }

  /** One entry per row, in row order, with the row's player and value. */
  lemma EntriesFollowRows<P, V>(rk: Ranking, rows: seq<Row<P, V>>, suffix: string, floats: bool,
                                        minPrecision: nat)
    ensures var es := GenerateBoard(rk, rows, suffix, floats, minPrecision).entries;
            |es| == |rows| &&
            forall k :: 0 <= k < |rows| ==> es[k].player == rows[k].player && es[k].value == rows[k].value
  {
    BoardMatches(rk, rows, suffix, floats, minPrecision);
  }

  /** The first entry is in position 1. */
  lemma FirstPositionIsOne<P, V>(rk: Ranking, rows: seq<Row<P, V>>, suffix: string, floats: bool,
                                         minPrecision: nat)
    requires |rows| > 0
    ensures GenerateBoard(rk, rows, suffix, floats, minPrecision).entries[0].position == 1
  {
    BoardMatches(rk, rows, suffix, floats, minPrecision);
  }

  /** A row repeating its predecessor's value shares its position, and both are tied. */
  lemma RepeatedValueTies<P, V>(rk: Ranking, rows: seq<Row<P, V>>, suffix: string, floats: bool,
                                        minPrecision: nat, k: nat)
    requires 0 < k < |rows| && rows[k].value == rows[k - 1].value
    ensures var es := GenerateBoard(rk, rows, suffix, floats, minPrecision).entries;
            es[k].position == es[k - 1].position && es[k].tie && es[k - 1].tie
  {
    BoardMatches(rk, rows, suffix, floats, minPrecision);
    var s := RunStart(rows, k);
    assert RunStart(rows, k - 1) == s;
    if !EqualsPrevious(rows, k - 1) {
      assert s == k - 1;
      assert ReferenceTie(rows, |rows|, k - 1) by {
        assert k - 1 <= k < |rows| && EqualsPrevious(rows, k) && rows[k - 1].player == rows[RunStart(rows, k)].player;
      }
    }
  }

  /** The run length left in `tie_length` when row `k` is reached: the length,
      minus one, of the run of equal values ending at row `k - 1`. */
  function TieLengthBefore<P, V(==)>(rows: seq<Row<P, V>>, k: nat): nat
    requires 0 < k <= |rows|
  {
    k - 1 - RunStart(rows, k - 1)
  }

  /** As written, a row whose value differs from its predecessor's is placed
      at its index plus `max(tie_length - 1, 1)`: one past its index exactly
      when the preceding run has at most three rows. */
  lemma NewValuePosition<P, V>(rows: seq<Row<P, V>>, suffix: string, floats: bool, minPrecision: nat,
                                       k: nat)
    requires 0 < k < |rows| && rows[k].value != rows[k - 1].value
    ensures var es := GenerateBoard(AsWritten, rows, suffix, floats, minPrecision).entries;
            es[k].position == k + Max(TieLengthBefore(rows, k) - 1, 1) &&
            (es[k].position == k + 1 <==> TieLengthBefore(rows, k) <= 2)
  {
    BoardMatches(AsWritten, rows, suffix, floats, minPrecision);
  }

  /** Under competition ranking a row whose value differs from its
      predecessor's is placed one past its index. */
  lemma NewValuePositionCompetition<P, V>(rows: seq<Row<P, V>>, suffix: string, floats: bool,
                                                  minPrecision: nat, k: nat)
    requires k < |rows| && (k == 0 || rows[k].value != rows[k - 1].value)
    ensures GenerateBoard(Competition, rows, suffix, floats, minPrecision).entries[k].position == k + 1
  {
    BoardMatches(Competition, rows, suffix, floats, minPrecision);
  }

  /** Once row `j` extends a run of equal values, every entry up to `j` whose
      player is the run's first player is tied. */
  lemma RunFirstPlayerTied<P, V>(rk: Ranking, rows: seq<Row<P, V>>, suffix: string, floats: bool,
                                         minPrecision: nat, j: nat, k: nat)
    requires 0 < j < |rows| && k <= j && rows[j].value == rows[j - 1].value
    requires rows[k].player == rows[RunStart(rows, j)].player
    ensures GenerateBoard(rk, rows, suffix, floats, minPrecision).entries[k].tie
  {
    BoardMatches(rk, rows, suffix, floats, minPrecision);
    assert EqualsPrevious(rows, j);
  }

  /** An entry is tied exactly for a cause: it repeats its predecessor's
      value, or its player heads a run of equal values that some row at or
      after it extends. Runs that ended before the entry do not count. */
  lemma TieHasCause<P, V>(rk: Ranking, rows: seq<Row<P, V>>, suffix: string, floats: bool,
                          minPrecision: nat, k: nat)
    requires k < |rows|
    ensures !GenerateBoard(rk, rows, suffix, floats, minPrecision).entries[k].tie <==>
              (k == 0 || rows[k].value != rows[k - 1].value) &&
              forall j :: k <= j < |rows| && 0 < j && rows[j].value == rows[j - 1].value ==>
                            rows[k].player != rows[RunStart(rows, j)].player
  {
    BoardMatches(rk, rows, suffix, floats, minPrecision);
    assert GenerateBoard(rk, rows, suffix, floats, minPrecision).entries[k].tie <==> ReferenceTie(rows, |rows|, k);
  }

  /** With distinct players, an entry is tied exactly when its value equals
      its predecessor's or its successor's. */
  lemma DistinctPlayersTie<P, V>(rk: Ranking, rows: seq<Row<P, V>>, suffix: string, floats: bool,
                                         minPrecision: nat, k: nat)
    requires forall i, j :: 0 <= i < j < |rows| ==> rows[i].player != rows[j].player
    requires k < |rows|
    ensures GenerateBoard(rk, rows, suffix, floats, minPrecision).entries[k].tie <==>
              (0 < k && rows[k].value == rows[k - 1].value) ||
              (k + 1 < |rows| && rows[k + 1].value == rows[k].value)
  {
    BoardMatches(rk, rows, suffix, floats, minPrecision);
    var n := |rows|;
    if ReferenceTie(rows, n, k) && !EqualsPrevious(rows, k) {
      var j :| k <= j < n && EqualsPrevious(rows, j) && rows[k].player == rows[RunStart(rows, j)].player;
      var s := RunStart(rows, j);
      assert s == k;
      assert k < j;
      assert EqualsPrevious(rows, k + 1);
    }
    if k + 1 < n && EqualsPrevious(rows, k + 1) && !EqualsPrevious(rows, k) {
      assert RunStart(rows, k + 1) == k;
      assert k <= k + 1 < n && EqualsPrevious(rows, k + 1) && rows[k].player == rows[RunStart(rows, k + 1)].player;
    }
  }

  // ---------------------------------------------------------------------
  // Competition ranking.

  lemma {:induction false} RunStartMonotone<P, V>(rows: seq<Row<P, V>>, i: nat, j: nat)
    requires i <= j < |rows|
    ensures RunStart(rows, i) <= RunStart(rows, j)
    decreases j - i
  {
    if i < j {
      RunStartMonotone(rows, i, j - 1);
      if !EqualsPrevious(rows, j) {
        assert RunStart(rows, j) == j;
      }
    }
  }

  /** Under competition ranking every entry is placed one past the start of
      its run of equal values, so positions never decrease down the board. */
  lemma CompetitionPositions<P, V>(rows: seq<Row<P, V>>, suffix: string, floats: bool, minPrecision: nat)
    ensures var es := GenerateBoard(Competition, rows, suffix, floats, minPrecision).entries;
            (forall k :: 0 <= k < |rows| ==> es[k].position == RunStart(rows, k) + 1) &&
            (forall i, j :: 0 <= i <= j < |rows| ==> es[i].position <= es[j].position)
  {
    BoardMatches(Competition, rows, suffix, floats, minPrecision);
    forall i, j | 0 <= i <= j < |rows|
      ensures RunStart(rows, i) <= RunStart(rows, j)
    {
      RunStartMonotone(rows, i, j);
    }
  }
}
