/**
 The rank and tie computation of the leaderboard generator. Rows arrive in
 query order as (player, value) pairs; each becomes an entry carrying a
 position and a tie flag. Equal consecutive values share a position, and
 whenever a run of equal values grows, every entry of the run's first
 player is marked tied.

 Players and values are generic: the generator only compares them for
 equality. The display precision of float boards is an input, since it is
 computed with floating-point rounding.
 */
module Leaderboard {
  import opened Optional

  datatype Row<P, V> = Row(player: P, value: V)

  datatype Entry<P, V> = Entry(position: int, player: P, value: V, tie: bool)

  datatype Board<P, V> = Board(displayPrecision: nat, displaySuffix: string, entries: seq<Entry<P, V>>)

  /** How a row whose value differs from its predecessor is numbered. The
      generator adds `max(tie_length - 1, 1)` to the row's index, so a long
      run of ties pushes the next position past the row count
      (`AsWritten`); standard competition ranking adds one (`Competition`). */
  datatype Ranking = AsWritten | Competition

  /**
   The generator's loop state: the length of the current run of equal values
   minus one, the last position and value, the first player of the current
   run, and the entries so far. `lastNum` is only read when `lastValue` is
   present, so its initial value is never observed.
   */
  datatype Scan<P, V> = Scan(tieLength: nat, lastNum: int, lastValue: Option<V>, lastTie: Option<P>,
                             entries: seq<Entry<P, V>>)

  function Max(a: int, b: int): int {
    if a < b then b else a
  }

  /** The position of row `i` when its value differs from the previous row's. */
  function FreshPosition(rk: Ranking, i: nat, tieLength: nat): int {
    match rk
    case AsWritten => i + Max(tieLength - 1, 1)
    case Competition => i + 1
  }

  /** `e` with its tie flag set when its player is `who`. */
  function Mark<P(==), V>(e: Entry<P, V>, who: Option<P>): Entry<P, V> {
    if Some(e.player) == who then e.(tie := true) else e
  }

  /** Every entry of player `who` marked tied; all other entries unchanged. */
  function MarkTies<P(==), V>(es: seq<Entry<P, V>>, who: Option<P>): (r: seq<Entry<P, V>>)
    ensures |r| == |es|
  {
    seq(|es|, k requires 0 <= k < |es| => Mark(es[k], who))
  }

  /** One iteration of the loop, for row `row` at index `i`. */
  function Step<P(==), V(==)>(rk: Ranking, st: Scan<P, V>, i: nat, row: Row<P, V>): Scan<P, V> {
    var equal := st.lastValue == Some(row.value);
    var num := if equal then st.lastNum else FreshPosition(rk, i, st.tieLength);
    var tieLength := if equal then st.tieLength + 1 else 0;
    var lastTie := if equal then st.lastTie else Some(row.player);
    var es := st.entries + [Entry(num, row.player, row.value, tieLength > 0)];
    Scan(tieLength, num, Some(row.value), lastTie, if tieLength > 0 then MarkTies(es, lastTie) else es)
  }

  /** The loop state after the first `n` rows. */
  function ScanRows<P(==), V(==)>(rk: Ranking, rows: seq<Row<P, V>>, n: nat): (st: Scan<P, V>)
    requires n <= |rows|
    ensures |st.entries| == n
    decreases n
  {
    if n == 0 then Scan(0, 0, None, None, [])
    else Step(rk, ScanRows(rk, rows, n - 1), n - 1, rows[n - 1])
  }

  /** The board for `rows`; `minPrecision` stands for the least rounding
      precision that keeps distinct float values distinct. */
  function GenerateBoard<P(==), V(==)>(rk: Ranking, rows: seq<Row<P, V>>, suffix: string, floats: bool,
                                       minPrecision: nat): (b: Board<P, V>)
    ensures b.displaySuffix == suffix
    ensures b.displayPrecision == if floats then minPrecision else 0
    ensures |b.entries| == |rows|
  {
    Board(if floats then minPrecision else 0, suffix, ScanRows(rk, rows, |rows|).entries)
  }
}
