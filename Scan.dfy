/** Tiles and the streak scan of js/script.js (Tile, findWinner and its inner
    findWinnerInRow), together with the statement that scanning the lines of
    Grid finds exactly the streaks drawn on the board. */
module Scan {
  import opened Wrappers
  import opened Grid

  /** A board square. `kind` is the mark's text, "" while nobody has played
      there; a tile is taken exactly when its text is non-empty. */
  datatype Tile = Tile(kind: string) {
    predicate IsTaken() {
      kind != ""
    }
  }

  /** The default tile: empty and not taken. */
  const EmptyTile := Tile("")

  // ---------------------------------------------------------------------
  // Streaks within one line.

  /** Length of the run of taken tiles of one kind that ends at index i
      (0 when line[i] is not taken). */
  function RunEnding(line: seq<Tile>, i: nat): (len: nat)
    requires i < |line|
    ensures len <= i + 1
    ensures len > 0 <==> line[i].IsTaken()
  {
    if !line[i].IsTaken() then 0
    else if i > 0 && line[i - 1].kind == line[i].kind then RunEnding(line, i - 1) + 1
    else 1
  }

  /** The k tiles from index s on are all taken and all of the given kind. */
  predicate RunOf(line: seq<Tile>, s: int, k: int, kind: string) {
    0 <= s && s + k <= |line| &&
    forall t :: s <= t < s + k ==> line[t].IsTaken() && line[t].kind == kind
  }

  /** The line holds k consecutive taken tiles of the given kind. */
  ghost predicate HasStreakOf(line: seq<Tile>, k: int, kind: string) {
    exists s :: RunOf(line, s, k, kind)
  }

  /** The line holds k consecutive taken tiles of one kind. */
  predicate HasStreak(line: seq<Tile>, k: int) {
    exists s :: 0 <= s < |line| && RunOf(line, s, k, line[s].kind)
  }

  /** What findWinnerInRow reports a winner for: with a threshold of at
      least 2, a streak of that length; with a smaller threshold, any
      non-empty line, because its first tile always seeds a run of 1. */
  predicate Qualifies(line: seq<Tile>, k: int) {
    if k <= 1 then |line| > 0 else HasStreak(line, k)
  }

  /** The run counted at index i is a streak ending at i. */
  lemma {:induction false} RunIsStreak(line: seq<Tile>, i: nat)
    requires i < |line|
    ensures RunOf(line, i + 1 - RunEnding(line, i), RunEnding(line, i), line[i].kind)
  {
    if line[i].IsTaken() && i > 0 && line[i - 1].kind == line[i].kind {
      RunIsStreak(line, i - 1);
    }
  }

  /** A streak of length k makes the run counted at its last index at least k. */
  lemma {:induction false} StreakReachesRun(line: seq<Tile>, s: int, k: int, kind: string)
    requires 1 <= k && RunOf(line, s, k, kind)
    ensures RunEnding(line, s + k - 1) >= k
  {
    if k > 1 {
      assert RunOf(line, s, k - 1, kind);
      StreakReachesRun(line, s, k - 1, kind);
    }
  }

  /** The last k tiles of the run counted at index j form a streak of j's kind. */
  lemma RunGivesStreak(line: seq<Tile>, j: nat, k: int)
    requires j < |line| && 1 <= k <= RunEnding(line, j)
    ensures RunOf(line, j + 1 - k, k, line[j].kind)
    ensures HasStreak(line, k)
  {
    RunIsStreak(line, j);
    var s := j + 1 - k;
    assert RunOf(line, s, k, line[j].kind);
    assert line[s].kind == line[j].kind;
    assert RunOf(line, s, k, line[s].kind);
  }

  /** A longer streak meets every smaller threshold: a run of 5 satisfies 3. */
  lemma LongerStreakSuffices(line: seq<Tile>, k: int, j: int)
    requires HasStreak(line, k) && 1 <= j <= k
    ensures HasStreak(line, j)
  {
    var s :| 0 <= s < |line| && RunOf(line, s, k, line[s].kind);
    assert RunOf(line, s, j, line[s].kind);
  }

  /** findWinnerInRow: one pass over the line with the source's four
      counters. The first tile always starts a run of 1, even when it is
      empty; an empty tile resets the current run; a taken tile extends the
      run when it matches the previous tile and starts a new one otherwise.
      The tile of the longest run is reported when that run reaches the
      threshold. The empty line with a threshold of 0 or less, where the
      source answers `undefined`, is excluded. */
  method FindWinnerInRow(row: seq<Tile>, tilesNeededToWin: int) returns (winner: Option<Tile>)
    requires |row| > 0 || tilesNeededToWin > 0
    ensures winner.Some? <==> Qualifies(row, tilesNeededToWin)
    ensures winner.Some? ==> winner.value in row
    ensures winner.Some? && tilesNeededToWin >= 2 ==>
              winner.value.IsTaken() && HasStreakOf(row, tilesNeededToWin, winner.value.kind)
  {
    var longestStreak := 0;
    var typeOfLongestStreak: Option<Tile> := None;
    var currentStreak := 0;
    var typeOfCurrentStreak: Option<Tile> := None;

    for index := 0 to |row|
      invariant index == 0 ==> longestStreak == 0
      invariant index > 0 ==> 1 <= longestStreak && typeOfLongestStreak.Some? && typeOfLongestStreak.value in row
      invariant index > 0 ==> currentStreak == if index == 1 then 1 else RunEnding(row, index - 1)
      invariant forall j :: 0 <= j < index ==> RunEnding(row, j) <= longestStreak
      invariant longestStreak >= 2 ==>
                  exists j :: 0 <= j < index && RunEnding(row, j) == longestStreak && typeOfLongestStreak == Some(row[j])
    {
      var tile := row[index];

      if !tile.IsTaken() {
        currentStreak := 0;
        typeOfCurrentStreak := None;
      }

      if index == 0 {
        currentStreak := 1;
        typeOfCurrentStreak := Some(tile);
        longestStreak := currentStreak;
        typeOfLongestStreak := typeOfCurrentStreak;
      } else {
        var previousTile := row[index - 1];
        if tile.kind != previousTile.kind && tile.IsTaken() {
          currentStreak := 1;
          typeOfCurrentStreak := Some(tile);
        }
        if tile.kind == previousTile.kind && tile.IsTaken() {
          currentStreak := currentStreak + 1;
          typeOfCurrentStreak := Some(tile);
        }
      }

      if currentStreak > longestStreak {
        longestStreak := currentStreak;
        typeOfLongestStreak := typeOfCurrentStreak;
      }
    }

    if longestStreak >= tilesNeededToWin {
      winner := typeOfLongestStreak;
    } else {
      winner := None;
    }

    if tilesNeededToWin >= 2 {
      if longestStreak >= tilesNeededToWin {
        var j :| 0 <= j < |row| && RunEnding(row, j) == longestStreak && typeOfLongestStreak == Some(row[j]);
        RunGivesStreak(row, j, tilesNeededToWin);
      }
      if HasStreak(row, tilesNeededToWin) {
        var s :| 0 <= s < |row| && RunOf(row, s, tilesNeededToWin, row[s].kind);
        StreakReachesRun(row, s, tilesNeededToWin, row[s].kind);
      }
    }
  }

  /** findWinner: the scan's answer for the first line, in order, on which
      it reports a winner; None when it reports one on no line. */
  method FindWinner(lines: seq<seq<Tile>>, tilesNeededToWin: int) returns (winner: Option<Tile>)
    requires tilesNeededToWin > 0 || forall i :: 0 <= i < |lines| ==> |lines[i]| > 0
    ensures winner.None? <==> forall i :: 0 <= i < |lines| ==> !Qualifies(lines[i], tilesNeededToWin)
    ensures winner.Some? ==>
              exists i :: 0 <= i < |lines| && Qualifies(lines[i], tilesNeededToWin) &&
                (forall j :: 0 <= j < i ==> !Qualifies(lines[j], tilesNeededToWin)) &&
                winner.value in lines[i] &&
                (tilesNeededToWin >= 2 ==>
                   winner.value.IsTaken() && HasStreakOf(lines[i], tilesNeededToWin, winner.value.kind))
  {
    for i := 0 to |lines|
      invariant forall j :: 0 <= j < i ==> !Qualifies(lines[j], tilesNeededToWin)
    {
      var row := lines[i];
      var found := FindWinnerInRow(row, tilesNeededToWin);
      if found.Some? {
        return found;
      }
    }
    return None;
  }

  // ---------------------------------------------------------------------
  // Streaks drawn on the board.

  /** k cells from p on in direction dir are on the board, taken, and of p's kind. */
  predicate BoardRunAt(b: seq<seq<Tile>>, p: (int, int), dir: Direction, k: int)
    requires IsSquare(b)
  {
    InGrid(|b|, p) &&
    forall t :: 0 <= t < k ==>
      InGrid(|b|, Step(p, dir, t)) && At(b, Step(p, dir, t)).IsTaken() && At(b, Step(p, dir, t)).kind == At(b, p).kind
  }

  /** Somewhere on the board, in a row, a column or either diagonal
      direction, k consecutive cells are taken by one kind. */
  ghost predicate BoardHasStreak(b: seq<seq<Tile>>, k: int)
    requires IsSquare(b)
  {
    exists p, dir :: BoardRunAt(b, p, dir, k)
  }

  /** A streak on line i of Lines is a streak on the board, along the line's direction. */
  lemma LineStreakOnBoard(b: seq<seq<Tile>>, k: int, i: nat, s: nat)
    requires IsSquare(b) && |b| > 0 && k >= 1 && i < |Lines(b)|
    requires s < |Lines(b)[i]| && RunOf(Lines(b)[i], s, k, Lines(b)[i][s].kind)
    ensures BoardRunAt(b, LineCells(|b|, i)[s], LineDirection(|b|, i), k)
  {
    var n := |b|;
    LinesAt(b, i);
    var line := Lines(b)[i];
    var p, dir := LineCells(n, i)[s], LineDirection(n, i);
    forall t | 0 <= t < k
      ensures InGrid(n, Step(p, dir, t)) && At(b, Step(p, dir, t)) == line[s + t]
    {
      LineCellsStep(n, i, s, t);
    }
  }

  /** A streak on the board lies on the line of its direction through its first cell. */
  lemma BoardStreakOnLine(b: seq<seq<Tile>>, k: int, p: (int, int), dir: Direction) returns (i: nat)
    requires IsSquare(b) && |b| > 0 && k >= 1 && BoardRunAt(b, p, dir, k)
    ensures i < |Lines(b)| && LineDirection(|b|, i) == dir && HasStreak(Lines(b)[i], k)
  {
    var n := |b|;
    var q;
    i, q := LineThrough(n, p, dir, k);
    LinesAt(b, i);
    var line, cells := Lines(b)[i], LineCells(n, i);
    assert line == Pick(b, cells);
    forall t | q <= t < q + k
      ensures line[t].IsTaken() && line[t].kind == At(b, p).kind
    {
      LineCellsStep(n, i, q, t - q);
      var c := Step(p, dir, t - q);
      assert InGrid(n, c) && At(b, c).IsTaken() && At(b, c).kind == At(b, p).kind;
      assert line[t] == At(b, cells[t]);
    }
    assert line[q] == At(b, p);
    assert RunOf(line, q, k, line[q].kind);
  }

  /** The lines of Grid see every streak on the board and nothing else: some
      line holds a streak of length k exactly when the board does. This is
      why the short corner diagonals must be among the lines. */
  lemma LinesSeeEveryStreak(b: seq<seq<Tile>>, k: int)
    requires IsSquare(b) && |b| > 0 && k >= 1
    ensures (exists i :: 0 <= i < |Lines(b)| && HasStreak(Lines(b)[i], k)) <==> BoardHasStreak(b, k)
  {
    if i :| 0 <= i < |Lines(b)| && HasStreak(Lines(b)[i], k) {
      var line := Lines(b)[i];
      var s :| 0 <= s < |line| && RunOf(line, s, k, line[s].kind);
      LineStreakOnBoard(b, k, i, s);
    }
    if BoardHasStreak(b, k) {
      var p, dir :| BoardRunAt(b, p, dir, k);
      var i := BoardStreakOnLine(b, k, p, dir);
    }
  }

  /** Every line of a non-empty square board has at least one cell. */
  lemma LinesNonEmpty<T>(b: seq<seq<T>>)
    requires IsSquare(b) && |b| > 0
    ensures |Lines(b)| == 6 * |b| - 2
    ensures forall i :: 0 <= i < |Lines(b)| ==> |Lines(b)[i]| > 0
  {
    LinesAt(b, 0);
    forall i | 0 <= i < |Lines(b)|
      ensures |Lines(b)[i]| > 0
    {
      LinesAt(b, i);
    }
  }

  /** The scan addTic runs after a move, findWinner over
      getAllCombinationsOf2DArray: it reports a winner exactly when the board
      holds a streak of tilesNeededToWin; a threshold of 1 or less is met by
      any board, since every line's first tile seeds a run of 1. */
  method BoardWinner(board: seq<seq<Tile>>, tilesNeededToWin: int) returns (winner: Option<Tile>)
    requires IsSquare(board) && |board| > 0
    ensures winner.Some? <==> tilesNeededToWin <= 1 || BoardHasStreak(board, tilesNeededToWin)
    ensures winner.Some? && tilesNeededToWin >= 2 ==> winner.value.IsTaken()
  {
    var allRowsToCheck := AllCombinations(board);
    LinesNonEmpty(board);
    winner := FindWinner(allRowsToCheck, tilesNeededToWin);
    if tilesNeededToWin >= 2 {
      LinesSeeEveryStreak(board, tilesNeededToWin);
    } else {
      assert Qualifies(allRowsToCheck[0], tilesNeededToWin);
    }
  }
}
