/** The game object of js/script.js: board, turn, scores and the end-of-game
    flags, updated in place by its methods. Observer notification
    (updateView, buildView) changes no field and is left out. */
module Engine {
  import opened Wrappers
  import opened Grid
  import opened Scan

  /** The message setTilesNeededToWin throws with. */
  const StreakLengthError := "game.tilesNeededToWin cannot be less than 3 or greater than game.width"

  /** The mark of the player the turn flag names: players[true] is X, players[false] is O. */
  function PlayerKind(itsXsTurn: bool): string {
    if itsXsTurn then "X" else "O"
  }

  /** A fresh n-by-n board of empty tiles. */
  predicate IsEmptyBoard(b: seq<seq<Tile>>, n: nat) {
    |b| == n && IsSquare(b) &&
    forall y, x :: 0 <= y < n && 0 <= x < n ==> b[y][x] == EmptyTile
  }

  class Game {
    var board: seq<seq<Tile>>
    var width: nat
    var tilesNeededToWin: int
    var amountOfTurns: nat
    var isGameRunning: bool
    var itsXsTurn: bool
    /** players[true].score */
    var xScore: nat
    /** players[false].score */
    var oScore: nat
    var winner: Option<string>
    var showEndScreen: bool

    /** The invariant every method keeps: the board is width-by-width; the
        streak length is the width or lies between 4 and the width; a stopped
        game has no turns counted; a running game has no winner. */
    ghost predicate Valid()
      reads this
    {
      |board| == width && IsSquare(board) &&
      (tilesNeededToWin == width || 3 < tilesNeededToWin <= width) &&
      (!isGameRunning ==> amountOfTurns == 0) &&
      (isGameRunning ==> winner.None?)
    }

    /** The mark the player to move puts down. */
    function MoverKind(): string
      reads this
    {
      PlayerKind(itsXsTurn)
    }

    /** addTic's guard: the game is running and the target tile is free. */
    predicate CanAddTic(x: nat, y: nat)
      reads this
      requires y < |board| && x < |board[y]|
    {
      !board[y][x].IsTaken() && isGameRunning
    }

    /** gameIsDraw: no winner, and at least width * width turns counted. */
    predicate GameIsDraw()
      reads this
    {
      winner.None? && amountOfTurns >= width * width
    }

    /** `new Game()` followed by `start()`: a stopped 3-by-3 game, X to move. */
    constructor ()
      ensures Valid()
      ensures IsEmptyBoard(board, 3) && width == 3 && tilesNeededToWin == 3
      ensures amountOfTurns == 0 && !isGameRunning && itsXsTurn
      ensures xScore == 0 && oScore == 0 && winner.None? && !showEndScreen
    {
      var empty := Fill(3, 3, EmptyTile);
      board := empty;
      width := 3;
      tilesNeededToWin := 3;
      amountOfTurns := 0;
      isGameRunning := false;
      itsXsTurn := true;
      xScore, oScore := 0, 0;
      winner := None;
      showEndScreen := false;
    }

    /** start: builds the board at the current width. */
    method Start()
      requires Valid()
      modifies this`board, this`width, this`tilesNeededToWin, this`winner
      ensures Valid()
      ensures IsEmptyBoard(board, width) && width == old(width) && tilesNeededToWin == width && winner.None?
    {
      GenerateBoard(width);
    }

    /** generateBoard: a fresh empty w-by-w board; the width and the streak
        length both become w and the winner is cleared. The running flag,
        the turn count, the turn and the scores are left as they are. */
    method GenerateBoard(valWidth: nat)
      requires Valid()
      modifies this`board, this`width, this`tilesNeededToWin, this`winner
      ensures Valid()
      ensures IsEmptyBoard(board, valWidth) && width == valWidth && tilesNeededToWin == valWidth
      ensures winner.None?
    {
      board := Fill(valWidth, valWidth, EmptyTile);
      width := valWidth;
      tilesNeededToWin := valWidth;
      winner := None;
    }

    /** startGame: a running game on a fresh board with no winner. The turn
        count, the streak length and the end-screen flag are left as they are. */
    method StartGame()
      requires Valid()
      modifies this`isGameRunning, this`winner, this`board
      ensures Valid()
      ensures isGameRunning && winner.None? && IsEmptyBoard(board, width)
    {
      isGameRunning := true;
      winner := None;
      board := Fill(width, width, EmptyTile);
    }

    /** reset: a stopped game on a fresh board with no winner and no turns;
        scores and turn are kept. */
    method Reset()
      requires Valid()
      modifies this`board, this`winner, this`isGameRunning, this`amountOfTurns
      ensures Valid()
      ensures IsEmptyBoard(board, width) && winner.None? && !isGameRunning && amountOfTurns == 0
    {
      board := Fill(width, width, EmptyTile);
      winner := None;
      isGameRunning := false;
      amountOfTurns := 0;
    }

    /** restart: reset, then both scores are zeroed and X is to move. */
    method Restart()
      requires Valid()
      modifies this`board, this`winner, this`isGameRunning, this`amountOfTurns
      modifies this`xScore, this`oScore, this`itsXsTurn
      ensures Valid()
      ensures IsEmptyBoard(board, width) && winner.None? && !isGameRunning && amountOfTurns == 0
      ensures xScore == 0 && oScore == 0 && itsXsTurn
    {
      Reset();
      xScore, oScore := 0, 0;
      itsXsTurn := true;
      amountOfTurns := 0;
    }

    /** setShowEndScreen: sets the end-screen flag and nothing else. */
    method SetShowEndScreen(b: bool)
      requires Valid()
      modifies this`showEndScreen
      ensures Valid() && showEndScreen == b
    {
      showEndScreen := b;
    }

    /** setTilesNeededToWin: accepted only when 3 < val <= width (so 3
        itself is refused); otherwise it fails with the source's message and
        the streak length is unchanged. */
    method SetTilesNeededToWin(val: int) returns (outcome: Outcome)
      requires Valid()
      modifies this`tilesNeededToWin
      ensures Valid()
      ensures outcome.Pass? <==> 3 < val <= width
      ensures outcome.Pass? ==> tilesNeededToWin == val
      ensures outcome.Fail? ==> tilesNeededToWin == old(tilesNeededToWin) && outcome.error == StreakLengthError
    {
      if val > 3 && val <= width {
        tilesNeededToWin := val;
        outcome := Pass;
      } else {
        outcome := Fail(StreakLengthError);
      }
    }

    /** addTic(x, y): the mover marks column x of row y. An illegal move
        (stopped game or taken tile) changes nothing. A legal one counts a
        turn and marks the tile; a streak of tilesNeededToWin anywhere on the
        board then makes the mover the winner and gives only the mover a
        point; otherwise a count of at least width * width turns is a draw
        and gives both players a point; either ending stops the game, shows
        the end screen and zeroes the turn count. The turn passes to the
        other player after every legal move, the last one included. */
    method AddTic(x: nat, y: nat)
      requires Valid()
      requires x < width && y < width
      modifies this
      ensures Valid()
      ensures !old(CanAddTic(x, y)) ==> unchanged(this)
      ensures old(CanAddTic(x, y)) ==>
                board == old(board[y := board[y][x := Tile(MoverKind())]]) &&
                itsXsTurn == !old(itsXsTurn) &&
                width == old(width) && tilesNeededToWin == old(tilesNeededToWin)
      ensures old(CanAddTic(x, y)) && BoardHasStreak(board, tilesNeededToWin) ==>
                winner == Some(old(MoverKind())) && showEndScreen && !isGameRunning && amountOfTurns == 0 &&
                xScore == old(xScore) + (if old(itsXsTurn) then 1 else 0) &&
                oScore == old(oScore) + (if old(itsXsTurn) then 0 else 1)
      ensures old(CanAddTic(x, y)) && !BoardHasStreak(board, tilesNeededToWin) &&
              old(amountOfTurns) + 1 >= width * width ==>
                winner.None? && showEndScreen && !isGameRunning && amountOfTurns == 0 &&
                xScore == old(xScore) + 1 && oScore == old(oScore) + 1
      ensures old(CanAddTic(x, y)) && !BoardHasStreak(board, tilesNeededToWin) &&
              old(amountOfTurns) + 1 < width * width ==>
                winner == old(winner) && showEndScreen == old(showEndScreen) && isGameRunning &&
                amountOfTurns == old(amountOfTurns) + 1 &&
                xScore == old(xScore) && oScore == old(oScore)
    {
      var canAddTic := !board[y][x].IsTaken() && isGameRunning;

      if canAddTic {
        amountOfTurns := amountOfTurns + 1;
        var mover := PlayerKind(itsXsTurn);
        MarkKeepsSquare(board, y, x, Tile(mover));
        board := board[y := board[y][x := Tile(mover)]];

        var possibleWinner := BoardWinner(board, tilesNeededToWin);
        if tilesNeededToWin <= 1 {
          assert BoardRunAt(board, (y, x), Rightward, tilesNeededToWin);
        }
        if possibleWinner.Some? {
          winner := Some(mover);
          showEndScreen := true;
          if itsXsTurn {
            xScore := xScore + 1;
          } else {
            oScore := oScore + 1;
          }
          amountOfTurns := 0;
          isGameRunning := false;
        }

        if GameIsDraw() {
          showEndScreen := true;
          amountOfTurns := 0;
          isGameRunning := false;
          xScore := xScore + 1;
          oScore := oScore + 1;
        }

        itsXsTurn := !itsXsTurn;
      }
    }
  }

  /** Writing one cell keeps the board square. */
  lemma MarkKeepsSquare(b: seq<seq<Tile>>, y: nat, x: nat, t: Tile)
    requires IsSquare(b) && y < |b| && x < |b|
    ensures IsSquare(b[y := b[y][x := t]]) && |b[y := b[y][x := t]]| == |b|
    ensures b[y := b[y][x := t]][y][x] == t
  {
  }
}
