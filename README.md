# Tic-tac-toe 2.0 in Dafny

This project models the game engine of tic_tac_toe_2.0, a browser
tic-tac-toe on an n-by-n board where a player wins with a configurable
streak length. It has two parts.

- **Board geometry** (`Grid.dfy`, from `js/modules/2Darray.mjs`):
  - building a grid (`fill2DArray`);
  - mirroring it left to right (`flip2DArrayHorizontal`);
  - walking every anti-diagonal (`getAllDiagonals` with its inner `iterateOneDiagonal`);
  - listing the 6n - 2 lines a streak can lie on (`getAllCombinationsOf2DArray`).

  `js/script.js:5-64` is a character-for-character copy of
  `js/modules/2Darray.mjs:1-60`. It is modelled once, and every
  `Grid` row below applies to both places (add 4 to a module line to get
  the `script.js` line).
- **Streak scan and game** (`Scan.dfy` and `Engine.dfy`, from `js/script.js`):
  - `Tile` as a datatype over its string mark;
  - `findWinnerInRow` as the source's four-counter loop;
  - `findWinner` as the first-qualifying-line search;
  - the `Game` object as a class whose methods update its fields in place.

  The two scores, kept in the source in `players[true]` and `players[false]`,
  are the fields `xScore` and `oScore`. A thrown error becomes an `Outcome`.

The central theorem is `Scan.LinesSeeEveryStreak`. It says that scanning
the 6n - 2 lines finds a streak of length k exactly when k consecutive
cells in a row, a column or either diagonal direction hold the same mark.
That includes the short corner diagonals. `Scan.BoardWinner` (the scan
`addTic` runs) and `Engine.Game.AddTic` are stated in terms of that
board-level predicate, `BoardHasStreak`.

Where the code and a tidier reading of the game differ, the model follows
the code:

- `setTilesNeededToWin` accepts only 3 < v <= width: 3 itself is refused,
  although its error message says "less than 3".
- The turn passes to the other player after every legal move, including
  the move that ends the game.
- `generateBoard` always resets the streak length to the new width.
- `startGame` neither regenerates the width nor resets the turn count.
- The draw test is `amountOfTurns >= width * width`.

## Model

| member | source | states |
|---|---|---|
| Grid.Fill | js/modules/2Darray.mjs:1-11 | exactly `rows` rows, each of length `columns`, every cell the given default value |
| Grid.Flip | js/modules/2Darray.mjs:13-15 | dimensions kept; the original cell (y, len-1-x) lands at (y, x); square stays square |
| Grid.FlipInvolutive | js/modules/2Darray.mjs:13-15 | mirroring twice gives back the original matrix |
| Grid.IterateOneDiagonal | js/modules/2Darray.mjs:18-30 | the walk from (r, c) yields min(max(r,c) - r, c) + 1 cells, the k-th being matrix[r+k][c-k]; it never leaves the grid |
| Grid.AntiDiagonalCells | js/modules/2Darray.mjs:17-48 | anti-diagonal d has DiagLength(n, d) cells, all in the grid, each with row + column == d |
| Grid.WalkIsAntiDiagonal | js/modules/2Darray.mjs:36-45 | a walk of the right length from anti-diagonal d's first cell is exactly anti-diagonal d |
| Grid.AllDiagonals | js/modules/2Darray.mjs:17-48 | 2n - 1 lines (none for n = 0), of lengths 1..n then n-1..1; line d is anti-diagonal d |
| Grid.AntiDiagonalMembers | js/modules/2Darray.mjs:17-48 | a cell is on anti-diagonal d if and only if it is in the grid and its row + column is d |
| Grid.OneAntiDiagonal | js/modules/2Darray.mjs:17-48 | each cell is on exactly one of the anti-diagonal lines |
| Grid.AllCombinations | js/modules/2Darray.mjs:50-60 | the result is Lines(m): rows, columns, anti-diagonals, then the mirrored matrix's anti-diagonals |
| Grid.LinesLayout | js/modules/2Darray.mjs:50-60 | 6n - 2 lines: the rows unchanged, then columns with column j's k-th element m[k][j], then the 2n - 1 anti-diagonals, then the 2n - 1 mirrored ones |
| Grid.LineSegment | js/modules/2Darray.mjs:50-60 | line i of the result is a row, a column, an anti-diagonal or a mirrored anti-diagonal, according to its index |
| Grid.MirroredDiagonal | js/modules/2Darray.mjs:54 | anti-diagonal d of the mirrored matrix holds the original cells (row, n-1-column) of anti-diagonal d |
| Grid.DiagonalCells | js/modules/2Darray.mjs:54 | each mirrored-pass line, in original coordinates, has a constant column - row == n - 1 - d |
| Grid.DiagonalMembers | js/modules/2Darray.mjs:54 | a cell is on mirrored line d if and only if it is in the grid and its column - row is n - 1 - d |
| Grid.OneDiagonal | js/modules/2Darray.mjs:54 | each cell is on exactly one line of the mirrored pass |
| Grid.OneLinePerDirection | js/modules/2Darray.mjs:50-60 | each cell lies on exactly one line of each direction (row, column, anti-diagonal, diagonal) |
| Grid.LineCells | js/modules/2Darray.mjs:50-60 | the cells line i reads all lie in the grid |
| Grid.LinesAt | js/modules/2Darray.mjs:50-60 | line i is the board read along LineCells(n, i) |
| Grid.LineCellsStep | js/modules/2Darray.mjs:50-60 | consecutive positions on a line are consecutive steps in that line's direction |
| Grid.LineCellsDistinct | js/modules/2Darray.mjs:50-60 | no line passes through the same cell twice |
| Grid.LineThrough | js/modules/2Darray.mjs:50-60 | k in-grid cells walked from p in one direction lie consecutively on one line of that direction |
| Grid.AntiDiagonalThrough | js/modules/2Darray.mjs:17-48 | a down-left walk from p stays on anti-diagonal p.0 + p.1, from position q on |
| Grid.DiagonalThrough | js/modules/2Darray.mjs:54 | a down-right walk from p stays on one mirrored line, from position q on |
| Scan.Tile.IsTaken | js/script.js:130-139 | a tile is taken exactly when its mark is non-empty; the default tile `EmptyTile` has the empty mark and is not taken |
| Scan.RunEnding | js/script.js:74-104 | the length of the run of taken tiles of one kind ending at index i: positive exactly when tile i is taken, and at most i + 1; the source's `currentStreak` equals it from index 1 on (at index 0 the source counts 1 even for an empty tile) |
| Scan.RunIsStreak | js/script.js:90-103 | the run counted at index i is made of taken tiles of tile i's kind, ending at i |
| Scan.StreakReachesRun | js/script.js:96-103 | a streak of k ending at index j makes the run counted at j at least k |
| Scan.RunGivesStreak | js/script.js:106-115 | the last k tiles of a counted run form a streak of length k |
| Scan.LongerStreakSuffices | js/script.js:113 | a streak of length k meets every threshold between 1 and k |
| Scan.FindWinnerInRow | js/script.js:67-118 | for a threshold >= 2, a tile is returned if and only if the line holds that many consecutive taken tiles of one kind, and it is a taken tile of such a streak; below 2, every non-empty line qualifies, because index 0 seeds a run of 1 |
| Scan.FindWinner | js/script.js:120-127 | the answer comes from the first line, in order, on which the row scan reports a winner; None if and only if no line qualifies |
| Scan.LineStreakOnBoard | js/script.js:244-245 | a streak on a scanned line is a streak on the board, in that line's direction |
| Scan.BoardStreakOnLine | js/script.js:244-245 | a streak on the board is a streak on the scanned line of its direction |
| Scan.LinesSeeEveryStreak | js/script.js:244-245 | some scanned line holds a streak of length k if and only if the board does |
| Scan.LinesNonEmpty | js/modules/2Darray.mjs:50-60 | every scanned line of a non-empty board has a cell |
| Scan.BoardWinner | js/script.js:244-246 | a winner is found if and only if the threshold is at most 1 or the board holds a streak of that length; for a threshold >= 2 it is a taken tile |
| Engine.Game.constructor | js/script.js:151-166 | `new Game()` then `start()`: stopped, empty 3-by-3, streak length 3, X to move, scores 0, no winner, no end screen |
| Engine.Game.Start | js/script.js:156-158 | the board is rebuilt at the current width; the streak length becomes the width |
| Engine.Game.GenerateBoard | js/script.js:170-175 | an empty w-by-w board, width = w, streak length = w, winner cleared; running flag, turn count, turn and scores untouched |
| Engine.Game.StartGame | js/script.js:176-181 | running, no winner, a fresh empty board; the turn count is not reset |
| Engine.Game.Reset | js/script.js:182-188 | stopped, no winner, no turns, a fresh empty board; scores and turn kept |
| Engine.Game.Restart | js/script.js:189-198 | reset, then both scores zero and X to move |
| Engine.Game.CanAddTic | js/script.js:237 | a move is legal exactly when the target tile is not taken and the game is running |
| Engine.Game.GameIsDraw | js/script.js:199-201 | a draw: no winner and at least width² turns counted |
| Engine.Game.SetShowEndScreen | js/script.js:205-207 | sets the end-screen flag and nothing else |
| Engine.Game.SetTilesNeededToWin | js/script.js:265-271 | succeeds if and only if 3 < v <= width; on failure, the error message and an unchanged streak length |
| Engine.Game.AddTic | js/script.js:236-264 | an illegal move changes no field; a legal one writes only board[y][x] and always flips the turn; a streak makes the mover the winner and scores only the mover; otherwise at least width² turns is a draw giving both a point; either ending stops the game, shows the end screen and zeroes the turns |
| Engine.MarkKeepsSquare | js/script.js:241-242 | marking one tile keeps the board square and puts the mark at (y, x) |

`Engine.Game.Valid` holds after the constructor and is kept by every method,
so none of them can break it. It says:

- the board is width-by-width;
- the streak length is the width or lies in 4..width;
- a stopped game has no turns counted;
- a running game has no winner.

`Engine.Game.GameIsDraw` is the test `AddTic`'s body runs after the win
check; `AddTic`'s contract spells the same condition out on the old state.

## Left out

- The controller, DOM rendering (`generateRowToElements`, `htmlView`), the observer list (`addObserver`, `updateView`, `buildView`) and the bootstrap: user interface only. Observers change no field.
- `Tile`'s `toString`: presentation only.
- `js/modules/domfunctions.mjs`: wrappers over the browser's DOM.
- `Tile` throwing on a non-string mark: the Dafny type makes that input impossible.
- Coordinates and slider values that arrive as strings: they are naturals here, and `AddTic` requires 0 <= x, y < width, because the source crashes on an index outside the board.
- Negative widths: widths are naturals.
- Grid.AllCombinations: the empty matrix is excluded by its precondition, because the source crashes there (`matrix[0]` is undefined); `addTic` never passes one, since its board has at least one row whenever a tile can be marked.
- Scan.FindWinnerInRow: the empty line with a threshold of 0 or less is excluded by its precondition. There the source returns `undefined` (neither a tile nor `null`), which no game state can produce.
- The board before `start()`: the source leaves it undefined; the constructor here includes `start()`.
- Object identity: a tile is a value. The model does not capture the source's sharing of tile objects between the board and the scanned lines. Nor does it capture `addTic` changing the tile object in place instead of replacing it. The geometry functions not mutating their input holds by construction.
- A bound of width² on the turn count is not claimed: `generateBoard` can shrink the width while a game is running, so it does not hold as written.
