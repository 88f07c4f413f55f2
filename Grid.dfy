/** Board geometry (js/modules/2Darray.mjs): building a grid, mirroring it, and
    listing every line a streak can lie on. Cells are identified by
    (row, column) pairs; a matrix is a sequence of rows. */
module Grid {

  /** Every row is as long as there are rows. */
  predicate IsSquare<T>(m: seq<seq<T>>) {
    forall y :: 0 <= y < |m| ==> |m[y]| == |m|
  }

  /** The cell p = (row, column) lies in the n-by-n grid. */
  predicate InGrid(n: nat, p: (int, int)) {
    0 <= p.0 < n && 0 <= p.1 < n
  }

  /** The value stored at cell p. */
  function At<T>(m: seq<seq<T>>, p: (int, int)): T
    requires IsSquare(m) && InGrid(|m|, p)
  {
    m[p.0][p.1]
  }

  /** The values at the given cells, in order. */
  function Pick<T>(m: seq<seq<T>>, cells: seq<(int, int)>): (r: seq<T>)
    requires IsSquare(m)
    requires forall k :: 0 <= k < |cells| ==> InGrid(|m|, cells[k])
  {
    seq(|cells|, k requires 0 <= k < |cells| => At(m, cells[k]))
  }

  function Max(a: int, b: int): int { if a < b then b else a }

  function Min(a: int, b: int): int { if a < b then a else b }

  // ---------------------------------------------------------------------
  // fill2DArray

  /** A rows-by-columns grid in which every cell holds `cell` (the source
      builds a fresh default object per cell). */
  method Fill<T>(rows: nat, columns: nat, cell: T) returns (board: seq<seq<T>>)
    ensures |board| == rows
    ensures forall y :: 0 <= y < rows ==> |board[y]| == columns
    ensures forall y, x :: 0 <= y < rows && 0 <= x < columns ==> board[y][x] == cell
  {
    board := [];
    for y := 0 to rows
      invariant |board| == y
      invariant forall i :: 0 <= i < y ==> |board[i]| == columns
      invariant forall i, x :: 0 <= i < y && 0 <= x < columns ==> board[i][x] == cell
    {
      var row := [];
      for x := 0 to columns
        invariant |row| == x
        invariant forall j :: 0 <= j < x ==> row[j] == cell
      {
        row := row + [cell];
      }
      board := board + [row];
    }
  }

  // ---------------------------------------------------------------------
  // flip2DArrayHorizontal

  /** One row read from right to left. */
  function Mirror<T>(row: seq<T>): seq<T> {
    seq(|row|, x requires 0 <= x < |row| => row[|row| - x - 1])
  }

  /** The matrix mirrored left to right: row order is kept, and cell (y, x)
      receives the original cell (y, len - 1 - x) of the same row. */
  function Flip<T>(m: seq<seq<T>>): (r: seq<seq<T>>)
    ensures |r| == |m|
    ensures forall y :: 0 <= y < |m| ==> |r[y]| == |m[y]|
    ensures forall y, x :: 0 <= y < |m| && 0 <= x < |m[y]| ==> r[y][x] == m[y][|m[y]| - 1 - x]
    ensures IsSquare(m) ==> IsSquare(r)
  {
    seq(|m|, y requires 0 <= y < |m| => Mirror(m[y]))
  }

  /** Mirroring twice gives back the original matrix. */
  lemma FlipInvolutive<T>(m: seq<seq<T>>)
    ensures Flip(Flip(m)) == m
  {
    var f := Flip(Flip(m));
    forall y | 0 <= y < |m|
      ensures f[y] == m[y]
    {
      assert |f[y]| == |m[y]|;
      forall x | 0 <= x < |m[y]|
        ensures f[y][x] == m[y][x]
      {
        assert f[y][x] == Flip(m)[y][|m[y]| - 1 - x];
      }
    }
  }

  // ---------------------------------------------------------------------
  // getAllDiagonals: anti-diagonal d (0 <= d < 2n - 1) holds the cells whose
  // row and column add up to d. For d < n it starts in the top row at
  // column d; after that it starts in the rightmost column at row d - n + 1.

  /** Row of the first cell of anti-diagonal d. */
  function DiagStart(n: nat, d: nat): nat {
    if d < n then 0 else d - n + 1
  }

  /** Number of cells on anti-diagonal d: 1..n, then n-1..1. */
  function DiagLength(n: nat, d: nat): nat
    requires d < 2 * n - 1
  {
    if d < n then d + 1 else 2 * n - 1 - d
  }

  /** The cells of anti-diagonal d, walking one row down and one column left at a time. */
  function AntiDiagonalCells(n: nat, d: nat): (cells: seq<(int, int)>)
    requires d < 2 * n - 1
    ensures |cells| == DiagLength(n, d)
    ensures forall k :: 0 <= k < |cells| ==> InGrid(n, cells[k]) && cells[k].0 + cells[k].1 == d
  {
    var s := DiagStart(n, d);
    seq(DiagLength(n, d), k requires 0 <= k < DiagLength(n, d) => (s + k, d - s - k))
  }

  /** Anti-diagonal d of the mirrored grid, in the grid's own coordinates:
      it walks one row down and one column right at a time. */
  function DiagonalCells(n: nat, d: nat): (cells: seq<(int, int)>)
    requires d < 2 * n - 1
    ensures |cells| == DiagLength(n, d)
    ensures forall k :: 0 <= k < |cells| ==> InGrid(n, cells[k]) && cells[k].1 - cells[k].0 == n - 1 - d
  {
    var a := AntiDiagonalCells(n, d);
    seq(|a|, k requires 0 <= k < |a| => (a[k].0, n - 1 - a[k].1))
  }

  /** Anti-diagonal d of a square matrix. */
  function AntiDiagonal<T>(m: seq<seq<T>>, d: nat): seq<T>
    requires IsSquare(m) && d < 2 * |m| - 1
  {
    Pick(m, AntiDiagonalCells(|m|, d))
  }

  /** All 2n - 1 anti-diagonals, shortest corner first (none for the empty matrix). */
  function AntiDiagonals<T>(m: seq<seq<T>>): seq<seq<T>>
    requires IsSquare(m)
  {
    if |m| == 0 then []
    else seq(2 * |m| - 1, d requires 0 <= d < 2 * |m| - 1 => AntiDiagonal(m, d))
  }

  /** iterateOneDiagonal: starting at (startRow, startColumn), collect cells
      one row down and one column left until the row passes
      max(startRow, startColumn) or the column drops below 0. */
  method IterateOneDiagonal<T>(m: seq<seq<T>>, startRow: nat, startColumn: nat) returns (diagonal: seq<T>)
    requires IsSquare(m)
    requires Max(startRow, startColumn) < |m|
    ensures |diagonal| == Min(Max(startRow, startColumn) - startRow, startColumn) + 1
    ensures forall k :: 0 <= k < |diagonal| ==> diagonal[k] == m[startRow + k][startColumn - k]
  {
    var row: int := startRow;
    var column: int := startColumn;
    diagonal := [];
    while !(row > Max(startRow, startColumn) || column < 0)
      invariant row == startRow + |diagonal| && column == startColumn - |diagonal|
      invariant |diagonal| <= Min(Max(startRow, startColumn) - startRow, startColumn) + 1
      invariant forall k :: 0 <= k < |diagonal| ==> diagonal[k] == m[startRow + k][startColumn - k]
      decreases Max(startRow, startColumn) - row
    {
      diagonal := diagonal + [m[row][column]];
      row := row + 1;
      column := column - 1;
    }
  }

  /** A walk from the first cell of anti-diagonal d, down and to the left,
      that has its length is that anti-diagonal. */
  lemma WalkIsAntiDiagonal<T>(m: seq<seq<T>>, d: nat, walk: seq<T>)
    requires IsSquare(m) && d < 2 * |m| - 1
    requires |walk| == DiagLength(|m|, d)
    requires forall k :: 0 <= k < |walk| ==> walk[k] == m[DiagStart(|m|, d) + k][d - DiagStart(|m|, d) - k]
    ensures walk == AntiDiagonal(m, d)
  {
    var a := AntiDiagonal(m, d);
    forall k | 0 <= k < |walk|
      ensures walk[k] == a[k]
    {
    }
  }

  /** getAllDiagonals: the diagonals started from each top-row cell, then from
      each right-column cell below the first. */
  method AllDiagonals<T>(m: seq<seq<T>>) returns (diagonals: seq<seq<T>>)
    requires IsSquare(m)
    ensures |diagonals| == if |m| == 0 then 0 else 2 * |m| - 1
    ensures forall d :: 0 <= d < |diagonals| ==> |diagonals[d]| == if d < |m| then d + 1 else 2 * |m| - 1 - d
    ensures forall d :: 0 <= d < |diagonals| ==> diagonals[d] == AntiDiagonal(m, d)
    ensures diagonals == AntiDiagonals(m)
  {
    var amountOfSquares := |m|;
    diagonals := [];
    var i := 0;
    while i < amountOfSquares
      invariant 0 <= i <= amountOfSquares
      invariant |diagonals| == i
      invariant forall d :: 0 <= d < i ==> diagonals[d] == AntiDiagonal(m, d)
    {
      var diagonal := IterateOneDiagonal(m, 0, i);
      WalkIsAntiDiagonal(m, i, diagonal);
      diagonals := diagonals + [diagonal];
      i := i + 1;
    }
    i := 1;
    while i < amountOfSquares
      invariant amountOfSquares > 0 ==> 1 <= i <= amountOfSquares
      invariant |diagonals| == if amountOfSquares == 0 then 0 else amountOfSquares + i - 1
      invariant forall d :: 0 <= d < |diagonals| ==> diagonals[d] == AntiDiagonal(m, d)
    {
      var diagonal := IterateOneDiagonal(m, i, amountOfSquares - 1);
      WalkIsAntiDiagonal(m, amountOfSquares - 1 + i, diagonal);
      diagonals := diagonals + [diagonal];
      i := i + 1;
    }
  }

  // ---------------------------------------------------------------------
  // getAllCombinationsOf2DArray

  /** Column j, top to bottom. */
  function Column<T>(m: seq<seq<T>>, j: nat): seq<T>
    requires forall y :: 0 <= y < |m| ==> j < |m[y]|
  {
    seq(|m|, k requires 0 <= k < |m| => m[k][j])
  }

  /** Every column of a square matrix, left to right. */
  function Columns<T>(m: seq<seq<T>>): seq<seq<T>>
    requires IsSquare(m)
  {
    seq(|m|, j requires 0 <= j < |m| => Column(m, j))
  }

  /** The lines of getAllCombinationsOf2DArray: rows, columns, anti-diagonals,
      then the anti-diagonals of the mirrored matrix. */
  function Lines<T>(m: seq<seq<T>>): seq<seq<T>>
    requires IsSquare(m)
  {
    m + Columns(m) + AntiDiagonals(m) + AntiDiagonals(Flip(m))
  }

  /** getAllCombinationsOf2DArray (the matrix must have a first row). */
  method AllCombinations<T>(m: seq<seq<T>>) returns (lines: seq<seq<T>>)
    requires IsSquare(m) && |m| > 0
    ensures lines == Lines(m)
  {
    var allRows := m;
    var allColumns := seq(|m[0]|, j requires 0 <= j < |m[0]| => Column(m, j));
    var allDiagonals := AllDiagonals(m);
    var allDiagonalsFlipped := AllDiagonals(Flip(m));
    lines := allRows + allColumns + allDiagonals + allDiagonalsFlipped;
  }

  /** Indexing into four concatenated sequences. */
  lemma ConcatAt<T>(a: seq<T>, b: seq<T>, c: seq<T>, d: seq<T>, i: int)
    requires 0 <= i < |a| + |b| + |c| + |d|
    ensures (a + b + c + d)[i] ==
      if i < |a| then a[i]
      else if i < |a| + |b| then b[i - |a|]
      else if i < |a| + |b| + |c| then c[i - |a| - |b|]
      else d[i - |a| - |b| - |c|]
  {
  }

  /** Line i of Lines, by the segment it falls in. */
  lemma LineSegment<T>(m: seq<seq<T>>, i: nat)
    requires IsSquare(m) && 0 < |m| && i < 6 * |m| - 2
    ensures |Lines(m)| == 6 * |m| - 2
    ensures Lines(m)[i] ==
      if i < |m| then m[i]
      else if i < 2 * |m| then Column(m, i - |m|)
      else if i < 4 * |m| - 1 then AntiDiagonal(m, i - 2 * |m|)
      else AntiDiagonal(Flip(m), i - (4 * |m| - 1))
  {
    var n := |m|;
    var f := Flip(m);
    var rows, cols, anti, flipped := m, Columns(m), AntiDiagonals(m), AntiDiagonals(f);
    assert |cols| == n && |anti| == 2 * n - 1 && |flipped| == 2 * n - 1;
    assert Lines(m) == rows + cols + anti + flipped;
    ConcatAt(rows, cols, anti, flipped, i);
    if i < n {
    } else if i < 2 * n {
      assert cols[i - n] == Column(m, i - n);
    } else if i < 4 * n - 1 {
      assert anti[i - 2 * n] == AntiDiagonal(m, i - 2 * n);
    } else {
      assert flipped[i - (4 * n - 1)] == AntiDiagonal(f, i - (4 * n - 1));
    }
  }

  /** The 6n - 2 lines come in a fixed order: the n rows unchanged, the n
      columns (column j's k-th cell is m[k][j]), the 2n - 1 anti-diagonals,
      then the 2n - 1 anti-diagonals of the mirrored matrix. */
  lemma LinesLayout<T>(m: seq<seq<T>>)
    requires IsSquare(m) && |m| > 0
    ensures |Lines(m)| == 6 * |m| - 2
    ensures forall y :: 0 <= y < |m| ==> Lines(m)[y] == m[y]
    ensures forall i :: |m| <= i < 2 * |m| ==> |Lines(m)[i]| == |m|
    ensures forall i, k :: |m| <= i < 2 * |m| && 0 <= k < |m| ==> Lines(m)[i][k] == m[k][i - |m|]
    ensures forall i :: 2 * |m| <= i < 4 * |m| - 1 ==> Lines(m)[i] == AntiDiagonal(m, i - 2 * |m|)
    ensures forall i :: 4 * |m| - 1 <= i < 6 * |m| - 2 ==> Lines(m)[i] == AntiDiagonal(Flip(m), i - (4 * |m| - 1))
  {
    LineSegment(m, 0);
    forall i | 0 <= i < 6 * |m| - 2
      ensures Lines(m)[i] ==
        if i < |m| then m[i]
        else if i < 2 * |m| then Column(m, i - |m|)
        else if i < 4 * |m| - 1 then AntiDiagonal(m, i - 2 * |m|)
        else AntiDiagonal(Flip(m), i - (4 * |m| - 1))
    {
      LineSegment(m, i);
    }
  }

  // ---------------------------------------------------------------------
  // Where each line lies on the board.

  /** The four directions a line can run in. */
  datatype Direction = Rightward | Downward | DownLeft | DownRight

  /** The cell t steps away from p in direction dir. */
  function Step(p: (int, int), dir: Direction, t: int): (int, int) {
    match dir
    case Rightward => (p.0, p.1 + t)
    case Downward => (p.0 + t, p.1)
    case DownLeft => (p.0 + t, p.1 - t)
    case DownRight => (p.0 + t, p.1 + t)
  }

  /** The cells of line i of Lines on an n-by-n grid. */
  function LineCells(n: nat, i: nat): (cells: seq<(int, int)>)
    requires 0 < n && i < 6 * n - 2
    ensures forall k :: 0 <= k < |cells| ==> InGrid(n, cells[k])
  {
    if i < n then seq(n, k requires 0 <= k < n => (i, k))
    else if i < 2 * n then seq(n, k requires 0 <= k < n => (k, i - n))
    else if i < 4 * n - 1 then AntiDiagonalCells(n, i - 2 * n)
    else DiagonalCells(n, i - (4 * n - 1))
  }

  /** The direction line i of Lines runs in. */
  function LineDirection(n: nat, i: nat): Direction {
    if i < n then Rightward
    else if i < 2 * n then Downward
    else if i < 4 * n - 1 then DownLeft
    else DownRight
  }

  /** Each line of Lines is the board read along its cells. */
  lemma LinesAt<T>(m: seq<seq<T>>, i: nat)
    requires IsSquare(m) && 0 < |m| && i < 6 * |m| - 2
    ensures |Lines(m)| == 6 * |m| - 2
    ensures Lines(m)[i] == Pick(m, LineCells(|m|, i))
  {
    LineSegment(m, i);
    if 4 * |m| - 1 <= i {
      MirroredDiagonal(m, i - (4 * |m| - 1));
    }
  }

  /** Anti-diagonal d of the mirrored matrix holds the original cells of DiagonalCells(n, d). */
  lemma MirroredDiagonal<T>(m: seq<seq<T>>, d: nat)
    requires IsSquare(m) && d < 2 * |m| - 1
    ensures AntiDiagonal(Flip(m), d) == Pick(m, DiagonalCells(|m|, d))
  {
    var n := |m|;
    var a, b := AntiDiagonal(Flip(m), d), Pick(m, DiagonalCells(n, d));
    forall k | 0 <= k < |a|
      ensures a[k] == b[k]
    {
      var c := AntiDiagonalCells(n, d)[k];
      assert a[k] == Flip(m)[c.0][c.1];
    }
  }

  /** Consecutive positions on a line are consecutive steps in its direction. */
  lemma LineCellsStep(n: nat, i: nat, p: nat, t: nat)
    requires 0 < n && i < 6 * n - 2 && p + t < |LineCells(n, i)|
    ensures LineCells(n, i)[p + t] == Step(LineCells(n, i)[p], LineDirection(n, i), t)
  {
  }

  /** No line passes through a cell twice. */
  lemma LineCellsDistinct(n: nat, i: nat, a: nat, b: nat)
    requires 0 < n && i < 6 * n - 2 && a < b < |LineCells(n, i)|
    ensures LineCells(n, i)[a] != LineCells(n, i)[b]
  {
    LineCellsStep(n, i, a, b - a);
  }

  /** Anti-diagonal d holds exactly the cells whose row and column add up to d. */
  lemma AntiDiagonalMembers(n: nat, d: nat, p: (int, int))
    requires d < 2 * n - 1
    ensures p in AntiDiagonalCells(n, d) <==> InGrid(n, p) && p.0 + p.1 == d
  {
    var cells := AntiDiagonalCells(n, d);
    if InGrid(n, p) && p.0 + p.1 == d {
      var k := p.0 - DiagStart(n, d);
      assert cells[k] == p;
    }
  }

  /** Mirrored anti-diagonal d holds exactly the cells whose column minus row is n - 1 - d. */
  lemma DiagonalMembers(n: nat, d: nat, p: (int, int))
    requires d < 2 * n - 1
    ensures p in DiagonalCells(n, d) <==> InGrid(n, p) && p.1 - p.0 == n - 1 - d
  {
    var cells := DiagonalCells(n, d);
    if InGrid(n, p) && p.1 - p.0 == n - 1 - d {
      AntiDiagonalMembers(n, d, (p.0, n - 1 - p.1));
      var k :| 0 <= k < |AntiDiagonalCells(n, d)| && AntiDiagonalCells(n, d)[k] == (p.0, n - 1 - p.1);
      assert cells[k] == p;
    }
  }

  /** Each cell of the grid lies on exactly one line of each direction. */
  lemma OneLinePerDirection(n: nat, p: (int, int), dir: Direction) returns (i: nat)
    requires InGrid(n, p)
    ensures i < 6 * n - 2 && LineDirection(n, i) == dir && p in LineCells(n, i)
    ensures forall j :: 0 <= j < 6 * n - 2 && LineDirection(n, j) == dir && p in LineCells(n, j) ==> j == i
  {
    match dir
    case Rightward =>
      i := p.0;
      assert LineCells(n, i)[p.1] == p;
    case Downward =>
      i := n + p.1;
      assert LineCells(n, i)[p.0] == p;
    case DownLeft =>
      i := OneAntiDiagonal(n, p);
    case DownRight =>
      i := OneDiagonal(n, p);
  }

  /** The one anti-diagonal line through p. */
  lemma OneAntiDiagonal(n: nat, p: (int, int)) returns (i: nat)
    requires InGrid(n, p)
    ensures i < 6 * n - 2 && LineDirection(n, i) == DownLeft && p in LineCells(n, i)
    ensures forall j :: 0 <= j < 6 * n - 2 && LineDirection(n, j) == DownLeft && p in LineCells(n, j) ==> j == i
  {
    i := 2 * n + p.0 + p.1;
    AntiDiagonalMembers(n, p.0 + p.1, p);
    forall j | 0 <= j < 6 * n - 2 && LineDirection(n, j) == DownLeft && p in LineCells(n, j)
      ensures j == i
    {
      AntiDiagonalMembers(n, j - 2 * n, p);
    }
  }

  /** The one line of the mirrored pass through p. */
  lemma OneDiagonal(n: nat, p: (int, int)) returns (i: nat)
    requires InGrid(n, p)
    ensures i < 6 * n - 2 && LineDirection(n, i) == DownRight && p in LineCells(n, i)
    ensures forall j :: 0 <= j < 6 * n - 2 && LineDirection(n, j) == DownRight && p in LineCells(n, j) ==> j == i
  {
    i := 4 * n - 1 + (n - 1 - (p.1 - p.0));
    DiagonalMembers(n, n - 1 - (p.1 - p.0), p);
    forall j | 0 <= j < 6 * n - 2 && LineDirection(n, j) == DownRight && p in LineCells(n, j)
      ensures j == i
    {
      DiagonalMembers(n, j - (4 * n - 1), p);
    }
  }

  /** k cells from p in direction dir that all lie in the grid sit
      consecutively on one line of that direction, from position q onwards. */
  lemma LineThrough(n: nat, p: (int, int), dir: Direction, k: nat) returns (i: nat, q: nat)
    requires 1 <= k
    requires forall t :: 0 <= t < k ==> InGrid(n, Step(p, dir, t))
    ensures i < 6 * n - 2 && LineDirection(n, i) == dir
    ensures q + k <= |LineCells(n, i)| && LineCells(n, i)[q] == p
  {
    assert InGrid(n, Step(p, dir, 0));
    assert InGrid(n, Step(p, dir, k - 1));
    match dir
    case Rightward => i, q := RowThrough(n, p, k);
    case Downward => i, q := ColumnThrough(n, p, k);
    case DownLeft =>
      var d;
      d, q := AntiDiagonalThrough(n, p, k);
      i := 2 * n + d;
      AntiDiagonalLine(n, i);
    case DownRight =>
      var d;
      d, q := DiagonalThrough(n, p, k);
      i := 4 * n - 1 + d;
      DiagonalLine(n, i);
  }

  /** A walk of k cells to the right from p lies on row p.0. */
  lemma RowThrough(n: nat, p: (int, int), k: nat) returns (i: nat, q: nat)
    requires 1 <= k && InGrid(n, p) && InGrid(n, (p.0, p.1 + k - 1))
    ensures i < n && LineDirection(n, i) == Rightward
    ensures q + k <= |LineCells(n, i)| && LineCells(n, i)[q] == p
  {
    i, q := p.0, p.1;
  }

  /** A walk of k cells downwards from p lies on column p.1. */
  lemma ColumnThrough(n: nat, p: (int, int), k: nat) returns (i: nat, q: nat)
    requires 1 <= k && InGrid(n, p) && InGrid(n, (p.0 + k - 1, p.1))
    ensures n <= i < 2 * n && LineDirection(n, i) == Downward
    ensures q + k <= |LineCells(n, i)| && LineCells(n, i)[q] == p
  {
    i, q := n + p.1, p.0;
  }

  /** Lines 2n to 4n - 2 are the anti-diagonals. */
  lemma AntiDiagonalLine(n: nat, i: nat)
    requires 0 < n && 2 * n <= i < 4 * n - 1
    ensures LineDirection(n, i) == DownLeft && LineCells(n, i) == AntiDiagonalCells(n, i - 2 * n)
  {
  }

  /** Lines 4n - 1 to 6n - 3 are the diagonals of the mirrored board. */
  lemma DiagonalLine(n: nat, i: nat)
    requires 0 < n && 4 * n - 1 <= i < 6 * n - 2
    ensures LineDirection(n, i) == DownRight && LineCells(n, i) == DiagonalCells(n, i - (4 * n - 1))
  {
  }

  /** A walk of k cells down and to the left from p stays on anti-diagonal p.0 + p.1. */
  lemma AntiDiagonalThrough(n: nat, p: (int, int), k: nat) returns (d: nat, q: nat)
    requires 1 <= k && InGrid(n, p) && InGrid(n, (p.0 + k - 1, p.1 - (k - 1)))
    ensures d == p.0 + p.1 && d < 2 * n - 1
    ensures q + k <= DiagLength(n, d) && AntiDiagonalCells(n, d)[q] == p
  {
    d := p.0 + p.1;
    q := p.0 - DiagStart(n, d);
  }

  /** A walk of k cells down and to the right from p stays on mirrored line n - 1 - (p.1 - p.0). */
  lemma DiagonalThrough(n: nat, p: (int, int), k: nat) returns (d: nat, q: nat)
    requires 1 <= k && InGrid(n, p) && InGrid(n, (p.0 + k - 1, p.1 + k - 1))
    ensures d == n - 1 - (p.1 - p.0) && d < 2 * n - 1
    ensures q + k <= DiagLength(n, d) && DiagonalCells(n, d)[q] == p
  {
    d := n - 1 - (p.1 - p.0);
    q := p.0 - DiagStart(n, d);
    assert AntiDiagonalCells(n, d)[q] == (p.0, n - 1 - p.1);
  }
}
