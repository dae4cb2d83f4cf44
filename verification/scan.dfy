/**
  `find_empty`: a row-major scan (rows top to bottom, columns left to right)
  for the first cell holding 0.
 */
module Scan {
  import opened Grid

  /** An optional result: `find_empty` returns None when no cell is empty. */
  datatype Option<+T> = None | Some(value: T)

  /** Row-major order on cells: `q` is visited before `p`. */
  predicate Before(q: Pos, p: Pos)
  {
    q.row < p.row || (q.row == p.row && q.col < p.col)
  }

  /** Cell `(i, j)` holds a digit. */
  predicate Filled(b: Board, i: int, j: int)
    requires IsGrid(b) && 0 <= i < 9 && 0 <= j < 9
  {
    b[i][j] != 0
  }

  /** A board is complete exactly when every cell is filled. */
  lemma CompleteIsFilled(b: Board)
    requires IsGrid(b)
    ensures Complete(b) <==> forall x, y :: 0 <= x < 9 && 0 <= y < 9 ==> Filled(b, x, y)
  {
    if forall x, y :: 0 <= x < 9 && 0 <= y < 9 ==> Filled(b, x, y) {
      forall x, y | 0 <= x < 9 && 0 <= y < 9
        ensures b[x][y] != 0
      {
        assert Filled(b, x, y);
      }
    }
  }

  /** The inner loop: the first 0 in row `i` at column `j` or later. */
  function FindInRow(b: Board, i: int, j: int): (r: Option<int>)
    requires IsGrid(b) && 0 <= i < 9 && 0 <= j <= 9
    ensures r.None? <==> forall y :: j <= y < 9 ==> Filled(b, i, y)
    ensures r.Some? ==> j <= r.value < 9 && b[i][r.value] == 0 &&
                        forall y :: j <= y < r.value ==> Filled(b, i, y)
    decreases 9 - j
  {
    if j == 9 then None
    else if b[i][j] == 0 then assert !Filled(b, i, j); Some(j)
    else assert Filled(b, i, j); FindInRow(b, i, j + 1)
  }

  /** The outer loop: the first 0 in rows `i` and below. */
  function FindFrom(b: Board, i: int): (r: Option<Pos>)
    requires IsGrid(b) && 0 <= i <= 9
    ensures r.None? <==> forall x, y :: i <= x < 9 && 0 <= y < 9 ==> Filled(b, x, y)
    ensures r.Some? ==> InRange(r.value) && i <= r.value.row && b[r.value.row][r.value.col] == 0 &&
                        forall x, y {:trigger Filled(b, x, y)} :: i <= x < 9 && 0 <= y < 9 && Before(Pos(x, y), r.value) ==> Filled(b, x, y)
    decreases 9 - i
  {
    if i == 9 then None
    else match FindInRow(b, i, 0)
      case Some(j) => Some(Pos(i, j))
      case None => FindFrom(b, i + 1)
  }

  /**
    `find_empty`: the first empty cell in row-major order, or None exactly
    when the board has no empty cell.
   */
  function FindEmpty(b: Board): (r: Option<Pos>)
    requires IsGrid(b)
    ensures r.None? <==> Complete(b)
    ensures r.Some? ==> InRange(r.value) && r.value in Empties(b)
    ensures r.Some? ==> forall x, y {:trigger Filled(b, x, y)} :: 0 <= x < 9 && 0 <= y < 9 && Before(Pos(x, y), r.value) ==> Filled(b, x, y)
  {
    CompleteIsFilled(b);
    FindFrom(b, 0)
  }

  /** With a single empty cell, `find_empty` returns exactly that cell. */
  lemma FindEmptySingle(b: Board, p: Pos)
    requires IsGrid(b) && InRange(p)
    requires Empties(b) == {p}
    ensures FindEmpty(b) == Some(p)
  {
    assert b[p.row][p.col] == 0 by { assert p in Empties(b); }
    assert !Complete(b);
    var q := FindEmpty(b).value;
    assert q in Empties(b);
  }
}
