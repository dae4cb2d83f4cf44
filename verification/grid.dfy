/**
  The 9x9 Sudoku grid shared by the solver and the step-by-step search.
  A cell holds 0 when it is empty and a digit 1..9 otherwise; the grid is
  updated in place by the original program, so here every update returns
  a new grid.
 */
module Grid {

  type Board = seq<seq<int>>

  /** A (row, column) coordinate. */
  datatype Pos = Pos(row: int, col: int)

  /** The grid has nine rows of nine cells. */
  predicate IsGrid(b: Board)
  {
    |b| == 9 && forall i :: 0 <= i < 9 ==> |b[i]| == 9
  }

  predicate InRange(p: Pos)
  {
    0 <= p.row < 9 && 0 <= p.col < 9
  }

  /** Every cell holds 0 (empty) or a digit 1..9. */
  predicate CellsInRange(b: Board)
    requires IsGrid(b)
  {
    forall i, j :: 0 <= i < 9 && 0 <= j < 9 ==> 0 <= b[i][j] <= 9
  }

  /** The board with cell `p` overwritten by `v`, and nothing else changed. */
  function Set(b: Board, p: Pos, v: int): (b': Board)
    requires IsGrid(b) && InRange(p)
    ensures IsGrid(b')
    ensures b'[p.row][p.col] == v
    ensures forall i, j :: 0 <= i < 9 && 0 <= j < 9 && (i != p.row || j != p.col) ==> b'[i][j] == b[i][j]
  {
    b[p.row := b[p.row][p.col := v]]
  }

  /** The empty cells of the board. */
  function Empties(b: Board): set<Pos>
    requires IsGrid(b)
  {
    set i, j | 0 <= i < 9 && 0 <= j < 9 && b[i][j] == 0 :: Pos(i, j)
  }

  /** No cell is empty. */
  predicate Complete(b: Board)
    requires IsGrid(b)
  {
    forall i, j :: 0 <= i < 9 && 0 <= j < 9 ==> b[i][j] != 0
  }

  /** Every non-zero cell of `b` holds the same digit in `b'`. */
  predicate Keeps(b: Board, b': Board)
    requires IsGrid(b) && IsGrid(b')
  {
    forall i, j :: 0 <= i < 9 && 0 <= j < 9 && b[i][j] != 0 ==> b'[i][j] == b[i][j]
  }

  /** First row of the 3x3 box holding row `r` (the source's `3 * (r // 3)`). */
  function BoxStart(r: int): int
    requires 0 <= r < 9
  {
    3 * (r / 3)
  }

  /** `num` stands somewhere in row `p.row` other than at `p`. */
  predicate RowHas(b: Board, num: int, p: Pos)
    requires IsGrid(b) && InRange(p)
  {
    exists j :: 0 <= j < 9 && j != p.col && b[p.row][j] == num
  }

  /** `num` stands somewhere in column `p.col` other than at `p`. */
  predicate ColHas(b: Board, num: int, p: Pos)
    requires IsGrid(b) && InRange(p)
  {
    exists i :: 0 <= i < 9 && i != p.row && b[i][p.col] == num
  }

  /** `num` stands somewhere in the 3x3 box of `p` other than at `p`. */
  predicate BoxHas(b: Board, num: int, p: Pos)
    requires IsGrid(b) && InRange(p)
  {
    exists i, j ::
      BoxStart(p.row) <= i < BoxStart(p.row) + 3 && BoxStart(p.col) <= j < BoxStart(p.col) + 3 &&
      (i != p.row || j != p.col) && b[i][j] == num
  }

  /** Placing `num` at `p` would repeat a digit of its row, column or box. */
  predicate Conflicts(b: Board, num: int, p: Pos)
    requires IsGrid(b) && InRange(p)
  {
    RowHas(b, num, p) || ColHas(b, num, p) || BoxHas(b, num, p)
  }

  /** The digit at `(i, j)`, if any, is not repeated in its row, column or box. */
  predicate Unrepeated(b: Board, i: int, j: int)
    requires IsGrid(b) && 0 <= i < 9 && 0 <= j < 9
  {
    b[i][j] != 0 ==> !Conflicts(b, b[i][j], Pos(i, j))
  }

  /** No two equal non-zero digits share a row, a column or a box. */
  predicate Consistent(b: Board)
    requires IsGrid(b)
  {
    forall i, j :: 0 <= i < 9 && 0 <= j < 9 ==> Unrepeated(b, i, j)
  }

  /** A solved Sudoku: every cell holds a digit 1..9 and no digit repeats in a unit. */
  predicate IsSolution(s: Board)
  {
    && IsGrid(s)
    && (forall i, j :: 0 <= i < 9 && 0 <= j < 9 ==> 1 <= s[i][j] <= 9)
    && Consistent(s)
  }

  /** Some solved Sudoku keeps every given of `b`. */
  ghost predicate Solvable(b: Board)
    requires IsGrid(b)
  {
    exists s :: IsSolution(s) && Keeps(b, s)
  }

  /** Filling an empty cell with a digit removes exactly that cell from the empty cells. */
  lemma FillShrinksEmpties(b: Board, p: Pos, v: int)
    requires IsGrid(b) && InRange(p) && b[p.row][p.col] == 0 && v != 0
    ensures Empties(Set(b, p, v)) == Empties(b) - {p}
    ensures |Empties(Set(b, p, v))| == |Empties(b)| - 1
  {
    var b' := Set(b, p, v);
    assert p in Empties(b);
    forall q | q in Empties(b')
      ensures q in Empties(b) - {p}
    {
    }
    forall q | q in Empties(b) - {p}
      ensures q in Empties(b')
    {
      assert b'[q.row][q.col] == 0;
    }
  }

  /** Emptying a cell that was filled on top of an empty cell gives the original board back. */
  lemma SetUndo(b: Board, p: Pos, v: int)
    requires IsGrid(b) && InRange(p) && b[p.row][p.col] == 0
    ensures Set(Set(b, p, v), p, 0) == b
  {
    var b' := Set(Set(b, p, v), p, 0);
    forall i | 0 <= i < 9
      ensures b'[i] == b[i]
    {
      assert |b'[i]| == |b[i]|;
      forall j | 0 <= j < 9
        ensures b'[i][j] == b[i][j]
      {
      }
    }
  }

  /** Keeps is transitive. */
  lemma KeepsTrans(a: Board, b: Board, c: Board)
    requires IsGrid(a) && IsGrid(b) && IsGrid(c)
    requires Keeps(a, b) && Keeps(b, c)
    ensures Keeps(a, c)
  {
  }
}
