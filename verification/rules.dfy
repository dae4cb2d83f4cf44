/**
  The constraint checker `is_valid(board, num, pos)`: three scans (the row,
  the column, the 3x3 box) that each skip the cell `pos` itself.
 */
module Rules {
  import opened Grid

  /** The row scan from column `i` on: `board[row][i] == num and col != i`. */
  function RowClear(b: Board, num: int, p: Pos, i: int): (ok: bool)
    requires IsGrid(b) && InRange(p) && 0 <= i <= 9
    ensures ok <==> forall j :: i <= j < 9 && j != p.col ==> b[p.row][j] != num
    decreases 9 - i
  {
    if i == 9 then true
    else if b[p.row][i] == num && p.col != i then false
    else RowClear(b, num, p, i + 1)
  }

  /** The column scan from row `i` on: `board[i][col] == num and row != i`. */
  function ColClear(b: Board, num: int, p: Pos, i: int): (ok: bool)
    requires IsGrid(b) && InRange(p) && 0 <= i <= 9
    ensures ok <==> forall k :: i <= k < 9 && k != p.row ==> b[k][p.col] != num
    decreases 9 - i
  {
    if i == 9 then true
    else if b[i][p.col] == num && p.row != i then false
    else ColClear(b, num, p, i + 1)
  }

  /** The inner box loop: row `i` of the box, from column `j` to the box's right edge. */
  function BoxRowClear(b: Board, num: int, p: Pos, i: int, j: int): (ok: bool)
    requires IsGrid(b) && InRange(p) && 0 <= i < 9
    requires BoxStart(p.col) <= j <= BoxStart(p.col) + 3
    ensures ok <==> forall y :: j <= y < BoxStart(p.col) + 3 && (i != p.row || y != p.col) ==> b[i][y] != num
    decreases BoxStart(p.col) + 3 - j
  {
    if j == BoxStart(p.col) + 3 then true
    else if b[i][j] == num && Pos(i, j) != p then false
    else BoxRowClear(b, num, p, i, j + 1)
  }

  /** The outer box loop: rows `i` to the box's bottom edge. */
  function BoxClear(b: Board, num: int, p: Pos, i: int): (ok: bool)
    requires IsGrid(b) && InRange(p)
    requires BoxStart(p.row) <= i <= BoxStart(p.row) + 3
    ensures ok <==> forall x, y ::
      i <= x < BoxStart(p.row) + 3 && BoxStart(p.col) <= y < BoxStart(p.col) + 3 && (x != p.row || y != p.col)
      ==> b[x][y] != num
    decreases BoxStart(p.row) + 3 - i
  {
    if i == BoxStart(p.row) + 3 then true
    else BoxRowClear(b, num, p, i, BoxStart(p.col)) && BoxClear(b, num, p, i + 1)
  }

  /**
    `is_valid`: `num` may stand at `p` exactly when it does not already stand
    anywhere else in the row, the column or the 3x3 box of `p`.
   */
  function IsValid(b: Board, num: int, p: Pos): (ok: bool)
    requires IsGrid(b) && InRange(p)
    ensures ok <==> !Conflicts(b, num, p)
  {
    RowClear(b, num, p, 0) && ColClear(b, num, p, 0) && BoxClear(b, num, p, BoxStart(p.row))
  }

  /** The three scans each skip `p`, so none of them reads the cell `p`. */
  lemma UnitsIgnoreOwnCell(b: Board, num: int, p: Pos, v: int)
    requires IsGrid(b) && InRange(p)
    ensures RowHas(Set(b, p, v), num, p) == RowHas(b, num, p)
    ensures ColHas(Set(b, p, v), num, p) == ColHas(b, num, p)
    ensures BoxHas(Set(b, p, v), num, p) == BoxHas(b, num, p)
  {
  }

  /**
    The cell `p` itself is exempt from every scan, so whatever it holds does
    not change the verdict (this is what lets the checker re-validate a digit
    already placed at `p`).
   */
  lemma IsValidIgnoresOwnCell(b: Board, num: int, p: Pos, v: int)
    requires IsGrid(b) && InRange(p)
    ensures IsValid(Set(b, p, v), num, p) == IsValid(b, num, p)
  {
    UnitsIgnoreOwnCell(b, num, p, v);
  }

  /** Two cells lie in the same box exactly when their box starts agree. */
  lemma SameBox(i: int, x: int)
    requires 0 <= i < 9 && 0 <= x < 9
    ensures BoxStart(i) <= x < BoxStart(i) + 3 <==> BoxStart(x) == BoxStart(i)
  {
  }

  /**
    Placing `num` at the empty cell `p`, where the checker accepts it, adds no
    repetition to the row of any other filled cell `q`.
   */
  lemma PlaceKeepsRowClear(b: Board, p: Pos, num: int, q: Pos)
    requires IsGrid(b) && InRange(p) && InRange(q) && q != p && b[p.row][p.col] == 0
    requires !Conflicts(b, num, p) && !Conflicts(b, b[q.row][q.col], q)
    ensures !RowHas(Set(b, p, num), b[q.row][q.col], q)
  {
    var b', v := Set(b, p, num), b[q.row][q.col];
    forall y | 0 <= y < 9 && y != q.col
      ensures b'[q.row][y] != v
    {
      if Pos(q.row, y) == p {
        assert b[p.row][q.col] != num;
      } else {
        assert b[q.row][y] != v;
      }
    }
  }

  /** The same for the column of `q`. */
  lemma PlaceKeepsColClear(b: Board, p: Pos, num: int, q: Pos)
    requires IsGrid(b) && InRange(p) && InRange(q) && q != p && b[p.row][p.col] == 0
    requires !Conflicts(b, num, p) && !Conflicts(b, b[q.row][q.col], q)
    ensures !ColHas(Set(b, p, num), b[q.row][q.col], q)
  {
    var b', v := Set(b, p, num), b[q.row][q.col];
    forall x | 0 <= x < 9 && x != q.row
      ensures b'[x][q.col] != v
    {
      if Pos(x, q.col) == p {
        assert b[q.row][p.col] != num;
      } else {
        assert b[x][q.col] != v;
      }
    }
  }

  /** The same for the box of `q`. */
  lemma PlaceKeepsBoxClear(b: Board, p: Pos, num: int, q: Pos)
    requires IsGrid(b) && InRange(p) && InRange(q) && q != p && b[p.row][p.col] == 0
    requires !Conflicts(b, num, p) && !Conflicts(b, b[q.row][q.col], q)
    ensures !BoxHas(Set(b, p, num), b[q.row][q.col], q)
  {
    var b', v := Set(b, p, num), b[q.row][q.col];
    var r0, c0 := BoxStart(q.row), BoxStart(q.col);
    forall x, y | r0 <= x < r0 + 3 && c0 <= y < c0 + 3 && (x != q.row || y != q.col)
      ensures b'[x][y] != v
    {
      if Pos(x, y) == p {
        SameBox(q.row, p.row);
        SameBox(q.col, p.col);
        SameBox(p.row, q.row);
        SameBox(p.col, q.col);
        assert b[q.row][q.col] != num;
      } else {
        assert b[x][y] != v;
      }
    }
  }

  /**
    The checker is the placement rule of a consistent board: on a consistent
    board, writing `num` into an empty cell where the checker accepts it keeps
    the board consistent.
   */
  lemma PlaceKeepsConsistent(b: Board, p: Pos, num: int)
    requires IsGrid(b) && InRange(p) && b[p.row][p.col] == 0
    requires Consistent(b) && !Conflicts(b, num, p)
    ensures Consistent(Set(b, p, num))
  {
    var b' := Set(b, p, num);
    forall i, j | 0 <= i < 9 && 0 <= j < 9
      ensures Unrepeated(b', i, j)
    {
      var q := Pos(i, j);
      if q == p {
        UnitsIgnoreOwnCell(b, num, p, num);
      } else if b[i][j] != 0 {
        assert Unrepeated(b, i, j);
        PlaceKeepsRowClear(b, p, num, q);
        PlaceKeepsColClear(b, p, num, q);
        PlaceKeepsBoxClear(b, p, num, q);
      }
    }
  }
}
