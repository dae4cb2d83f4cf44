/**
  `solve_sudoku`: recursive backtracking. At the first empty cell the digits
  1..9 are tried in ascending order; a digit the checker accepts is written,
  the search recurses, and on failure the cell is set back to 0.

  The original mutates one board in place; here every call returns the board
  as the mutation leaves it, and the failed branch continues from the board
  the recursive call handed back, exactly as the in-place code does.
 */
module Solver {
  import opened Grid
  import opened Rules
  import opened Scan

  /** The boolean `solve_sudoku` returns, with the board as it leaves it. */
  datatype Outcome = Outcome(solved: bool, board: Board)

  /**
    `solve_sudoku`. Failure hands back the entry board unchanged, which is
    what lets the caller's loop go on from the board it had.
   */
  function Solve(b: Board): (r: Outcome)
    requires IsGrid(b)
    ensures IsGrid(r.board)
    ensures !r.solved ==> r.board == b
    decreases |Empties(b)|, 1, 0
  {
    match FindEmpty(b)
    case None => Outcome(true, b)
    case Some(p) => TryDigits(b, p, 1)
  }

  /** The `for num in range(1, 10)` loop at the empty cell `p`, from digit `num` on. */
  function TryDigits(b: Board, p: Pos, num: int): (r: Outcome)
    requires IsGrid(b) && InRange(p) && b[p.row][p.col] == 0 && 1 <= num <= 10
    ensures IsGrid(r.board)
    ensures !r.solved ==> r.board == b
    decreases |Empties(b)|, 0, 10 - num
  {
    if num == 10 then Outcome(false, b)
    else if !Conflicts(b, num, p) then
      var placed := Set(b, p, num);
      FillShrinksEmpties(b, p, num);
      var sub := Solve(placed);
      if sub.solved then sub
      else
        SetUndo(b, p, num);
        TryDigits(Set(sub.board, p, 0), p, num + 1)
    else TryDigits(b, p, num + 1)
  }

  /** Past digit 9 the loop reports failure on the board it was given. */
  lemma TryDigitsExhausted(b: Board, p: Pos)
    requires IsGrid(b) && InRange(p) && b[p.row][p.col] == 0
    ensures TryDigits(b, p, 10) == Outcome(false, b)
  {
  }

  /** A digit the checker accepts is placed and the search descends; on failure the loop goes on from the restored board. */
  lemma TryDigitsAccepted(b: Board, p: Pos, num: int)
    requires IsGrid(b) && InRange(p) && b[p.row][p.col] == 0 && 1 <= num <= 9
    requires !Conflicts(b, num, p)
    ensures var sub := Solve(Set(b, p, num));
            TryDigits(b, p, num) == if sub.solved then sub else TryDigits(b, p, num + 1)
  {
    SetUndo(b, p, num);
  }

  /** Each digit either hands over to the next one unchanged, or is accepted and ends the loop with a successful descent. */
  lemma TryDigitsStep(b: Board, p: Pos, num: int)
    requires IsGrid(b) && InRange(p) && b[p.row][p.col] == 0 && 1 <= num <= 9
    ensures || TryDigits(b, p, num) == TryDigits(b, p, num + 1)
            || (!Conflicts(b, num, p) && TryDigits(b, p, num) == Solve(Set(b, p, num)) && Solve(Set(b, p, num)).solved)
  {
    if !Conflicts(b, num, p) {
      TryDigitsAccepted(b, p, num);
    }
  }

  /** Givens (non-zero cells) are never written, and success means no empty cell remains. */
  lemma {:induction false} SolveKeepsGivens(b: Board)
    requires IsGrid(b)
    ensures Keeps(b, Solve(b).board)
    ensures Solve(b).solved ==> Complete(Solve(b).board)
    decreases |Empties(b)|, 1, 0, 0
  {
    match FindEmpty(b)
    case None =>
    case Some(p) => TryDigitsKeepsGivens(b, p, 1);
  }

  /** The same for the digit loop at `p`. */
  lemma {:induction false} TryDigitsKeepsGivens(b: Board, p: Pos, num: int)
    requires IsGrid(b) && InRange(p) && b[p.row][p.col] == 0 && 1 <= num <= 10
    ensures Keeps(b, TryDigits(b, p, num).board)
    ensures TryDigits(b, p, num).solved ==> Complete(TryDigits(b, p, num).board)
    decreases |Empties(b)|, 0, 10 - num, 1
  {
    if num == 10 {
      TryDigitsExhausted(b, p);
    } else {
      TryDigitsStep(b, p, num);
      TryDigitsKeepsGivens(b, p, num + 1);
      if !Conflicts(b, num, p) {
        DescentKeepsGivens(b, p, num);
      }
    }
  }

  /** The same for the descent after placing a digit at the empty cell `p`. */
  lemma {:induction false} DescentKeepsGivens(b: Board, p: Pos, num: int)
    requires IsGrid(b) && InRange(p) && b[p.row][p.col] == 0 && 1 <= num <= 9
    ensures Keeps(b, Solve(Set(b, p, num)).board)
    ensures Solve(Set(b, p, num)).solved ==> Complete(Solve(Set(b, p, num)).board)
    decreases |Empties(b)|, 0, 10 - num, 0
  {
    var placed := Set(b, p, num);
    FillShrinksEmpties(b, p, num);
    SolveKeepsGivens(placed);
    KeepsTrans(b, placed, Solve(placed).board);
  }

  /** Success from a later digit is success of the loop: an earlier digit either succeeds itself or hands over. */
  lemma LaterSuccess(b: Board, p: Pos, num: int)
    requires IsGrid(b) && InRange(p) && b[p.row][p.col] == 0 && 1 <= num <= 9
    ensures TryDigits(b, p, num + 1).solved ==> TryDigits(b, p, num).solved
  {
    TryDigitsStep(b, p, num);
  }

  /** A grid whose cells all hold 0..9 and whose digits repeat in no unit. */
  predicate Legal(b: Board)
  {
    IsGrid(b) && CellsInRange(b) && Consistent(b)
  }

  /** Every placement keeps a consistent board consistent and its cells within 0..9. */
  lemma {:induction false} SolveKeepsConsistent(b: Board)
    requires Legal(b)
    ensures Legal(Solve(b).board)
    decreases |Empties(b)|, 1, 0, 0
  {
    match FindEmpty(b)
    case None =>
    case Some(p) => TryDigitsKeepsConsistent(b, p, 1);
  }

  /** The same for the digit loop at `p`. */
  lemma {:induction false} TryDigitsKeepsConsistent(b: Board, p: Pos, num: int)
    requires Legal(b) && InRange(p) && b[p.row][p.col] == 0 && 1 <= num <= 10
    ensures Legal(TryDigits(b, p, num).board)
    decreases |Empties(b)|, 0, 10 - num, 1
  {
    if num == 10 {
      TryDigitsExhausted(b, p);
    } else {
      TryDigitsKeepsConsistent(b, p, num + 1);
      if !Conflicts(b, num, p) {
        DescentKeepsConsistent(b, p, num);
      }
      LegalStep(b, p, num);
    }
  }

  /** One digit of the loop keeps a board legal when the next digit and the descent do. */
  lemma LegalStep(b: Board, p: Pos, num: int)
    requires IsGrid(b) && InRange(p) && b[p.row][p.col] == 0 && 1 <= num <= 9
    ensures Legal(TryDigits(b, p, num + 1).board) && (!Conflicts(b, num, p) ==> Legal(Solve(Set(b, p, num)).board))
            ==> Legal(TryDigits(b, p, num).board)
  {
    TryDigitsStep(b, p, num);
  }

  /** The same for the descent after placing an accepted digit. */
  lemma {:induction false} DescentKeepsConsistent(b: Board, p: Pos, num: int)
    requires Legal(b) && InRange(p) && b[p.row][p.col] == 0 && 1 <= num <= 9
    requires !Conflicts(b, num, p)
    ensures Legal(Solve(Set(b, p, num)).board)
    decreases |Empties(b)|, 0, 10 - num, 0
  {
    var placed := Set(b, p, num);
    FillShrinksEmpties(b, p, num);
    PlaceKeepsConsistent(b, p, num);
    assert CellsInRange(placed);
    SolveKeepsConsistent(placed);
  }

  /** Success from a consistent board with cells in 0..9 yields a solved Sudoku that keeps every given. */
  lemma SolveSound(b: Board)
    requires IsGrid(b) && Consistent(b) && CellsInRange(b)
    requires Solve(b).solved
    ensures IsSolution(Solve(b).board) && Keeps(b, Solve(b).board)
  {
    SolveKeepsGivens(b);
    SolveKeepsConsistent(b);
  }

  /** A solution that keeps the givens of `b` agrees with the checker at every empty cell of `b`. */
  lemma SolutionDigitValid(b: Board, p: Pos, s: Board)
    requires IsGrid(b) && InRange(p) && b[p.row][p.col] == 0
    requires IsSolution(s) && Keeps(b, s)
    ensures IsValid(b, s[p.row][p.col], p)
  {
    var num := s[p.row][p.col];
    assert Unrepeated(s, p.row, p.col);
    forall j | 0 <= j < 9 && j != p.col
      ensures b[p.row][j] != num
    {
      assert s[p.row][j] != num;
    }
    forall i | 0 <= i < 9 && i != p.row
      ensures b[i][p.col] != num
    {
      assert s[i][p.col] != num;
    }
    var r0, c0 := BoxStart(p.row), BoxStart(p.col);
    forall i, j | r0 <= i < r0 + 3 && c0 <= j < c0 + 3 && (i != p.row || j != p.col)
      ensures b[i][j] != num
    {
      assert s[i][j] != num;
    }
  }

  /** If some solution keeps the givens of `b`, the search finds a solution. */
  lemma {:induction false} SolveComplete(b: Board, s: Board)
    requires IsGrid(b) && IsSolution(s) && Keeps(b, s)
    ensures Solve(b).solved
    decreases |Empties(b)|, 1, 0, 0
  {
    match FindEmpty(b)
    case None =>
    case Some(p) => TryDigitsComplete(b, p, 1, s);
  }

  /**
    The digit loop at `p` succeeds when started at or below the digit a
    solution holds there: every smaller digit either succeeds or restores the
    board, and that digit itself is accepted and leads to the solution.
   */
  lemma {:induction false} TryDigitsComplete(b: Board, p: Pos, num: int, s: Board)
    requires IsGrid(b) && InRange(p) && b[p.row][p.col] == 0
    requires IsSolution(s) && Keeps(b, s)
    requires 1 <= num <= s[p.row][p.col]
    ensures TryDigits(b, p, num).solved
    decreases |Empties(b)|, 0, 10 - num, 1
  {
    if num == s[p.row][p.col] {
      SolutionDigitSucceeds(b, p, s);
    } else {
      TryDigitsComplete(b, p, num + 1, s);
      LaterSuccess(b, p, num);
    }
  }

  /** The digit a solution holds at `p` is accepted there, and the descent from it succeeds. */
  lemma {:induction false} SolutionDigitSucceeds(b: Board, p: Pos, s: Board)
    requires IsGrid(b) && InRange(p) && b[p.row][p.col] == 0
    requires IsSolution(s) && Keeps(b, s)
    ensures TryDigits(b, p, s[p.row][p.col]).solved
    decreases |Empties(b)|, 0, 10 - s[p.row][p.col], 0
  {
    var num := s[p.row][p.col];
    FillShrinksEmpties(b, p, num);
    SolutionDigitValid(b, p, s);
    SolveComplete(Set(b, p, num), s);
    TryDigitsAccepted(b, p, num);
  }

  /**
    On a consistent board with cells in 0..9 the search decides solvability:
    it reports success exactly when some solved Sudoku keeps every given, and
    on failure the board is handed back as it came in.
   */
  lemma SolveDecides(b: Board)
    requires IsGrid(b) && Consistent(b) && CellsInRange(b)
    ensures Solve(b).solved <==> Solvable(b)
    ensures !Solve(b).solved ==> Solve(b).board == b
  {
    if Solve(b).solved {
      SolveSound(b);
    }
    if Solvable(b) {
      var s :| IsSolution(s) && Keeps(b, s);
      SolveComplete(b, s);
    }
  }

  /**
    The givens are never checked against each other: a board without empty
    cells is reported solved as it stands, whatever its repetitions.
   */
  lemma FullBoardAccepted(b: Board)
    requires IsGrid(b) && Complete(b)
    ensures Solve(b) == Outcome(true, b)
  {
  }
}
