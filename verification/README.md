# Sudoku backtracking solver — a Dafny model

This project models the brute-force Sudoku engine of the two scripts `1raversion.py`
and `2daversion.py`. Both scripts define the same three functions:

- `is_valid(board, num, pos)` decides whether `num` may stand at `pos`;
- `find_empty(board)` finds the first empty cell, row by row;
- `solve_sudoku(board)` is in-place recursive backtracking over the digits 1..9.

`2daversion.py` also contains a generator `step`, nested inside `SudokuGUI.solve_sudoku_step_by_step`.
It runs the same search, but yields every digit trial `(row, col, num, valid)` before acting on it.

The board is a `seq<seq<int>>` of nine rows of nine cells, where 0 means an empty cell.
The program mutates one board in place. In the model, every operation instead returns the
board as the mutation leaves it.

The files are:

- `grid.dfy` defines the board, single-cell updates, and the unit predicates:
  - `Conflicts` says the digit appears elsewhere in the row, column or box;
  - `Consistent` says no digit repeats in any row, column or box;
  - `IsSolution` and `Solvable` describe solved boards.
- `rules.dfy` is `is_valid`, written as the source's three scans.
- `scan.dfy` is `find_empty`.
- `solver.dfy` is `solve_sudoku`:
  - `Solve` returns `Outcome(solved, board)`;
  - `TryDigits` is its `for num in range(1, 10)` loop.
- `stepwise.dfy` is the generator `step`, as data:
  - `Step` returns `Run(solved, board, trials)`;
  - the trials are every tuple the generator yields, in order.
- `machine.dfy` makes the generator's suspend/resume behaviour explicit:
  - a state is a board plus a stack of suspended `step` calls;
  - `Resume` is one `next()`;
  - `Drain` calls `next()` repeatedly.
  The lemmas prove that driving this machine yields exactly the trials of `Step`.

The search consults `Conflicts` directly. `Rules.IsValid` proves that the source's scans
compute exactly `!Conflicts`, so the two are interchangeable.

Termination uses the number of empty cells as its measure. Each descent is made on a board
with exactly one empty cell fewer (`Grid.FillShrinksEmpties`).

## Model

| member | source | states |
|---|---|---|
| `Grid.Set` | 2daversion.py:47 | a placement writes the one cell and leaves every other cell of the grid as it was |
| `Grid.FillShrinksEmpties` | 1raversion.py:47-48 | placing a digit in an empty cell removes exactly that cell from the empty cells, so each recursive call has one empty cell fewer |
| `Grid.SetUndo` | 2daversion.py:50 | resetting the cell to 0 after a placement gives back the board the placement started from |
| `Rules.RowClear` | 2daversion.py:57-59 | the row scan from column `i` passes exactly when no column `j >= i` other than `col` holds `num` |
| `Rules.ColClear` | 2daversion.py:61-63 | the column scan passes exactly when no row other than `row` holds `num` in that column |
| `Rules.BoxRowClear` | 2daversion.py:67-69 | the inner box loop passes exactly when no cell of that box row, other than `pos`, holds `num` |
| `Rules.BoxClear` | 2daversion.py:65-70 | the box scan passes exactly when no cell of the 3x3 box at `(3*(row//3), 3*(col//3))`, other than `pos`, holds `num` |
| `Rules.IsValid` | 2daversion.py:54-71 | `is_valid` is True exactly when `num` stands nowhere else in the row, column or box of `pos` |
| `Rules.IsValidIgnoresOwnCell` | 1raversion.py:54-71 | the verdict does not depend on what the cell `pos` itself holds |
| `Rules.UnitsIgnoreOwnCell` | 1raversion.py:57-70 | each of the three unit tests, separately, ignores the cell `pos` |
| `Rules.PlaceKeepsConsistent` | 1raversion.py:46-47 | writing an accepted digit into an empty cell of a board without repeated digits keeps it without repeated digits |
| `Scan.FindInRow` | 2daversion.py:76-78 | the inner loop returns the first column, from `j` on, that holds 0, and nothing exactly when there is none |
| `Scan.FindFrom` | 2daversion.py:75-79 | the outer loop returns the first empty cell in row-major order from row `i` on, and None exactly when rows `i..8` are full |
| `Scan.FindEmpty` | 2daversion.py:74-79 | `find_empty` returns an empty cell with every earlier cell in row-major order filled, and None exactly when no cell is empty |
| `Scan.FindEmptySingle` | 1raversion.py:74-79 | on a board with one empty cell, `find_empty` returns that cell |
| `Solver.Solve` | 2daversion.py:40-51 | `solve_sudoku` terminates, and when it returns False the board equals the board it was given |
| `Solver.TryDigits` | 2daversion.py:45-51 | the digit loop terminates, and when it ends in False the board is the one it started from |
| `Solver.TryDigitsAccepted` | 1raversion.py:46-50 | an accepted digit is placed and the search descends. A successful descent ends the loop with its result; a failed one resumes the loop with the next digit on the restored board |
| `Solver.LaterSuccess` | 2daversion.py:45-49 | a loop that would succeed from a later digit also succeeds from an earlier one, because each earlier digit either succeeds or hands over unchanged |
| `Solver.SolveKeepsGivens` | 2daversion.py:44-50 | every cell that was non-zero on entry holds the same digit on exit, and a True result leaves no empty cell |
| `Solver.TryDigitsKeepsGivens` | 1raversion.py:44-50 | the same two facts for the digit loop at the first empty cell |
| `Solver.SolveKeepsConsistent` | 1raversion.py:41-51 | from a board with cells in 0..9 and no repeated digit, the board on exit still has both properties |
| `Solver.SolveSound` | 2daversion.py:41-49 | from such a board, a True result means the board is a solved Sudoku that keeps every given |
| `Solver.SolutionDigitValid` | 2daversion.py:46 | at an empty cell, `is_valid` accepts the digit that any solution keeping the givens puts there |
| `Solver.SolveComplete` | 2daversion.py:41-51 | if some solved Sudoku keeps every given of the board, `solve_sudoku` returns True |
| `Solver.TryDigitsComplete` | 1raversion.py:45-49 | the digit loop returns True when started at or below the digit a solution holds at its cell |
| `Solver.SolveDecides` | 1raversion.py:41-51 | from a board with cells in 0..9 and no repeated digit, the result is True exactly when a completion exists; on False the board is handed back unchanged |
| `Solver.FullBoardAccepted` | 1raversion.py:41-43 | a board with no empty cell is reported solved as it stands, and its givens are not checked against each other |
| `Stepwise.Step` | 2daversion.py:225-229 | `step` terminates, and when it returns False the board equals the board it was given |
| `Stepwise.StepDigits` | 2daversion.py:230-239 | the digit loop of `step` terminates, and when it returns False the board is the one it started from |
| `Stepwise.AfterTrial` | 2daversion.py:233-238 | what follows a yielded trial terminates, and on failure hands the board back |
| `Stepwise.AcceptedFails` | 2daversion.py:233-238 | after a valid trial whose descent fails, the descent's trials are followed by the loop from the next digit on the restored board |
| `Stepwise.StepMatchesSolve` | 2daversion.py:226-239 | `step` returns what `solve_sudoku` returns and leaves the same board |
| `Stepwise.StepDigitsMatchTryDigits` | 2daversion.py:230-239 | the digit loops of `step` and `solve_sudoku` agree in result and board |
| `Stepwise.StepTrialsWithin` | 2daversion.py:231-232 | every yielded trial names a cell that was empty on entry and a digit 1..9 |
| `Stepwise.AfterTrialAtCell` | 2daversion.py:233-238 | after the trial for `num` at `p`, nothing more is yielded at `p`: either the descent succeeds with `num` left at `p`, or the loop goes on with `num + 1` |
| `Stepwise.StepDigitsTrialsAtCell` | 2daversion.py:230-232 | at its own cell the loop yields exactly one trial per digit, ascending, each with `is_valid`'s verdict. It stops at the digit left at `p` on success, or after 9 on failure |
| `Stepwise.StepReplayReproducesSolve` | 2daversion.py:233-237 | replaying the valid trials of a successful run onto the entry board reproduces exactly the board `solve_sudoku` produces |
| `Machine.NextDigit` | 2daversion.py:230-239 | going on with a digit, including unwinding past digit 9 into the callers, always reaches a well-formed state. A trial is yielded exactly when the generator is still suspended, and it names the innermost call's cell, still empty, with `is_valid`'s verdict on the current board |
| `Machine.Resume` | 2daversion.py:225-240 | one `next()` yields at most one trial. The trial is yielded before anything is done for that digit: its cell is still empty, and it carries `is_valid`'s verdict on the current board |
| `Machine.NextDigitSound` | 2daversion.py:236-239 | what `NextDigit` yields and leaves to do matches the recursive definition. Past digit 9 the call returns False, and its caller resets its own cell to 0 and goes on with its next digit |
| `Machine.ResumeSound` | 2daversion.py:231-238 | what the generator still yields and returns is the trial of one `next()` followed by what remains from the state it leaves |
| `Machine.DrainYieldsRemaining` | 2daversion.py:240 | from any state, calling `next()` until exhaustion yields exactly the remaining trials, then halts. The halted state carries the board and the value the outermost `step` returned |
| `Machine.GeneratorMatchesStep` | 2daversion.py:224-240 | driving the generator from creation yields exactly the trials of `step` in order, and `step`'s return value and final board equal those of `solve_sudoku` |

## Left out

- `print_board` (both files, lines 82-90) only writes to the console.
- The module-level example script (both files, lines 93-111) runs at import time. It prints the example board, then calls `solve_sudoku` on it (line 107, modelled by `Solver.Solve`). It prints the solved board, or 'No hay solución' when the call returns False. Only the printing is left out.
- `SudokuGUI` is left out, except for the nested `step` generator. That covers the Tk widgets, reading and writing the entry fields, cell colouring, and pacing with `root.after`. These are UI code over a library outside this model.
- Python's coroutine mechanics and the binding of the generator to `self.board` are not modelled. The yielded tuples are modelled in two ways:
  - as a sequence (`Stepwise`);
  - as an explicit stack machine (`Machine`).
- The program never validates malformed or contradictory givens. Lemmas that need a well-formed board take one as a precondition. `Solve` itself accepts any 9x9 board, and `Solver.FullBoardAccepted` records what happens on a full but contradictory one.
- Boards that are not 9x9 are not modelled, and neither is Python's negative indexing. Every operation requires a 9x9 grid, as the source's fixed `range(9)` loops assume.
- Python lists are mutable and can be shared, so a board whose rows are one shared list (`[[0]*9]*9`) would see a single write in all nine rows. A `seq<seq<int>>` has no sharing, so the model assumes nine distinct rows. Every board the program builds has distinct rows: the literal rows at lines 93-103 and the row-by-row copy at 2daversion.py:128.
- `Machine.Halted`: its `solved` field is the value the outermost `step` returns. The outer generator (2daversion.py:240) drops that value, so its driver (lines 203-221) only sees the generator stop. The model keeps the value in order to compare it with `solve_sudoku`.
- `Machine.Good` assumes that only the generator writes the board between two `next()` calls. In the program, the solve button's handler (2daversion.py:157-163, 176) can overwrite `self.board` in place and solve it while a step-by-step run is suspended on that same list. The model does not cover that interleaving.
