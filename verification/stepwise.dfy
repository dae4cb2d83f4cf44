/**
  The nested generator `step` of `SudokuGUI.solve_sudoku_step_by_step`: the
  same backtracking search as `solve_sudoku`, except that every digit trial is
  yielded as `(row, col, num, valid)` before the generator acts on it. The
  yielded trials are collected here into a sequence, next to the value the
  generator returns and the board it leaves behind.
 */
module Stepwise {
  import opened Grid
  import opened Scan
  import opened Solver

  /** One yielded tuple `(row, col, num, valid)`. */
  datatype Trial = Trial(row: int, col: int, num: int, valid: bool)

  /** One complete run of `step`: its return value, the board it leaves, and everything it yielded. */
  datatype Run = Run(solved: bool, board: Board, trials: seq<Trial>)

  /** The trials `a`, followed by the run `r`. */
  function After(a: seq<Trial>, r: Run): Run
  {
    Run(r.solved, r.board, a + r.trials)
  }

  function CellOf(t: Trial): Pos
  {
    Pos(t.row, t.col)
  }

  /** Every trial names an empty cell of `b` and a digit 1..9. */
  predicate TrialsWithin(b: Board, ts: seq<Trial>)
    requires IsGrid(b)
  {
    forall k :: 0 <= k < |ts| ==> InRange(CellOf(ts[k])) && b[ts[k].row][ts[k].col] == 0 && 1 <= ts[k].num <= 9
  }

  /**
    `step(board)`: its return value, the board it leaves, and the trials it
    yields. A failed run hands the entry board back, which is what lets the
    caller's loop go on from the board it had.
   */
  function Step(b: Board): (r: Run)
    requires IsGrid(b)
    ensures IsGrid(r.board)
    ensures !r.solved ==> r.board == b
    decreases |Empties(b)|, 1, 0
  {
    match FindEmpty(b)
    case None => Run(true, b, [])
    case Some(p) => StepDigits(b, p, 1)
  }

  /** The digit loop of `step` at the empty cell `p`, from digit `num` on: yield the trial, then act on it. */
  function StepDigits(b: Board, p: Pos, num: int): (r: Run)
    requires IsGrid(b) && InRange(p) && b[p.row][p.col] == 0 && 1 <= num <= 10
    ensures IsGrid(r.board)
    ensures !r.solved ==> r.board == b
    decreases |Empties(b)|, 0, 21 - 2 * num
  {
    if num == 10 then Run(false, b, [])
    else
      var valid := !Conflicts(b, num, p);
      var rest := AfterTrial(b, p, num, valid);
      Run(rest.solved, rest.board, [Trial(p.row, p.col, num, valid)] + rest.trials)
  }

  /**
    What `step` does when resumed after yielding the trial of `num` at `p`:
    place and descend if the trial was valid, undo on failure, go on with the
    next digit.
   */
  function AfterTrial(b: Board, p: Pos, num: int, valid: bool): (r: Run)
    requires IsGrid(b) && InRange(p) && b[p.row][p.col] == 0 && 1 <= num <= 9
    ensures IsGrid(r.board)
    ensures !r.solved ==> r.board == b
    decreases |Empties(b)|, 0, 20 - 2 * num
  {
    if valid then
      var placed := Set(b, p, num);
      FillShrinksEmpties(b, p, num);
      var sub := Step(placed);
      if sub.solved then sub
      else
        SetUndo(b, p, num);
        var rest := StepDigits(Set(sub.board, p, 0), p, num + 1);
        Run(rest.solved, rest.board, sub.trials + rest.trials)
    else StepDigits(b, p, num + 1)
  }

  /** Past digit 9 the loop yields nothing more and returns False on the board it was given. */
  lemma StepDigitsExhausted(b: Board, p: Pos)
    requires IsGrid(b) && InRange(p) && b[p.row][p.col] == 0
    ensures StepDigits(b, p, 10) == Run(false, b, [])
  {
  }

  /** The loop at `p` with a digit left to try yields that digit's trial first, then acts on it. */
  lemma StepDigitsFirst(b: Board, p: Pos, num: int)
    requires IsGrid(b) && InRange(p) && b[p.row][p.col] == 0 && 1 <= num <= 9
    ensures var valid := !Conflicts(b, num, p);
            StepDigits(b, p, num) == After([Trial(p.row, p.col, num, valid)], AfterTrial(b, p, num, valid))
  {
  }

  /** After an accepted trial whose descent fails, the loop goes on from the restored board with the next digit. */
  lemma AcceptedFails(b: Board, p: Pos, num: int)
    requires IsGrid(b) && InRange(p) && b[p.row][p.col] == 0 && 1 <= num <= 9
    requires !Step(Set(b, p, num)).solved
    ensures AfterTrial(b, p, num, true) == After(Step(Set(b, p, num)).trials, StepDigits(b, p, num + 1))
  {
    FillShrinksEmpties(b, p, num);
    SetUndo(b, p, num);
  }

  /** `step` returns what `solve_sudoku` returns and leaves the board as `solve_sudoku` does. */
  lemma {:induction false} StepMatchesSolve(b: Board)
    requires IsGrid(b)
    ensures Step(b).solved == Solve(b).solved && Step(b).board == Solve(b).board
    decreases |Empties(b)|, 1, 0, 0
  {
    match FindEmpty(b)
    case None =>
    case Some(p) => StepDigitsMatchTryDigits(b, p, 1);
  }

  /** The same for the digit loops at `p`. */
  lemma {:induction false} StepDigitsMatchTryDigits(b: Board, p: Pos, num: int)
    requires IsGrid(b) && InRange(p) && b[p.row][p.col] == 0 && 1 <= num <= 10
    ensures StepDigits(b, p, num).solved == TryDigits(b, p, num).solved
    ensures StepDigits(b, p, num).board == TryDigits(b, p, num).board
    decreases |Empties(b)|, 0, 10 - num, 1
  {
    if num == 10 {
      StepDigitsExhausted(b, p);
      TryDigitsExhausted(b, p);
    } else {
      if !Conflicts(b, num, p) {
        AcceptedMatches(b, p, num);
      } else {
        StepDigitsMatchTryDigits(b, p, num + 1);
        assert StepDigits(b, p, num).board == StepDigits(b, p, num + 1).board;
        assert TryDigits(b, p, num) == TryDigits(b, p, num + 1);
      }
    }
  }

  /** The same for one accepted digit. */
  lemma {:induction false} AcceptedMatches(b: Board, p: Pos, num: int)
    requires IsGrid(b) && InRange(p) && b[p.row][p.col] == 0 && 1 <= num <= 9 && !Conflicts(b, num, p)
    ensures StepDigits(b, p, num).solved == TryDigits(b, p, num).solved
    ensures StepDigits(b, p, num).board == TryDigits(b, p, num).board
    decreases |Empties(b)|, 0, 10 - num, 0
  {
    var placed := Set(b, p, num);
    FillShrinksEmpties(b, p, num);
    StepMatchesSolve(placed);
    var rest := AfterTrial(b, p, num, true);
    assert StepDigits(b, p, num).solved == rest.solved && StepDigits(b, p, num).board == rest.board;
    if Solve(placed).solved {
      assert TryDigits(b, p, num) == Solve(placed);
      assert rest == Step(placed);
    } else {
      SetUndo(b, p, num);
      StepDigitsMatchTryDigits(b, p, num + 1);
      assert TryDigits(b, p, num) == TryDigits(b, p, num + 1);
      assert rest.board == StepDigits(b, p, num + 1).board && rest.solved == StepDigits(b, p, num + 1).solved;
    }
  }

  /** Trials that name empty cells of a board name empty cells of the board it was filled from at an empty cell. */
  lemma TrialsWithinEarlier(b: Board, p: Pos, v: int, ts: seq<Trial>)
    requires IsGrid(b) && InRange(p) && b[p.row][p.col] == 0 && TrialsWithin(Set(b, p, v), ts)
    ensures TrialsWithin(b, ts)
  {
    forall k | 0 <= k < |ts|
      ensures b[ts[k].row][ts[k].col] == 0
    {
      if CellOf(ts[k]) != p {
        assert Set(b, p, v)[ts[k].row][ts[k].col] == 0;
      }
    }
  }

  /** Every trial `step` yields names a cell that was empty on entry and a digit 1..9. */
  lemma {:induction false} StepTrialsWithin(b: Board)
    requires IsGrid(b)
    ensures TrialsWithin(b, Step(b).trials)
    decreases |Empties(b)|, 1, 0
  {
    match FindEmpty(b)
    case None =>
    case Some(p) => StepDigitsTrialsWithin(b, p, 1);
  }

  /** The same for the digit loop at `p`. */
  lemma {:induction false} StepDigitsTrialsWithin(b: Board, p: Pos, num: int)
    requires IsGrid(b) && InRange(p) && b[p.row][p.col] == 0 && 1 <= num <= 10
    ensures TrialsWithin(b, StepDigits(b, p, num).trials)
    decreases |Empties(b)|, 0, 21 - 2 * num
  {
    if num == 10 {
      StepDigitsExhausted(b, p);
    } else {
      var valid := !Conflicts(b, num, p);
      AfterTrialTrialsWithin(b, p, num, valid);
      var rest := AfterTrial(b, p, num, valid);
      var ts := StepDigits(b, p, num).trials;
      assert ts == [Trial(p.row, p.col, num, valid)] + rest.trials;
      forall k | 0 <= k < |ts|
        ensures InRange(CellOf(ts[k])) && b[ts[k].row][ts[k].col] == 0 && 1 <= ts[k].num <= 9
      {
        if k == 0 {
          assert ts[k] == Trial(p.row, p.col, num, valid);
        } else {
          assert ts[k] == rest.trials[k - 1];
        }
      }
    }
  }

  /** The same for what follows the trial of `num` at `p`. */
  lemma {:induction false} AfterTrialTrialsWithin(b: Board, p: Pos, num: int, valid: bool)
    requires IsGrid(b) && InRange(p) && b[p.row][p.col] == 0 && 1 <= num <= 9
    ensures TrialsWithin(b, AfterTrial(b, p, num, valid).trials)
    decreases |Empties(b)|, 0, 20 - 2 * num
  {
    if valid {
      var placed := Set(b, p, num);
      FillShrinksEmpties(b, p, num);
      var sub := Step(placed);
      StepTrialsWithin(placed);
      TrialsWithinEarlier(b, p, num, sub.trials);
      if !sub.solved {
        SetUndo(b, p, num);
        StepDigitsTrialsWithin(b, p, num + 1);
        var ts := sub.trials + StepDigits(b, p, num + 1).trials;
        assert AfterTrial(b, p, num, valid).trials == ts;
        forall k | 0 <= k < |ts|
          ensures InRange(CellOf(ts[k])) && b[ts[k].row][ts[k].col] == 0 && 1 <= ts[k].num <= 9
        {
          if k >= |sub.trials| {
            assert ts[k] == StepDigits(b, p, num + 1).trials[k - |sub.trials|];
          }
        }
      }
    } else {
      StepDigitsTrialsWithin(b, p, num + 1);
    }
  }

  /** The trials of `ts` that name the cell `p`, in order. */
  function AtCell(ts: seq<Trial>, p: Pos): (r: seq<Trial>)
    ensures forall k :: 0 <= k < |r| ==> CellOf(r[k]) == p
    ensures |r| <= |ts|
  {
    if |ts| == 0 then []
    else (if CellOf(ts[0]) == p then [ts[0]] else []) + AtCell(ts[1..], p)
  }

  lemma {:induction false} AtCellAppend(a: seq<Trial>, c: seq<Trial>, p: Pos)
    ensures AtCell(a + c, p) == AtCell(a, p) + AtCell(c, p)
    decreases |a|
  {
    if |a| == 0 {
      assert a + c == c;
    } else {
      assert (a + c)[0] == a[0];
      assert (a + c)[1..] == a[1..] + c;
      AtCellAppend(a[1..], c, p);
    }
  }

  /** No trial of a run from `b` names a cell that was filled in `b`. */
  lemma {:induction false} AtFilledCellNone(b: Board, ts: seq<Trial>, p: Pos)
    requires IsGrid(b) && InRange(p) && b[p.row][p.col] != 0 && TrialsWithin(b, ts)
    ensures AtCell(ts, p) == []
    decreases |ts|
  {
    if |ts| > 0 {
      assert CellOf(ts[0]) != p;
      AtFilledCellNone(b, ts[1..], p);
    }
  }

  /** A trial at `p` in front of a run is the first trial at `p`. */
  lemma AtCellFirst(t: Trial, ts: seq<Trial>, p: Pos)
    requires CellOf(t) == p
    ensures AtCell([t] + ts, p) == [t] + AtCell(ts, p)
  {
    assert ([t] + ts)[1..] == ts;
  }

  /** `ts` are the trials of digits `num`, `num + 1`, ... at `p`, each with the checker's verdict on `b`. */
  predicate DigitRun(ts: seq<Trial>, p: Pos, b: Board, num: int)
    requires IsGrid(b) && InRange(p)
  {
    forall k :: 0 <= k < |ts| ==> ts[k] == Trial(p.row, p.col, num + k, !Conflicts(b, num + k, p))
  }

  lemma DigitRunCons(ts: seq<Trial>, p: Pos, b: Board, num: int)
    requires IsGrid(b) && InRange(p) && DigitRun(ts, p, b, num + 1)
    ensures DigitRun([Trial(p.row, p.col, num, !Conflicts(b, num, p))] + ts, p, b, num)
  {
    var ts' := [Trial(p.row, p.col, num, !Conflicts(b, num, p))] + ts;
    forall k | 0 <= k < |ts'|
      ensures ts'[k] == Trial(p.row, p.col, num + k, !Conflicts(b, num + k, p))
    {
      if k > 0 {
        assert ts'[k] == ts[k - 1];
      }
    }
  }

  /**
    After the trial of `num` at `p`, nothing more is yielded at `p` by the
    descent: either the descent succeeds, leaving `num` at `p`, or the loop
    goes on with `num + 1` on the restored board.
   */
  lemma AfterTrialAtCell(b: Board, p: Pos, num: int, valid: bool)
    requires IsGrid(b) && InRange(p) && b[p.row][p.col] == 0 && 1 <= num <= 9
    ensures var rest := AfterTrial(b, p, num, valid);
            var next := StepDigits(b, p, num + 1);
            || (rest.solved && rest.board[p.row][p.col] == num && AtCell(rest.trials, p) == [])
            || (AtCell(rest.trials, p) == AtCell(next.trials, p) && rest.solved == next.solved && rest.board == next.board)
  {
    if valid {
      var placed := Set(b, p, num);
      FillShrinksEmpties(b, p, num);
      var sub := Step(placed);
      StepTrialsWithin(placed);
      AtFilledCellNone(placed, sub.trials, p);
      StepMatchesSolve(placed);
      SolveKeepsGivens(placed);
      if !sub.solved {
        SetUndo(b, p, num);
        var next := StepDigits(b, p, num + 1);
        AtCellAppend(sub.trials, next.trials, p);
      }
    }
  }

  /**
    At its cell `p` the digit loop from `num` on yields exactly one trial per
    digit, in ascending order from `num`, each carrying the checker's verdict
    on the board as it was when the loop reached `p` (deeper failures restore
    it). It stops after the digit that led to a solution, which is the digit
    left at `p`, or after 9 when every digit failed.
   */
  predicate OneTrialPerDigit(b: Board, p: Pos, num: int)
    requires IsGrid(b) && InRange(p) && b[p.row][p.col] == 0 && 1 <= num <= 10
  {
    var r := StepDigits(b, p, num);
    var ts := AtCell(r.trials, p);
    && (r.solved ==> num <= r.board[p.row][p.col] <= 9 && |ts| == r.board[p.row][p.col] - num + 1)
    && (!r.solved ==> |ts| == 10 - num)
    && DigitRun(ts, p, b, num)
  }

  /** The loop at its own cell tries each digit once, in ascending order, up to the one that sticks. */
  lemma {:induction false} StepDigitsTrialsAtCell(b: Board, p: Pos, num: int)
    requires IsGrid(b) && InRange(p) && b[p.row][p.col] == 0 && 1 <= num <= 10
    ensures OneTrialPerDigit(b, p, num)
    decreases 10 - num
  {
    if num == 10 {
      StepDigitsExhausted(b, p);
    } else {
      StepDigitsTrialsAtCell(b, p, num + 1);
      OneTrialPerDigitStep(b, p, num);
    }
  }

  /** One more digit in front: its trial comes first at `p`, and either it sticks or the later digits follow. */
  lemma OneTrialPerDigitStep(b: Board, p: Pos, num: int)
    requires IsGrid(b) && InRange(p) && b[p.row][p.col] == 0 && 1 <= num <= 9
    ensures OneTrialPerDigit(b, p, num + 1) ==> OneTrialPerDigit(b, p, num)
  {
    var rest := AfterTrial(b, p, num, !Conflicts(b, num, p));
    AfterTrialAtCell(b, p, num, !Conflicts(b, num, p));
    if rest.solved && rest.board[p.row][p.col] == num && AtCell(rest.trials, p) == [] {
      DigitSticks(b, p, num);
    } else if OneTrialPerDigit(b, p, num + 1) {
      DigitHandsOver(b, p, num);
    }
  }

  /** The loop's first trial at `p`, followed by the trials at `p` of what comes after it. */
  lemma FirstTrialAtCell(b: Board, p: Pos, num: int)
    requires IsGrid(b) && InRange(p) && b[p.row][p.col] == 0 && 1 <= num <= 9
    ensures var valid := !Conflicts(b, num, p);
            var rest := AfterTrial(b, p, num, valid);
            var r := StepDigits(b, p, num);
            && r.solved == rest.solved && r.board == rest.board
            && AtCell(r.trials, p) == [Trial(p.row, p.col, num, valid)] + AtCell(rest.trials, p)
  {
    var valid := !Conflicts(b, num, p);
    StepDigitsFirst(b, p, num);
    AtCellFirst(Trial(p.row, p.col, num, valid), AfterTrial(b, p, num, valid).trials, p);
  }

  /** The digit `num` sticks at `p`: its trial is the only one at `p`. */
  lemma DigitSticks(b: Board, p: Pos, num: int)
    requires IsGrid(b) && InRange(p) && b[p.row][p.col] == 0 && 1 <= num <= 9
    requires var rest := AfterTrial(b, p, num, !Conflicts(b, num, p));
             rest.solved && rest.board[p.row][p.col] == num && AtCell(rest.trials, p) == []
    ensures OneTrialPerDigit(b, p, num)
  {
    var t := Trial(p.row, p.col, num, !Conflicts(b, num, p));
    FirstTrialAtCell(b, p, num);
    var ts := AtCell(StepDigits(b, p, num).trials, p);
    assert ts == [t];
    assert DigitRun(ts, p, b, num) by {
      assert ts[0] == t;
    }
  }

  /** The digit `num` does not stick at `p`: its trial comes first, then those of the later digits. */
  lemma DigitHandsOver(b: Board, p: Pos, num: int)
    requires IsGrid(b) && InRange(p) && b[p.row][p.col] == 0 && 1 <= num <= 9
    requires OneTrialPerDigit(b, p, num + 1)
    requires var rest := AfterTrial(b, p, num, !Conflicts(b, num, p));
             var next := StepDigits(b, p, num + 1);
             AtCell(rest.trials, p) == AtCell(next.trials, p) && rest.solved == next.solved && rest.board == next.board
    ensures OneTrialPerDigit(b, p, num)
  {
    var next := StepDigits(b, p, num + 1);
    FirstTrialAtCell(b, p, num);
    var ts' := AtCell(next.trials, p);
    assert |AtCell(StepDigits(b, p, num).trials, p)| == |ts'| + 1;
    DigitRunCons(ts', p, b, num);
  }

  /**
    Applying one trial to a copy of the board: an accepted trial writes its
    digit, a rejected one does nothing (as does one naming no cell of the
    grid, which a run never yields).
   */
  function Apply(x: Board, t: Trial): (y: Board)
    requires IsGrid(x)
    ensures IsGrid(y)
  {
    if t.valid && InRange(CellOf(t)) then Set(x, CellOf(t), t.num) else x
  }

  /** Applying a sequence of trials in order. */
  function Replay(x: Board, ts: seq<Trial>): (y: Board)
    requires IsGrid(x)
    ensures IsGrid(y)
    decreases |ts|
  {
    if |ts| == 0 then x else Replay(Apply(x, ts[0]), ts[1..])
  }

  lemma {:induction false} ReplayAppend(x: Board, a: seq<Trial>, c: seq<Trial>)
    requires IsGrid(x)
    ensures Replay(x, a + c) == Replay(Replay(x, a), c)
    decreases |a|
  {
    if |a| == 0 {
      assert a + c == c;
    } else {
      assert (a + c)[0] == a[0];
      assert (a + c)[1..] == a[1..] + c;
      ReplayAppend(Apply(x, a[0]), a[1..], c);
    }
  }

  /** Replaying trials that only name empty cells of `b` leaves every filled cell of `b` alone. */
  lemma {:induction false} ReplayKeepsFilled(b: Board, x: Board, ts: seq<Trial>)
    requires IsGrid(b) && IsGrid(x) && TrialsWithin(b, ts)
    ensures forall i, j :: 0 <= i < 9 && 0 <= j < 9 && b[i][j] != 0 ==> Replay(x, ts)[i][j] == x[i][j]
    decreases |ts|
  {
    if |ts| > 0 {
      assert b[ts[0].row][ts[0].col] == 0;
      ReplayKeepsFilled(b, Apply(x, ts[0]), ts[1..]);
    }
  }

  /** Two 9x9 boards that agree on every cell are equal. */
  lemma BoardsEqual(x: Board, y: Board)
    requires IsGrid(x) && IsGrid(y)
    requires forall i, j :: 0 <= i < 9 && 0 <= j < 9 ==> x[i][j] == y[i][j]
    ensures x == y
  {
    forall i | 0 <= i < 9
      ensures x[i] == y[i]
    {
      assert |x[i]| == |y[i]|;
    }
  }

  /**
    After a successful run from `b`, replaying its trials on any board writes
    the final digit into every cell that was empty in `b`: each cell's last
    accepted trial is the one that stuck.
   */
  lemma {:induction false} StepReplayEmpties(b: Board, x: Board)
    requires IsGrid(b) && IsGrid(x) && Step(b).solved
    ensures forall i, j :: 0 <= i < 9 && 0 <= j < 9 && b[i][j] == 0 ==>
              Replay(x, Step(b).trials)[i][j] == Step(b).board[i][j]
    decreases |Empties(b)|, 1, 0, 0
  {
    match FindEmpty(b)
    case None =>
    case Some(p) => StepDigitsReplayEmpties(b, p, 1, x);
  }

  /** The same for the digit loop at `p`. */
  lemma {:induction false} StepDigitsReplayEmpties(b: Board, p: Pos, num: int, x: Board)
    requires IsGrid(b) && InRange(p) && b[p.row][p.col] == 0 && 1 <= num <= 10
    requires IsGrid(x) && StepDigits(b, p, num).solved
    ensures forall i, j :: 0 <= i < 9 && 0 <= j < 9 && b[i][j] == 0 ==>
              Replay(x, StepDigits(b, p, num).trials)[i][j] == StepDigits(b, p, num).board[i][j]
    decreases |Empties(b)|, 0, 10 - num, 1
  {
    var r := StepDigits(b, p, num);
    var valid := !Conflicts(b, num, p);
    var t := Trial(p.row, p.col, num, valid);
    var rest := AfterTrial(b, p, num, valid);
    assert r.trials == [t] + rest.trials;
    assert r.trials[1..] == rest.trials;
    assert Replay(x, r.trials) == Replay(Apply(x, t), rest.trials);
    if valid {
      AcceptedReplayEmpties(b, p, num, Set(x, p, num));
    } else {
      StepDigitsReplayEmpties(b, p, num + 1, x);
    }
  }

  /** The same for the part of the loop after an accepted trial of `num`, replayed onto `x` with `num` at `p`. */
  lemma {:induction false} AcceptedReplayEmpties(b: Board, p: Pos, num: int, x: Board)
    requires IsGrid(b) && InRange(p) && b[p.row][p.col] == 0 && 1 <= num <= 9
    requires IsGrid(x) && x[p.row][p.col] == num && AfterTrial(b, p, num, true).solved
    ensures forall i, j :: 0 <= i < 9 && 0 <= j < 9 && b[i][j] == 0 ==>
              Replay(x, AfterTrial(b, p, num, true).trials)[i][j] == AfterTrial(b, p, num, true).board[i][j]
    decreases |Empties(b)|, 0, 10 - num, 0
  {
    var placed := Set(b, p, num);
    FillShrinksEmpties(b, p, num);
    var sub := Step(placed);
    if sub.solved {
      StepReplayEmpties(placed, x);
      StepTrialsWithin(placed);
      ReplayKeepsFilled(placed, x, sub.trials);
      StepMatchesSolve(placed);
      SolveKeepsGivens(placed);
    } else {
      SetUndo(b, p, num);
      var next := StepDigits(b, p, num + 1);
      ReplayAppend(x, sub.trials, next.trials);
      StepDigitsReplayEmpties(b, p, num + 1, Replay(x, sub.trials));
    }
  }

  /**
    Replaying the accepted trials of a successful run onto a copy of the
    entry board reproduces exactly the board `solve_sudoku` produces.
   */
  lemma StepReplayReproducesSolve(b: Board)
    requires IsGrid(b) && Solve(b).solved
    ensures Step(b).solved
    ensures Replay(b, Step(b).trials) == Solve(b).board
  {
    StepMatchesSolve(b);
    SolveKeepsGivens(b);
    var r := Step(b);
    StepReplayEmpties(b, b);
    StepTrialsWithin(b);
    ReplayKeepsFilled(b, b, r.trials);
    BoardsEqual(Replay(b, r.trials), r.board);
  }
}
