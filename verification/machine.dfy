/**
  The suspend/resume behaviour of the `step` generator, made explicit: the
  generator object between two `next()` calls is a board plus the stack of
  suspended `step` calls, and `Resume` is one `next()`, which runs until the
  next trial is yielded or the generator is exhausted.
 */
module Machine {
  import opened Grid
  import opened Scan
  import opened Stepwise
  import Solver

  /** A cell of the grid. */
  type Cell = p: Pos | InRange(p) witness Pos(0, 0)

  /** A digit 1..9. */
  type Digit = n: int | 1 <= n <= 9 witness 1

  /** One suspended `step` call: its cell, the digit whose trial it yielded last, and that trial's verdict. */
  datatype Frame = Frame(cell: Cell, num: Digit, valid: bool)

  /**
    The generator between two `next()` calls: created but not started,
    suspended at a yield with its calls stacked innermost last, or exhausted
    with the value the outermost `step` returned.
   */
  datatype State =
    | Fresh(board: Board)
    | Running(board: Board, frames: seq<Frame>)
    | Halted(solved: bool, board: Board)

  function TrialOf(f: Frame): Trial
  {
    Trial(f.cell.row, f.cell.col, f.num, f.valid)
  }

  function Top(frames: seq<Frame>): Frame
    requires |frames| > 0
  {
    frames[|frames| - 1]
  }

  function Callers(frames: seq<Frame>): seq<Frame>
    requires |frames| > 0
  {
    frames[..|frames| - 1]
  }

  /**
    A suspended generator has at least one call on its stack, and the
    innermost one is waiting at an empty cell, having yielded the checker's
    verdict on the current board.
   */
  predicate Good(m: State)
  {
    && IsGrid(m.board)
    && (m.Running? ==>
          && |m.frames| > 0
          && m.board[Top(m.frames).cell.row][Top(m.frames).cell.col] == 0
          && Top(m.frames).valid == !Conflicts(m.board, Top(m.frames).num, Top(m.frames).cell))
  }

  /** What a `next()` yielded: a trial, named by a suspended state's innermost call, made before any placement. */
  predicate YieldedAt(t: Option<Trial>, m: State)
  {
    && (t.Some? <==> m.Running?)
    && (t.Some? ==>
          && IsGrid(m.board) && |m.frames| > 0
          && t.value == TrialOf(Top(m.frames))
          && InRange(CellOf(t.value))
          && m.board[t.value.row][t.value.col] == 0
          && t.value.valid == !Conflicts(m.board, t.value.num, CellOf(t.value)))
  }

  /**
    The call at `p` goes on with digit `num` (on the board `b`, with `below`
    its suspended callers): it yields the trial of `num`, or, past 9, returns
    False to its caller, which resets its own cell and goes on with its own
    next digit, and so on down the stack.
   */
  function NextDigit(b: Board, below: seq<Frame>, p: Pos, num: int): (r: (Option<Trial>, State))
    requires IsGrid(b) && InRange(p) && b[p.row][p.col] == 0 && 1 <= num <= 10
    ensures Good(r.1) && !r.1.Fresh?
    ensures YieldedAt(r.0, r.1)
    decreases |below|
  {
    if num <= 9 then
      var f := Frame(p, num, !Conflicts(b, num, p));
      (Some(TrialOf(f)), Running(b, below + [f]))
    else if |below| == 0 then
      (None, Halted(false, b))
    else
      var caller := Top(below);
      NextDigit(Set(b, caller.cell, 0), Callers(below), caller.cell, caller.num + 1)
  }

  /**
    One `next()`: run from the current state to the next yield, or to the
    end of the search. Each call yields at most one trial, and a yielded trial
    carries the verdict on the board as it is at that moment, its cell still
    empty.
   */
  function Resume(m: State): (r: (Option<Trial>, State))
    requires Good(m)
    ensures Good(r.1) && !r.1.Fresh?
    ensures YieldedAt(r.0, r.1)
    ensures m.Halted? ==> r.1 == m
  {
    match m
    case Halted(_, _) => (None, m)
    case Fresh(b) =>
      (match FindEmpty(b)
       case None => (None, Halted(true, b))
       case Some(p) => NextDigit(b, [], p, 1))
    case Running(b, frames) =>
      var top := Top(frames);
      if top.valid then
        var placed := Set(b, top.cell, top.num);
        match FindEmpty(placed)
        case None => (None, Halted(true, placed))
        case Some(q) => NextDigit(placed, frames, q, 1)
      else
        NextDigit(b, Callers(frames), top.cell, top.num + 1)
  }

  /**
    What the stacked callers still do once their innermost pending call
    returns `ok` with board `b`: on False, the caller resets its cell and goes
    on with its next digit; on True, every caller returns True at once.
   */
  function Unwind(ok: bool, b: Board, below: seq<Frame>): (r: Run)
    requires IsGrid(b)
    decreases |below|
  {
    if ok || |below| == 0 then Run(ok, b, [])
    else
      var caller := Top(below);
      var rest := StepDigits(Set(b, caller.cell, 0), caller.cell, caller.num + 1);
      var up := Unwind(rest.solved, rest.board, Callers(below));
      Run(up.solved, up.board, rest.trials + up.trials)
  }

  /** The run `here` of the innermost pending call, followed by what its callers `below` do once it returns. */
  function Then(here: Run, below: seq<Frame>): Run
    requires IsGrid(here.board)
  {
    var up := Unwind(here.solved, here.board, below);
    Run(up.solved, up.board, here.trials + up.trials)
  }

  /** What a suspended generator still does: the rest of its innermost call `f` after the trial it yielded, then its callers `below`. */
  function Pending(b: Board, below: seq<Frame>, f: Frame): Run
    requires IsGrid(b) && b[f.cell.row][f.cell.col] == 0
  {
    Then(AfterTrial(b, f.cell, f.num, f.valid), below)
  }

  /** What the generator still yields and returns from state `m`, read off the recursive definition. */
  function Remaining(m: State): Run
    requires Good(m)
  {
    match m
    case Fresh(b) => Step(b)
    case Halted(ok, b) => Run(ok, b, [])
    case Running(b, frames) => Pending(b, Callers(frames), Top(frames))
  }

  /** The loop at `p` from digit `num` on, followed by what its callers `below` do after it returns. */
  function Continue(b: Board, below: seq<Frame>, p: Pos, num: int): Run
    requires IsGrid(b) && InRange(p) && b[p.row][p.col] == 0 && 1 <= num <= 10
  {
    Then(StepDigits(b, p, num), below)
  }

  function Prepend(t: Option<Trial>, r: Run): Run
  {
    match t
    case None => r
    case Some(x) => Run(r.solved, r.board, [x] + r.trials)
  }

  /** A call that still has a digit to try yields its trial and suspends; what is left is the rest of its loop. */
  lemma NextDigitYields(b: Board, below: seq<Frame>, p: Pos, num: int)
    requires IsGrid(b) && InRange(p) && b[p.row][p.col] == 0 && 1 <= num <= 9
    ensures Continue(b, below, p, num) == Prepend(NextDigit(b, below, p, num).0, Remaining(NextDigit(b, below, p, num).1))
  {
    var f := Frame(p, num, !Conflicts(b, num, p));
    assert NextDigit(b, below, p, num) == (Some(TrialOf(f)), Running(b, below + [f]));
    assert Callers(below + [f]) == below;
    var rest := AfterTrial(b, p, num, f.valid);
    assert StepDigits(b, p, num) == Run(rest.solved, rest.board, [TrialOf(f)] + rest.trials);
  }

  /**
    `NextDigit` is faithful to the recursive definition: what is left to do
    from the call at `p` with digit `num` is the trial it yields followed by
    what remains from the state it suspends in.
   */
  lemma {:induction false} NextDigitSound(b: Board, below: seq<Frame>, p: Pos, num: int)
    requires IsGrid(b) && InRange(p) && b[p.row][p.col] == 0 && 1 <= num <= 10
    ensures Continue(b, below, p, num) == Prepend(NextDigit(b, below, p, num).0, Remaining(NextDigit(b, below, p, num).1))
    decreases |below|
  {
    if num <= 9 {
      NextDigitYields(b, below, p, num);
    } else if |below| == 0 {
      StepDigitsExhausted(b, p);
    } else {
      var caller := Top(below);
      var b' := Set(b, caller.cell, 0);
      NextDigitUnwinds(b, below, p);
      NextDigitSound(b', Callers(below), caller.cell, caller.num + 1);
      assert NextDigit(b, below, p, num) == NextDigit(b', Callers(below), caller.cell, caller.num + 1);
    }
  }

  /** A call past digit 9 returns False: its caller resets its own cell and goes on with its next digit. */
  lemma NextDigitUnwinds(b: Board, below: seq<Frame>, p: Pos)
    requires IsGrid(b) && InRange(p) && b[p.row][p.col] == 0 && |below| > 0
    ensures var caller := Top(below);
            Continue(b, below, p, 10) == Continue(Set(b, caller.cell, 0), Callers(below), caller.cell, caller.num + 1)
  {
    StepDigitsExhausted(b, p);
  }

  /** One `next()` yields the first of the remaining trials and leaves the rest, with the same outcome, to come. */
  lemma ResumeSound(m: State)
    requires Good(m)
    ensures Remaining(m) == Prepend(Resume(m).0, Remaining(Resume(m).1))
  {
    match m
    case Halted(_, _) =>
    case Fresh(b) => ResumeFresh(b);
    case Running(b, frames) =>
      if Top(frames).valid {
        ResumeAccepted(b, frames);
      } else {
        ResumeRejected(b, frames);
      }
  }

  /** `ResumeSound` for a generator not yet started: find the first empty cell and yield its first trial. */
  lemma ResumeFresh(b: Board)
    requires IsGrid(b)
    ensures Remaining(Fresh(b)) == Prepend(Resume(Fresh(b)).0, Remaining(Resume(Fresh(b)).1))
  {
    match FindEmpty(b)
    case None =>
    case Some(p) =>
      calc {
        Remaining(Fresh(b));
        StepDigits(b, p, 1);
        { assert StepDigits(b, p, 1) == Continue(b, [], p, 1); }
        Continue(b, [], p, 1);
        { NextDigitSound(b, [], p, 1); }
        Prepend(NextDigit(b, [], p, 1).0, Remaining(NextDigit(b, [], p, 1).1));
      }
  }

  /** `ResumeSound` for an innermost call whose last trial was rejected: go on with its next digit. */
  lemma ResumeRejected(b: Board, frames: seq<Frame>)
    requires Good(Running(b, frames)) && !Top(frames).valid
    ensures Remaining(Running(b, frames)) == Prepend(Resume(Running(b, frames)).0, Remaining(Resume(Running(b, frames)).1))
  {
    var top := Top(frames);
    calc {
      Remaining(Running(b, frames));
      Continue(b, Callers(frames), top.cell, top.num + 1);
      { NextDigitSound(b, Callers(frames), top.cell, top.num + 1); }
      Prepend(NextDigit(b, Callers(frames), top.cell, top.num + 1).0, Remaining(NextDigit(b, Callers(frames), top.cell, top.num + 1).1));
    }
  }

  /** `ResumeSound` for an innermost call whose last trial was accepted: place the digit and descend. */
  lemma ResumeAccepted(b: Board, frames: seq<Frame>)
    requires Good(Running(b, frames)) && Top(frames).valid
    ensures Remaining(Running(b, frames)) == Prepend(Resume(Running(b, frames)).0, Remaining(Resume(Running(b, frames)).1))
  {
    var m := Running(b, frames);
    var f := Top(frames);
    var placed := Set(b, f.cell, f.num);
    FillShrinksEmpties(b, f.cell, f.num);
    match FindEmpty(placed)
    case None =>
      LastCellFilled(b, frames);
      assert Resume(m) == (None, Halted(true, placed));
    case Some(q) =>
      assert Resume(m) == NextDigit(placed, frames, q, 1);
      NextDigitSound(placed, frames, q, 1);
      DescentRemaining(b, frames, q);
  }

  /** An accepted trial that fills the last empty cell ends the search: every pending call returns True. */
  lemma LastCellFilled(b: Board, frames: seq<Frame>)
    requires IsGrid(b) && |frames| > 0 && Top(frames).valid
    requires b[Top(frames).cell.row][Top(frames).cell.col] == 0
    requires FindEmpty(Set(b, Top(frames).cell, Top(frames).num)).None?
    ensures Pending(b, Callers(frames), Top(frames)) == Run(true, Set(b, Top(frames).cell, Top(frames).num), [])
  {
    var f := Top(frames);
    var placed := Set(b, f.cell, f.num);
    FillShrinksEmpties(b, f.cell, f.num);
    assert Step(placed) == Run(true, placed, []);
  }

  /** When the innermost call returns False on the board its caller left, the caller goes on with its next digit. */
  lemma UnwindFailed(b: Board, frames: seq<Frame>, v: int)
    requires IsGrid(b) && |frames| > 0 && b[Top(frames).cell.row][Top(frames).cell.col] == 0
    ensures Then(Run(false, Set(b, Top(frames).cell, v), []), frames) ==
            Then(StepDigits(b, Top(frames).cell, Top(frames).num + 1), Callers(frames))
  {
    SetUndo(b, Top(frames).cell, v);
  }

  /** Trials in front of a run stay in front once the callers' part follows it. */
  lemma ThenAfter(a: seq<Trial>, r: Run, below: seq<Frame>)
    requires IsGrid(r.board)
    ensures Then(After(a, r), below) == After(a, Then(r, below))
  {
    var up := Unwind(r.solved, r.board, below);
    assert (a + r.trials) + up.trials == a + (r.trials + up.trials);
  }

  /** After an accepted trial, what is left is the loop at the next empty cell `q`, followed by the suspended calls. */
  lemma DescentRemaining(b: Board, frames: seq<Frame>, q: Pos)
    requires IsGrid(b) && |frames| > 0 && Top(frames).valid
    requires b[Top(frames).cell.row][Top(frames).cell.col] == 0
    requires FindEmpty(Set(b, Top(frames).cell, Top(frames).num)) == Some(q)
    ensures Pending(b, Callers(frames), Top(frames)) == Continue(Set(b, Top(frames).cell, Top(frames).num), frames, q, 1)
  {
    var f := Top(frames);
    var placed := Set(b, f.cell, f.num);
    if Step(placed).solved {
      DescentSucceeds(b, frames, q);
    } else {
      PendingAfterFailure(b, Callers(frames), f);
      ContinueAfterFailure(b, frames, q);
    }
  }

  /** `DescentRemaining` when the descent succeeds: both sides are the descent's run, and every caller returns True. */
  lemma DescentSucceeds(b: Board, frames: seq<Frame>, q: Pos)
    requires IsGrid(b) && |frames| > 0 && Top(frames).valid
    requires b[Top(frames).cell.row][Top(frames).cell.col] == 0
    requires FindEmpty(Set(b, Top(frames).cell, Top(frames).num)) == Some(q)
    requires Step(Set(b, Top(frames).cell, Top(frames).num)).solved
    ensures Pending(b, Callers(frames), Top(frames)) == Continue(Set(b, Top(frames).cell, Top(frames).num), frames, q, 1)
  {
    var f := Top(frames);
    var placed := Set(b, f.cell, f.num);
    FillShrinksEmpties(b, f.cell, f.num);
    assert Step(placed) == StepDigits(placed, q, 1);
  }

  /** A suspended call `f` whose accepted trial led to a failed descent: the descent's trials, then its next digits and its callers. */
  lemma PendingAfterFailure(b: Board, below: seq<Frame>, f: Frame)
    requires IsGrid(b) && f.valid && b[f.cell.row][f.cell.col] == 0
    requires !Step(Set(b, f.cell, f.num)).solved
    ensures Pending(b, below, f) ==
            After(Step(Set(b, f.cell, f.num)).trials, Then(StepDigits(b, f.cell, f.num + 1), below))
  {
    AcceptedFails(b, f.cell, f.num);
    ThenAfter(Step(Set(b, f.cell, f.num)).trials, StepDigits(b, f.cell, f.num + 1), below);
  }

  /** The loop at `q` on the board with the accepted digit placed, when it fails: its trials, then the caller's next digits. */
  lemma ContinueAfterFailure(b: Board, frames: seq<Frame>, q: Pos)
    requires IsGrid(b) && |frames| > 0
    requires b[Top(frames).cell.row][Top(frames).cell.col] == 0
    requires FindEmpty(Set(b, Top(frames).cell, Top(frames).num)) == Some(q)
    requires !Step(Set(b, Top(frames).cell, Top(frames).num)).solved
    ensures var f := Top(frames);
            Continue(Set(b, f.cell, f.num), frames, q, 1) ==
            After(Step(Set(b, f.cell, f.num)).trials, Then(StepDigits(b, f.cell, f.num + 1), Callers(frames)))
  {
    var f := Top(frames);
    var placed := Set(b, f.cell, f.num);
    var sub := Step(placed);
    assert sub == StepDigits(placed, q, 1);
    assert sub == After(sub.trials, Run(false, placed, []));
    ThenAfter(sub.trials, Run(false, placed, []), frames);
    UnwindFailed(b, frames, f.num);
  }

  /** `next()` called up to `n` times, stopping when the generator is exhausted: the trials yielded and the state reached. */
  function Drain(m: State, n: nat): (r: (seq<Trial>, State))
    requires Good(m)
    ensures Good(r.1)
    decreases n
  {
    if n == 0 || m.Halted? then ([], m)
    else
      var (t, m') := Resume(m);
      match t
      case None => ([], m')
      case Some(x) =>
        var (ts, m'') := Drain(m', n - 1);
        ([x] + ts, m'')
  }

  /** From any state, `next()` yields exactly the remaining trials, and one more call finds the generator exhausted. */
  lemma {:induction false} DrainYieldsRemaining(m: State)
    requires Good(m)
    ensures var r := Remaining(m);
            Drain(m, |r.trials| + 1) == (r.trials, Halted(r.solved, r.board))
    decreases |Remaining(m).trials|
  {
    if !m.Halted? {
      var (t, m') := Resume(m);
      ResumeSound(m);
      var r, r' := Remaining(m), Remaining(m');
      DrainStep(m, |r.trials| + 1);
      if t.Some? {
        assert |r.trials| == |r'.trials| + 1;
        DrainYieldsRemaining(m');
      }
    }
  }

  /** One round of `Drain` on a generator not yet exhausted: one `next()`, then the rest. */
  lemma DrainStep(m: State, n: nat)
    requires Good(m) && !m.Halted? && n > 0
    ensures var (t, m') := Resume(m);
            Drain(m, n) == if t.None? then ([], m') else ([t.value] + Drain(m', n - 1).0, Drain(m', n - 1).1)
  {
  }

  /**
    Driving the generator with `next()` from its creation yields exactly the
    trials of the recursive `step`, in order, and leaves the board and result
    `solve_sudoku` would have produced.
   */
  lemma GeneratorMatchesStep(b: Board)
    requires IsGrid(b)
    ensures var r := Step(b);
            Drain(Fresh(b), |r.trials| + 1) == (r.trials, Halted(r.solved, r.board))
    ensures var r := Step(b);
            r.solved == Solver.Solve(b).solved && r.board == Solver.Solve(b).board
  {
    DrainYieldsRemaining(Fresh(b));
    StepMatchesSolve(b);
  }
}
