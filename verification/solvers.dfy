/** Solver.cs: the queue of pending actions and the propagation loop, run on a Board in place. Each method
    is proved to change the board and the queue exactly as the matching function of Propagation says. */
module Solvers {
  import opened Wrappers
  import opened Boxes
  import opened Actions
  import opened Boards
  import opened Propagation

  class Solver {
    const board: Board
    /** The pending actions, oldest first. */
    var queue: seq<Action>

    ghost predicate Valid()
      reads board, board.cells
    {
      board.Valid()
    }

    /** The board's candidates and the queue, as the value the propagation functions work on. */
    ghost function Current(): State
      reads this, board
    {
      State(board.grid, queue)
    }

    /** Solver(board): an empty queue over the given board. */
    constructor (board: Board)
      requires board.Valid()
      ensures this.board == board && queue == [] && Valid()
    {
      this.board := board;
      queue := [];
    }

    /** Add: a null action throws; any other action is queued, the duplicate test never holding. */
    method Add(action: Option<Action>) returns (err: Option<Error>)
      modifies this`queue
      ensures action.None? ==> err == Some(ArgumentNull("action")) && queue == old(queue)
      ensures action.Some? ==> err.None? && queue == old(queue) + [action.value]
    {
      if action.None? {
        return Some(ArgumentNull("action"));
      }
      if !AnyEqualsBox(queue, action.value.box) {
        queue := queue + [action.value];
      }
      err := None;
    }

    /** RemoveValueInBoxes: each listed box with more than one candidate loses the value, and a box left with
        one candidate is queued with it. */
    method RemoveValueInBoxes(value: Digit, boxes: seq<Box>)
      requires Valid()
      modifies this`queue, board, board.cells
      ensures Valid()
      ensures Current() == Eliminate(old(Current()), value, boxes)
    {
      ghost var s0 := Current();
      for i := 0 to |boxes|
        invariant Valid()
        invariant Current() == Eliminate(s0, value, boxes[..i])
      {
        var box := boxes[i];
        var values := board.ListValuesInBox(Some(box));
        if |values.value| > 1 {
          var _ := board.RemoveValueInBox(value, Some(box));
          var valuesLeft := board.ListValuesInBox(Some(box));
          if |valuesLeft.value| == 1 {
            var action := NewAction(Some(box), First(valuesLeft.value));
            var _ := Add(Some(action.value));
          }
        }
        assert boxes[..i + 1][..i] == boxes[..i];
      }
      assert boxes[..|boxes|] == boxes;
    }

    /** CheckUniqueValueWithinBoxes: for each value 1 .. 9, in order, if exactly one listed box can hold
        it and that box has other candidates, the box is queued with the value. The board is not changed. */
    method CheckUniqueValueWithinBoxes(boxes: seq<Box>)
      requires Valid()
      modifies this`queue
      ensures Current() == CheckUnique(old(Current()), boxes)
    {
      ghost var s0 := Current();
      NonNullLift(boxes);
      for value := 1 to Size + 1
        invariant queue == s0.queue + HiddenSinglesUpTo(s0.grid, boxes, value - 1)
      {
        var filteredBoxes := board.FilterBoxesContainingValue(Some(Lift(boxes)), value);
        ghost var holders := Containing(s0.grid, boxes, value);
        assert filteredBoxes.value == holders;
        HiddenSinglesStep(s0.grid, boxes, value);
        if |filteredBoxes.value| == 1 && |board.ListValuesInBox(Some(filteredBoxes.value[0])).value| > 1 {
          var action := NewAction(Some(filteredBoxes.value[0]), value);
          var _ := Add(Some(action.value));
          assert queue == s0.queue + HiddenSinglesUpTo(s0.grid, boxes, value - 1) + [Action(holders[0], value)];
        } else {
          assert HiddenSinglesUpTo(s0.grid, boxes, value) == HiddenSinglesUpTo(s0.grid, boxes, value - 1);
        }
        assert queue == s0.queue + HiddenSinglesUpTo(s0.grid, boxes, value);
      }
    }

    /** The basic logic of one turn of Solve: dequeue, set the box, eliminate the value from the boxes of
        the box's line, column and square. */
    method ApplyNextAction()
      requires Valid() && queue != []
      modifies this`queue, board, board.cells
      ensures Valid()
      ensures Current() == Apply(old(Current()))
    {
      ghost var s0 := Current();
      var currentAction := queue[0];
      queue := queue[1..];
      var _ := board.SetValueInBox(currentAction.value, Some(currentAction.box));
      assert Current() == Dequeue(s0);
      var line := ListBoxesInLine(Some(currentAction.box));
      var column := ListBoxesInColumn(Some(currentAction.box));
      var square := ListBoxesInSquare(Some(currentAction.box));
      RemoveValueInBoxes(currentAction.value, line.value + column.value + square.value);
    }

    /** The square scan: CheckUniqueValueWithinBoxes on the square of each listed centre. */
    method CheckSquares()
      requires Valid()
      modifies this`queue
      ensures Current() == ScanSingles(old(Current()), SquareRegions())
    {
      ghost var s0 := Current();
      for k := 0 to |SquareCentres|
        invariant Current() == ScanSingles(s0, SquareRegions()[..k])
      {
        var square := ListBoxesInSquare(Some(SquareCentres[k]));
        CheckUniqueValueWithinBoxes(square.value);
        assert SquareRegions()[..k + 1][..k] == SquareRegions()[..k];
      }
      assert SquareRegions()[..|SquareCentres|] == SquareRegions();
    }

    /** The line and column scan: for each diagonal box, CheckUniqueValueWithinBoxes on its line, then on
        its column. */
    method CheckLinesAndColumns()
      requires Valid()
      modifies this`queue
      ensures Current() == ScanSingles(old(Current()), LineColumnRegions())
    {
      ghost var s0 := Current();
      for i := 0 to |Diagonal|
        invariant Current() == ScanSingles(s0, LineColumnRegions()[..2 * i])
      {
        LineColumnRegionsAt(i);
        var line := ListBoxesInLine(Some(Diagonal[i]));
        CheckUniqueValueWithinBoxes(line.value);
        ScanSinglesStep(s0, LineColumnRegions(), 2 * i);
        var column := ListBoxesInColumn(Some(Diagonal[i]));
        CheckUniqueValueWithinBoxes(column.value);
        ScanSinglesStep(s0, LineColumnRegions(), 2 * i + 1);
      }
      assert LineColumnRegions()[..2 * |Diagonal|] == LineColumnRegions();
    }

    /** The inner loop of the dictionary fill: the box is entered under each of its candidates, ascending. */
    method AddToGroups(box: Box, values: set<int>, groups: Groups) returns (groups': Groups)
      ensures groups' == Enter(groups, values, box, Size)
    {
      groups' := groups;
      for value := 1 to Size + 1
        invariant groups' == Enter(groups, values, box, value - 1)
      {
        if value in values {
          if value !in groups'.entries {
            groups' := Groups(groups'.keys + [value], groups'.entries[value := [box]]);
          } else {
            groups' := Groups(groups'.keys, groups'.entries[value := groups'.entries[value] + [box]]);
          }
        }
      }
    }

    /** Fills the dictionary of one square: each box with more than one candidate, in order, goes through
        AddToGroups, so the keys are the values in order of first appearance and each entry lists, in order,
        the undecided boxes that can hold its key. */
    method GroupBoxesByValue(square: seq<Box>) returns (groups: Groups)
      requires Valid()
      ensures Describes(board.grid, square, groups)
    {
      groups := Groups([], map[]);
      for i := 0 to |square|
        invariant Describes(board.grid, square[..i], groups)
      {
        var box := square[i];
        var values := board.ListValuesInBox(Some(box));
        FillKeys(board.grid, square, i, groups);
        FillDomain(board.grid, box, groups);
        FillEntries(board.grid, square, i, groups);
        if |values.value| > 1 {
          groups := AddToGroups(box, values.value, groups);
        }
      }
      assert square[..|square|] == square;
    }

    /** `boxesToRemove.ForEach(box => CheckUniqueValueWithinBoxes(ListBoxesInSquare(box)))`. */
    method CheckSquaresOfBoxes(boxes: seq<Box>)
      requires Valid()
      modifies this`queue
      ensures Current() == ScanSingles(old(Current()), SquaresOf(boxes))
    {
      ghost var s0 := Current();
      for i := 0 to |boxes|
        invariant Current() == ScanSingles(s0, SquaresOf(boxes)[..i])
      {
        var square := ListBoxesInSquare(Some(boxes[i]));
        CheckUniqueValueWithinBoxes(square.value);
        assert SquaresOf(boxes)[..i + 1][..i] == SquaresOf(boxes)[..i];
      }
      assert SquaresOf(boxes)[..|boxes|] == SquaresOf(boxes);
    }

    /** One dictionary entry of the locked-candidate pass. */
    method HandleGroup(value: Digit, boxes: seq<Box>)
      requires Valid() && boxes != []
      modifies this`queue, board, board.cells
      ensures Valid()
      ensures Current() == ProcessGroup(old(Current()), value, boxes)
    {
      if |boxes| == 1 {
        var action := NewAction(Some(boxes[0]), value);
        var _ := Add(Some(action.value));
      } else if GroupCount(boxes, LineKey) == 1 {
        var line := ListBoxesInLine(Some(boxes[0]));
        var boxesToRemove := Unlisted(boxes, line.value);
        RemoveValueInBoxes(value, boxesToRemove);
        CheckSquaresOfBoxes(boxesToRemove);
      } else if GroupCount(boxes, ColumnKey) == 1 {
        var column := ListBoxesInColumn(Some(boxes[0]));
        var boxesToRemove := Unlisted(boxes, column.value);
        RemoveValueInBoxes(value, boxesToRemove);
        CheckSquaresOfBoxes(boxesToRemove);
      }
    }

    /** One square of the locked-candidate pass: its dictionary is filled from the current board, then its
        entries are handled in key order. */
    method LockSquare(square: seq<Box>)
      requires Valid()
      modifies this`queue, board, board.cells
      ensures Valid()
      ensures Current() == LockedSquare(old(Current()), square)
    {
      ghost var start := Current();
      var groups := GroupBoxesByValue(square);
      var keys := groups.keys;
      for j := 0 to |keys|
        invariant Valid()
        invariant Current() == ProcessGroups(start, start.grid, square, keys[..j])
      {
        ProcessGroupsStep(start, start.grid, square, keys, j);
        assert keys[j] in groups.entries;
        HandleGroup(keys[j], groups.entries[keys[j]]);
      }
      assert keys[..|keys|] == keys;
    }

    /** The locked-candidate pass: LockSquare on each square of ListBoxesInAllSquares, in order. */
    method EliminateLockedCandidates()
      requires Valid()
      modifies this`queue, board, board.cells
      ensures Valid()
      ensures Current() == LockedPass(old(Current()))
    {
      ghost var s0 := Current();
      var squares := AllSquares();
      for k := 0 to |squares|
        invariant Valid()
        invariant Current() == LockedSquares(s0, squares[..k])
      {
        LockedSquaresStep(s0, squares, k);
        LockSquare(squares[k]);
      }
      assert squares[..|squares|] == squares;
    }

    /** One turn of Solve's loop: the basic logic, then each fallback scan while the queue is empty. */
    method Turn()
      requires Valid() && queue != []
      modifies this`queue, board, board.cells
      ensures Valid()
      ensures Current() == Iteration(old(Current()))
    {
      ApplyNextAction();
      ghost var s1 := Current();
      if queue == [] {
        CheckSquares();
      }
      ghost var s2 := Current();
      assert s2 == if s1.queue == [] then ScanSingles(s1, SquareRegions()) else s1;
      if queue == [] {
        CheckLinesAndColumns();
      }
      ghost var s3 := Current();
      assert s3 == if s2.queue == [] then ScanSingles(s2, LineColumnRegions()) else s2;
      if queue == [] {
        EliminateLockedCandidates();
      }
    }

    /** Solve: turns of the loop until the queue is empty; the board itself is returned. */
    method Solve() returns (r: Board)
      requires Valid()
      modifies this`queue, board, board.cells
      ensures r == board && Valid() && queue == []
      ensures Current() == Run(old(Current()))
    {
      ghost var s0 := Current();
      while queue != []
        invariant Valid()
        invariant Run(Current()) == Run(s0)
        decreases Weight(board.grid), HeadDecided(Current()), |queue|
      {
        ghost var before := Current();
        Turn();
        IterationDecreases(before);
        assert Run(before) == Run(Current());
      }
      r := board;
    }
  }
}
