# Sudoku candidate-elimination engine, modelled in Dafny

This project models the core of a C# Sudoku solver: the board of per-box candidate sets (`Board`), the
coordinate and pending-assignment value objects (`Box`, `Action`), and the propagation engine (`Solver`).
The engine keeps a FIFO queue of pending actions. Each turn of its loop does three things:

1. It dequeues one action and sets the action's box to the action's value.
2. It removes that value from every undecided box of the box's line, column and square. A box left with
   one candidate is queued.
3. While the queue stays empty, it runs three passes in turn:
   - the hidden-single scan by square;
   - the hidden-single scan by line and column;
   - the locked-candidate ("pointing pair") pass.

The modules follow the source files:

| module | file | contents |
|---|---|---|
| `Wrappers` | (none) | `Option` for a reference that may be null, `Result` for an operation that may throw, and the two exception kinds |
| `Boxes` | `Box.cs` | the validated coordinate |
| `Actions` | `Action.cs` | the validated (box, value) pair |
| `Boards` | `Board.cs` | see below |
| `Propagation` | `Solver.cs` | see below |
| `Solvers` | `Solver.cs` | see below |

- **Boards.** The grid as a value; the geometric queries as functions; the `LINQ` filter. The `Board`
  class keeps its candidates in an `array2<set<int>>`, updates them in place, and mirrors them in a
  ghost `grid`.
- **Propagation.** What every step of `Solve` does to the pair (grid, queue), written as functions. It
  also holds the lemmas that say what those steps mean: what each step removes and what it queues,
  that a box with candidates never loses all of them, and that the loop ends.
- **Solvers.** The `Solver` class: the board, and the queue as a `seq<Action>`. Each method is proved to
  change the board and the queue exactly as the matching `Propagation` function says. `Solve` is
  proved to end with an empty queue in the state `Propagation.Run` describes.

`Solve` is written in the source as one loop with inline blocks. The model splits those blocks into
methods: `ApplyNextAction`, `CheckSquares`, `CheckLinesAndColumns`, `EliminateLockedCandidates` and the
methods it calls, and `Turn`. Each method does exactly what its block does, in the same order.

Five behaviours of the code are worth knowing; the model follows the code in each:

- **Add never de-duplicates.** `Add` compares a queued `Action` with a `Box`
  (`src/sudoku-solver/Solver.cs:23`). Neither class overrides `Equals`, so the test is never true and
  every action is queued.
- **The locked-candidate sweep covers the whole line or column.** The filter at
  `src/sudoku-solver/Solver.cs:154` and `:165` compares `Box` objects by identity. These are different
  objects, so the filter keeps every box, including the square's own holders.
  `Propagation.Unlisted` returns its input unchanged, and `LockedLineSweep` and `LockedColumnSweep`
  state the effect.
- **Repeated peers are visited more than once.** The `HashSet<Box>` of the apply step
  (`src/sudoku-solver/Solver.cs:69-72`) holds 27 distinct objects: the line, column and square queries
  each build a new `Box`, and `Box` does not override `Equals`. So the box itself is visited three
  times, and each peer that shares its square and its line or column twice. The later visits remove
  nothing (`Propagation.EliminateCell`).
- **The size guard is in the solver, not the board.** `RemoveValueInBox` has no size guard and can
  empty a box. The guard is in `RemoveValueInBoxes`.
- **The passes run only after an applied action.** A `Solve` that starts with an empty queue runs no
  pass and returns the board unchanged (`Propagation.Run`).

## Model

| member | source | states |
|---|---|---|
| `Boxes.NewBox` | src/sudoku-solver/Box.cs:29-37 | Construction succeeds exactly when both coordinates are in 1 .. 9, and the result holds them. A bad line is reported as "line" before the column is checked; otherwise a bad column is reported as "column". |
| `Boxes.HashOfCoordinates` | src/sudoku-solver/Box.cs:39-42 | `Boxes.HashCode`, the model of `GetHashCode`, gives two boxes with the same line and column the same hash, whatever the runtime's combiner. |
| `Actions.NewAction` | src/sudoku-solver/Action.cs:24-35 | Construction succeeds exactly when the box is non-null and the value is in 1 .. 9, and the action holds exactly that box and value. A null box is reported as "box" before the value is checked; otherwise a bad value is reported as "value". |
| `Boards.Put` | src/sudoku-solver/Board.cs:66 | Writing a box's candidate set changes that box to the new set and no other box. |
| `Boards.CheckValueAndBox` | src/sudoku-solver/Board.cs:60-64 | The update succeeds exactly when the value is in 1 .. 9 and the box is non-null. The value is checked first ("value"), then the box ("box"). |
| `Boards.Board.constructor` | src/sudoku-solver/Board.cs:13-35 | A new board holds exactly the digits 1 .. 9 in every one of the 81 boxes. |
| `Boards.Board.ListValuesInBox` | src/sudoku-solver/Board.cs:43-49 | A null box fails with "box"; any other box returns its candidate set, a subset of 1 .. 9. |
| `Boards.Board.SetValueInBox` | src/sudoku-solver/Board.cs:58-67 | It fails like `CheckValueAndBox`, and then the board is unchanged. Otherwise the box holds exactly `{value}`, whatever it held, and every other box is unchanged. |
| `Boards.Board.RemoveValueInBox` | src/sudoku-solver/Board.cs:76-84 | It fails like `CheckValueAndBox`, and then the board is unchanged. Otherwise the box loses the value, with no size guard, and every other box is unchanged. |
| `Boards.LineOf` | src/sudoku-solver/Board.cs:122-135 | A line query returns 9 boxes: the given box's line, columns 1 .. 9 in order. |
| `Boards.LineMembers` | src/sudoku-solver/Board.cs:122-135 | A line query holds no box twice. It includes the box itself, and it holds exactly the boxes of its line. |
| `Boards.ColumnOf` | src/sudoku-solver/Board.cs:137-150 | A column query returns 9 boxes: the given box's column, lines 1 .. 9 in order. |
| `Boards.ColumnMembers` | src/sudoku-solver/Board.cs:137-150 | A column query holds no box twice. It includes the box itself, and it holds exactly the boxes of its column. |
| `Boards.SquareCorner` | src/sudoku-solver/Board.cs:93-94 | The corner `((c-1)/3)*3+1` is 1, 4 or 7, and the coordinate lies in the three-wide band that starts there. |
| `Boards.SquareOf` | src/sudoku-solver/Board.cs:87-106 | A square query returns 9 boxes, all in the box's square. The first is the square's top-left box, and they come in strictly line-major order (`LineMajor`), as the line loop around the column loop produces them. |
| `Boards.SquareMembers` | src/sudoku-solver/Board.cs:87-106 | A square query holds no box twice. It includes the box itself, and it holds exactly the boxes of the box's square. |
| `Boards.AllSquares` | src/sudoku-solver/Board.cs:108-120 | The list of all squares has nine entries, one per square (`SquaresPartitionBoard` states what they hold). |
| `Boards.SquaresPartitionBoard` | src/sudoku-solver/Board.cs:108-120 | The nine squares, listed line-major, are pairwise disjoint and cover all 81 boxes. Each box lies in the square at its square index. |
| `Boards.ListBoxesInLine` | src/sudoku-solver/Board.cs:122-126 | A null box fails with "box"; any other box gets its line. |
| `Boards.ListBoxesInColumn` | src/sudoku-solver/Board.cs:137-141 | A null box fails with "box"; any other box gets its column. |
| `Boards.ListBoxesInSquare` | src/sudoku-solver/Board.cs:87-90 | A null box fails with "box"; any other box gets its square. |
| `Boards.Peers` | src/sudoku-solver/Solver.cs:69-72 | The apply step's collection holds 27 entries, with no repeats removed. By definition it is the line, then the column, then the square; `PeersMembers` states which boxes it holds. |
| `Boards.PeersMembers` | src/sudoku-solver/Solver.cs:69-72 | That collection holds the box itself and exactly the boxes that share its line, its column or its square. |
| `Boards.NonNull` | src/sudoku-solver/Board.cs:158 | The null filter never returns more boxes than it was given. |
| `Boards.NonNullMembers` | src/sudoku-solver/Board.cs:158 | The null filter keeps exactly the non-null entries. |
| `Boards.Containing` | src/sudoku-solver/Board.cs:159 | The value filter never returns more boxes than it was given. |
| `Boards.ContainingMembers` | src/sudoku-solver/Board.cs:157-160 | The filter keeps exactly the listed boxes whose candidates include the value, and never more boxes than it was given. |
| `Boards.ContainingAppend` | src/sudoku-solver/Board.cs:157-160 | The filter keeps the input order: filtering a concatenation concatenates the filtered parts. |
| `Boards.ContainingOutOfRange` | src/sudoku-solver/Board.cs:152-161 | A value outside 1 .. 9 keeps nothing. |
| `Boards.ContainingSingle` | src/sudoku-solver/Solver.cs:51-52 | In a list without repeats, the filter returns just `[c]` exactly when c is listed, holds the value, and no other listed box holds it. |
| `Boards.Board.KeepContaining` | src/sudoku-solver/Board.cs:157-160 | Evaluated on the board's array, the LINQ pipeline equals the filter of the non-null entries on the board's grid. |
| `Boards.Board.FilterBoxesContainingValue` | src/sudoku-solver/Board.cs:152-161 | A null list fails with "boxes". Otherwise the result is the listed non-null boxes holding the value, in input order. |
| `Propagation.AnyEqualsBox` | src/sudoku-solver/Solver.cs:23 | The duplicate test of `Add` is never true. |
| `Propagation.Unlisted` | src/sudoku-solver/Solver.cs:153-155 | The exclusion filter of the locked-candidate sweep returns the line or column unchanged. |
| `Propagation.ExtendsTrans` | src/sudoku-solver/Solver.cs:26 | Appending to the queue twice appends both additions, in order. |
| `Propagation.First` | src/sudoku-solver/Solver.cs:40 | `First()` on a candidate set is a member of it, its least member. |
| `Propagation.FirstOfSingleton` | src/sudoku-solver/Solver.cs:39-40 | For a box left with one candidate, `First()` is that candidate. |
| `Propagation.PairIff` | src/sudoku-solver/Solver.cs:34-39 | A box with more than one candidate is left with exactly `{d}` after losing `v` exactly when its candidates were `{v, d}` with d ≠ v. |
| `Propagation.EliminateAt` | src/sudoku-solver/Solver.cs:31-42 | One turn of the removal loop keeps every candidate a digit and never empties a box that had candidates. |
| `Propagation.Eliminate` | src/sudoku-solver/Solver.cs:29-43 | The same holds for the whole removal loop. |
| `Propagation.EliminateAtCell` | src/sudoku-solver/Solver.cs:33-36 | One turn changes only the visited box, and only when it has more than one candidate. |
| `Propagation.EliminateCell` | src/sudoku-solver/Solver.cs:29-43 | After the loop, each listed box with more than one candidate has lost the value; every other box, singletons included, is unchanged. A box listed twice is no worse off. |
| `Propagation.EliminateAtForced` | src/sudoku-solver/Solver.cs:33-41 | One turn only appends. It queues (b, d) exactly when b's candidates were `{v, d}` with d ≠ v. |
| `Propagation.EliminateForced` | src/sudoku-solver/Solver.cs:29-43 | The loop only appends. It queues (c, d) exactly when c is listed and c's candidates were `{v, d}` with d ≠ v. |
| `Propagation.EliminateAtWeight` | src/sudoku-solver/Solver.cs:33-36 | One turn never adds weight. Either it removes weight, or the state is unchanged. |
| `Propagation.EliminateWeight` | src/sudoku-solver/Solver.cs:29-43 | The same holds for the whole loop. |
| `Propagation.WeightPut` | src/sudoku-solver/Board.cs:66 | Replacing one box's candidates changes the grid's weight by the difference of that box's two weights. |
| `Propagation.Dequeue` | src/sudoku-solver/Solver.cs:65-67 | The oldest action leaves the queue and its box holds exactly its value. Every other box is unchanged, and no box becomes empty. |
| `Propagation.Apply` | src/sudoku-solver/Solver.cs:63-74 | The basic step keeps every candidate a digit and never empties a box that had candidates. |
| `Propagation.ApplyCells` | src/sudoku-solver/Solver.cs:63-74 | After the basic step the action's box is exactly `{value}`. Every other peer with two or more candidates has lost the value, and every other box is unchanged. |
| `Propagation.ApplyQueue` | src/sudoku-solver/Solver.cs:63-74 | The basic step appends (c, d) exactly for each peer c other than the action's box whose candidates were `{value, d}`. |
| `Propagation.ApplyWeight` | src/sudoku-solver/Solver.cs:63-74 | The basic step never adds weight. It keeps the weight only when the action's box was already decided, and then it queues nothing. |
| `Propagation.HiddenSinglesUpTo` | src/sudoku-solver/Solver.cs:49-56 | The loop over the values 1 .. n queues at most one action per value, so at most n actions. |
| `Propagation.HiddenSinglesUpToIff` | src/sudoku-solver/Solver.cs:49-56 | For the values 1 .. n, (c, d) is queued exactly when d ≤ n, exactly one listed box holds d, that box has other candidates, and it is c. |
| `Propagation.HiddenSinglesUpToBoxes` | src/sudoku-solver/Solver.cs:49-56 | Each queued box is listed, holds its value, and has more than one candidate. |
| `Propagation.HiddenSinglesUpToSorted` | src/sudoku-solver/Solver.cs:49 | The actions are queued in strictly ascending order of value. |
| `Propagation.HiddenSingles` | src/sudoku-solver/Solver.cs:45-57 | One check of a list queues at most nine actions. |
| `Propagation.CheckUnique` | src/sudoku-solver/Solver.cs:45-57 | One check of a list leaves the grid as it was, keeps the old queue as a prefix and appends at most nine actions. |
| `Propagation.HiddenSinglesIff` | src/sudoku-solver/Solver.cs:45-57 | In a list without repeats, (c, d) is queued exactly when c is listed and undecided, holds d, and is the only listed box that holds d. |
| `Propagation.ScanSingles` | src/sudoku-solver/Solver.cs:85-88 | Checking a run of lists never changes the grid. |
| `Propagation.ScanSinglesMembers` | src/sudoku-solver/Solver.cs:85-88 | Checking a run of lists only appends, and it appends exactly the hidden singles of the lists. |
| `Propagation.CentresFormula` | src/sudoku-solver/Solver.cs:79-83 | The square scan lists the centre of each square, line-major. |
| `Propagation.DiagonalFormula` | src/sudoku-solver/Solver.cs:94-98 | The line and column scan lists the diagonal boxes (i, i). |
| `Propagation.CentreOfSquare` | src/sudoku-solver/Solver.cs:79-87 | Every box lies in the square of the listed centre at its square index. |
| `Propagation.SquareRegions` | src/sudoku-solver/Solver.cs:79-88 | The square scan checks nine lists. |
| `Propagation.SquareScanIff` | src/sudoku-solver/Solver.cs:76-89 | The square scan queues (c, d) exactly when c is undecided, holds d, and no other box of c's square holds d. |
| `Propagation.LineColumnRegions` | src/sudoku-solver/Solver.cs:94-104 | The line and column scan checks eighteen lists, two for each of the nine listed boxes. |
| `Propagation.LineColumnScanIff` | src/sudoku-solver/Solver.cs:91-105 | The line and column scan queues (c, d) exactly when c is undecided, holds d, and d is held by no other box of c's line, or by no other box of c's column. |
| `Propagation.AdvancesTrans` | src/sudoku-solver/Solver.cs:61-174 | Progress composes: appending actions without adding weight, twice over, still appends without adding weight. |
| `Propagation.CheckUniqueAdvances` | src/sudoku-solver/Solver.cs:45-57 | One check appends only actions on boxes with more than one candidate. |
| `Propagation.ScanSinglesAdvances` | src/sudoku-solver/Solver.cs:85-88 | The same holds for a run of checks. |
| `Propagation.EliminateAdvances` | src/sudoku-solver/Solver.cs:29-43 | The removal loop only appends and never adds weight. When it keeps the weight, it changes nothing. |
| `Propagation.MultiHolders` | src/sudoku-solver/Solver.cs:122-135 | The dictionary entry for d holds exactly the boxes that have more than one candidate, d among them. |
| `Propagation.NewValues` | src/sudoku-solver/Solver.cs:128-134 | The candidates ≤ n that are not keys yet, in strictly ascending order. |
| `Propagation.KeysOf` | src/sudoku-solver/Solver.cs:117-136 | The dictionary's keys, in insertion order, are exactly the values with at least one holder, each listed once. |
| `Propagation.Enter` | src/sudoku-solver/Solver.cs:128-134 | Entering a box's candidates never removes an entry and only appends keys: the old keys stay a prefix, in order. |
| `Propagation.EnterEntries` | src/sudoku-solver/Solver.cs:128-134 | Entering a box creates entries for its new candidates, each holding just that box, and appends the box to the entries of its other candidates. It touches no other entry. |
| `Propagation.EnterDomain` | src/sudoku-solver/Solver.cs:130-133 | Entering a box creates a key exactly when it creates an entry. |
| `Propagation.EnterKeys` | src/sudoku-solver/Solver.cs:128-134 | Entering a box appends its candidates that are not keys yet, in ascending order. |
| `Propagation.NextGroups` | src/sudoku-solver/Solver.cs:122-135 | Reading a box never removes an entry and only appends keys. A box with at most one candidate leaves the dictionary unchanged. |
| `Propagation.FillKeys` | src/sudoku-solver/Solver.cs:122-136 | After one more box is read, the keys are those of the longer prefix. |
| `Propagation.FillDomain` | src/sudoku-solver/Solver.cs:122-136 | Reading a box keeps the keys listing exactly the entries. |
| `Propagation.FillEntries` | src/sudoku-solver/Solver.cs:122-136 | After one more box is read, each entry holds the holders among the boxes read so far. |
| `Propagation.GroupCount` | src/sudoku-solver/Solver.cs:150 | `GroupBy(key).Count()` is 0 exactly when there are no holders. |
| `Propagation.GroupCountOne` | src/sudoku-solver/Solver.cs:150 | `GroupBy(key).Count() == 1` exactly when all holders share the first holder's key. |
| `Propagation.Sweep` | src/sudoku-solver/Solver.cs:156-158 | The sweep, followed by the square checks of the swept boxes, keeps every candidate a digit and empties no box. |
| `Propagation.ProcessGroup` | src/sudoku-solver/Solver.cs:138-172 | Handling one dictionary entry keeps every candidate a digit and empties no box. |
| `Propagation.ProcessGroups` | src/sudoku-solver/Solver.cs:138-172 | Handling the entries of one square, in insertion order, keeps every candidate a digit and empties no box. |
| `Propagation.LockedSquare` | src/sudoku-solver/Solver.cs:117-173 | One square of the locked-candidate pass, filling the dictionary from the current grid and then handling its entries, keeps every candidate a digit and empties no box. |
| `Propagation.LockedSquares` | src/sudoku-solver/Solver.cs:117-173 | The same holds for the nine squares taken in turn. |
| `Propagation.LockedLineSweep` | src/sudoku-solver/Solver.cs:150-159 | If the holders share a line, the value leaves every box of that line that had more than one candidate, the holders included. No other box changes. |
| `Propagation.LockedColumnSweep` | src/sudoku-solver/Solver.cs:161-170 | If the holders do not share a line but share a column, the same happens on that column. |
| `Propagation.SweepAdvances` | src/sudoku-solver/Solver.cs:153-158 | A sweep only appends and never adds weight. |
| `Propagation.ProcessGroupAdvances` | src/sudoku-solver/Solver.cs:138-172 | Handling an entry whose holders were undecided keeps the pass appending without adding weight. |
| `Propagation.ProcessGroupsAdvances` | src/sudoku-solver/Solver.cs:138-172 | The same holds for the entries of one square. |
| `Propagation.LockedSquaresAdvances` | src/sudoku-solver/Solver.cs:117-173 | The same holds for the whole locked-candidate pass. |
| `Propagation.LockedPass` | src/sudoku-solver/Solver.cs:108-174 | The locked-candidate pass keeps every candidate a digit and empties no box. |
| `Propagation.Fallbacks` | src/sudoku-solver/Solver.cs:76-174 | The three gated passes keep every candidate a digit and empty no box. |
| `Propagation.FallbacksAdvance` | src/sudoku-solver/Solver.cs:76-174 | The three gated passes only append and never add weight. When they keep the weight, every action they append names an undecided box. |
| `Propagation.Iteration` | src/sudoku-solver/Solver.cs:63-174 | One turn of the loop keeps every candidate a digit and empties no box. |
| `Propagation.IterationDecreases` | src/sudoku-solver/Solver.cs:61-174 | Each turn strictly decreases the triple (grid weight, `HeadDecided`, queue length), compared lexicographically, so the loop ends. `HeadDecided` is 1 when the queue is empty or its oldest action names a decided box, else 0. |
| `Propagation.Run` | src/sudoku-solver/Solver.cs:59-178 | Solve ends with an empty queue and never empties a box that had candidates. With an empty queue at the start, it changes nothing. |
| `Solvers.Solver.constructor` | src/sudoku-solver/Solver.cs:12-16 | The solver keeps the given board, with an empty queue. |
| `Solvers.Solver.Add` | src/sudoku-solver/Solver.cs:18-27 | A null action fails with "action" and leaves the queue unchanged. Any other action is appended to the back of the queue. |
| `Solvers.Solver.RemoveValueInBoxes` | src/sudoku-solver/Solver.cs:29-43 | The board and queue become `Eliminate` of the old ones; the lemmas on `Eliminate` apply. |
| `Solvers.Solver.CheckUniqueValueWithinBoxes` | src/sudoku-solver/Solver.cs:45-57 | The board is not touched. The queue gains exactly the list's hidden singles, in ascending value order. |
| `Solvers.Solver.ApplyNextAction` | src/sudoku-solver/Solver.cs:63-74 | The board and queue become `Apply` of the old ones. |
| `Solvers.Solver.CheckSquares` | src/sudoku-solver/Solver.cs:76-89 | The queue gains the square scan's singles (`SquareScanIff`); the board is untouched. |
| `Solvers.Solver.CheckLinesAndColumns` | src/sudoku-solver/Solver.cs:91-105 | The queue gains the line and column scan's singles (`LineColumnScanIff`); the board is untouched. |
| `Solvers.Solver.AddToGroups` | src/sudoku-solver/Solver.cs:128-134 | The inner dictionary loop returns `Enter` of the dictionary for all nine values. |
| `Solvers.Solver.GroupBoxesByValue` | src/sudoku-solver/Solver.cs:117-136 | The filled dictionary has the keys `KeysOf`, in insertion order. Each entry lists the square's undecided holders of its key, in order. |
| `Solvers.Solver.CheckSquaresOfBoxes` | src/sudoku-solver/Solver.cs:158 | The queue gains the hidden singles of the square of each swept box, in turn. |
| `Solvers.Solver.HandleGroup` | src/sudoku-solver/Solver.cs:140-171 | The board and queue become `ProcessGroup` of the old ones. |
| `Solvers.Solver.LockSquare` | src/sudoku-solver/Solver.cs:117-172 | The board and queue become `LockedSquare` of the old ones. |
| `Solvers.Solver.EliminateLockedCandidates` | src/sudoku-solver/Solver.cs:108-174 | The board and queue become `LockedPass` of the old ones. |
| `Solvers.Solver.Turn` | src/sudoku-solver/Solver.cs:63-174 | The board and queue become `Iteration` of the old ones: the basic step, then each pass only while the queue is empty. |
| `Solvers.Solver.Solve` | src/sudoku-solver/Solver.cs:59-178 | It returns the solver's own board with an empty queue, in the state `Run` gives. The loop's termination is proved. |

## Left out

- `Program.cs` and `Parser.cs` are not part of this model. They are console output and file I/O. Seed
  clues enter the model through `Solvers.Solver.Add`. The parser accepts a `'0'` that the `Action`
  constructor then rejects with "value"; that quirk is noted here and not modelled.
- `Board.ToString` (`src/sudoku-solver/Board.cs:163-195`) is presentational text only.
- The concrete hash values are left out. `HashCode.Combine` is randomised per process, so
  `Boxes.HashCode` takes the combiner as a parameter. Nothing in the core depends on a hash value,
  because no class overrides `Equals`.
- Enumeration order of .NET collections is assumed, not modelled:
  - A `HashSet<int>` of candidates is taken to enumerate in ascending order. Its elements are small
    integers inserted in ascending order and then only removed. This order is used for `First()` and
    for the inner loop of the dictionary fill.
  - A `HashSet<Box>` of distinct objects and a `Dictionary` with no removals are taken to enumerate in
    insertion order.
- The unused `tempBoxes` list (`src/sudoku-solver/Solver.cs:110-114`) and the commented-out line 121
  have no effect and are not modelled.
- `Solvers.Solver.constructor` does not model a null board. The source does not check for one, and a
  null board would fail only at its first use.
- Exceptions become `Option<Error>` or `Result` values. The model does not unwind the caller. Every
  call the core makes has arguments that cannot fail.
- Box and Action accessors have no members of their own. `Line`, `Column`, `Box` and `Value` are
  read-only, which is modelled by datatype fields that cannot be assigned.
- The model proves that `Solve` ends with an empty queue. It does not prove that the final grid is at a
  fixed point of every deduction rule, and the source does not promise it either. A locked-candidate
  sweep can remove candidates without queuing anything. The loop then ends without running the line
  and column scan again.
- Aliasing between the solver's board and other references is not modelled. The `Solver` methods may
  change only the queue, the board object and its array.
