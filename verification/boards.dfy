/** Board.cs: the 9 x 9 grid of candidate sets, its updates, and the purely geometric queries. */
module Boards {
  import opened Wrappers
  import opened Boxes

  /** The candidates of a fresh cell: every digit 1 .. Size. */
  const Digits: set<int> := {1, 2, 3, 4, 5, 6, 7, 8, 9}

  // ---------------------------------------------------------------------------------------------
  // The grid as a value: line-major, indexed from 0 like the source's array.

  type Grid = seq<seq<set<int>>>

  predicate IsGrid(g: Grid)
  {
    |g| == Size && forall i | 0 <= i < Size :: |g[i]| == Size
  }

  /** The candidate set of box `b`. */
  function At(g: Grid, b: Box): set<int>
    requires IsGrid(g)
  {
    g[b.line - 1][b.column - 1]
  }

  /** The grid with the candidate set of `b` replaced by `s`. */
  function Put(g: Grid, b: Box, s: set<int>): (r: Grid)
    requires IsGrid(g)
    ensures IsGrid(r) && At(r, b) == s
    ensures forall c: Box :: c != b ==> At(r, c) == At(g, c)
  {
    g[b.line - 1 := g[b.line - 1][b.column - 1 := s]]
  }

  /** Every candidate set holds digits only: the board's own operations never put anything else in. */
  ghost predicate WellFormed(g: Grid)
  {
    IsGrid(g) && forall b: Box :: At(g, b) <= Digits
  }

  /** No box that had candidates in `g0` has lost all of them in `g1`. */
  ghost predicate NoNewEmpty(g0: Grid, g1: Grid)
    requires IsGrid(g0) && IsGrid(g1)
  {
    forall b: Box :: At(g0, b) != {} ==> At(g1, b) != {}
  }

  // ---------------------------------------------------------------------------------------------
  // Argument checks shared by SetValueInBox and RemoveValueInBox.

  /** The value is range-checked before the box is null-checked. */
  function CheckValueAndBox(value: int, box: Option<Box>): (r: Option<Error>)
    ensures r.None? <==> 1 <= value <= Size && box.Some?
    ensures !(1 <= value <= Size) ==> r == Some(Argument("value"))
    ensures 1 <= value <= Size && box.None? ==> r == Some(ArgumentNull("box"))
  {
    if value < 1 || value > Size then Some(Argument("value"))
    else if box.None? then Some(ArgumentNull("box"))
    else None
  }

  // ---------------------------------------------------------------------------------------------
  // Geometry: functions of coordinates only.

  /** No box occurs twice. */
  predicate Distinct(bs: seq<Box>)
  {
    forall i, j | 0 <= i < j < |bs| :: bs[i] != bs[j]
  }

  /** The boxes (line, from), (line, from + 1), ..., (line, last): the column loop of the line and square queries. */
  function Segment(line: Coord, from: int, last: int): (r: seq<Box>)
    requires 1 <= from && last <= Size && from <= last + 1
    decreases last - from
    ensures |r| == last - from + 1
    ensures forall k | 0 <= k < |r| :: r[k] == Box(line, from + k)
  {
    if from > last then [] else [Box(line, from)] + Segment(line, from + 1, last)
  }

  /** A segment holds exactly the boxes of its line between its two columns, each once. */
  lemma SegmentMembers(line: Coord, from: int, last: int)
    requires 1 <= from && last <= Size && from <= last + 1
    ensures Distinct(Segment(line, from, last))
    ensures forall c: Box :: c in Segment(line, from, last) <==> c.line == line && from <= c.column <= last
  {
    var r := Segment(line, from, last);
    forall c: Box | c.line == line && from <= c.column <= last ensures c in r {
      assert r[c.column - from] == c;
    }
  }

  /** The boxes (from, column), (from + 1, column), ..., (Size, column): the line loop of the column query. */
  function ColumnFrom(column: Coord, from: int): (r: seq<Box>)
    requires 1 <= from <= Size + 1
    decreases Size - from
    ensures |r| == Size + 1 - from
    ensures forall k | 0 <= k < |r| :: r[k] == Box(from + k, column)
  {
    if from > Size then [] else [Box(from, column)] + ColumnFrom(column, from + 1)
  }

  /** ListBoxesInLine on a box: its line, columns 1 .. 9 in order. */
  function LineOf(b: Box): (r: seq<Box>)
    ensures |r| == Size
    ensures forall k | 0 <= k < Size :: r[k] == Box(b.line, k + 1)
  {
    Segment(b.line, 1, Size)
  }

  /** A line query returns 9 distinct boxes, exactly those of the box's line, the box itself included. */
  lemma LineMembers(b: Box)
    ensures Distinct(LineOf(b)) && b in LineOf(b)
    ensures forall c: Box :: c in LineOf(b) <==> c.line == b.line
  {
    SegmentMembers(b.line, 1, Size);
  }

  /** ListBoxesInColumn on a box: its column, lines 1 .. 9 in order. */
  function ColumnOf(b: Box): (r: seq<Box>)
    ensures |r| == Size
    ensures forall k | 0 <= k < Size :: r[k] == Box(k + 1, b.column)
  {
    ColumnFrom(b.column, 1)
  }

  /** A column query returns 9 distinct boxes, exactly those of the box's column, the box itself included. */
  lemma ColumnMembers(b: Box)
    ensures Distinct(ColumnOf(b)) && b in ColumnOf(b)
    ensures forall c: Box :: c in ColumnOf(b) <==> c.column == b.column
  {
    var r := ColumnOf(b);
    forall i, j | 0 <= i < j < |r| ensures r[i] != r[j] {
      assert r[i].line == i + 1 && r[j].line == j + 1;
    }
    forall c: Box | c in r ensures c.column == b.column {
      var k :| 0 <= k < |r| && r[k] == c;
    }
    forall c: Box | c.column == b.column ensures c in r {
      assert r[c.line - 1] == c;
    }
  }

  /** The first line (or column) of the 3-band holding coordinate `c`. */
  function SquareCorner(c: Coord): (r: Coord)
    ensures r in {1, 4, 7} && r <= c <= r + 2
  {
    ((c - 1) / 3) * 3 + 1
  }

  /** Two boxes lie in the same 3 x 3 square. */
  predicate SameSquare(a: Box, b: Box)
  {
    SquareCorner(a.line) == SquareCorner(b.line) && SquareCorner(a.column) == SquareCorner(b.column)
  }

  /** Coordinates in the band starting at `top` have `top` as their corner. */
  lemma CornerOfBand(c: Coord, top: Coord)
    requires top in {1, 4, 7} && top <= c <= top + 2
    ensures SquareCorner(c) == top
  {
    if top == 1 { assert (c - 1) / 3 == 0; }
    else if top == 4 { assert (c - 1) / 3 == 1; }
    else { assert (c - 1) / 3 == 2; }
  }

  /** `a` comes before `c` in line-major order. */
  predicate Before(a: Box, c: Box)
  {
    a.line < c.line || (a.line == c.line && a.column < c.column)
  }

  /** The boxes are listed in strictly line-major order. */
  predicate LineMajor(bs: seq<Box>)
  {
    forall i, j | 0 <= i < j < |bs| :: Before(bs[i], bs[j])
  }

  /** ListBoxesInSquare on a box: the 9 boxes of its square, line by line from the top-left one (the outer
      loop runs over the lines, the inner one over the columns). */
  function SquareOf(b: Box): (r: seq<Box>)
    ensures |r| == Size
    ensures r[0] == Box(SquareCorner(b.line), SquareCorner(b.column))
    ensures forall k | 0 <= k < Size :: SameSquare(b, r[k])
    ensures LineMajor(r)
  {
    var top, left := SquareCorner(b.line), SquareCorner(b.column);
    seq(Size, k requires 0 <= k < Size => Box(top + k / 3, left + k % 3))
  }

  /** The position in SquareOf of a box of the square whose top-left box is (top, left). */
  lemma SquarePosition(top: Coord, left: Coord, c: Box) returns (k: int)
    requires top <= c.line <= top + 2 && left <= c.column <= left + 2
    ensures 0 <= k < Size && c.line == top + k / 3 && c.column == left + k % 3
  {
    k := 3 * (c.line - top) + (c.column - left);
  }

  /** A square query returns 9 distinct boxes, exactly those of the box's square, the box itself included. */
  lemma SquareMembers(b: Box)
    ensures Distinct(SquareOf(b)) && b in SquareOf(b)
    ensures forall c: Box :: c in SquareOf(b) <==> SameSquare(b, c)
  {
    var top, left := SquareCorner(b.line), SquareCorner(b.column);
    var r := SquareOf(b);
    forall c: Box ensures c in r <==> SameSquare(b, c) {
      if SameSquare(b, c) {
        var k := SquarePosition(top, left, c);
        assert r[k] == c;
      }
    }
    forall i, j | 0 <= i < j < Size ensures r[i] != r[j] {
      assert Before(r[i], r[j]);
    }
  }

  /** The top-left box of the k-th square, counting squares line-major from 0. */
  function SquareCornerBox(k: int): Box
    requires 0 <= k < Size
  {
    Box(3 * (k / 3) + 1, 3 * (k % 3) + 1)
  }

  /** The index, line-major from 0, of the square that holds `b`. */
  function SquareIndex(b: Box): (k: int)
    ensures 0 <= k < Size
  {
    3 * ((b.line - 1) / 3) + (b.column - 1) / 3
  }

  /** ListBoxesInAllSquares: the nine squares, line-major (the outer loop runs over the lines 1, 4, 7 and the
      inner one over the columns 1, 4, 7). */
  function AllSquares(): (r: seq<seq<Box>>)
    ensures |r| == Size
  {
    seq(Size, k requires 0 <= k < Size => SquareOf(SquareCornerBox(k)))
  }

  /** A box shares the square of the k-th corner exactly when k is its square index. */
  lemma CornerBoxIndex(k: int, b: Box)
    requires 0 <= k < Size
    ensures SameSquare(SquareCornerBox(k), b) <==> k == SquareIndex(b)
  {
    var pk, qk := k / 3, k % 3;
    assert SquareCornerBox(k) == Box(3 * pk + 1, 3 * qk + 1) && k == 3 * pk + qk;
    CornerIndex(pk, qk, b);
  }

  /** The same, with the corner given by its band numbers. */
  lemma CornerIndex(pk: int, qk: int, b: Box)
    requires 0 <= pk < 3 && 0 <= qk < 3
    ensures SameSquare(Box(3 * pk + 1, 3 * qk + 1), b) <==> 3 * pk + qk == SquareIndex(b)
  {
    var p := Band(b.line);
    var q := Band(b.column);
    assert SquareIndex(b) == 3 * p + q;
    CornerOfBand(3 * pk + 1, 3 * pk + 1);
    CornerOfBand(3 * qk + 1, 3 * qk + 1);
  }

  /** The band (0, 1 or 2) a coordinate falls in. */
  lemma Band(c: Coord) returns (p: int)
    ensures 0 <= p < 3 && SquareCorner(c) == 3 * p + 1 && (c - 1) / 3 == p
  {
    p := (c - 1) / 3;
  }

  /** Every box lies in exactly one square of ListBoxesInAllSquares, the one at its square index. */
  lemma SquaresPartitionBoard()
    ensures forall b: Box, k | 0 <= k < Size :: b in AllSquares()[k] <==> k == SquareIndex(b)
    ensures forall b: Box :: b in AllSquares()[SquareIndex(b)]
    ensures forall b: Box, k, m | 0 <= k < m < Size :: !(b in AllSquares()[k] && b in AllSquares()[m])
  {
    forall b: Box, k | 0 <= k < Size
      ensures b in AllSquares()[k] <==> k == SquareIndex(b)
    {
      InSquareAt(b, k);
    }
    forall b: Box, k, m | 0 <= k < m < Size
      ensures !(b in AllSquares()[k] && b in AllSquares()[m])
    {
      InSquareAt(b, k);
      InSquareAt(b, m);
    }
  }

  /** A box lies in the k-th square exactly when k is its square index. */
  lemma InSquareAt(b: Box, k: int)
    requires 0 <= k < Size
    ensures b in AllSquares()[k] <==> k == SquareIndex(b)
  {
    SquareMembers(SquareCornerBox(k));
    CornerBoxIndex(k, b);
  }

  /** The boxes of the line, of the column and of the square of `b`, in that order and without removing
      repeats: the set the solver builds before eliminating a value. */
  function Peers(b: Box): (r: seq<Box>)
    ensures |r| == 3 * Size
  {
    LineOf(b) + ColumnOf(b) + SquareOf(b)
  }

  /** The collection holds the box itself and exactly the boxes sharing its line, its column or its square. */
  lemma PeersMembers(b: Box)
    ensures b in Peers(b)
    ensures forall c: Box :: c in Peers(b) <==> c.line == b.line || c.column == b.column || SameSquare(b, c)
  {
    LineMembers(b);
    ColumnMembers(b);
    SquareMembers(b);
  }

  /** ListBoxesInLine with its null check. */
  function ListBoxesInLine(box: Option<Box>): (r: Result<seq<Box>, Error>)
    ensures box.None? ==> r == Failure(ArgumentNull("box"))
    ensures box.Some? ==> r == Success(LineOf(box.value))
  {
    if box.None? then Failure(ArgumentNull("box")) else Success(LineOf(box.value))
  }

  /** ListBoxesInColumn with its null check. */
  function ListBoxesInColumn(box: Option<Box>): (r: Result<seq<Box>, Error>)
    ensures box.None? ==> r == Failure(ArgumentNull("box"))
    ensures box.Some? ==> r == Success(ColumnOf(box.value))
  {
    if box.None? then Failure(ArgumentNull("box")) else Success(ColumnOf(box.value))
  }

  /** ListBoxesInSquare with its null check. */
  function ListBoxesInSquare(box: Option<Box>): (r: Result<seq<Box>, Error>)
    ensures box.None? ==> r == Failure(ArgumentNull("box"))
    ensures box.Some? ==> r == Success(SquareOf(box.value))
  {
    if box.None? then Failure(ArgumentNull("box")) else Success(SquareOf(box.value))
  }

  // ---------------------------------------------------------------------------------------------
  // FilterBoxesContainingValue, on the grid value.

  /** `Where(box => box != null)`. */
  function NonNull(bs: seq<Option<Box>>): (r: seq<Box>)
    ensures |r| <= |bs|
  {
    if bs == [] then []
    else if bs[0].None? then NonNull(bs[1..])
    else [bs[0].value] + NonNull(bs[1..])
  }

  /** The null filter keeps exactly the non-null entries. */
  lemma {:induction false} NonNullMembers(bs: seq<Option<Box>>)
    ensures forall b: Box :: b in NonNull(bs) <==> Some(b) in bs
  {
    if bs != [] {
      NonNullMembers(bs[1..]);
      assert forall o :: o in bs <==> o == bs[0] || o in bs[1..];
    }
  }

  /** A list of boxes seen as a list of non-null references. */
  function Lift(bs: seq<Box>): (r: seq<Option<Box>>)
    ensures |r| == |bs| && forall i | 0 <= i < |bs| :: r[i] == Some(bs[i])
  {
    seq(|bs|, i requires 0 <= i < |bs| => Some(bs[i]))
  }

  lemma {:induction false} NonNullLift(bs: seq<Box>)
    ensures NonNull(Lift(bs)) == bs
  {
    if bs != [] {
      assert Lift(bs)[1..] == Lift(bs[1..]);
      NonNullLift(bs[1..]);
    }
  }

  /** `Where(box => ListValuesInBox(box).Contains(value))`, in input order. */
  function Containing(g: Grid, bs: seq<Box>, value: int): (r: seq<Box>)
    requires IsGrid(g)
    ensures |r| <= |bs|
  {
    if bs == [] then []
    else (if value in At(g, bs[0]) then [bs[0]] else []) + Containing(g, bs[1..], value)
  }

  /** The filter keeps exactly the listed boxes whose candidates include the value. */
  lemma {:induction false} ContainingMembers(g: Grid, bs: seq<Box>, value: int)
    requires IsGrid(g)
    ensures |Containing(g, bs, value)| <= |bs|
    ensures forall b: Box :: b in Containing(g, bs, value) <==> b in bs && value in At(g, b)
  {
    if bs != [] {
      ContainingMembers(g, bs[1..], value);
      assert forall b: Box :: b in bs <==> b == bs[0] || b in bs[1..];
    }
  }

  /** The filter keeps the input order: filtering a concatenation concatenates the filtered parts. */
  lemma {:induction false} ContainingAppend(g: Grid, xs: seq<Box>, ys: seq<Box>, value: int)
    requires IsGrid(g)
    ensures Containing(g, xs + ys, value) == Containing(g, xs, value) + Containing(g, ys, value)
  {
    if xs != [] {
      var head := if value in At(g, xs[0]) then [xs[0]] else [];
      calc {
        Containing(g, xs + ys, value);
      == { assert (xs + ys)[0] == xs[0] && (xs + ys)[1..] == xs[1..] + ys; }
        head + Containing(g, xs[1..] + ys, value);
      == { ContainingAppend(g, xs[1..], ys, value); }
        head + (Containing(g, xs[1..], value) + Containing(g, ys, value));
      ==
        (head + Containing(g, xs[1..], value)) + Containing(g, ys, value);
      ==
        Containing(g, xs, value) + Containing(g, ys, value);
      }
    } else {
      assert xs + ys == ys;
    }
  }

  /** No box holds a value outside 1 .. Size, so filtering on one keeps nothing. */
  lemma {:induction false} ContainingOutOfRange(g: Grid, bs: seq<Box>, value: int)
    requires WellFormed(g) && !(1 <= value <= Size)
    ensures Containing(g, bs, value) == []
  {
    if bs != [] {
      assert At(g, bs[0]) <= Digits;
      ContainingOutOfRange(g, bs[1..], value);
    }
  }

  /** In a list without repeats, `c` is the one box whose candidates include `value` exactly when the
      filter returns `[c]`. */
  lemma {:induction false} ContainingSingle(g: Grid, bs: seq<Box>, value: int, c: Box)
    requires IsGrid(g) && Distinct(bs)
    ensures Containing(g, bs, value) == [c] <==>
      c in bs && value in At(g, c) && forall b | b in bs && b != c :: value !in At(g, b)
  {
    if bs != [] {
      var rest := bs[1..];
      assert Distinct(rest);
      assert bs[0] !in rest by {
        forall j | 0 <= j < |rest| ensures rest[j] != bs[0] { assert bs[1 + j] == rest[j]; }
      }
      assert forall b: Box :: b in bs <==> b == bs[0] || b in rest;
      ContainingSingle(g, rest, value, c);
      ContainingMembers(g, rest, value);
      var tail := Containing(g, rest, value);
      assert tail == [] <==> forall b | b in rest :: value !in At(g, b) by {
        if tail != [] { assert tail[0] in tail; }
      }
      if value in At(g, bs[0]) {
        assert Containing(g, bs, value) == [bs[0]] + tail;
      } else {
        assert Containing(g, bs, value) == tail;
      }
    }
  }

  // ---------------------------------------------------------------------------------------------
  // The board object.

  /** The mutable board: a Size x Size array of candidate sets. `grid` is the same content as a value,
      for use in specifications. */
  class Board {
    const cells: array2<set<int>>
    ghost var grid: Grid

    ghost predicate Valid()
      reads this, cells
    {
      && cells.Length0 == Size && cells.Length1 == Size
      && WellFormed(grid)
      && forall i, j | 0 <= i < Size && 0 <= j < Size :: cells[i, j] == grid[i][j]
    }

    /** Board() with InitializeBoard: every box starts with all the digits. */
    constructor ()
      ensures Valid() && fresh(cells)
      ensures forall b: Box :: At(grid, b) == Digits
    {
      cells := new set<int>[Size, Size];
      new;
      var values: seq<int> := [];
      for value := 1 to Size + 1
        invariant |values| == value - 1
        invariant forall k | 0 <= k < |values| :: values[k] == k + 1
      {
        values := values + [value];
      }
      var candidates := set v | v in values;
      assert candidates == Digits by {
        forall d | d in Digits ensures d in candidates { assert values[d - 1] == d; }
      }
      for lineIdx := 0 to Size
        invariant forall i, j | 0 <= i < lineIdx && 0 <= j < Size :: cells[i, j] == Digits
      {
        for columnIdx := 0 to Size
          invariant forall i, j | 0 <= i < lineIdx && 0 <= j < Size :: cells[i, j] == Digits
          invariant forall j | 0 <= j < columnIdx :: cells[lineIdx, j] == Digits
        {
          cells[lineIdx, columnIdx] := candidates;
        }
      }
      grid := seq(Size, i => seq(Size, j => Digits));
    }

    /** The candidate set of a box; a null box throws. */
    function ListValuesInBox(box: Option<Box>): (r: Result<set<int>, Error>)
      reads this, cells
      requires Valid()
      ensures box.None? ==> r == Failure(ArgumentNull("box"))
      ensures box.Some? ==> r == Success(At(grid, box.value)) && r.value <= Digits
    {
      if box.None? then Failure(ArgumentNull("box"))
      else Success(cells[box.value.line - 1, box.value.column - 1])
    }

    /** Replaces the candidates of the box with the single value, whatever they were. */
    method SetValueInBox(value: int, box: Option<Box>) returns (err: Option<Error>)
      requires Valid()
      modifies this, cells
      ensures Valid()
      ensures err == CheckValueAndBox(value, box)
      ensures err.None? ==> grid == Put(old(grid), box.value, {value})
      ensures err.Some? ==> grid == old(grid)
    {
      if value < 1 || value > Size {
        return Some(Argument("value"));
      }
      if box.None? {
        return Some(ArgumentNull("box"));
      }
      var b := box.value;
      cells[b.line - 1, b.column - 1] := {value};
      grid := Put(grid, b, {value});
      err := None;
    }

    /** Removes one candidate from the box. There is no size guard: a singleton can become empty. */
    method RemoveValueInBox(value: int, box: Option<Box>) returns (err: Option<Error>)
      requires Valid()
      modifies this, cells
      ensures Valid()
      ensures err == CheckValueAndBox(value, box)
      ensures err.None? ==> grid == Put(old(grid), box.value, At(old(grid), box.value) - {value})
      ensures err.Some? ==> grid == old(grid)
    {
      if value < 1 || value > Size {
        return Some(Argument("value"));
      }
      if box.None? {
        return Some(ArgumentNull("box"));
      }
      var b := box.value;
      cells[b.line - 1, b.column - 1] := cells[b.line - 1, b.column - 1] - {value};
      grid := Put(grid, b, At(grid, b) - {value});
      err := None;
    }

    /** The LINQ pipeline of FilterBoxesContainingValue, evaluated on the array. */
    function KeepContaining(bs: seq<Option<Box>>, value: int): (r: seq<Box>)
      reads this, cells
      requires Valid()
      ensures r == Containing(grid, NonNull(bs), value)
    {
      if bs == [] then []
      else if bs[0].None? then KeepContaining(bs[1..], value)
      else if value in ListValuesInBox(bs[0]).value then [bs[0].value] + KeepContaining(bs[1..], value)
      else KeepContaining(bs[1..], value)
    }

    /** The listed non-null boxes whose candidates include the value, in input order; a null list throws. */
    function FilterBoxesContainingValue(boxes: Option<seq<Option<Box>>>, value: int): (r: Result<seq<Box>, Error>)
      reads this, cells
      requires Valid()
      ensures boxes.None? ==> r == Failure(ArgumentNull("boxes"))
      ensures boxes.Some? ==> r == Success(Containing(grid, NonNull(boxes.value), value))
    {
      if boxes.None? then Failure(ArgumentNull("boxes")) else Success(KeepContaining(boxes.value, value))
    }
  }
}
