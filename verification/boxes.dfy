/** Box.cs: a cell coordinate validated to [1, Size] x [1, Size]. */
module Boxes {
  import opened Wrappers

  /** Board.Size: the side of the board, the number of digits, the largest coordinate. */
  const Size := 9

  /** A line or a column index, counted from 1. */
  type Coord = i: int | 1 <= i <= Size witness 1

  /** An immutable coordinate. The constructor's checks are `NewBox`; the type of the fields records
      that every Box that exists has passed them, and `Line`/`Column` are read-only by construction. */
  datatype Box = Box(line: Coord, column: Coord)

  /** `new Box(line, column)`: the line is checked before the column. */
  function NewBox(line: int, column: int): (r: Result<Box, Error>)
    ensures r.Success? <==> 1 <= line <= Size && 1 <= column <= Size
    ensures r.Success? ==> r.value.line == line && r.value.column == column
    ensures !(1 <= line <= Size) ==> r == Failure(Argument("line"))
    ensures 1 <= line <= Size && !(1 <= column <= Size) ==> r == Failure(Argument("column"))
  {
    if line < 1 || Size < line then Failure(Argument("line"))
    else if column < 1 || Size < column then Failure(Argument("column"))
    else Success(Box(line, column))
  }

  /** `GetHashCode`: the runtime's combiner applied to the two coordinates. The combiner is a parameter
      because its values are randomised per process. */
  function HashCode(b: Box, combine: (int, int) -> int): int
  {
    combine(b.line, b.column)
  }

  /** The hash depends on the coordinates only: boxes with the same line and column hash alike, whatever
      the combiner. */
  lemma HashOfCoordinates(a: Box, b: Box, combine: (int, int) -> int)
    requires a.line == b.line && a.column == b.column
    ensures HashCode(a, combine) == HashCode(b, combine)
  {
  }
}
