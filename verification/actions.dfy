/** Action.cs: a pending assignment "this box holds this digit". */
module Actions {
  import opened Wrappers
  import opened Boxes

  /** A candidate digit, 1 .. Board.Size. */
  type Digit = d: int | 1 <= d <= Size witness 1

  /** An immutable (box, value) pair; the type of `value` records the constructor's range check,
      so every Action that exists has a value in 1 .. Size. */
  datatype Action = Action(box: Box, value: Digit)

  /** `new Action(box, value)`: a null box is reported before an out-of-range value. */
  function NewAction(box: Option<Box>, value: int): (r: Result<Action, Error>)
    ensures r.Success? <==> box.Some? && 1 <= value <= Size
    ensures r.Success? ==> r.value.box == box.value && r.value.value == value
    ensures box.None? ==> r == Failure(ArgumentNull("box"))
    ensures box.Some? && !(1 <= value <= Size) ==> r == Failure(Argument("value"))
  {
    if box.None? then Failure(ArgumentNull("box"))
    else if value < 1 || value > Size then Failure(Argument("value"))
    else Success(Action(box.value, value))
  }
}
