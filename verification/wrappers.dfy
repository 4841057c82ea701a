/** Failure-compatible result types shared by the partitioner and floorplanner models. */
module Wrappers {

  /** The conventional Some/None datatype, used where the source has a nullable pointer. */
  datatype Option<+T> = None | Some(value: T) {
    predicate IsFailure() {
      None?
    }

    function PropagateFailure<U>(): Option<U>
      requires None?
    {
      None
    }

    function Extract(): T
      requires Some?
    {
      value
    }
  }

  /** A value, or the reason the source would have stopped the process. */
  datatype Result<+T, +E> = Ok(value: T) | Fatal(error: E) {
    predicate IsFailure() {
      Fatal?
    }

    function PropagateFailure<U>(): Result<U, E>
      requires Fatal?
    {
      Fatal(error)
    }

    function Extract(): T
      requires Ok?
    {
      value
    }
  }
}
