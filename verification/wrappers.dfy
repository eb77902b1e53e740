/** Failure-carrying datatypes shared by the pool model.

    The C# code has no error returns on these paths: a lookup through a
    null list or an array index out of range throws. The model reports
    those throws as `Failure` values instead of ruling them out. */
module Wrappers {

  datatype Option<+T> = None | Some(value: T)

  /** The two runtime exceptions the modelled code can raise. */
  datatype Fault =
    | NullReference     // a method called on a list that was never allocated
    | IndexOutOfRange   // an index past the end of the per-kind array

  datatype Result<+T> = Success(value: T) | Failure(fault: Fault)
}
