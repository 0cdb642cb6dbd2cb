/** Failure-carrying results. `None` stands for the NULL pointer that the encoders and decoders
    return when a buffer is too short or a value is malformed. */
module Wrappers {

  datatype Option<+T> = None | Some(value: T) {
    predicate IsFailure() {
      None?
    }

    function PropagateFailure<U>(): Option<U>
      requires None?
    {
      None
    }

    function Extract(): T
      requires Some?
    {
      value
    }
  }
}
