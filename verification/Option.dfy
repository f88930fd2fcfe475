/** A result that may be absent, and a result that may be an exception instead. */
module Options {
  datatype Option<+T> = None | Some(value: T)

  datatype Result<+T> = Thrown | Success(value: T) {
    predicate IsFailure() { Thrown? }

    function PropagateFailure<U>(): Result<U>
      requires IsFailure()
    {
      Thrown
    }

    function Extract(): T
      requires !IsFailure()
    {
      value
    }
  }
}
