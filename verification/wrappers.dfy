/** Failure-compatible option type used where the C code either produces a
    value or stops (a failed `assert`, an exhausted call stack, a random
    search that has not finished yet). */
module Wrappers {

  datatype Option<+T> = None | Some(value: T) {

    predicate IsFailure() {
      None?
    }

    function PropagateFailure<U>(): Option<U>
      requires None?
    {
      None
    }

    function Extract(): T
      requires Some?
    {
      value
    }
  }
}
