/** An optional value, usable with `:-`. */
module Wrappers {

  datatype Option<+T> = None | Some(value: T) {
    predicate IsFailure() {
      None?
    }

    function PropagateFailure<U>(): Option<U>
      requires None?
    {
      None
    }

    function Extract(): T
      requires Some?
    {
      value
    }
  }

  /** A count, with none taken for zero. */
  function OrZero(count: Option<int>): int {
    if count.Some? then count.value else 0
  }
}
