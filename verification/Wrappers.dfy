/** Values that may be absent: what `dict.get` returns, and what a validator that raises returns. */
module Wrappers {
  datatype Option<+T> = None | Some(value: T) {

    predicate IsFailure() {
      None?
    }

    /** Absence does not depend on the type of what is absent. */
    function PropagateFailure<U>(): Option<U>
      requires None?
    {
      None
    }

    function Extract(): T
      requires Some?
    {
      value
    }
  }

  /** The value, or `default` when there is none. */
  function GetOr<T>(o: Option<T>, default: T): T {
    if o.Some? then o.value else default
  }
}
