/** Failure-compatible option type shared by every module of the model. */
module Wrappers {

  /** `None` stands for the source's `nullopt`, `nil` or `ok == false`. */
  datatype Option<+T> = None | Some(value: T) {

    predicate IsFailure() {
      None?
    }

    function PropagateFailure<U>(): Option<U>
      requires None?
    {
      None
    }

    function Extract(): T
      requires Some?
    {
      value
    }

    /** The value, or `default` when absent (Go's `v, _ := ...` zero value idiom). */
    function GetOr(default: T): T {
      match this
      case Some(v) => v
      case None => default
    }
  }
}
