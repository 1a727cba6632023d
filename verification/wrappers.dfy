/** Failure-carrying values shared by every module of the model.

    The TypeScript sources signal absence with `null`/`undefined` and failures
    with thrown `Error`s whose message is the observable part; `Option` and
    `Result` are their value-level counterparts. */
module Wrappers {

  /** A value that may be absent (`null`/`undefined` in the source). */
  datatype Option<+T> = None | Some(value: T) {

    /** The carried value, or `default` when absent: the `??` operator. */
    function GetOr(default: T): T
    {
      match this
      case Some(v) => v
      case None => default
    }
  }

  /** The outcome of an operation that may throw; `error` is the message of
      the thrown `Error`. */
  datatype Result<+R> = Success(value: R) | Failure(error: string) {

    predicate IsFailure()
    {
      Failure?
    }

    function PropagateFailure<U>(): Result<U>
      requires Failure?
    {
      Failure(error)
    }

    function Extract(): R
      requires Success?
    {
      value
    }
  }

  /** JavaScript truthiness of an optional string: present and non-empty. */
  predicate Truthy(s: Option<string>)
  {
    s.Some? && s.value != ""
  }
}
