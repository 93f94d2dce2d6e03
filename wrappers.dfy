/** Small outcome datatypes shared by the Scope and ValuePart models. */
module Wrappers {

  /**
   * A value that may be absent. `None` means there is nothing: no entry for
   * a key, no first entry, no name given. A value that is present is `Some`,
   * even when that value is itself Ruby's `nil`.
   */
  datatype Option<+T> = None | Some(value: T)

  /** The value an operation returns, or the exception it raises. */
  datatype Result<+R, +E> = Success(value: R) | Failure(error: E)

  /**
   * What a re-scoping operation hands back: the receiver itself (`Same`,
   * Ruby's `self`, no new object is built) or a freshly built object.
   */
  datatype Rescoped<+T> = Same | New(value: T)

  /** The object a caller of a re-scoping operation ends up holding. */
  function Resolve<T>(r: Rescoped<T>, self: T): (t: T)
    ensures r.Same? ==> t == self
    ensures r.New? ==> t == r.value
  {
    match r
    case Same => self
    case New(v) => v
  }
}
