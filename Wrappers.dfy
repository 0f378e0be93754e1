/** Option and Result: null references and thrown exceptions of the original
    program are modelled as values of these types. */
module Wrappers {

  /** A possibly-null reference or an empty `Nullable<T>`. */
  datatype Option<+T> = None | Some(value: T)

  /** The value of an expression that either completes or throws `error`. */
  datatype Result<+T, +E> = Success(value: T) | Failure(error: E)
}
