/** Failure-carrying values shared by the rest of the model: a Go pair
    `(value, error)` becomes a `Result`, an optional value an `Option`. */
module Wrappers {

  datatype Option<+T> = None | Some(value: T)

  /** `Success(v)` is a call that returned `err == nil`; `Failure(e)` carries
      the text that `%v` prints for the non-nil error. */
  datatype Result<+T, +E> = Success(value: T) | Failure(error: E)
}
