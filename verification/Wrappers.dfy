/** Failure-compatible results used in place of Go's nil values and error returns. */
module Wrappers {

  datatype Option<+T> = None | Some(value: T)

  datatype Result<+T, +E> = Success(value: T) | Failure(error: E)

  /** `got` is `want` if `ok` holds; if it does not, `got` fails wherever `want` succeeds. */
  ghost predicate Agrees<T>(ok: bool, got: Option<T>, want: Option<T>) {
    (ok ==> got == want) && (!ok && want.Some? ==> got.None?)
  }
}
