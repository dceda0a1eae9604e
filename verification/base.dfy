/** Small value types shared by the whole model: Python's `None`-or-value
    and an error-or-value result for the branches where the source raises. */
module Base {

  /** A value that may be absent; `None` plays the part of Python's `None`. */
  datatype Option<T> = None | Some(value: T)

  /** Either a value or the error the source would raise instead. */
  datatype Result<T, E> = Success(value: T) | Failure(error: E)

  function Max(a: int, b: int): int
  {
    if a < b then b else a
  }

  function Min(a: int, b: int): int
  {
    if a < b then a else b
  }
}
