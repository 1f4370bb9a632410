/** The script's two kinds of outcome: a value that may be absent (`find`
    returning `nil`) and a computation that may `raise`. */
module Results {

  /** A value that may be absent, as Ruby's `nil`. */
  datatype Option<+T> = None | Some(value: T)

  /** Either a value or the error a `raise` would have carried. */
  datatype Result<+T, +E> = Success(value: T) | Failure(error: E)
}
