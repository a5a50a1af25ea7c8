/** Optional values and success-or-error results, used where the source has
    `undefined`/`null` or reports a failure instead of returning a value. */
module Results {

  datatype Option<+T> = None | Some(value: T)

  datatype Result<+T, +E> = Success(value: T) | Failure(error: E)
}
