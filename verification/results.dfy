/** Failure-carrying datatypes shared by the catalog and the adoption model.
    `Option` stands for the service's `T | null` returns, `Result` for an
    operation that either yields a value or rejects with an error, and
    `Outcome` for a `Promise<void>` that either resolves or rejects. */
module Results {

  datatype Option<T> = None | Some(value: T) {
    /** The value, or `default` when absent (a schema default, say). */
    function GetOr(default: T): T {
      match this
      case Some(v) => v
      case None => default
    }
  }

  datatype Result<T, E> = Success(value: T) | Failure(error: E)

  datatype Outcome<E> = Pass | Fail(error: E)
}
