/** Failure-carrying datatypes used throughout the model.
    - Option<T> stands for a value that may be absent (a missing dict key, a
      JavaScript `undefined`, a Python `None`).
    - Result<T, E> stands for a call into an external service that either
      returns a value or raises; E is the text of the raised exception.
 */
module Results {

  datatype Option<+T> = None | Some(value: T) {

    /** The value, or `default` when absent (Python's `dict.get(key, default)`). */
    function GetOr(default: T): T {
      match this
      case Some(v) => v
      case None => default
    }
  }

  datatype Result<+T, +E> = Success(value: T) | Failure(error: E)
}
