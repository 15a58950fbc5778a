/** The two failure-carrying shapes the service uses: `mo.Option` values and
    Go's `(value, error)` returns. */
module Outcomes {

  /** An optional value; `None` stands for Go's absent `mo.Option` or a nil slice. */
  datatype Option<+T> = None | Some(value: T) {

    /** The value, or `default` when absent (`mo.Option.OrElse`). */
    function GetOr(default: T): T {
      match this
      case Some(v) => v
      case None => default
    }
  }

  /** Either a value or an error, for Go functions returning `(T, error)`. */
  datatype Result<+T, +E> = Ok(value: T) | Err(error: E)
}
