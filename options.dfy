/** Small value wrappers shared by the whole model. */
module Options {

  /** A value that may be absent (`undefined` / `null` in the source). */
  datatype Option<+T> = None | Some(value: T) {
    /** The `x ?? d` of the source: the value when present, else the default. */
    function GetOr(default: T): T {
      match this
      case Some(v) => v
      case None => default
    }
  }

  /** The outcome of an operation that the source lets throw an `Error`. */
  datatype Outcome = Pass | Fail(message: string)

  /** A point in time supplied by the environment (`new Date()`); never inspected. */
  datatype Timestamp = Timestamp(ticks: int)
}
