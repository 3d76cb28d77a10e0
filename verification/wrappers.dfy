/** The two failure-carrying datatypes the model uses: an optional value
    (SQL NULL, JavaScript null) and a value-or-error result (a thrown error). */
module Wrappers {

  /** Absent or present; `None` stands for null. */
  datatype Option<+T> = None | Some(value: T)

  /** A returned value, or the error the call threw. */
  datatype Result<+R, +E> = Success(value: R) | Failure(error: E)
}
