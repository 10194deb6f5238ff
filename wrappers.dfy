/** Small result types shared by the model. */
module Wrappers {

  datatype Option<+T> = None | Some(value: T)

  /** The outcome of a step of the Go code: it finishes with a value, or the Go
      runtime panics (a failed type assertion or an out-of-range slice), which
      aborts the whole decode. */
  datatype Outcome<+T> = Ok(value: T) | Panic
}
