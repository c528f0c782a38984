/** Results of Go calls: a lookup that may miss, and a call that may panic. */
module Outcomes {

  /** The `(value, ok)` pair of a Go lookup. */
  datatype Option<+T> = None | Some(value: T)

  /** A Go call either returns its value or panics (a runtime type assertion,
      an index out of range, an explicit `panic`). */
  datatype Outcome<+T> = Done(value: T) | Panics(reason: string)
}
