/** Success and failure values for the table lookups, which have no entry
    outside their keys, and for the environment step, which fails when never
    reset or given such an action. */
module Outcomes {

  /** A lookup that either finds its value or finds no entry. */
  datatype Option<+T> = None | Some(value: T)

  /** A step that either completes with a value or stops with an error. */
  datatype Result<+T, +E> = Ok(value: T) | Err(error: E)
}
