/** The two ways a route handler answers: with a value, or with one of its error responses. */
module Outcomes {

  /** A value that may be absent (a lookup that finds nothing, an omitted request field). */
  datatype Option<+T> = None | Some(value: T)

  /** A handler's outcome: the success payload, or the error it responds with. */
  datatype Result<+T, +E> = Success(value: T) | Failure(error: E)
}
