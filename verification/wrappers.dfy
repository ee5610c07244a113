/**
  Nullable values and exception-or-value outcomes, the two shapes the C# code
  uses everywhere: `T?` becomes `Option<T>`, and "returns a value or throws"
  becomes `Result<T, E>`.
 */
module Wrappers {

  /** A C# nullable reference: `None` is `null`. */
  datatype Option<+T> = None | Some(value: T)

  /** The outcome of a call that either returns normally or throws. */
  datatype Result<+T, +E> = Success(value: T) | Failure(error: E)

  /**
    The observable effect of one call into a collaborator: the requests it
    issued, in order, and what it returned or threw.
   */
  datatype Traced<+C, +T> = Traced(calls: seq<C>, outcome: T)
}
