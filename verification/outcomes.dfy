/** Outcome, option and result datatypes shared by the pages. */
module Outcomes {

  /** The settled value of one call to the hosted language model. The model's
      content is never inspected: a call either resolves with a value or rejects. */
  datatype Outcome<+T> = Success(result: T) | Failure

  /** A value that may be absent: TypeScript's `T | undefined` or `T | null`. */
  datatype Option<+T> = None | Some(value: T)

  /** A validated value, or the list of what failed validation. */
  datatype Result<+T, +E> = Ok(value: T) | Err(error: E)
}
