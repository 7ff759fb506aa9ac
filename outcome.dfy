/** Optional values and the failures that abort a scraping run. */
module Outcome {

  /** A value that may be absent; Python's `None` is `None` here. */
  datatype Option<+T> = None | Some(value: T)

  /** The two kinds of exception the parsing code can raise. Neither is
      caught anywhere, so either one ends the whole run. */
  datatype ScrapeError =
    | ValueError(literal: seq<char>)   // `int(...)` given text that is not a decimal literal
    | IndexError                       // `[0]` taken of the empty result of `str.split()`

  /** Success with a value, or the exception that was raised. */
  datatype Result<+R> = Success(value: R) | Failure(error: ScrapeError) {

    predicate IsFailure() {
      Failure?
    }

    function PropagateFailure<U>(): Result<U>
      requires Failure?
    {
      Failure(error)
    }

    function Extract(): R
      requires Success?
    {
      value
    }
  }
}
