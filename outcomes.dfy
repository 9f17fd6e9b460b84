/** Failures the scraper can raise, and a result type that carries them instead of exceptions. */
module Outcomes {

  /** The exceptions that reach the caller of the scraper. */
  datatype ScrapeError =
    | LoginError(message: string)             // UriLoginException
    | NumberFormatError(input: string)        // String.toInt on a non-numeral
    | IndexOutOfBounds(index: int, size: nat) // a list indexed past its end
    | NetworkError(url: string)               // anything the HTTP library throws

  /** A Kotlin nullable value. */
  datatype Option<+T> = None | Some(value: T)

  datatype Result<+T> = Success(value: T) | Failure(error: ScrapeError) {
    predicate IsFailure() { Failure? }

    function PropagateFailure<U>(): Result<U>
      requires Failure?
    {
      Failure(error)
    }

    function Extract(): T
      requires Success?
    {
      value
    }
  }
}
