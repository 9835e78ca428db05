/** Failure-compatible wrappers used throughout the model.

    C# references that may be `null` become `Option`, and the exceptions the
    library throws become the `Failure` arm of `Result`, carrying an `Error`
    that names the exception. */
module Wrappers {

  /** A possibly-null reference: `None` is C#'s `null`. */
  datatype Option<+T> = None | Some(value: T)

  /** The exceptions the modelled code can raise. */
  datatype Error =
    | ArgumentNull(paramName: string)   // System.ArgumentNullException
    | NullReference                     // dereferencing a null handler
    | ArgumentOutOfRange                // List<T> indexed past its end
    | DeserializeFailed(reason: string) // raised by a foreign deserializer

  /** Either a value or the exception raised while computing it. */
  datatype Result<+T> = Success(value: T) | Failure(error: Error) {
    predicate IsFailure() {
      Failure?
    }

    function PropagateFailure<U>(): Result<U>
      requires Failure?
    {
      Failure(error)
    }

    function Extract(): T
      requires Success?
    {
      value
    }
  }
}
