/** Failure-carrying results for the operations that throw in the Java source. */
module Wrappers {

  /** The Java exceptions the modelled code can raise. */
  datatype Failure =
    | IllegalState        // java.lang.IllegalStateException
    | IllegalArgument     // java.lang.IllegalArgumentException
    | NotEnoughPoints     // the triangulation library's NotEnoughPointsException
    | NumberFormat        // java.lang.NumberFormatException
    | NotInitialized      // the application's NotInitializedException
    | IndexOutOfBounds    // java.lang.IndexOutOfBoundsException
    | Arithmetic          // java.lang.ArithmeticException (integer division by zero)
    | NullReference       // java.lang.NullPointerException
    | NegativeArraySize   // java.lang.NegativeArraySizeException

  /** A nullable reference or an absent map entry. */
  datatype Option<+T> = None | Some(value: T)

  /** A returned value, or the exception thrown instead. */
  datatype Result<+T> = Ok(value: T) | Err(error: Failure)

  /** The outcome of a `void` method that may throw. */
  datatype Outcome = Pass | Fail(error: Failure)
}
