/** The exceptions the generator's operations can throw, and a result type that
    carries either the returned value or the exception. */
module Exceptions {

  datatype JavaException =
    | IllegalArgument(message: string)   // IllegalArgumentException with its message
    | Arithmetic                         // ArithmeticException: "/ by zero"
    | NegativeArraySize                  // NegativeArraySizeException
    | ArrayIndexOutOfBounds              // ArrayIndexOutOfBoundsException

  datatype Result<T> = Ok(value: T) | Err(error: JavaException)
}
