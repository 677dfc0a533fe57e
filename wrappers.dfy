/** The error path of an operation that raises in the source. */
module Wrappers {
  /** Either the value an operation returns or the message of the exception it raises. */
  datatype Result<T> = Success(value: T) | Failure(error: string)
}
