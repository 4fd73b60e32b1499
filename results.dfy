/** The outcome of an operation that can fail the way a Python call raises
    an exception: the value it returns, or the message of the exception. */
module Results {
  datatype Result<T> = Success(value: T) | Failure(error: string)
}
