/**
  * What a route handler answers: a status code with a JSON body, or a
  * status code with {error: message}. A statement that throws inside a
  * handler reaches Express's default error handler, which answers 500.
  */
module Http {

  datatype Reply<T> = Ok(status: int, body: T) | Err(status: int, error: string)

  /** The answer of the default error handler to a thrown database error. */
  const InternalError := "Internal Server Error"
}
