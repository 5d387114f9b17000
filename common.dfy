/** Shared value types: optional values, the endpoints' HTTP errors and results. */
module Common {

  datatype Option<+T> = None | Some(value: T)

  /** An `HTTPException` as the FastAPI endpoints raise it: status code and detail text. */
  datatype HttpError = HttpError(status: int, detail: string)

  /** The outcome of an endpoint: its response value, or the exception it raises. */
  datatype Result<+T> = Ok(value: T) | Err(error: HttpError)

  /** What FastAPI answers for an exception the handler does not catch (KeyError, ValueError). */
  const InternalError := HttpError(500, "Internal Server Error")
}
