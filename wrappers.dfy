/** Failure-carrying values shared by every module of the model. */
module Wrappers {

  datatype Option<+T> = None | Some(value: T)

  /** The outcome of an operation that may be refused: a value, or the error it raised. */
  datatype Result<+T, +E> = Ok(value: T) | Err(error: E)

  /** An HTTPException as a handler raises it: the status code and the detail text. */
  datatype HttpError = HttpError(code: int, detail: string)

  const BAD_REQUEST := 400
  const UNAUTHORIZED := 401
  const NOT_FOUND := 404
  const UNPROCESSABLE := 422
  const INTERNAL_ERROR := 500

  /** An exception the handler does not catch: FastAPI answers 500. */
  const ServerError := HttpError(INTERNAL_ERROR, "Internal Server Error")

  /** The range of an SQLite INTEGER, a signed 64-bit value. */
  const SQLITE_INTEGER_MIN := -0x8000_0000_0000_0000
  const SQLITE_INTEGER_MAX := 0x7FFF_FFFF_FFFF_FFFF

  /** The sqlite3 driver binds a Python int as an INTEGER; outside 64 bits it raises OverflowError. */
  predicate FitsInteger(n: int) {
    SQLITE_INTEGER_MIN <= n <= SQLITE_INTEGER_MAX
  }
}
