/**
 * The response envelope shared by every v1 model operation: a numeric
 * result code (0 on success) and an optional payload.
 */
module Results {
  datatype Option<+T> = None | Some(value: T)

  /** `Result(code=0, data=...)`: code 0 means success, any other value names the failing check. */
  datatype Result<+T> = Result(code: int, data: Option<T>)
  {
    predicate IsSuccess() { data.Some? }
  }

  /**
   * How a Python call ends: it returns a value, or an exception escapes it
   * (named by its class).
   */
  datatype Outcome<+T> = Returned(value: T) | Raised(exception: string)

  /** A successful result carrying `value`. */
  function Ok<T>(value: T): (r: Result<T>)
    ensures r.code == 0 && r.data == Some(value)
  {
    Result(0, Some(value))
  }

  /** A failed result carrying `code` and no data. */
  function Fail<T>(code: int): (r: Result<T>)
    ensures r.code == code && r.data.None?
  {
    Result(code, None)
  }
}
