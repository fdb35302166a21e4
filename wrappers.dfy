/** Option and error-carrying results shared by the whole model. */
module Wrappers {

  /** A nullable value: a column that may hold NULL, or a query's `.first()`. */
  datatype Option<+T> = None | Some(value: T) {
    function GetOr(default: T): T {
      match this
      case Some(v) => v
      case None => default
    }
  }

  /** What a handler raises: an HTTP error with its status code and detail, or a
      plain exception, which the web framework answers with status 500. */
  datatype Error = Http(status: int, detail: string) | Raised(message: string)

  datatype Result<+T> = Ok(value: T) | Err(error: Error)
}
