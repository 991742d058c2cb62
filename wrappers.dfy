/** Plain option and result datatypes shared by the whole model, and the HTTP error
    that the endpoints raise (FastAPI's HTTPException: a status code and a detail). */
module Wrappers {

  datatype Option<+T> = None | Some(value: T) {
    /** Python's `x or default` for an optional value. */
    function GetOr(default: T): T {
      match this
      case Some(v) => v
      case None => default
    }
  }

  datatype Result<+R, +E> = Success(value: R) | Failure(error: E)

  /** HTTPException(status_code=status, detail=detail). */
  datatype HttpError = HttpError(status: int, detail: string)
}
