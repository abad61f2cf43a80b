/** The HTTP-facing error shape shared by every handler. */
module Http {
  import opened Wrappers

  /** An HTTPException: status code, detail message and extra response headers. */
  datatype HttpError = HttpError(status: int, detail: string, headers: map<string, string>)

  /** The challenge header attached to every 401 the application raises. */
  const BEARER_CHALLENGE: map<string, string> := map["WWW-Authenticate" := "Bearer"]

  /** What an uncaught exception inside a handler turns into. */
  const INTERNAL_ERROR := HttpError(500, "Internal Server Error", map[])

  /** The get/update/delete handler pattern: a missing row becomes a 404 with the handler's
      message, a found row is returned as it is. */
  function NotFoundOr<T>(found: Option<T>, detail: string): (r: Result<T, HttpError>)
    ensures r.Failure? <==> found.None?
    ensures r.Success? ==> r.value == found.value
    ensures r.Failure? ==> r.error == HttpError(404, detail, map[])
  {
    match found
    case None => Failure(HttpError(404, detail, map[]))
    case Some(row) => Success(row)
  }
}
