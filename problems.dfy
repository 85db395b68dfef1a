/**
 * `ProblemDetailError` of the lambda helpers: an HTTP problem (RFC 7807)
 * that a handler or middleware throws and the `problemResponse` middleware
 * turns into the response.
 */
module Problems {
  import opened Wrappers

  datatype ProblemDetail = ProblemDetail(status: nat, title: string, detail: Option<string>)

  /** `HttpStatusCode.BAD_REQUEST`. */
  const StatusBadRequest: nat := 400
  const StatusNotFound: nat := 404
  const StatusOk: nat := 200
}
