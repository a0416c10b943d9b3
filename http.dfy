/** The JSON error responses the middlewares send, and the status codes they use. */
module Http {
  import opened Wrappers

  const BadRequest := 400
  const Unauthorized := 401
  const Forbidden := 403
  const NotFound := 404
  const Conflict := 409
  const TooManyRequests := 429
  const InternalServerError := 500

  /** One entry of `details`: the offending field's path, dot-joined, and its message. */
  datatype FieldError = FieldError(field: string, message: string)

  /** The `error` object of a response body; `details` is present only for validation errors. */
  datatype ErrorBody = ErrorBody(message: string, statusCode: int, details: Option<seq<FieldError>>,
                                 timestamp: string, path: string)

  /** A response: the HTTP status and the body `{ success, error }`. */
  datatype ErrorResponse = ErrorResponse(status: int, success: bool, error: ErrorBody)

  /** `res.status(status).json({ success: false, error: { message, statusCode: status, ... } })`. */
  function Reject(status: int, message: string, details: Option<seq<FieldError>>, timestamp: string, path: string): (r: ErrorResponse)
    ensures r.status == status && !r.success && r.error.statusCode == status
    ensures r.error.message == message && r.error.details == details && r.error.path == path
  {
    ErrorResponse(status, false, ErrorBody(message, status, details, timestamp, path))
  }
}
