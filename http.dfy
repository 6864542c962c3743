/** The HTTP status codes the handlers and middleware answer with, and the
    outcome of one middleware stage. */
module Http {
  datatype StatusCode =
    | Ok200
    | Created201
    | BadRequest400
    | Unauthorized401
    | Forbidden403
    | NotFound404
    | ServerError500

  /** A handler's answer: a success status with its payload, or an error status. */
  datatype Response<T> = Success(status: StatusCode, data: T) | Failure(status: StatusCode)

  /** A middleware either calls `next()` or ends the request with a status. */
  datatype Gate = Next | Halt(status: StatusCode)
}
