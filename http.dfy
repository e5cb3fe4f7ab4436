/**
  The error responses of the service. Every rejection in the handlers and the
  middleware throws an `HTTPException(status, { message })`; an error that no
  handler catches (a database constraint violation) becomes the framework's
  500 response.
 */
module Http {

  datatype HttpError = HttpError(status: int, message: string)

  /** The response for an exception that no handler catches. */
  const InternalServerError: HttpError := HttpError(500, "Internal Server Error")
}
