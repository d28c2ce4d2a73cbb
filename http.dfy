/** The HTTP errors that FastAPI's HTTPException carries to the client. */
module Http {

  /** An HTTPException: status code, detail message and extra response headers. */
  datatype HttpException = HttpException(statusCode: int, detail: string, headers: map<string, string>)

  const Unauthorized401 := 401
  const BadRequest400 := 400
  const NotFound404 := 404

  /** The challenge header every 401 of the authentication layer carries
      (the Bearer scheme of RFC 6750, section 3). */
  const BearerChallenge: map<string, string> := map["WWW-Authenticate" := "Bearer"]

  /** A 401 response with the Bearer challenge header. */
  function Unauthorized(detail: string): HttpException
  {
    HttpException(Unauthorized401, detail, BearerChallenge)
  }
}
