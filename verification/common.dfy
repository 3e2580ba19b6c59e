/** Values shared by every part of the model: optional values and the replies of
    the request handlers. */
module Common {

  /** A value that may be missing (JavaScript `null`/`undefined`). */
  datatype Option<+T> = None | Some(value: T)

  /** What a request handler sends back: a success status with a body, or an
      error status with the message of the JSON error body. */
  datatype Reply<+T> = Ok(code: int, body: T) | Fail(code: int, message: string)

  const HttpOk := 200
  const HttpCreated := 201
  const HttpBadRequest := 400
  const HttpUnauthorized := 401
  const HttpForbidden := 403
  const HttpNotFound := 404
  const HttpServerError := 500

  function Max(a: int, b: int): int { if a < b then b else a }
  function Min(a: int, b: int): int { if a < b then a else b }
}
