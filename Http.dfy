/**
  The outcome of one route handler: the HTTP status it answers with and the
  JSON body it sends.  Error bodies are `{ message }`; the gallery's 404 also
  echoes the requested user id.
 */
module Http {

  import opened Wrappers

  datatype Response<T> =
    | Ok(body: T)                                      // 200
    | Created(body: T)                                 // 201
    | BadRequest(message: string)                      // 400
    | Unauthorized(message: string)                    // 401
    | NotFound(message: string, userId: Option<string>) // 404
    | ServerError(message: string)                     // 500

}
