/** What a route handler sends back: a JSON body with status 200, or one of the error statuses. */
module Http {
  datatype Response<T> =
    | Json(body: T)   // 200 with the body as JSON
    | BadRequest      // 400
    | NotFound        // 404
    | ServerError     // 500, the handlers' catch-all
}
