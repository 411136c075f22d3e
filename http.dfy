/** What a middleware does with a request, in place of writing the HTTP response: pass it on
    with `next()`, or answer it with a status and a JSON body `{ error, message? }`. */
module Http {

  datatype Option<T> = None | Some(value: T)

  datatype Response = Response(status: nat, error: string, message: Option<string>)

  datatype Outcome = Next | Respond(response: Response)

  /** The 400 answer of both query-string validators. */
  const InvalidQueryFormat := Response(400, "Validation Error", Some("Invalid query parameter format"))

  /** The 400 answer of the resource-id validator. */
  const InvalidIdFormat := Response(400, "Validation Error", Some("Invalid ID format"))
}
