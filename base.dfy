/** Small value types shared by the server and the client models. */
module Base {

  /** A value that may be absent: Python's None, JavaScript's null or undefined. */
  datatype Option<T> = None | Some(value: T) {
    function GetOr(default: T): T {
      if Some? then value else default
    }
  }

  /** Why a request handler did not produce its normal reply. */
  datatype Failure =
    | HttpError(status: int, detail: string) // an HTTPException the handler raises itself
    | Internal                                // an exception the handler does not turn into a
                                              // chosen reply: the framework answers 500

  /** What an HTTP handler answers: its reply body, or a failure. */
  datatype Response<T> = Ok(value: T) | Fail(failure: Failure)

  /** JavaScript truthiness of a stored string: present and not empty. */
  predicate Truthy(s: Option<string>) {
    s.Some? && s.value != ""
  }

  const Unauthorized := 401
  const BadRequest := 400
  const Forbidden := 403
  const NotFound := 404
}
