/** Value wrappers shared by every component of the client model. */
module Common {

  /** A value that may be absent: a TypeScript optional field or `T | null`. */
  datatype Option<+T> = None | Some(value: T)

  /**
   * The outcome of one HTTP GET issued through axios: either the response
   * body, or a rejected promise (network error, non-2xx status, ...).
   */
  datatype Response<+T> = Success(data: T) | Failure
}
