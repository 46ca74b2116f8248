/** Failure-carrying datatypes shared by every controller model.
- Option<T>: a JavaScript value that may be `undefined`/`null`.
- Response<T>: the HTTP outcome of a request handler, carrying its status code.
- Outcome<S, T>: a handler that may write to a store returns the store it leaves behind
  together with its response.
 */
module Wrappers {

  datatype Option<+T> = None | Some(value: T) {

    /** Returns the encapsulated value, or `default` when there is none. */
    function GetOr(default: T): T {
      match this
      case Some(v) => v
      case None => default
    }
  }

  /** The response a handler sends: a success with its status code and body, or an
      `ApiError` with its status code (the error message is not modelled). */
  datatype Response<+T> = Ok(status: nat, body: T) | Fail(status: nat)

  /** The store a handler leaves behind and the response it sends. */
  datatype Outcome<S, +T> = Outcome(state: S, reply: Response<T>)
}
