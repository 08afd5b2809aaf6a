/** Optional values and fallible results shared by every module of the model. */
module Wrappers {

  /** A value that may be absent: an omitted JSON field or query-string key. */
  datatype Option<+T> = None | Some(value: T) {

    /** The carried value, or `default` when absent. */
    function GetOr(default: T): T {
      match this
      case Some(v) => v
      case None => default
    }
  }

  /** The outcome of a call into a collaborator that may throw (a store, a remote service). */
  datatype Result<+T, +E> = Ok(value: T) | Fail(error: E)
}

/** What an HTTP handler sends back: a status code with a JSON payload or a JSON `{ error }` body. */
module Http {

  datatype Reply<+T> = Payload(status: nat, value: T) | ErrorReply(status: nat, message: string) {

    /** A 2xx answer, the only kind axios resolves rather than throws on. */
    predicate IsSuccess() {
      Payload? && 200 <= status < 300
    }
  }
}
