/** Failure-carrying return values shared by every module of the model.
    `Option` stands for the source's `T | null` results and `Outcome` for an
    operation that either completes or throws an `Error` with a message. */
module Wrappers {

  datatype Option<T> = None | Some(value: T) {
    function GetOr(default: T): T {
      if Some? then value else default
    }
  }

  datatype Outcome<E> = Pass | Fail(error: E)
}
