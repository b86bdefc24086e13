/** The broker's error taxonomy (queue/errors.go) and the small result types
    shared by the engine, the registry and the HTTP handler. */
module Errors {

  /** The two sentinel errors of the queue package, plus `Other` for any
      error the handler may receive that is neither of them. */
  datatype Err = NoMessage | TooManyItems | Other

  /** A Go `error` result: `Pass` is `nil`. */
  datatype Outcome = Pass | Fail(error: Err)

  datatype Option<+T> = None | Some(value: T)
}
