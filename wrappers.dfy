/** Option and Result: absent values (`undefined`/`null`) and thrown errors of the application. */
module Wrappers {

  /** A value that may be absent; `None` stands for `undefined` or `null`. */
  datatype Option<+T> = None | Some(value: T) {

    /** The value, or `default` when absent (TypeScript's `?? default`). */
    function GetOr(default: T): T {
      match this
      case Some(v) => v
      case None => default
    }
  }

  /** The outcome of an operation that either returns a value or throws an error with a message. */
  datatype Result<+T> = Ok(value: T) | Err(error: string)
}

/** The `{ data, error }` pair that every backend read returns. */
module Backend {
  import opened Wrappers

  datatype Reply<+T> = Reply(data: Option<T>, error: Option<string>)

  /** Rows of a list read after its error has been checked: absent data is the empty list (`data || []`). */
  function RowsOf<T>(r: Reply<seq<T>>): seq<T> {
    r.data.GetOr([])
  }
}
