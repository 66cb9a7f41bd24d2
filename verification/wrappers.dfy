/** Where the Go code answers with a nil pointer or an `error`, the model
    answers with one of these. */
module Wrappers {

  /** `None` stands for Go's nil: a URL that did not parse, a fetch that
      returned no page. */
  datatype Option<+T> = None | Some(value: T)

  /** A value, or the error Go returns instead of it. */
  datatype Result<+R, +E> = Success(value: R) | Failure(error: E) {

    /** What `v, _ := f()` keeps: the value, or `default` when `f` failed. */
    function GetOr(default: R): R {
      if Success? then value else default
    }
  }
}
