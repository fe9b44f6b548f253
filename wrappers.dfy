/** Option and Result, the failure-carrying values the rest of the model returns. */
module Wrappers {

  /** `None` stands for JavaScript's `undefined`, `null` or `false` where the source uses them as "nothing". */
  datatype Option<+T> = None | Some(value: T) {
    function GetOr(default: T): T {
      match this
      case Some(v) => v
      case None => default
    }
  }

  /** A value, or the error the source throws or rejects with. */
  datatype Result<+T, +E> = Ok(value: T) | Err(error: E)
}
