/** Option and Result: the nil pointers and `error` returns of the source. */
module Wrappers {

  datatype Option<+T> = None | Some(value: T) {
    function GetOr(default: T): T {
      match this
      case Some(v) => v
      case None => default
    }
  }

  datatype Result<+R> = Ok(value: R) | Err(msg: string) {
    predicate IsFailure() {
      Err?
    }
  }
}
