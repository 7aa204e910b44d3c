/** Optional values and results, used for JavaScript's `undefined`/`null`/`NaN`
    and for operations that can throw. */
module Wrappers {

  datatype Option<+T> = None | Some(value: T) {
    function GetOr(default: T): T {
      match this
      case Some(v) => v
      case None => default
    }
  }

  datatype Result<+T> = Ok(value: T) | Err(reason: string)
}
