// Optional values, used wherever the source has null / None / undefined,
// and the outcome of an HTTP handler: a value or an error status with detail.
module Wrappers {
  datatype Option<T> = None | Some(value: T)
  {
    function GetOr(default: T): (r: T)
      ensures this.Some? ==> r == value
      ensures this.None? ==> r == default
    {
      match this
      case None => default
      case Some(v) => v
    }
  }

  datatype Response<T> = Ok(value: T) | Error(status: int, detail: string)
}
