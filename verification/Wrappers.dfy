/** The optional value (a pointer that may be null, a lookup that may find nothing) and the result that may be an exception. */
module Wrappers {
  datatype Option<+T> = None | Some(value: T) {

    function GetOr(default: T): T
    {
      if Some? then value else default
    }
  }

  datatype Result<+T> = Success(value: T) | Failure(error: string)
}
