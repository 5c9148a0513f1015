/** Result and option shapes shared by every other module. */
module Wrappers {

  datatype Option<+T> = None | Some(value: T) {
    function GetOr(default: T): T {
      if Some? then value else default
    }
  }

  /** A computation that either yields a value or raises. */
  datatype Result<+T> = Ok(value: T) | Raised
}
