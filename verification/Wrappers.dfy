/** The types and small functions shared by the components of the model. */
module Wrappers {
  datatype Option<+T> = None | Some(value: T) {
    function GetOr(default: T): T {
      if Some? then value else default
    }
  }

  datatype Result<+T, +E> = Ok(value: T) | Err(error: E)

  type Bytes = seq<nat>

  function Min(a: nat, b: nat): nat {
    if a <= b then a else b
  }

  ghost function Elements<T>(s: seq<T>): set<T> {
    set x | x in s
  }
}
