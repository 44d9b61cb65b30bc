/** Stock datatypes and the map lookup with Go's zero default. */
module Basics {
  datatype Option<+T> = None | Some(value: T)

  datatype Result<+T, +E> = Ok(value: T) | Err(error: E)

  /** `m[k]` as Go reads it: the zero value when the key is missing. */
  function Get(m: map<string, nat>, k: string): nat {
    if k in m then m[k] else 0
  }

  /** A truth value as a count. */
  function One(b: bool): nat {
    if b then 1 else 0
  }
}
