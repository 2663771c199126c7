/** Failure-carrying datatypes shared by the models. */
module Wrappers {
  datatype Option<+T> = None | Some(value: T) {
    function UnwrapOr(default: T): T {
      if this.Some? then this.value else default
    }
  }

  datatype Result<+T, +E> = Ok(value: T) | Err(error: E)
}
