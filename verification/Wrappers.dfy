/** The optional value and the success-or-error value shared by the models. */
module Wrappers {

  datatype Option<+T> = None | Some(value: T)

  // A missing text reads as an empty one.
  function OrEmpty(s: Option<string>): string {
    if s.Some? then s.value else ""
  }

  datatype Result<+T, +E> = Ok(value: T) | Err(error: E)
}
