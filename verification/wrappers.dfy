/** A value that may be absent: the model's rendering of `undefined` / "not found". */
module Wrappers {
  datatype Option<+T> = None | Some(value: T)
}
