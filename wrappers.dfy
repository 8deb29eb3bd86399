/** An optional value: stands for JavaScript's `null` / `undefined` alongside a real value. */
module Wrappers {
  datatype Option<+T> = None | Some(value: T)
}
