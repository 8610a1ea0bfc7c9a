/** The optional value that stands for JavaScript's `undefined`/`null`/`NaN` and Python's failure paths. */
module Wrappers {
  datatype Option<T> = None | Some(value: T)
}
