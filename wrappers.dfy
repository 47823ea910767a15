/** The optional value shared by both halves of the model: Python's `None`,
    JavaScript's `null` and a missing dictionary or storage entry. */
module Wrappers {

  datatype Option<+T> = None | Some(value: T)
}
