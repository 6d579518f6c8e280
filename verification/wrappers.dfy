/** The nullable values of the application state (`T | null`). */
module Wrappers {

  datatype Option<+T> = None | Some(value: T)
}
