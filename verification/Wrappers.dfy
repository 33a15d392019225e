/** What several modules of this project share. */
module Wrappers {
  datatype Option<+T> = None | Some(value: T)

  function Max(a: int, b: int): (m: int) {
    if a < b then b else a
  }
}
