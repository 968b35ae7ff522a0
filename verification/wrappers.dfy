/** Absence as data: every lookup of the store answers `None` instead of failing. */
module Wrappers {

  datatype Option<+T> = None | Some(value: T)
}
