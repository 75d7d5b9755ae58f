/** The absent-result marker: `element` answers `undefined` when no record matches. */
module Wrappers {

  datatype Option<+T> = None | Some(value: T)
}
