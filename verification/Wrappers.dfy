/** The optional value the source spells `null` or `undefined`. */
module Wrappers {
  datatype Option<+T> = None | Some(value: T)
}
