/** The optional-value type used where the game reads a slot that may be
    empty (`undefined` in the grid array) or returns nothing. */
module Wrappers {

  datatype Option<+T> = None | Some(value: T)
}
