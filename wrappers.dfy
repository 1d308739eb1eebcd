/** The nullable values of the game: a grid cell holds a card or nothing. */
module Wrappers {
  datatype Option<+T> = None | Some(value: T)
}
