/** An optional value: the null move of the search, the empty square of a board. */
module Wrappers {

  datatype Option<+T> = None | Some(value: T)
}
