/** The optional value used for the game's target and for the result of
    reading a number from the entry field. */
module Wrappers {

  /** Python's `None` or a present value. */
  datatype Option<+T> = None | Some(value: T)
}
