/** The optional-value wrapper shared by the game and the registration form. */
module Wrappers {
  datatype Option<+T> = None | Some(value: T)
}
