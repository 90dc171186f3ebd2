/** The optional value used where the program uses `undefined` or `null`. */
module Prelude {
  datatype Option<+T> = None | Some(value: T)
}
