/** The "value or nothing" type the game uses where the JavaScript uses `null`. */
module Wrappers {

  datatype Option<+T> = None | Some(value: T)
}
