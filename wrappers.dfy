/** The optional value used where the scripts return or hold `None`. */
module Wrappers {

  datatype Option<+T> = None | Some(value: T)
}
