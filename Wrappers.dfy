/** Option, standing for the host API's `T | null` results. */
module Wrappers {

  datatype Option<+T> = None | Some(value: T)
}
