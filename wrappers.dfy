/** The optional value used for a sample of the probe bus that may not resolve to an integer. */
module Wrappers {

  datatype Option<+T> = None | Some(value: T)
}
