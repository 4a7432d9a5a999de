/** A value that may be missing: a search without a hit, or a call that the source ends
    with an exception. */
module Wrappers {

  datatype Option<+T> = None | Some(value: T)
}
