/** A value that may be missing: Python's None, or a key that is not in its dictionary. */
module Wrappers {

  datatype Option<+T> = None | Some(value: T)
}
