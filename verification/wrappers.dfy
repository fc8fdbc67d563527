/** Optional values: a node without a parent, a hint sprite without a door,
    a camera that is not known yet. */
module Wrappers {

  datatype Option<+T> = None | Some(value: T)

}
