/** Optional values, and pointers to syntax nodes. */
module Wrappers {

  datatype Option<+T> = None | Some(value: T)

  /** Nodes are addressed by number. */
  datatype Ptr = Null | To(id: nat)
}
