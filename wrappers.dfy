/** Optional values: the model's stand-in for Java's `null` and for a
    collaborator that may fail to produce a result. */
module Wrappers {

  datatype Option<+T> = None | Some(value: T)
}
