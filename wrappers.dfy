/** Optional values: the model's stand-in for a Java reference that may be null,
    and for an operation that may throw instead of returning. */
module Wrappers {

  datatype Option<+T> = None | Some(value: T)
}
