/** Optional values: the model's stand-in for Python's `None`, and for the
    outcome of a foreign call (zlib, json, UTF-8) that may raise. */
module Wrappers {

  datatype Option<+T> = None | Some(value: T)
}
