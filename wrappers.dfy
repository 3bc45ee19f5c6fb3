/** Optional values: Java's nullable references and failed parses. */
module Wrappers {

  datatype Option<+T> = None | Some(value: T)
}
