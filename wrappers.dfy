/** The optional value used for the phrase filter and for search results. */
module Wrappers {
  datatype Option<+T> = None | Some(value: T)
}
