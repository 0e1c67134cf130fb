/** The optional value used for fields the schema declares with `?` and for lookups that may miss. */
module Wrappers {

  datatype Option<+T> = None | Some(value: T)
}
