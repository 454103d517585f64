/** The optional value the model uses for Python's `Optional[...]` and for
    lookups that may find nothing. */
module Wrappers {

  datatype Option<+T> = None | Some(value: T)
}
