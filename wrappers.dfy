/** The optional value a fallible filesystem query yields: `Some` on success,
    `None` when the query throws the exception the Java code catches. */
module Wrappers {

  datatype Option<+T> = None | Some(value: T)
}
