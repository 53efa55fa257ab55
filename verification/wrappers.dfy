/** The optional value used wherever the program has `null`, an absent
    request field, or a query that may find nothing. */
module Wrappers {

  datatype Option<+T> = None | Some(value: T)
}
