/** The optional value used for the token table's regular-expression override
    and for lookups that may find nothing. */
module Wrappers {

  datatype Option<+T> = None | Some(value: T)
}
