/** A value that may be absent: a JSON field that was not sent, a query
    parameter that is missing, or an identity token that did not verify. */
module Wrappers {

  datatype Option<+T> = None | Some(value: T)
}
