/** The optional value used for record fields that may be absent and for
    probe results that may come back empty. */
module Wrappers {

  datatype Option<+T> = None | Some(value: T)
}
