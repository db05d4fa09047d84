/** The optional value used for PHP's "isset / may be absent" values. */
module Wrappers {

  datatype Option<+T> = None | Some(value: T)
}
