/** Small helper datatype shared by the page-controller modules. */
module Wrappers {

  /** A value that may be absent: JavaScript's `null`/`undefined` where the
      page reads an attribute or a timer handle that may not be there. */
  datatype Option<+T> = None | Some(value: T)
}
