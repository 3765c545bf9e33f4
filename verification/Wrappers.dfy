/** Types that several modules need. */
module Wrappers {

  datatype Option<T> = None | Some(value: T)
}
