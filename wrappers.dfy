/** The optional value used for lookups that may find nothing (`null` in the browser APIs). */
module Wrappers {

  datatype Option<+T> = None | Some(value: T)
}
