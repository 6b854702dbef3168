/** The optional value the component keeps for `currentUser` (null when signed out). */
module Wrappers {

  datatype Option<+T> = None | Some(value: T)
}
