/** The optional value used wherever the source works with `null`, `undefined` or a search that can fail. */
module Wrappers {

  datatype Option<T> = None | Some(value: T)

}
