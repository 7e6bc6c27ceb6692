/** A result that may be missing: a null pointer, a search that finds nothing, a call that ends in a panic. */
module Options {
  datatype Option<+T> = None | Some(value: T)
}
