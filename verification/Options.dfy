/** The optional value that stands for the source's nil pointers and missing map entries. */
module Options {
  datatype Option<+T> = None | Some(value: T)
}
