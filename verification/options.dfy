/** An optional value, for absent fields and for "no outcome". */
module Options {
  datatype Option<T> = None | Some(value: T)
}
