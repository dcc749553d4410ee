/** The optional value used wherever the source may yield `undefined`. */
module Options {

  datatype Option<T> = None | Some(value: T)
}
