/** The optional value used wherever the TypeScript code has `undefined` or `null`. */
module Options {

  datatype Option<+T> = None | Some(value: T)
}
