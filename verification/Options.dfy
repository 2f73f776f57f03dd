/** The optional values that the TypeScript code writes as null or undefined. */
module Options {
  datatype Option<+T> = None | Some(value: T)
}
