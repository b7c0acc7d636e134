/** The optional value used for state that may be absent (a TypeScript `T | undefined`). */
module Optional {

  datatype Option<+T> = None | Some(value: T)
}
