/** Python's `Optional[T]` and TypeScript's `T | undefined`. */
module Options {

  datatype Option<+T> = None | Some(value: T)

}
