/** JavaScript's `T | null`. */
module Optional {
  datatype Option<T> = None | Some(value: T)
}
