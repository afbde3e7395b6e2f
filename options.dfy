/** An optional value: `None` where the Go code has no result (an undecodable byte, a panic). */
module Options {
  datatype Option<T> = None | Some(value: T)
}
