/** A value that may be missing: what the source writes as nil, an error, or a second boolean result. */
module Options {

  datatype Option<+T> = None | Some(value: T)
}
