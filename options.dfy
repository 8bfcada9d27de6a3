/** A value that may be missing: JavaScript's `null`/`undefined`, or a remote call that threw. */
module Options {
  datatype Option<+T> = None | Some(value: T)
}
